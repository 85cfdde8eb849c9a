/**
 Frames and messages as byte strings, and the parser's scan over a frame.

 A frame is a 20-byte header and a body; the header counts the messages.  A
 message begins with its own length (without these two bytes), the length of its
 header and a version.  The scan trusts the length fields as it goes and checks
 the sum only at the last message, so on a frame that it will reject it may look
 at memory beyond the received bytes; those bytes are arbitrary here.
 */
module FrameFormat {
  import opened Bytes

  const FRAME_HEADER := 20
  const MIN_MESSAGE := 30

  // ---------- Independent definition of a well-formed frame ----------

  ghost predicate IsMessage(m: Bytes) {
    && |m| >= 4
    && |m| == 2 + FromBigEndian(m[0..2])
    && (m[2] == 32 || m[2] == 28)
    && m[3] == 1
    && |m| >= 2 + m[2]
  }

  /** Long enough for one message without payload, a header of 18 bytes, and a message count that is not zero. */
  predicate HasHeader(frame: Bytes) {
    |frame| >= 36 && frame[1] == 18 && (frame[18] != 0 || frame[19] != 0)
  }

  function MessageType(frame: Bytes): nat
    requires |frame| >= FRAME_HEADER
  {
    frame[0]
  }

  function SessionId(frame: Bytes): nat
    requires |frame| >= FRAME_HEADER
  {
    FromLittleEndian(frame[2..10])
  }

  function SequenceNumber(frame: Bytes): nat
    requires |frame| >= FRAME_HEADER
  {
    FromBigEndian(frame[10..18])
  }

  function MessageCount(frame: Bytes): nat
    requires |frame| >= FRAME_HEADER
  {
    FromBigEndian(frame[18..20])
  }

  /** The messages tile the body of the frame exactly, and are as many as the header says. */
  ghost predicate Tiles(frame: Bytes, msgs: seq<Bytes>)
    requires |frame| >= FRAME_HEADER
  {
    && |msgs| == MessageCount(frame) > 0
    && (forall m :: m in msgs ==> IsMessage(m))
    && Flatten(msgs) == frame[FRAME_HEADER..]
  }

  // ---------- The scan ----------

  /** What memory holds, by distance from the start of the receive buffer. */
  type Memory = nat -> Byte

  /** The received bytes, and whatever memory holds after them. */
  datatype View = View(frame: Bytes, beyond: Memory) {
    function At(i: nat): Byte {
      if i < |frame| then frame[i] else beyond(i)
    }

    function Cut(i: nat, n: nat): (b: Bytes)
      ensures |b| == n
      ensures forall k :: 0 <= k < n ==> b[k] == At(i + k)
    {
      seq<Byte>(n, k requires 0 <= k < n => At(i + k))
    }

    /** Bytes of the message at i, by its own length field. */
    function SizeAt(i: nat): (n: nat)
      ensures n >= 2
    {
      2 + 256 * At(i) + At(i + 1)
    }

    /** The checks on one message: size against its header and against the whole frame, header, version. */
    predicate BadAt(i: nat) {
      || SizeAt(i) < 2 + At(i + 2)
      || SizeAt(i) + FRAME_HEADER > |frame|
      || !(At(i + 2) == 32 || At(i + 2) == 28)
      || At(i + 3) != 1
    }
  }

  /** The messages the loop takes from the frame, the last one included, and whether it keeps them. */
  datatype Scanned = Scanned(msgs: seq<Bytes>, ok: bool)

  function Scan(v: View, left: nat, at: nat, expected: nat): Scanned
    requires left > 0
    decreases left
  {
    var msg := v.Cut(at, v.SizeAt(at));
    var sum := expected + |msg|;
    if v.BadAt(at) then Scanned([msg], false)
    else if left == 1 then Scanned([msg], sum + FRAME_HEADER == |v.frame|)
    else
      var rest := Scan(v, left - 1, at + |msg|, sum);
      Scanned([msg] + rest.msgs, rest.ok)
  }

  lemma {:induction false} ScanIsNonempty(v: View, left: nat, at: nat, expected: nat)
    requires left > 0
    ensures forall m :: m in Scan(v, left, at, expected).msgs ==> m != []
    decreases left
  {
    if left > 1 {
      ScanIsNonempty(v, left - 1, at + v.SizeAt(at), expected + v.SizeAt(at));
    }
  }

  lemma CutConcat(v: View, i: nat, n: nat, k: nat)
    ensures v.Cut(i, n) + v.Cut(i + n, k) == v.Cut(i, n + k)
  {}

  lemma CutIsSlice(v: View, i: nat, n: nat)
    requires i + n <= |v.frame|
    ensures v.Cut(i, n) == v.frame[i..i + n]
  {}

  lemma TwoBytes(b: Bytes)
    requires |b| == 2
    ensures FromBigEndian(b) == 256 * (b[0] as int) + b[1]
  {
    assert FromBigEndian(b[..1][..0]) == 0;
    assert FromBigEndian(b[..1]) == b[0];
  }

  lemma GoodIsMessage(v: View, i: nat)
    requires !v.BadAt(i)
    ensures IsMessage(v.Cut(i, v.SizeAt(i)))
  {
    var m := v.Cut(i, v.SizeAt(i));
    TwoBytes(m[0..2]);
  }

  /** When the scan keeps its messages, they tile what it has run over, and the sum is right. */
  lemma {:induction false} ScanTiles(v: View, left: nat, at: nat, expected: nat)
    requires left > 0 && Scan(v, left, at, expected).ok
    ensures var msgs := Scan(v, left, at, expected).msgs;
            && |msgs| == left
            && (forall m :: m in msgs ==> IsMessage(m))
            && Flatten(msgs) == v.Cut(at, |Flatten(msgs)|)
            && expected + |Flatten(msgs)| + FRAME_HEADER == |v.frame|
    decreases left
  {
    var n := v.SizeAt(at);
    var msg := v.Cut(at, n);
    GoodIsMessage(v, at);
    if left == 1 {
      FlattenAppend([], msg);
      assert [msg] == [] + [msg];
    } else {
      var rest := Scan(v, left - 1, at + n, expected + n).msgs;
      ScanTiles(v, left - 1, at + n, expected + n);
      assert ([msg] + rest)[1..] == rest;
      CutConcat(v, at, n, |Flatten(rest)|);
    }
  }

  lemma {:induction false} FlattenLength(msgs: seq<Bytes>)
    requires forall m :: m in msgs ==> IsMessage(m)
    ensures |Flatten(msgs)| >= MIN_MESSAGE * |msgs|
  {
    if msgs != [] {
      assert IsMessage(msgs[0]);
      FlattenLength(msgs[1..]);
    }
  }

  /** A tiled remainder is scanned into its tiles, whatever lies beyond the frame. */
  lemma {:induction false} TiledIsScanned(v: View, msgs: seq<Bytes>, at: nat)
    requires msgs != [] && FRAME_HEADER <= at <= |v.frame|
    requires forall m :: m in msgs ==> IsMessage(m)
    requires Flatten(msgs) == v.frame[at..]
    ensures Scan(v, |msgs|, at, at - FRAME_HEADER) == Scanned(msgs, true)
    decreases |msgs|
  {
    hide IsMessage, FromBigEndian, View.BadAt, View.SizeAt, View.Cut;
    var m, rest := msgs[0], msgs[1..];
    MessageAt(v, m, at, Flatten(rest));
    if rest == [] {
      assert msgs == [m];
    } else {
      assert Flatten(rest) == v.frame[at + |m|..];
      TiledIsScanned(v, rest, at + |m|);
      assert msgs == [m] + rest;
    }
  }

  lemma MessageAt(v: View, m: Bytes, at: nat, rest: Bytes)
    requires IsMessage(m) && FRAME_HEADER <= at <= |v.frame|
    requires m + rest == v.frame[at..]
    ensures v.SizeAt(at) == |m| && v.Cut(at, |m|) == m && !v.BadAt(at)
    ensures rest == v.frame[at + |m|..] && at + |m| <= |v.frame|
  {
    assert forall k :: 0 <= k < |m| ==> v.frame[at + k] == (m + rest)[k];
    TwoBytes(m[0..2]);
    assert rest == (m + rest)[|m|..];
  }

  /** The scan of the whole body. */
  function ScanFrame(v: View): Scanned
    requires |v.frame| >= FRAME_HEADER && MessageCount(v.frame) > 0
  {
    Scan(v, MessageCount(v.frame), FRAME_HEADER, 0)
  }

  /**
   The loop keeps exactly the frames whose body can be tiled by as many messages
   as the header counts, and what it takes is the tiling.
   */
  lemma AcceptsExactlyTiled(v: View)
    requires |v.frame| >= FRAME_HEADER && MessageCount(v.frame) > 0
    ensures ScanFrame(v).ok <==> exists msgs :: Tiles(v.frame, msgs)
    ensures ScanFrame(v).ok ==> Tiles(v.frame, ScanFrame(v).msgs)
  {
    if ScanFrame(v).ok {
      ScanTiles(v, MessageCount(v.frame), FRAME_HEADER, 0);
      CutIsSlice(v, FRAME_HEADER, |v.frame| - FRAME_HEADER);
      assert Tiles(v.frame, ScanFrame(v).msgs);
    }
    forall msgs | Tiles(v.frame, msgs)
      ensures ScanFrame(v).ok
    {
      TiledIsScanned(v, msgs, FRAME_HEADER);
    }
  }

  /** A frame has at most one tiling. */
  lemma TilingIsUnique(frame: Bytes, m1: seq<Bytes>, m2: seq<Bytes>)
    requires |frame| >= FRAME_HEADER && Tiles(frame, m1) && Tiles(frame, m2)
    ensures m1 == m2
  {
    var v := View(frame, _ => 0);
    TiledIsScanned(v, m1, FRAME_HEADER);
    TiledIsScanned(v, m2, FRAME_HEADER);
  }

  /** Neither the decision nor the kept messages depend on the memory beyond the frame. */
  lemma BeyondDoesNotMatter(v: View, w: View)
    requires v.frame == w.frame && |v.frame| >= FRAME_HEADER && MessageCount(v.frame) > 0
    ensures ScanFrame(v).ok == ScanFrame(w).ok
    ensures ScanFrame(v).ok ==> ScanFrame(v).msgs == ScanFrame(w).msgs
  {
    AcceptsExactlyTiled(v);
    AcceptsExactlyTiled(w);
    if ScanFrame(v).ok {
      TilingIsUnique(v.frame, ScanFrame(v).msgs, ScanFrame(w).msgs);
    }
  }

  // ---------- How far the scan reads ----------

  /**
   The loop reads this byte of memory, when no write is refused: from each message
   that it comes to, the four bytes that it checks and the bytes that it writes.
   */
  predicate Touches(v: View, left: nat, at: nat, a: nat)
    requires left > 0
    decreases left
  {
    || at <= a < at + 4
    || at <= a < at + v.SizeAt(at)
    || (!v.BadAt(at) && left > 1 && Touches(v, left - 1, at + v.SizeAt(at), a))
  }

  /** The bytes of these messages, and of the last one at least the four that are checked. */
  function Stretch(msgs: seq<Bytes>): nat {
    if msgs == [] then 0
    else if |msgs| == 1 then if |msgs[0]| < 4 then 4 else |msgs[0]|
    else |msgs[0]| + Stretch(msgs[1..])
  }

  lemma {:induction false} ScanReads(v: View, left: nat, at: nat, expected: nat, a: nat)
    requires left > 0
    ensures Touches(v, left, at, a) <==> at <= a < at + Stretch(Scan(v, left, at, expected).msgs)
    decreases left
  {
    hide View.Cut;
    if !v.BadAt(at) && left > 1 {
      var n := v.SizeAt(at);
      var rest := Scan(v, left - 1, at + n, expected + n).msgs;
      ScanReads(v, left - 1, at + n, expected + n, a);
      assert ([v.Cut(at, n)] + rest)[1..] == rest;
    }
  }

  /** Every byte that the loop reads is in the receive buffer of its stage. */
  ghost predicate StaysInside(v: View)
    requires |v.frame| >= FRAME_HEADER && MessageCount(v.frame) > 0
  {
    forall a: nat :: Touches(v, MessageCount(v.frame), FRAME_HEADER, a) ==> a < 16384
  }

  /**
   The loop reads nothing outside the receive buffer if and only if the messages that
   it takes end within it; which it finds out only afterwards, if at all.
   */
  lemma StaysInsideIff(v: View)
    requires |v.frame| >= FRAME_HEADER && MessageCount(v.frame) > 0
    ensures StaysInside(v) <==> FRAME_HEADER + Stretch(ScanFrame(v).msgs) <= 16384
  {
    hide MessageCount, Scan, Touches;
    var end := FRAME_HEADER + Stretch(ScanFrame(v).msgs);
    forall a: nat
      ensures Touches(v, MessageCount(v.frame), FRAME_HEADER, a) <==> FRAME_HEADER <= a < end
    {
      ScanReads(v, MessageCount(v.frame), FRAME_HEADER, 0, a);
    }
    ScanStretches(v);
    assert Touches(v, MessageCount(v.frame), FRAME_HEADER, end - 1);
  }

  lemma ScanStretches(v: View)
    requires |v.frame| >= FRAME_HEADER && MessageCount(v.frame) > 0
    ensures Stretch(ScanFrame(v).msgs) > 0
  {
    hide MessageCount;
    ScanIsNonempty(v, MessageCount(v.frame), FRAME_HEADER, 0);
    assert ScanFrame(v).msgs[0] in ScanFrame(v).msgs;
  }

  /** From a frame that it keeps, the loop reads exactly the body. */
  lemma KeptFrameIsReadOnce(v: View, a: nat)
    requires |v.frame| >= FRAME_HEADER && MessageCount(v.frame) > 0 && ScanFrame(v).ok
    ensures Touches(v, MessageCount(v.frame), FRAME_HEADER, a) <==> FRAME_HEADER <= a < |v.frame|
    ensures |v.frame| <= 16384 ==> StaysInside(v)
  {
    hide MessageCount, Touches, IsMessage;
    var msgs := ScanFrame(v).msgs;
    AcceptsExactlyTiled(v);
    StretchOfMessages(msgs);
    StaysInsideIff(v);
    ScanReads(v, MessageCount(v.frame), FRAME_HEADER, 0, a);
  }

  lemma {:induction false} StretchOfMessages(msgs: seq<Bytes>)
    requires forall m :: m in msgs ==> IsMessage(m)
    ensures Stretch(msgs) == |Flatten(msgs)|
  {
    if |msgs| > 1 {
      StretchOfMessages(msgs[1..]);
    } else if |msgs| == 1 {
      assert IsMessage(msgs[0]);
      assert msgs[1..] == [];
    }
  }

  /** Messages are left to take where the frame ends. */
  lemma {:induction false} ReadsOn(v: View, msgs: seq<Bytes>, left: nat, at: nat, a: nat)
    requires FRAME_HEADER <= at <= |v.frame| && left > |msgs|
    requires forall m :: m in msgs ==> IsMessage(m)
    requires Flatten(msgs) == v.frame[at..]
    requires |v.frame| <= a < |v.frame| + v.SizeAt(|v.frame|)
    ensures Touches(v, left, at, a)
    decreases |msgs|
  {
    hide IsMessage, View.BadAt, View.SizeAt, View.Cut;
    if msgs != [] {
      MessageAt(v, msgs[0], at, Flatten(msgs[1..]));
      ReadsOn(v, msgs[1..], left - 1, at + |msgs[0]|, a);
    }
  }

  /**
   Frames for which it does read outside: whole messages, but fewer than the header
   counts, and a length behind the frame that leads out of the buffer.
   */
  lemma CountTooHighStrays(v: View, msgs: seq<Bytes>)
    requires |v.frame| >= FRAME_HEADER && |msgs| < MessageCount(v.frame)
    requires forall m :: m in msgs ==> IsMessage(m)
    requires Flatten(msgs) == v.frame[FRAME_HEADER..]
    requires |v.frame| + v.SizeAt(|v.frame|) > 16384 >= |v.frame|
    ensures !StaysInside(v)
  {
    hide IsMessage, View.SizeAt, View.BadAt, MessageCount;
    var a := |v.frame| + v.SizeAt(|v.frame|) - 1;
    ReadsOn(v, msgs, MessageCount(v.frame), FRAME_HEADER, a);
  }
}
