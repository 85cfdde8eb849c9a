/**
 The parser as functions on values: the session state machine and what one frame
 does to the shared flags and to ring 1.
 */
module ParserModel {
  import opened Bytes
  import opened RingQueue
  import opened FrameFormat
  import opened CommonData
  import Reassembly

  const SHUTDOWN_MESSAGE := 1
  const MESSAGE_FRAME_HEADER := 18
  const MIN_FRAME := 36

  datatype Phase = Startup | Session | Shutdown

  datatype ParserState = ParserState(phase: Phase, sessionId: nat, previous: nat)

  // ---------- The session state machine ----------

  datatype Updated = Updated(parser: ParserState, common: Common, discard: bool)

  function UpdateParserState(p: ParserState, c: Common, messageType: nat, sessionId: nat, drained: bool): Updated {
    match p.phase
    case Startup =>
      if messageType != SHUTDOWN_MESSAGE then
        Updated(ParserState(Session, sessionId, p.sessionId),
                c.(shutdownReceived := false, sessionId := sessionId, sessionIdReceived := true), false)
      else
        Updated(p, c, false)
    case Session =>
      if sessionId != p.sessionId then Updated(p, c, !c.dontFilterSourceId)
      else if messageType == SHUTDOWN_MESSAGE then Updated(p.(phase := Shutdown), c, false)
      else Updated(p, c, false)
    case Shutdown =>
      if drained then
        Updated(ParserState(Startup, 0, 0), c.(shutdownReceived := true, sessionIdReceived := false), false)
      else
        Updated(p, c, false)
  }

  /** What the parser and the shared flags agree on. */
  predicate SessionInv(p: ParserState, c: Common) {
    && (p.phase != Startup <==> c.sessionIdReceived)
    && (p.phase != Startup ==> p.sessionId == c.sessionId && !c.shutdownReceived)
  }

  datatype Tag = None | Of(session: nat)

  /** The session that is open, if any. */
  function OpenSession(p: ParserState): Tag {
    if p.phase == Startup then None else Of(p.sessionId)
  }

  /**
   A frame that opens or matches a session leaves that session open, and one of type
   1 opens none but shuts down the session that it matches; an open session
   is left exactly in Shutdown with the ring drained, whatever frame comes; and with
   the filter on only frames of the open session pass in phase Session.
   */
  lemma UpdateKeepsSession(p: ParserState, c: Common, messageType: nat, sessionId: nat, drained: bool)
    requires SessionInv(p, c)
    ensures var u := UpdateParserState(p, c, messageType, sessionId, drained);
            && SessionInv(u.parser, u.common)
            && ((p.phase == Startup && messageType != SHUTDOWN_MESSAGE) ||
                (p.phase == Session && sessionId == p.sessionId) ==>
                  OpenSession(u.parser) == Of(sessionId) && !u.discard)
            && (p.phase == Startup && messageType == 1 ==> u.parser == p && u.common == c)
            && (u.parser.phase == Shutdown <==>
                  || (p.phase == Shutdown && !drained)
                  || (p.phase == Session && messageType == 1 && sessionId == p.sessionId))
            && (p.phase != Startup ==>
                  OpenSession(u.parser) == if p.phase == Shutdown && drained then None else Of(p.sessionId))
            && (u.common.sessionId != c.sessionId ==> p.phase == Startup)
            && (p.phase == Session && !c.dontFilterSourceId && !u.discard ==> sessionId == p.sessionId)
  {}

  // ---------- One frame ----------

  /** Spinning: a write was refused, and the retry loop holds the only thread that could make room. */
  datatype Verdict = Ignored | Rejected | Accepted(msgs: seq<Bytes>) | Spinning

  datatype Outcome = Outcome(parser: ParserState, common: Common, ring: Ring, verdict: Verdict)

  function Drained(ring: Ring): bool {
    ring.stored == 0 || ring.queue == []
  }

  predicate HeaderOk(frame: Bytes) {
    && |frame| >= MIN_FRAME
    && frame[1] == MESSAGE_FRAME_HEADER
    && MessageCount(frame) > 0
  }

  function UpdateFor(p: ParserState, c: Common, ring: Ring, frame: Bytes): Updated
    requires HeaderOk(frame)
  {
    UpdateParserState(p, c, MessageType(frame), SessionId(frame), Drained(ring))
  }

  function ProcessFrame(p: ParserState, c: Common, ring: Ring, v: View): Outcome
    requires ring.Valid()
  {
    if |v.frame| < MIN_FRAME then Outcome(p, c, ring, Ignored)
    else if !HeaderOk(v.frame) then Outcome(p, c, ring, Rejected)
    else
      var u := UpdateFor(p, c, ring, v.frame);
      if u.discard then Outcome(u.parser, u.common, ring, Rejected)
      else
        var s := ScanFrame(v);
        if !AllAccepted(ring, s.msgs) then Outcome(u.parser, u.common, ring, Spinning)
        else if !s.ok then Outcome(u.parser, u.common, ring, Rejected)
        else Outcome(u.parser, u.common.(sequenceNumber := SequenceNumber(v.frame)),
                     WriteAll(ring, s.msgs), Accepted(s.msgs))
  }

  lemma HeaderOkCounts(frame: Bytes)
    requires HeaderOk(frame)
    ensures |frame| >= FRAME_HEADER && MessageCount(frame) > 0
  {}

  /**
   A frame is taken whole or not at all: ring 1's queue is unchanged, or it grows
   by exactly the tiling of the frame's body, in order.
   */
  lemma FrameIsAtomic(p: ParserState, c: Common, ring: Ring, v: View)
    requires ring.Valid()
    ensures var o := ProcessFrame(p, c, ring, v);
            && o.ring.Valid()
            && (match o.verdict
                case Accepted(msgs) =>
                  && HeaderOk(v.frame)
                  && Tiles(v.frame, msgs)
                  && o.ring.queue == ring.queue + msgs
                  && o.common.sequenceNumber == SequenceNumber(v.frame)
                case _ => o.ring == ring && o.common.sequenceNumber == c.sequenceNumber)
  {
    hide Tiles, ScanFrame, AllAccepted, WriteAll, Ring.Valid, SequenceNumber, MessageCount;
    if HeaderOk(v.frame) {
      HeaderOkCounts(v.frame);
      AcceptsExactlyTiled(v);
      if AllAccepted(ring, ScanFrame(v).msgs) {
        WriteAllAppends(ring, ScanFrame(v).msgs);
      }
    }
  }

  lemma HeaderIff(frame: Bytes)
    ensures HeaderOk(frame) <==> HasHeader(frame)
  {
    if |frame| >= FRAME_HEADER {
      TwoBytes(frame[18..20]);
    }
  }

  /**
   What a frame does to the session, and to the flags, is settled by its header: two
   frames with the same first 20 bytes do the same, whether their bodies are taken or
   rejected.  Only the sequence number tells them apart.
   */
  lemma BodyDoesNotMatter(p: ParserState, c: Common, ring: Ring, v: View, w: View)
    requires ring.Valid() && HasHeader(v.frame) && HasHeader(w.frame) && v.frame[..20] == w.frame[..20]
    requires ProcessFrame(p, c, ring, v).verdict != Spinning && ProcessFrame(p, c, ring, w).verdict != Spinning
    ensures var o, u := ProcessFrame(p, c, ring, v), ProcessFrame(p, c, ring, w);
            && o.parser == u.parser
            && o.common.(sequenceNumber := 0) == u.common.(sequenceNumber := 0)
  {
    hide Ring.Valid, AllAccepted, WriteAll, ScanFrame, FromLittleEndian, FromBigEndian;
    HeaderIff(v.frame);
    HeaderIff(w.frame);
    assert v.frame[0] == v.frame[..20][0] && v.frame[2..10] == v.frame[..20][2..10];
    assert w.frame[0] == w.frame[..20][0] && w.frame[2..10] == w.frame[..20][2..10];
  }

  /** Short of spinning, a frame is accepted exactly when it passes the session check and can be tiled. */
  lemma AcceptedIff(p: ParserState, c: Common, ring: Ring, v: View)
    requires ring.Valid() && ProcessFrame(p, c, ring, v).verdict != Spinning
    ensures ProcessFrame(p, c, ring, v).verdict.Accepted? <==>
            && HasHeader(v.frame)
            && (p.phase == Session && SessionId(v.frame) != p.sessionId ==> c.dontFilterSourceId)
            && exists msgs :: Tiles(v.frame, msgs)
  {
    HeaderIff(v.frame);
    if HeaderOk(v.frame) {
      AcceptsExactlyTiled(v);
    }
  }

  // ---------- When the parser cannot spin ----------

  /** The loop ends, for any frame, exactly when the layout of the messages it takes fits into ring 1. */
  lemma SpinsIff(p: ParserState, c: Common, ring: Ring, v: View)
    requires ring.Valid() && HeaderOk(v.frame) && !UpdateFor(p, c, ring, v.frame).discard
    ensures ProcessFrame(p, c, ring, v).verdict == Spinning <==>
            Span(ring.size, ring.writeIndex, ScanFrame(v).msgs) > ring.Capacity()
  {
    ScanIsNonempty(v, MessageCount(v.frame), FRAME_HEADER, 0);
    AllAcceptedIff(ring, ScanFrame(v).msgs);
  }

  /** The session check lets the frame through. */
  predicate Passes(p: ParserState, c: Common, frame: Bytes) {
    |frame| >= FRAME_HEADER && (p.phase == Session && SessionId(frame) != p.sessionId ==> c.dontFilterSourceId)
  }

  lemma PassesIff(p: ParserState, c: Common, ring: Ring, frame: Bytes)
    requires HeaderOk(frame)
    ensures Passes(p, c, frame) <==> !UpdateFor(p, c, ring, frame).discard
  {}

  /**
   When the parser's gate protects it from a frame, well-formed or not: behind the
   gate no ring that any run reaches makes it spin, if and only if the messages
   that the loop takes from the frame have a worst layout of at most 16384 bytes.
   */
  lemma GateIsSafeIff(size: nat, p: ParserState, c: Common, v: View)
    requires IsSize(size) && size >= PUSHBACK
    requires HeaderOk(v.frame) && Passes(p, c, v.frame)
    ensures (forall ops: seq<Op> :: Run(size, ops).Capacity() >= PUSHBACK ==>
               ProcessFrame(p, c, Run(size, ops), v).verdict != Spinning)
            <==> WorstLayout(ScanFrame(v).msgs) <= PUSHBACK
  {
    hide Ring.Valid, AllAccepted, WriteAll, Scan, Run, WorstLayout, Passes, MessageCount, UpdateFor;
    HeaderOkCounts(v.frame);
    ScanIsNonempty(v, MessageCount(v.frame), FRAME_HEADER, 0);
    AlwaysAcceptedIff(size, ScanFrame(v).msgs, PUSHBACK);
    forall ops: seq<Op>
      ensures ProcessFrame(p, c, Run(size, ops), v).verdict == Spinning <==>
              !AllAccepted(Run(size, ops), ScanFrame(v).msgs)
    {
      PassesIff(p, c, Run(size, ops), v.frame);
    }
  }

  /** The largest body whose messages, however it is cut, have a worst layout within the gate. */
  const SAFE_BODY := 7680

  /** The largest body that a packet can carry. */
  const JUMBO_BODY := Reassembly.JUMBO_SIZE - FRAME_HEADER

  lemma FootprintOfMessage(m: Bytes)
    requires |m| >= MIN_MESSAGE
    ensures 15 * Footprint(m) <= 32 * |m|
    ensures 15 * (2 * Footprint(m) - LINE) <= 32 * |m| + 928
  {}

  lemma {:induction false} FootprintOfMessages(msgs: seq<Bytes>)
    requires forall m :: m in msgs ==> |m| >= MIN_MESSAGE
    ensures 15 * FootprintSum(msgs) <= 32 * |Flatten(msgs)|
    ensures msgs != [] ==>
      15 * (FootprintSum(msgs) + FootprintMax(msgs) - LINE) <= 32 * |Flatten(msgs)| + 928
    ensures msgs == [] ==> FootprintMax(msgs) == 0
  {
    hide Footprint;
    if msgs != [] {
      var sum, max, length := FootprintSum(msgs[1..]), FootprintMax(msgs[1..]), |Flatten(msgs[1..])|;
      assert |Flatten(msgs)| == |msgs[0]| + length;
      FootprintOfMessage(msgs[0]);
      FootprintOfMessages(msgs[1..]);
    }
  }

  lemma FootprintIsLines(m: Bytes) returns (lines: nat)
    ensures Footprint(m) == LINE * lines
  {
    lines := Footprint(m) / LINE;
  }

  lemma {:induction false} FootprintsAreLines(msgs: seq<Bytes>) returns (sum: nat, max: nat)
    ensures FootprintSum(msgs) == LINE * sum && FootprintMax(msgs) == LINE * max
  {
    hide Footprint;
    sum, max := 0, 0;
    if msgs != [] {
      sum, max := FootprintsAreLines(msgs[1..]);
      var lines := FootprintIsLines(msgs[0]);
      sum, max := sum + lines, if lines > max then lines else max;
    }
  }

  lemma SafeBodyIsSafe(frame: Bytes, msgs: seq<Bytes>)
    requires |frame| >= FRAME_HEADER && Tiles(frame, msgs)
    requires |frame| - FRAME_HEADER <= SAFE_BODY
    ensures WorstLayout(msgs) <= PUSHBACK
  {
    hide IsMessage, Footprint, FootprintSum, FootprintMax;
    forall m | m in msgs
      ensures |m| >= MIN_MESSAGE
    {
      MessageIsLong(m);
    }
    FootprintOfMessages(msgs);
    var sum, max := FootprintsAreLines(msgs);
  }

  /** What a jumbo packet's messages can take at most is far below the size of a ring. */
  lemma JumboLayout(frame: Bytes, msgs: seq<Bytes>)
    requires |frame| >= FRAME_HEADER && Tiles(frame, msgs) && |frame| <= Reassembly.JUMBO_SIZE
    ensures WorstLayout(msgs) < 20000
  {
    hide IsMessage, Footprint, FootprintSum, FootprintMax;
    forall m | m in msgs
      ensures |m| >= MIN_MESSAGE
    {
      MessageIsLong(m);
    }
    FootprintOfMessages(msgs);
  }

  lemma MessageIsLong(m: Bytes)
    requires IsMessage(m)
    ensures |m| >= MIN_MESSAGE
  {}

  /** Behind the 16384-byte gate, a well-formed frame with a body of up to 7680 bytes never spins. */
  lemma GateCoversFrame(p: ParserState, c: Common, ring: Ring, v: View, msgs: seq<Bytes>)
    requires ring.Valid() && ring.Capacity() >= PUSHBACK
    requires HeaderOk(v.frame) && Tiles(v.frame, msgs)
    requires |v.frame| - FRAME_HEADER <= SAFE_BODY
    ensures ProcessFrame(p, c, ring, v).verdict != Spinning
    ensures JumpCount(ring.size, ring.writeIndex, msgs) <= 1
  {
    hide Tiles, WorstLayout;
    SafeBodyIsSafe(v.frame, msgs);
    TiledBy(v, msgs);
    NoRetryBound(ring, msgs);
  }

  lemma TiledBy(v: View, msgs: seq<Bytes>)
    requires HeaderOk(v.frame) && Tiles(v.frame, msgs)
    ensures ScanFrame(v) == Scanned(msgs, true)
    ensures forall m :: m in msgs ==> m != []
  {
    hide IsMessage;
    TiledIsScanned(v, msgs, FRAME_HEADER);
    forall m | m in msgs
      ensures m != []
    {
      MessageIsLong(m);
    }
  }

  // ---------- Frames that spin ----------

  /** A frame of these messages, with any type, session and sequence number. */
  function FrameOf(prefix: Bytes, msgs: seq<Bytes>): Bytes
    requires |msgs| < 0x1_0000
  {
    Pow256Values();
    prefix + BigEndian(|msgs|, 2) + Flatten(msgs)
  }

  predicate IsPrefix(prefix: Bytes) {
    |prefix| == MESSAGE_FRAME_HEADER && prefix[1] == MESSAGE_FRAME_HEADER
  }

  lemma FrameOfIsTiled(prefix: Bytes, msgs: seq<Bytes>)
    requires IsPrefix(prefix) && 0 < |msgs| < 0x1_0000 && forall m :: m in msgs ==> IsMessage(m)
    ensures HeaderOk(FrameOf(prefix, msgs)) && Tiles(FrameOf(prefix, msgs), msgs)
    ensures |FrameOf(prefix, msgs)| == FRAME_HEADER + |Flatten(msgs)|
    ensures FrameOf(prefix, msgs)[..MESSAGE_FRAME_HEADER] == prefix
  {
    hide IsMessage, Flatten, BigEndian, FromBigEndian, Pow256;
    Pow256Values();
    BigEndianInverse(|msgs|, 2);
    MessagesAreLong(msgs);
    var frame := FrameOf(prefix, msgs);
    assert frame[18..20] == BigEndian(|msgs|, 2);
    assert frame[FRAME_HEADER..] == Flatten(msgs);
  }

  lemma MessagesAreLong(msgs: seq<Bytes>)
    requires msgs != [] && forall m :: m in msgs ==> IsMessage(m)
    ensures |Flatten(msgs)| >= MIN_MESSAGE
  {
    hide IsMessage;
    FlattenLength(msgs);
  }

  /** A message of this size, without payload of its own. */
  function MessageOfSize(size: nat): (m: Bytes)
    requires MIN_MESSAGE <= size < 0x1_0000
    ensures |m| == size
  {
    Pow256Values();
    BigEndian(size - 2, 2) + [28, 1] + seq(size - 4, _ => 0)
  }

  lemma MessageOfSizeIsMessage(size: nat)
    requires MIN_MESSAGE <= size < 0x1_0000
    ensures IsMessage(MessageOfSize(size))
  {
    hide BigEndian, FromBigEndian, Pow256;
    Pow256Values();
    BigEndianInverse(size - 2, 2);
    assert MessageOfSize(size)[0..2] == BigEndian(size - 2, 2);
  }

  function Copies(m: Bytes, n: nat): seq<Bytes> {
    seq(n, _ => m)
  }

  lemma {:induction false} CopiesAdd(m: Bytes, n: nat)
    ensures |Flatten(Copies(m, n))| == n * |m|
    ensures FootprintSum(Copies(m, n)) == n * Footprint(m)
    ensures n > 0 ==> FootprintMax(Copies(m, n)) == Footprint(m)
    ensures n == 0 ==> FootprintMax(Copies(m, n)) == 0
  {
    hide Footprint;
    if n > 0 {
      CopiesAdd(m, n - 1);
      assert Copies(m, n)[1..] == Copies(m, n - 1);
    }
  }

  /** One message of the given size and 254 of 30 bytes: just beyond the bound. */
  function Beyond(body: nat): (msgs: seq<Bytes>)
    requires SAFE_BODY < body <= JUMBO_BODY
    ensures |msgs| == 255
  {
    [MessageOfSize(body - 254 * MIN_MESSAGE)] + Copies(MessageOfSize(MIN_MESSAGE), 254)
  }

  lemma BeyondIsUnsafe(prefix: Bytes, body: nat)
    requires IsPrefix(prefix) && SAFE_BODY < body <= JUMBO_BODY
    ensures var frame := FrameOf(prefix, Beyond(body));
            HeaderOk(frame) && Tiles(frame, Beyond(body)) && |frame| == FRAME_HEADER + body
    ensures WorstLayout(Beyond(body)) > PUSHBACK
  {
    hide IsMessage, Tiles, HeaderOk;
    var first, rest := MessageOfSize(body - 254 * MIN_MESSAGE), Copies(MessageOfSize(MIN_MESSAGE), 254);
    MessageOfSizeIsMessage(body - 254 * MIN_MESSAGE);
    MessageOfSizeIsMessage(MIN_MESSAGE);
    CopiesAdd(MessageOfSize(MIN_MESSAGE), 254);
    assert Beyond(body)[1..] == rest;
    assert Footprint(MessageOfSize(MIN_MESSAGE)) == LINE && Footprint(first) >= 2 * LINE;
    FrameOfIsTiled(prefix, Beyond(body));
  }

  /**
   The exact bound: the gate protects the parser from every well-formed frame with
   a body of this size, in every session state and every ring that a run reaches,
   if and only if the body has at most 7680 bytes.
   */
  lemma GateCoversBodyIff(size: nat, body: nat)
    requires IsSize(size) && size >= PUSHBACK && body <= JUMBO_BODY
    ensures (forall p: ParserState, c: Common, v: View, msgs: seq<Bytes>, ops: seq<Op> ::
               |v.frame| == FRAME_HEADER + body && HeaderOk(v.frame) && Tiles(v.frame, msgs) &&
               Run(size, ops).Capacity() >= PUSHBACK ==>
               ProcessFrame(p, c, Run(size, ops), v).verdict != Spinning)
            <==> body <= SAFE_BODY
  {
    hide Tiles, ProcessFrame, Run, HeaderOk, WorstLayout, Ring.Valid;
    if body <= SAFE_BODY {
      forall p: ParserState, c: Common, v: View, msgs: seq<Bytes>, ops: seq<Op> |
        |v.frame| == FRAME_HEADER + body && HeaderOk(v.frame) && Tiles(v.frame, msgs) &&
        Run(size, ops).Capacity() >= PUSHBACK
        ensures ProcessFrame(p, c, Run(size, ops), v).verdict != Spinning
      {
        GateCoversFrame(p, c, Run(size, ops), v, msgs);
      }
    } else {
      var p, c, v, msgs, ops := BodyThatSpins(size, body);
    }
  }

  lemma BodyThatSpins(size: nat, body: nat)
    returns (p: ParserState, c: Common, v: View, msgs: seq<Bytes>, ops: seq<Op>)
    requires IsSize(size) && size >= PUSHBACK && SAFE_BODY < body <= JUMBO_BODY
    ensures |v.frame| == FRAME_HEADER + body && HeaderOk(v.frame) && Tiles(v.frame, msgs)
    ensures Run(size, ops).Capacity() >= PUSHBACK && ProcessFrame(p, c, Run(size, ops), v).verdict == Spinning
  {
    hide Tiles, ProcessFrame, Run, HeaderOk, WorstLayout, Beyond, FrameOf;
    p, c := ParserState(Startup, 0, 0), Common(true, true, false, false, 0, 0, false);
    var prefix: Bytes := [0, MESSAGE_FRAME_HEADER] + seq(16, _ => 0);
    msgs := Beyond(body);
    BeyondIsUnsafe(prefix, body);
    v := View(FrameOf(prefix, msgs), _ => 0);
    TiledBy(v, msgs);
    GateIsSafeIff(size, p, c, v);
    ops :| Run(size, ops).Capacity() >= PUSHBACK && ProcessFrame(p, c, Run(size, ops), v).verdict == Spinning;
  }

  /** A frame of n messages of 30 bytes. */
  function SmallFrame(prefix: Bytes, n: nat): Bytes
    requires n < 0x1_0000
  {
    FrameOf(prefix, Copies(MessageOfSize(MIN_MESSAGE), n))
  }

  lemma SmallFrameIsTiled(prefix: Bytes, n: nat)
    requires IsPrefix(prefix) && 0 < n < 0x1_0000
    ensures HeaderOk(SmallFrame(prefix, n))
    ensures Tiles(SmallFrame(prefix, n), Copies(MessageOfSize(MIN_MESSAGE), n))
    ensures |SmallFrame(prefix, n)| == FRAME_HEADER + MIN_MESSAGE * n
    ensures SmallFrame(prefix, n)[..MESSAGE_FRAME_HEADER] == prefix
    ensures FootprintSum(Copies(MessageOfSize(MIN_MESSAGE), n)) == LINE * n
  {
    hide IsMessage, Tiles, HeaderOk, FrameOf, MessageOfSize;
    MessageOfSizeIsMessage(MIN_MESSAGE);
    CopiesAdd(MessageOfSize(MIN_MESSAGE), n);
    FrameOfIsTiled(prefix, Copies(MessageOfSize(MIN_MESSAGE), n));
  }

  /**
   A malformed frame that would be rejected spins all the same: with 0xFFFF in its
   first length field, the loop writes 65537 bytes before it looks at the discard
   flag.
   */
  lemma MalformedFrameSpins(p: ParserState, c: Common, ring: Ring, v: View)
    requires ring.Valid() && HeaderOk(v.frame) && Passes(p, c, v.frame)
    requires v.At(FRAME_HEADER) == 255 && v.At(FRAME_HEADER + 1) == 255 && |v.frame| < FRAME_HEADER + 65537
    ensures !ScanFrame(v).ok && |ScanFrame(v).msgs| == 1 && |ScanFrame(v).msgs[0]| == 65537
    ensures ring.Capacity() < 65600 ==> ProcessFrame(p, c, ring, v).verdict == Spinning
    ensures ring.Accepts(ScanFrame(v).msgs[0]) ==> ProcessFrame(p, c, ring, v).verdict == Rejected
  {
    hide Ring.Valid, AllAccepted, WriteAll;
    PassesIff(p, c, ring, v.frame);
    HeaderOkCounts(v.frame);
    assert v.SizeAt(FRAME_HEADER) == 65537 && v.BadAt(FRAME_HEADER);
    assert ScanFrame(v).msgs == [ScanFrame(v).msgs[0]];
    assert Footprint(ScanFrame(v).msgs[0]) == 65600;
    OneAccepted(ring, ScanFrame(v).msgs[0]);
    AcceptsNeedsRoom(ring, ScanFrame(v).msgs[0]);
  }

  // ---------- One iteration ----------

  datatype Stage = Stage(parser: ParserState, common: Common, ring0: Ring, ring1: Ring, frame: Bytes, verdict: Verdict)

  function Head(ring: Ring): Bytes {
    if ring.queue == [] then [] else ring.queue[0]
  }

  /** Take the next frame from ring 0, if ring 1 has room and the program runs. */
  function ParserStep(p: ParserState, c: Common, ring0: Ring, ring1: Ring, beyond: Memory): Stage
    requires ring0.Valid() && ring1.Valid()
  {
    if ring1.Capacity() < PUSHBACK || !c.applicationRunFlag || !c.connected then
      Stage(p, c, ring0, ring1, [], Ignored)
    else
      var o := ProcessFrame(p, c, ring1, View(Head(ring0), beyond));
      Stage(o.parser, o.common, ring0.Read(), o.ring, Head(ring0), o.verdict)
  }

  /**
   The gate does not cover every frame a jumbo packet can carry: with a well-formed
   frame of 299 messages of 30 bytes at the head of ring 0, the parser starts on it
   and spins whenever ring 1 has at least the 16384 bytes of the gate, but fewer
   than 19136, free.
   */
  lemma GateIsTooLow(p: ParserState, c: Common, ring0: Ring, ring1: Ring, beyond: Memory, msgs: seq<Bytes>)
    requires ring0.Valid() && ring1.Valid() && c.applicationRunFlag && c.connected
    requires HeaderOk(Head(ring0)) && Passes(p, c, Head(ring0))
    requires Tiles(Head(ring0), msgs) && |msgs| == 299 && forall m :: m in msgs ==> |m| == MIN_MESSAGE
    requires ring1.Capacity() < 19136
    ensures ProcessFrame(p, c, ring1, View(Head(ring0), beyond)).verdict == Spinning
    ensures ring1.Capacity() >= PUSHBACK ==> ParserStep(p, c, ring0, ring1, beyond).verdict == Spinning
  {
    hide Ring.Valid, Tiles, ProcessFrame;
    var v := View(Head(ring0), beyond);
    TiledBy(v, msgs);
    PassesIff(p, c, ring1, v.frame);
    SpinsIff(p, c, ring1, v);
    ring1.IndexIsValid();
    SpanCountsRecords(ring1.size, ring1.writeIndex, msgs);
  }
}
