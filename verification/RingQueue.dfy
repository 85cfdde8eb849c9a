/**
 The record ring between two pipeline stages, as a value: indices, counters and
 the queue of records, without the bytes.  RingFifoBuffer.dfy proves that the
 class over a byte array computes exactly these functions.

 A record of n bytes takes the smallest multiple of 64 that holds n + 4 bytes.
 When it does not fit between the write index and the end of the array, it goes
 to the start and the skipped tail is charged to it.
 */
module RingQueue {
  import opened Bytes

  const LINE := 64

  /** The stages wait until the ring they write to has this many bytes free. */
  const PUSHBACK := 16384

  /** The next multiple of 64. */
  function Aligned(n: nat): (a: nat)
    ensures a % LINE == 0
    ensures n <= a < n + LINE
  {
    (n + LINE - 1) / LINE * LINE
  }

  /** Bytes a record takes in the ring, with its 4-byte length field. */
  function Footprint(data: Bytes): (f: nat)
    ensures f % LINE == 0 && f >= LINE
  {
    Aligned(|data| + 4)
  }

  predicate Jumps(size: nat, i: nat, data: Bytes) {
    size - i < Footprint(data)
  }

  function Place(size: nat, i: nat, data: Bytes): nat {
    if Jumps(size, i, data) then 0 else i
  }

  function Wrap(size: nat, i: nat): nat {
    if i >= size - 4 then 0 else i
  }

  /** Where the index stands after a record stored (or read) from index i. */
  function Next(size: nat, i: nat, data: Bytes): nat {
    Wrap(size, Place(size, i, data) + Footprint(data))
  }

  /** Bytes a record stored from index i takes up, the skipped tail included. */
  function Cost(size: nat, i: nat, data: Bytes): nat
    requires i <= size
  {
    Footprint(data) + if Jumps(size, i, data) then size - i else 0
  }

  predicate IsIndex(size: nat, i: nat) {
    i < size && i % LINE == 0
  }

  predicate IsSize(size: nat) {
    size >= LINE && size % LINE == 0
  }

  lemma NextIsIndex(size: nat, i: nat, data: Bytes)
    requires IsSize(size) && IsIndex(size, i)
    ensures IsIndex(size, Next(size, i, data))
  {}

  /** The index reached after storing a whole queue from index i. */
  function EndIndex(size: nat, i: nat, queue: seq<Bytes>): nat
    decreases |queue|
  {
    if queue == [] then i else EndIndex(size, Next(size, i, queue[0]), queue[1..])
  }

  /** The bytes that a queue stored from index i occupies, skipped tails included. */
  function Span(size: nat, i: nat, queue: seq<Bytes>): nat
    requires IsSize(size) && IsIndex(size, i)
    decreases |queue|
  {
    if queue == [] then 0 else
      NextIsIndex(size, i, queue[0]);
      Cost(size, i, queue[0]) + Span(size, Next(size, i, queue[0]), queue[1..])
  }

  lemma {:induction false} LayoutAppend(size: nat, i: nat, queue: seq<Bytes>, data: Bytes)
    requires IsSize(size) && IsIndex(size, i)
    ensures IsIndex(size, EndIndex(size, i, queue))
    ensures EndIndex(size, i, queue + [data]) == Next(size, EndIndex(size, i, queue), data)
    ensures Span(size, i, queue + [data]) == Span(size, i, queue) + Cost(size, EndIndex(size, i, queue), data)
    decreases |queue|
  {
    NextIsIndex(size, i, (queue + [data])[0]);
    if queue == [] {
      assert (queue + [data])[1..] == [];
    } else {
      assert (queue + [data])[1..] == queue[1..] + [data];
      LayoutAppend(size, Next(size, i, queue[0]), queue[1..], data);
    }
  }

  datatype Ring = Ring(size: nat, readIndex: nat, writeIndex: nat, stored: nat, queue: seq<Bytes>) {

    function Capacity(): int {
      size - stored
    }

    predicate Accepts(data: Bytes)
      requires writeIndex <= size
    {
      var room := size - writeIndex;
      var need := Footprint(data);
      data != [] &&
      ((room >= need && Capacity() >= need) || (room < need && Capacity() >= need + room))
    }

    function Write(data: Bytes): Ring
      requires writeIndex <= size
    {
      if Accepts(data) then
        Ring(size, readIndex, Next(size, writeIndex, data), stored + Cost(size, writeIndex, data), queue + [data])
      else
        this
    }

    /** Whether reading the head record skips the tail of the array. */
    predicate HeadJumps()
      requires queue != []
    {
      Jumps(size, readIndex, queue[0])
    }

    /** A read that skips the tail gives back the tail but not the record. */
    function StoredAfterRead(): int
      requires queue != []
    {
      var bytes := if HeadJumps() then stored - (size - readIndex) else stored - Footprint(queue[0]);
      if |queue| == 1 then 0 else bytes
    }

    function Read(): Ring
      requires Valid()
    {
      if queue == [] then this else
        ReadKeepsStored();
        Ring(size, Next(size, readIndex, queue[0]), writeIndex, StoredAfterRead(), queue[1..])
    }

    /** The bytes the counter holds beyond what is really occupied. */
    function Slack(): int
      requires IsSize(size) && IsIndex(size, readIndex)
    {
      stored - Span(size, readIndex, queue)
    }

    ghost predicate Valid() {
      && IsSize(size)
      && IsIndex(size, readIndex)
      && IsIndex(size, writeIndex)
      && EndIndex(size, readIndex, queue) == writeIndex
      && Span(size, readIndex, queue) <= stored <= size
      && (queue == [] ==> stored == 0)
      && (forall d :: d in queue ==> d != [])
    }

    lemma IndexIsValid()
      requires Valid()
      ensures IsSize(size) && IsIndex(size, writeIndex) && IsIndex(size, readIndex)
    {}

    lemma ReadKeepsStored()
      requires Valid() && queue != []
      ensures 0 <= StoredAfterRead() <= stored
    {}
  }

  function Empty(size: nat): Ring {
    Ring(size, 0, 0, 0, [])
  }

  /** An accepted write appends exactly the data; a refused one changes nothing. */
  lemma WriteIsEnqueue(r: Ring, data: Bytes)
    requires r.Valid()
    ensures r.Write(data).Valid()
    ensures r.Write(data).queue == if r.Accepts(data) then r.queue + [data] else r.queue
    ensures !r.Accepts(data) ==> r.Write(data) == r
    ensures r.Write(data).Slack() == r.Slack()
  {
    LayoutAppend(r.size, r.readIndex, r.queue, data);
    NextIsIndex(r.size, r.writeIndex, data);
  }

  /** A read removes the head of the queue, or changes nothing when there is none. */
  lemma ReadIsDequeue(r: Ring)
    requires r.Valid()
    ensures r.Read().Valid()
    ensures r.Read().queue == if r.queue == [] then [] else r.queue[1..]
  {
    if r.queue != [] {
      NextIsIndex(r.size, r.readIndex, r.queue[0]);
      assert forall d :: d in r.queue[1..] ==> d in r.queue;
    }
  }

  lemma ReadFreesBytes(r: Ring)
    requires r.Valid()
    ensures r.Read().stored <= r.stored && r.Read().size == r.size
  {
    if r.queue != [] {
      r.ReadKeepsStored();
    }
  }

  lemma {:induction false} SpanCountsRecords(size: nat, i: nat, queue: seq<Bytes>)
    requires IsSize(size) && IsIndex(size, i)
    ensures LINE * |queue| <= Span(size, i, queue)
    decreases |queue|
  {
    if queue != [] {
      NextIsIndex(size, i, queue[0]);
      SpanCountsRecords(size, Next(size, i, queue[0]), queue[1..]);
    }
  }

  lemma ByteAccounting(r: Ring)
    requires r.Valid()
    ensures LINE * |r.queue| <= r.stored <= r.size
    ensures r.queue == [] <==> r.stored == 0
    ensures r.queue == [] ==> r.readIndex == r.writeIndex
  {
    SpanCountsRecords(r.size, r.readIndex, r.queue);
  }

  // ---------- Whole runs of reads and writes ----------

  datatype Op = Put(data: Bytes) | Get

  function Step(r: Ring, op: Op): Ring
    requires r.Valid()
  {
    match op
    case Put(data) => r.Write(data)
    case Get => r.Read()
  }

  lemma StepIsValid(r: Ring, op: Op)
    requires r.Valid()
    ensures Step(r, op).Valid()
  {
    match op
    case Put(data) => WriteIsEnqueue(r, data);
    case Get => ReadIsDequeue(r);
  }

  function Run(size: nat, ops: seq<Op>): (r: Ring)
    requires IsSize(size)
    ensures r.Valid()
  {
    if ops == [] then Empty(size) else
      var before := Run(size, ops[..|ops| - 1]);
      StepIsValid(before, ops[|ops| - 1]);
      Step(before, ops[|ops| - 1])
  }

  /** What every accepted write of a run sent, in order. */
  function Sent(size: nat, ops: seq<Op>): seq<Bytes>
    requires IsSize(size)
  {
    if ops == [] then [] else
      var before := Run(size, ops[..|ops| - 1]);
      var last := ops[|ops| - 1];
      Sent(size, ops[..|ops| - 1]) + if last.Put? && before.Accepts(last.data) then [last.data] else []
  }

  /** What every successful read of a run returned, in order. */
  function Received(size: nat, ops: seq<Op>): seq<Bytes>
    requires IsSize(size)
  {
    if ops == [] then [] else
      var before := Run(size, ops[..|ops| - 1]);
      Received(size, ops[..|ops| - 1]) + if ops[|ops| - 1].Get? && before.queue != [] then [before.queue[0]] else []
  }

  /**
   The aligned sizes of the records that were read across a skipped tail since
   the ring was last empty.
   */
  function Crossed(size: nat, ops: seq<Op>): nat
    requires IsSize(size)
  {
    if ops == [] then 0 else
      var before := Run(size, ops[..|ops| - 1]);
      var sofar := Crossed(size, ops[..|ops| - 1]);
      if ops[|ops| - 1].Put? || before.queue == [] then sofar
      else if |before.queue| == 1 then 0
      else sofar + if before.HeadJumps() then Footprint(before.queue[0]) else 0
  }

  /** The ring is a queue: what was accepted is what was read plus what still waits. */
  lemma {:induction false} RunIsFifo(size: nat, ops: seq<Op>)
    requires IsSize(size)
    ensures Sent(size, ops) == Received(size, ops) + Run(size, ops).queue
  {
    if ops != [] {
      var init, last := ops[..|ops| - 1], ops[|ops| - 1];
      RunIsFifo(size, init);
      FifoStep(Sent(size, init), Received(size, init), Run(size, init), last);
    }
  }

  lemma FifoStep(sent: seq<Bytes>, received: seq<Bytes>, r: Ring, op: Op)
    requires r.Valid()
    requires sent == received + r.queue
    ensures sent + (if op.Put? && r.Accepts(op.data) then [op.data] else []) ==
            received + (if op.Get? && r.queue != [] then [r.queue[0]] else []) + Step(r, op).queue
  {
    match op
    case Put(data) => WriteIsEnqueue(r, data);
    case Get =>
      ReadIsDequeue(r);
      if r.queue != [] {
        assert r.queue == [r.queue[0]] + r.queue[1..];
      }
  }

  /** The byte counter is the occupied bytes plus exactly the bytes of Crossed. */
  lemma {:induction false} RunAccounting(size: nat, ops: seq<Op>)
    requires IsSize(size)
    ensures Run(size, ops).Slack() == Crossed(size, ops)
  {
    if ops != [] {
      RunAccounting(size, ops[..|ops| - 1]);
      var before := Run(size, ops[..|ops| - 1]);
      match ops[|ops| - 1]
      case Put(data) => WriteIsEnqueue(before, data);
      case Get => ReadSlack(before);
    }
  }

  lemma ReadSlack(r: Ring)
    requires r.Valid()
    ensures r.Read().Valid()
    ensures r.Read().Slack() ==
            if r.queue == [] then r.Slack()
            else if |r.queue| == 1 then 0
            else r.Slack() + if r.HeadJumps() then Footprint(r.queue[0]) else 0
  {
    ReadIsDequeue(r);
  }

  // ---------- When a series of writes needs no retry ----------

  function WriteAll(r: Ring, msgs: seq<Bytes>): Ring
    requires r.Valid()
    decreases |msgs|
  {
    if msgs == [] then r else
      WriteIsEnqueue(r, msgs[0]);
      WriteAll(r.Write(msgs[0]), msgs[1..])
  }

  predicate AllAccepted(r: Ring, msgs: seq<Bytes>)
    requires r.Valid()
    decreases |msgs|
  {
    msgs == [] ||
    (r.Accepts(msgs[0]) && (WriteIsEnqueue(r, msgs[0]); AllAccepted(r.Write(msgs[0]), msgs[1..])))
  }

  lemma {:induction false} WriteAllAppends(r: Ring, msgs: seq<Bytes>)
    requires r.Valid() && AllAccepted(r, msgs)
    ensures WriteAll(r, msgs).Valid()
    ensures WriteAll(r, msgs).queue == r.queue + msgs
    ensures WriteAll(r, msgs).stored == r.stored + Span(r.size, r.writeIndex, msgs)
    ensures WriteAll(r, msgs).size == r.size
    decreases |msgs|
  {
    if msgs == [] {
      assert r.queue + msgs == r.queue;
    } else {
      WriteIsEnqueue(r, msgs[0]);
      WriteAllAppends(r.Write(msgs[0]), msgs[1..]);
      assert msgs == [msgs[0]] + msgs[1..];
    }
  }

  /** A series of writes may be cut anywhere. */
  lemma {:induction false} WriteAllSplit(r: Ring, first: seq<Bytes>, rest: seq<Bytes>)
    requires r.Valid() && AllAccepted(r, first)
    ensures WriteAll(r, first).Valid()
    ensures AllAccepted(r, first + rest) <==> AllAccepted(WriteAll(r, first), rest)
    ensures WriteAll(r, first + rest) == WriteAll(WriteAll(r, first), rest)
    decreases |first|
  {
    if first == [] {
      assert first + rest == rest;
    } else {
      WriteIsEnqueue(r, first[0]);
      WriteAllSplit(r.Write(first[0]), first[1..], rest);
      assert (first + rest)[1..] == first[1..] + rest;
    }
  }

  /** A refused write stops every longer series too. */
  lemma {:induction false} AllAcceptedPrefix(r: Ring, first: seq<Bytes>, all: seq<Bytes>)
    requires r.Valid() && first <= all && AllAccepted(r, all)
    ensures AllAccepted(r, first)
    decreases |first|
  {
    if first != [] {
      WriteIsEnqueue(r, first[0]);
      AllAcceptedPrefix(r.Write(first[0]), first[1..], all[1..]);
    }
  }

  /** A series that is refused part of the way is refused. */
  lemma StoppedShort(r: Ring, done: seq<Bytes>, all: seq<Bytes>)
    requires r.Valid() && done <= all && !AllAccepted(r, done)
    ensures !AllAccepted(r, all)
  {
    if AllAccepted(r, all) {
      AllAcceptedPrefix(r, done, all);
    }
  }

  /** One more write at the end of a series. */
  lemma WriteAllLast(r: Ring, first: seq<Bytes>, last: Bytes)
    requires r.Valid() && AllAccepted(r, first)
    ensures WriteAll(r, first).Valid()
    ensures AllAccepted(r, first + [last]) <==> WriteAll(r, first).Accepts(last)
    ensures WriteAll(r, first + [last]) == WriteAll(r, first).Write(last)
  {
    WriteAllSplit(r, first, [last]);
    var w := WriteAll(r, first);
    WriteIsEnqueue(w, last);
    var none: seq<Bytes> := [];
    assert [last][1..] == none;
  }

  lemma AcceptsNeedsRoom(r: Ring, data: Bytes)
    requires r.Valid()
    ensures r.Accepts(data) ==> Footprint(data) <= r.Capacity()
  {}

  lemma OneAccepted(r: Ring, data: Bytes)
    requires r.Valid()
    ensures AllAccepted(r, [data]) <==> r.Accepts(data)
  {
    assert [] + [data] == [data];
    WriteAllLast(r, [], data);
  }

  /** Every write succeeds at the first attempt exactly when the whole layout fits. */
  lemma {:induction false} AllAcceptedIff(r: Ring, msgs: seq<Bytes>)
    requires r.Valid()
    requires forall m :: m in msgs ==> m != []
    ensures AllAccepted(r, msgs) <==> Span(r.size, r.writeIndex, msgs) <= r.Capacity()
    decreases |msgs|
  {
    if msgs != [] {
      WriteIsEnqueue(r, msgs[0]);
      assert msgs[0] in msgs;
      assert forall m :: m in msgs[1..] ==> m in msgs;
      if r.Accepts(msgs[0]) {
        AllAcceptedIff(r.Write(msgs[0]), msgs[1..]);
      }
    }
  }

  function FootprintSum(msgs: seq<Bytes>): nat {
    if msgs == [] then 0 else Footprint(msgs[0]) + FootprintSum(msgs[1..])
  }

  function FootprintMax(msgs: seq<Bytes>): nat {
    if msgs == [] then 0 else
      var rest := FootprintMax(msgs[1..]);
      if Footprint(msgs[0]) > rest then Footprint(msgs[0]) else rest
  }

  function JumpCount(size: nat, i: nat, msgs: seq<Bytes>): nat
    decreases |msgs|
  {
    if msgs == [] then 0 else
      (if Jumps(size, i, msgs[0]) then 1 else 0) + JumpCount(size, Next(size, i, msgs[0]), msgs[1..])
  }

  lemma {:induction false} StraightLayout(size: nat, i: nat, msgs: seq<Bytes>)
    requires IsSize(size) && IsIndex(size, i)
    requires FootprintSum(msgs) <= size - i
    ensures Span(size, i, msgs) == FootprintSum(msgs)
    ensures JumpCount(size, i, msgs) == 0
    decreases |msgs|
  {
    if msgs != [] {
      NextIsIndex(size, i, msgs[0]);
      if |msgs| > 1 {
        StraightLayout(size, Next(size, i, msgs[0]), msgs[1..]);
      }
    }
  }

  /** A series that ends before the last line of the array wraps nowhere. */
  lemma {:induction false} StraightWrites(r: Ring, msgs: seq<Bytes>)
    requires r.Valid() && [] !in msgs
    requires r.writeIndex + FootprintSum(msgs) + LINE <= r.size && FootprintSum(msgs) <= r.Capacity()
    ensures AllAccepted(r, msgs)
    ensures WriteAll(r, msgs) == Ring(r.size, r.readIndex, r.writeIndex + FootprintSum(msgs),
                                      r.stored + FootprintSum(msgs), r.queue + msgs)
    decreases |msgs|
  {
    hide Footprint, Ring.Valid;
    if msgs == [] {
      assert r.queue + msgs == r.queue;
    } else {
      WriteIsEnqueue(r, msgs[0]);
      StraightWrites(r.Write(msgs[0]), msgs[1..]);
      assert r.queue + msgs == r.queue + [msgs[0]] + msgs[1..];
    }
  }

  /**
   The most bytes that a series of writes can take, wherever it starts: its records,
   and the largest tail it can skip, one line less than its largest record.
   */
  function WorstLayout(msgs: seq<Bytes>): nat {
    if msgs == [] then 0 else
      MaxIsALine(msgs);
      FootprintSum(msgs) + FootprintMax(msgs) - LINE
  }

  lemma MaxIsALine(msgs: seq<Bytes>)
    requires msgs != []
    ensures LINE <= FootprintMax(msgs)
  {}

  /** A skipped tail is at least one line shorter than the record that skips it. */
  lemma CostBound(size: nat, i: nat, data: Bytes)
    requires IsSize(size) && IsIndex(size, i)
    ensures Cost(size, i, data) == Footprint(data) + if Jumps(size, i, data) then size - i else 0
    ensures Jumps(size, i, data) ==> LINE <= size - i <= Footprint(data) - LINE
    ensures IsIndex(size, Next(size, i, data))
    ensures !Jumps(size, i, data) && i + Footprint(data) < size ==> Next(size, i, data) == i + Footprint(data)
    ensures !Jumps(size, i, data) && i + Footprint(data) >= size ==> Next(size, i, data) == 0
    ensures Jumps(size, i, data) && Footprint(data) < size ==> Next(size, i, data) == Footprint(data)
  {
    NextIsIndex(size, i, data);
  }

  /** A series that is no larger than the ring skips at most one tail. */
  lemma {:induction false} OneJumpLayout(size: nat, i: nat, msgs: seq<Bytes>)
    requires IsSize(size) && IsIndex(size, i)
    requires FootprintSum(msgs) <= size
    ensures JumpCount(size, i, msgs) <= 1
    ensures FootprintSum(msgs) <= Span(size, i, msgs) <= WorstLayout(msgs)
    decreases |msgs|
  {
    hide Footprint, Jumps, Next, Cost;
    if msgs != [] {
      CostBound(size, i, msgs[0]);
      if Jumps(size, i, msgs[0]) && |msgs| > 1 {
        StraightLayout(size, Next(size, i, msgs[0]), msgs[1..]);
      } else {
        OneJumpLayout(size, Next(size, i, msgs[0]), msgs[1..]);
      }
    }
  }

  lemma NoRetryBound(r: Ring, msgs: seq<Bytes>)
    requires r.Valid()
    requires forall m :: m in msgs ==> m != []
    requires WorstLayout(msgs) <= r.Capacity()
    ensures AllAccepted(r, msgs)
    ensures JumpCount(r.size, r.writeIndex, msgs) <= 1
    ensures Span(r.size, r.writeIndex, msgs) <= WorstLayout(msgs)
  {
    OneJumpLayout(r.size, r.writeIndex, msgs);
    AllAcceptedIff(r, msgs);
  }

  /** An empty record is refused whatever the ring holds, so a series with one never succeeds. */
  lemma {:induction false} EmptyRecordIsRefused(r: Ring, msgs: seq<Bytes>)
    requires r.Valid() && [] in msgs
    ensures !AllAccepted(r, msgs)
    decreases |msgs|
  {
    if r.Accepts(msgs[0]) {
      WriteIsEnqueue(r, msgs[0]);
      EmptyRecordIsRefused(r.Write(msgs[0]), msgs[1..]);
    }
  }

  lemma {:induction false} SpanIsAtLeastSum(size: nat, i: nat, msgs: seq<Bytes>)
    requires IsSize(size) && IsIndex(size, i)
    ensures Span(size, i, msgs) >= FootprintSum(msgs)
    decreases |msgs|
  {
    if msgs != [] {
      NextIsIndex(size, i, msgs[0]);
      SpanIsAtLeastSum(size, Next(size, i, msgs[0]), msgs[1..]);
    }
  }

  lemma JumpsFrom(size: nat, i: nat, data: Bytes)
    ensures Jumps(size, i, data) <==> size - i < Footprint(data)
  {}

  /** The worst layout happens: when the largest record just does not fit before the end. */
  lemma {:induction false} WorstIndex(size: nat, msgs: seq<Bytes>) returns (w: nat)
    requires IsSize(size) && FootprintSum(msgs) <= size && FootprintMax(msgs) > LINE
    ensures IsIndex(size, w) && w >= size - FootprintSum(msgs) + LINE
    ensures Span(size, w, msgs) >= WorstLayout(msgs)
    decreases |msgs|
  {
    hide Footprint, Jumps, Next, Cost;
    var first, rest := Footprint(msgs[0]), msgs[1..];
    if first == FootprintMax(msgs) {
      w := size - (first - LINE);
      JumpsFrom(size, w, msgs[0]);
      CostBound(size, w, msgs[0]);
      SpanIsAtLeastSum(size, Next(size, w, msgs[0]), rest);
    } else {
      w := WorstIndex(size, rest);
      w := w - first;
      JumpsFrom(size, w, msgs[0]);
      CostBound(size, w, msgs[0]);
    }
  }

  // ---------- Rings that a run reaches ----------

  /** One-line records written and read at once move the indices of an empty ring. */
  function Advance(lines: nat): seq<Op> {
    if lines == 0 then [] else Advance(lines - 1) + [Put([0])] + [Get]
  }

  function Fill(lines: nat): seq<Op> {
    seq(lines, _ => Put([0]))
  }

  lemma RunAppend(size: nat, ops: seq<Op>, data: Bytes)
    requires IsSize(size)
    ensures Run(size, ops + [Put(data)]) == Run(size, ops).Write(data)
    ensures Run(size, ops + [Get]) == Run(size, ops).Read()
  {
    hide Ring.Write, Ring.Read;
    assert (ops + [Put(data)])[..|ops|] == ops && (ops + [Get])[..|ops|] == ops;
  }

  lemma RunOfNothing(size: nat)
    requires IsSize(size)
    ensures Run(size, Advance(0)) == Empty(size)
  {}

  lemma PutLine(r: Ring)
    requires IsSize(r.size) && IsIndex(r.size, r.writeIndex) && r.stored + LINE <= r.size
    ensures r.Write([0]) ==
            Ring(r.size, r.readIndex, Wrap(r.size, r.writeIndex + LINE), r.stored + LINE, r.queue + [[0]])
  {
    assert Footprint([0]) == LINE;
  }

  lemma GetLine(size: nat, i: nat)
    requires IsSize(size) && IsIndex(size, i)
    ensures var r := Ring(size, i, Wrap(size, i + LINE), LINE, [[0]]);
            r.Valid() && r.Read() == Ring(size, Wrap(size, i + LINE), Wrap(size, i + LINE), 0, [])
  {
    var r := Ring(size, i, Wrap(size, i + LINE), LINE, [[0]]);
    assert Footprint([0]) == LINE;
    assert r.queue[1..] == [];
    assert Span(size, Wrap(size, i + LINE), []) == 0;
  }

  lemma {:induction false} Advanced(size: nat, lines: nat)
    requires IsSize(size) && LINE * lines < size
    ensures Run(size, Advance(lines)) == Ring(size, LINE * lines, LINE * lines, 0, [])
  {
    hide Ring.Valid, Ring.Write, Ring.Read, Run;
    if lines == 0 {
      RunOfNothing(size);
    } else {
      var before := Advance(lines - 1);
      Advanced(size, lines - 1);
      PutLine(Run(size, before));
      GetLine(size, LINE * (lines - 1));
      var none: seq<Bytes> := [];
      assert none + [[0]] == [[0]];
      RunAppend(size, before, [0]);
      RunAppend(size, before + [Put([0])], [0]);
    }
  }

  lemma FillOne(lines: nat)
    ensures lines == 0 ==> Fill(lines) == []
    ensures lines > 0 ==> Fill(lines) == Fill(lines - 1) + [Put([0])]
    ensures lines > 0 ==> OneLiners(lines) == OneLiners(lines - 1) + [[0]]
  {}

  lemma NoLines()
    ensures OneLiners(0) == []
  {}

  function OneLiners(lines: nat): seq<Bytes> {
    seq(lines, _ => [0])
  }

  /** Any index and any number of stored lines can be reached, without slack. */
  lemma {:induction false} Filled(size: nat, start: nat, lines: nat)
    requires IsSize(size) && LINE * start < size && LINE * lines <= size
    ensures var end := LINE * (start + lines);
            Run(size, Advance(start) + Fill(lines)) ==
            Ring(size, LINE * start, if end < size then end else end - size, LINE * lines, OneLiners(lines))
    decreases lines
  {
    hide Ring.Valid, Ring.Write, Ring.Read, Advance, Fill, Run, OneLiners;
    FillOne(lines);
    if lines == 0 {
      Advanced(size, start);
      NoLines();
      assert Advance(start) + Fill(0) == Advance(start);
    } else {
      Filled(size, start, lines - 1);
      assert Advance(start) + Fill(lines) == Advance(start) + Fill(lines - 1) + [Put([0])];
      PutLine(Run(size, Advance(start) + Fill(lines - 1)));
      RunAppend(size, Advance(start) + Fill(lines - 1), [0]);
    }
  }

  /**
   When a series can rely on a gate: every ring that any run reaches and that has
   this many bytes free takes all of it at the first attempt, if and only if no
   record is empty and the worst layout is no more than these bytes.
   */
  lemma AlwaysAcceptedIff(size: nat, msgs: seq<Bytes>, room: nat)
    requires IsSize(size) && room % LINE == 0 && room <= size
    ensures (forall ops: seq<Op> :: Run(size, ops).Capacity() >= room ==> AllAccepted(Run(size, ops), msgs))
            <==> [] !in msgs && WorstLayout(msgs) <= room
  {
    if [] in msgs {
      assert Run(size, []) == Empty(size);
      EmptyRecordIsRefused(Run(size, []), msgs);
    } else if WorstLayout(msgs) <= room {
      forall ops: seq<Op> | Run(size, ops).Capacity() >= room
        ensures AllAccepted(Run(size, ops), msgs)
      {
        NoRetryBound(Run(size, ops), msgs);
      }
    } else {
      var ops := RefusingRun(size, msgs, room);
      assert Run(size, ops).Capacity() >= room;
    }
  }

  lemma RefusingRun(size: nat, msgs: seq<Bytes>, room: nat) returns (ops: seq<Op>)
    requires IsSize(size) && room % LINE == 0 && room <= size
    requires [] !in msgs && WorstLayout(msgs) > room
    ensures Run(size, ops).Capacity() == room && !AllAccepted(Run(size, ops), msgs)
  {
    hide Run, Footprint, Span, Fill, Advance, AllAccepted, FootprintMax, FootprintSum;
    var w := 0;
    if FootprintSum(msgs) <= room {
      w := WorstIndex(size, msgs);
    } else {
      SpanIsAtLeastSum(size, 0, msgs);
    }
    var start, lines := StartFor(size, room, w);
    ops := Advance(start) + Fill(lines);
    Filled(size, start, lines);
    AllAcceptedIff(Run(size, ops), msgs);
  }

  /** Where to start so that so many lines end at a given index. */
  lemma StartFor(size: nat, room: nat, w: nat) returns (start: nat, lines: nat)
    requires IsSize(size) && IsIndex(size, w) && room % LINE == 0 && room <= size
    ensures LINE * lines == size - room && LINE * start < size
    ensures var end := LINE * (start + lines); w == if end < size then end else end - size
  {
    var used := size - room;
    lines := used / LINE;
    start := if w >= used then (w - used) / LINE else (w + room) / LINE;
  }

  /**
   An empty ring accepts a record wherever its indices stand exactly when the
   record takes at most half of the ring.
   */
  lemma EmptyRingAccepts(size: nat, data: Bytes)
    requires IsSize(size) && size % (2 * LINE) == 0 && data != []
    ensures (forall i: nat :: IsIndex(size, i) ==> Ring(size, i, i, 0, []).Accepts(data))
            <==> Footprint(data) <= size / 2
  {
    var need := Footprint(data);
    if need > size / 2 {
      var i: nat := if need <= size then size - need + LINE else 0;
      assert IsIndex(size, i);
      assert !Ring(size, i, i, 0, []).Accepts(data);
    }
  }
}
