/**
 RingFIFOBuffer: variable-length records in a byte array.  A record is its
 length in four bytes, its data, and padding up to the next multiple of 64; a
 zero length field says that the next record is at the start of the array.
 */
module RingFifoBuffer {
  import opened Bytes
  import opened RingQueue

  // The source keeps indices and counters in a 32-bit int.
  const MAX_INT := 0x7fff_ffff
  const MAX_DATA := MAX_INT - 2 * LINE

  // ---------- The array size: nextpow2 ----------

  function BitLength(n: nat): nat {
    if n == 0 then 0 else 1 + BitLength(n / 2)
  }

  function Pow2(n: nat): (p: nat)
    ensures p > 0
  {
    if n == 0 then 1 else 2 * Pow2(n - 1)
  }

  /** 1 << (1 + (63 - clz(n - 1))): the number of leading zeros is 64 minus the bit length. */
  function NextPow2(n: nat): nat
    requires n >= 2
  {
    Pow2(BitLength(n - 1))
  }

  lemma {:induction false} BitLengthBounds(n: nat)
    ensures n < Pow2(BitLength(n))
    ensures n > 0 ==> Pow2(BitLength(n)) <= 2 * n
  {
    if n > 0 {
      BitLengthBounds(n / 2);
    }
  }

  lemma {:induction false} Pow2Lines(k: nat)
    requires k >= 6
    ensures Pow2(k) % LINE == 0
  {
    if k == 6 {
      assert Pow2(6) == 2 * Pow2(5) == 4 * Pow2(4) == 8 * Pow2(3);
    } else {
      Pow2Lines(k - 1);
    }
  }

  lemma {:induction false} Pow2Monotone(a: nat, b: nat)
    requires a <= b
    ensures Pow2(a) <= Pow2(b)
  {
    if a < b {
      Pow2Monotone(a, b - 1);
    }
  }

  /** The least power of two that holds the request; whole lines fit in it if and only if that is over 32 bytes. */
  lemma NextPow2IsLeast(n: nat)
    requires n >= 2
    ensures n <= NextPow2(n) < 2 * n
    ensures IsSize(NextPow2(n)) <==> n > LINE / 2
    ensures forall k: nat :: n <= Pow2(k) ==> NextPow2(n) <= Pow2(k)
  {
    BitLengthBounds(n - 1);
    var k := BitLength(n - 1);
    assert Pow2(5) == 2 * Pow2(4) == 4 * Pow2(3);
    if k < 6 {
      Pow2Monotone(k, 5);
    } else {
      Pow2Lines(k);
      Pow2Monotone(6, k);
      assert Pow2(6) == 2 * Pow2(5);
    }
    assert Pow2(k) == 2 * Pow2(k - 1);
    forall j: nat | n <= Pow2(j)
      ensures NextPow2(n) <= Pow2(j)
    {
      if j < k {
        Pow2Monotone(j, k - 1);
        assert false;
      } else {
        Pow2Monotone(k, j);
      }
    }
  }

  // ---------- Records in memory ----------

  function Header(mem: Bytes, i: nat): nat
    requires i + 4 <= |mem|
  {
    FromLittleEndian(mem[i..i + 4])
  }

  ghost predicate RecordAt(mem: Bytes, i: nat, data: Bytes)
    requires IsSize(|mem|) && IsIndex(|mem|, i)
  {
    var at := Place(|mem|, i, data);
    && data != []
    && at + Footprint(data) <= |mem|
    && (Jumps(|mem|, i, data) ==> Header(mem, i) == 0)
    && Header(mem, at) == |data|
    && mem[at + 4..at + 4 + |data|] == data
  }

  /** The memory holds this queue of records from index i on. */
  ghost predicate Holds(mem: Bytes, i: nat, queue: seq<Bytes>)
    requires IsSize(|mem|) && IsIndex(|mem|, i)
    decreases |queue|
  {
    queue == [] ||
    (RecordAt(mem, i, queue[0]) &&
     (NextIsIndex(|mem|, i, queue[0]); Holds(mem, Next(|mem|, i, queue[0]), queue[1..])))
  }

  /** The queue is not a free choice: the memory and the number of records determine it. */
  lemma {:induction false} HoldsUnique(mem: Bytes, i: nat, q1: seq<Bytes>, q2: seq<Bytes>)
    requires IsSize(|mem|) && IsIndex(|mem|, i)
    requires Holds(mem, i, q1) && Holds(mem, i, q2) && |q1| == |q2|
    ensures q1 == q2
    decreases |q1|
  {
    if q1 != [] {
      RecordUnique(mem, i, q1[0], q2[0]);
      NextIsIndex(|mem|, i, q1[0]);
      HoldsUnique(mem, Next(|mem|, i, q1[0]), q1[1..], q2[1..]);
    }
  }

  lemma RecordUnique(mem: Bytes, i: nat, d1: Bytes, d2: Bytes)
    requires IsSize(|mem|) && IsIndex(|mem|, i)
    requires RecordAt(mem, i, d1) && RecordAt(mem, i, d2)
    ensures d1 == d2
  {
    assert Jumps(|mem|, i, d1) == Jumps(|mem|, i, d2);
  }

  lemma {:induction false} HoldsPrefix(mem: Bytes, i: nat, queue: seq<Bytes>, n: nat)
    requires IsSize(|mem|) && IsIndex(|mem|, i)
    requires Holds(mem, i, queue) && n <= |queue|
    ensures Holds(mem, i, queue[..n])
    decreases n
  {
    if n > 0 {
      NextIsIndex(|mem|, i, queue[0]);
      HoldsPrefix(mem, Next(|mem|, i, queue[0]), queue[1..], n - 1);
      assert queue[..n][1..] == queue[1..][..n - 1];
    }
  }

  lemma {:induction false} HoldsAppend(mem: Bytes, i: nat, queue: seq<Bytes>, data: Bytes)
    requires IsSize(|mem|) && IsIndex(|mem|, i)
    requires Holds(mem, i, queue)
    requires IsIndex(|mem|, EndIndex(|mem|, i, queue)) && RecordAt(mem, EndIndex(|mem|, i, queue), data)
    ensures Holds(mem, i, queue + [data])
    decreases |queue|
  {
    var all := queue + [data];
    if queue == [] {
      assert all[1..] == [];
    } else {
      NextIsIndex(|mem|, i, queue[0]);
      assert all[1..] == queue[1..] + [data];
      HoldsAppend(mem, Next(|mem|, i, queue[0]), queue[1..], data);
    }
  }

  // ---------- Writing outside the occupied bytes ----------

  /** How far position p lies ahead of position i on the ring. */
  function Ahead(size: nat, i: nat, p: nat): int {
    if p >= i then p - i else p - i + size
  }

  /** Two memories agree on the bytes from i on, span of them, around the ring. */
  ghost predicate AgreeOn(mem: Bytes, mem': Bytes, i: nat, span: nat) {
    && |mem| == |mem'|
    && forall p :: 0 <= p < |mem| && Ahead(|mem|, i, p) < span ==> mem[p] == mem'[p]
  }

  lemma RecordFrame(mem: Bytes, mem': Bytes, i: nat, data: Bytes)
    requires IsSize(|mem|) && IsIndex(|mem|, i)
    requires AgreeOn(mem, mem', i, Cost(|mem|, i, data)) && Cost(|mem|, i, data) <= |mem|
    requires RecordAt(mem, i, data)
    ensures RecordAt(mem', i, data)
  {
    var at := Place(|mem|, i, data);
    if Jumps(|mem|, i, data) {
      assert mem'[i..i + 4] == mem[i..i + 4];
    }
    assert mem'[at..at + 4] == mem[at..at + 4];
    assert mem'[at + 4..at + 4 + |data|] == mem[at + 4..at + 4 + |data|];
  }

  lemma AgreeOnRest(mem: Bytes, mem': Bytes, i: nat, data: Bytes, rest: nat)
    requires IsSize(|mem|) && IsIndex(|mem|, i)
    requires Cost(|mem|, i, data) + rest <= |mem|
    requires AgreeOn(mem, mem', i, Cost(|mem|, i, data) + rest)
    ensures AgreeOn(mem, mem', i, Cost(|mem|, i, data))
    ensures AgreeOn(mem, mem', Next(|mem|, i, data), rest)
  {
    var n := Next(|mem|, i, data);
    forall p | 0 <= p < |mem| && Ahead(|mem|, n, p) < rest
      ensures mem[p] == mem'[p]
    {
      assert Ahead(|mem|, i, p) < Cost(|mem|, i, data) + rest;
    }
  }

  /** Changing bytes beyond the span of a queue does not change the queue. */
  lemma {:induction false} HoldsFrame(mem: Bytes, mem': Bytes, i: nat, queue: seq<Bytes>)
    requires IsSize(|mem|) && IsIndex(|mem|, i)
    requires Span(|mem|, i, queue) <= |mem|
    requires AgreeOn(mem, mem', i, Span(|mem|, i, queue))
    requires Holds(mem, i, queue)
    ensures Holds(mem', i, queue)
    decreases |queue|
  {
    if queue != [] {
      var n := Next(|mem|, i, queue[0]);
      NextIsIndex(|mem|, i, queue[0]);
      AgreeOnRest(mem, mem', i, queue[0], Span(|mem|, n, queue[1..]));
      RecordFrame(mem, mem', i, queue[0]);
      HoldsFrame(mem, mem', n, queue[1..]);
    }
  }

  /** The end index is the start index moved by the span, around the ring. */
  lemma {:induction false} EndIsAhead(size: nat, i: nat, queue: seq<Bytes>)
    requires IsSize(size) && IsIndex(size, i)
    requires Span(size, i, queue) <= size
    ensures EndIndex(size, i, queue) == i + Span(size, i, queue)
         || EndIndex(size, i, queue) == i + Span(size, i, queue) - size
    decreases |queue|
  {
    if queue != [] {
      NextIsIndex(size, i, queue[0]);
      EndIsAhead(size, Next(size, i, queue[0]), queue[1..]);
    }
  }

  /** The bytes a write touches, the jump marker and the record, are all free. */
  lemma WriteTouchesFreeBytes(r: Ring, data: Bytes, p: nat)
    requires r.Valid() && r.Accepts(data) && p < r.size
    requires if Jumps(r.size, r.writeIndex, data)
             then p < Footprint(data) || r.writeIndex <= p
             else r.writeIndex <= p < r.writeIndex + Footprint(data)
    ensures Ahead(r.size, r.readIndex, p) >= Span(r.size, r.readIndex, r.queue)
  {
    EndIsAhead(r.size, r.readIndex, r.queue);
  }

  /** The indices and counters that Snap saves and Discard restores. */
  datatype Snapshot = Snapshot(readIndex: nat, writeIndex: nat, numberOfStoredBytes: nat, framesStored: nat)

  class RingFifoBuffer {
    const ptr: array<Byte>
    var readIndex: nat
    var writeIndex: nat
    var numberOfStoredBytes: nat
    var framesStored: nat
    var slipCounter: nat
    var snapshot: Snapshot
    ghost var Queue: seq<Bytes>
    ghost var SnapQueue: seq<Bytes>

    ghost function Value(): Ring
      reads `readIndex, `writeIndex, `numberOfStoredBytes, `Queue
    {
      Ring(ptr.Length, readIndex, writeIndex, numberOfStoredBytes, Queue)
    }

    ghost function SnapValue(): Ring
      reads `snapshot, `SnapQueue
    {
      Ring(ptr.Length, snapshot.readIndex, snapshot.writeIndex, snapshot.numberOfStoredBytes, SnapQueue)
    }

    ghost predicate Valid()
      reads `readIndex, `writeIndex, `numberOfStoredBytes, `framesStored, `Queue, ptr
    {
      && Value().Valid()
      && ptr.Length <= MAX_INT
      && framesStored == |Queue|
      && Holds(ptr[..], readIndex, Queue)
    }

    /** Nothing but writes happened since the last Snap. */
    ghost predicate SnapIntact()
      reads `readIndex, `Queue, `snapshot, `SnapQueue
    {
      && SnapValue().Valid()
      && snapshot.framesStored == |SnapQueue|
      && snapshot.readIndex == readIndex
      && SnapQueue <= Queue
    }

    constructor (bufferSizeBytes: nat)
      requires LINE / 2 < bufferSizeBytes <= 0x4000_0000
      ensures Valid()
      ensures Value() == Empty(NextPow2(bufferSizeBytes))
      ensures slipCounter == 0
      ensures fresh(ptr)
    {
      NextPow2IsLeast(bufferSizeBytes);
      ptr := new Byte[NextPow2(bufferSizeBytes)](_ => 0);
      readIndex, writeIndex, numberOfStoredBytes, framesStored, slipCounter := 0, 0, 0, 0, 0;
      snapshot := Snapshot(0, 0, 0, 0);
      Queue, SnapQueue := [], [];
    }

    method Snap()
      requires Valid()
      modifies `snapshot, `SnapQueue
      ensures Valid() && Value() == old(Value())
      ensures SnapIntact() && SnapValue() == Value()
    {
      snapshot := Snapshot(readIndex, writeIndex, numberOfStoredBytes, framesStored);
      SnapQueue := Queue;
    }

    /** The indices go back and the bytes stay, yet the old queue is back. */
    method Discard()
      requires Valid() && SnapIntact()
      modifies `readIndex, `writeIndex, `numberOfStoredBytes, `framesStored, `Queue
      ensures Valid()
      ensures Value() == SnapValue() == old(SnapValue())
    {
      HoldsPrefix(ptr[..], readIndex, Queue, |SnapQueue|);
      assert Queue[..|SnapQueue|] == SnapQueue;
      readIndex := snapshot.readIndex;
      writeIndex := snapshot.writeIndex;
      numberOfStoredBytes := snapshot.numberOfStoredBytes;
      framesStored := snapshot.framesStored;
      Queue := SnapQueue;
    }

    method Write(data: Bytes) returns (rv: nat)
      requires Valid() && |data| <= MAX_DATA
      modifies `writeIndex, `numberOfStoredBytes, `framesStored, `Queue, ptr
      ensures Valid()
      ensures Value() == old(Value()).Write(data)
      ensures rv == if old(Value()).Accepts(data) then |data| else 0
      ensures old(SnapIntact()) ==> SnapIntact()
    {
      hide Aligned, EndIndex, Span, Holds, Ring.Valid, LittleEndian, FromLittleEndian;
      rv := 0;
      ghost var ring := Value();
      IndicesInRange(ring);
      if |data| > 0 {
        var bufferSize := ptr.Length;
        var at := writeIndex;
        var bytes := numberOfStoredBytes;
        var firstRunMaxLength := bufferSize - at;
        var capacity := bufferSize - bytes;
        var decrement := Aligned(|data| + 4);
        if (firstRunMaxLength >= decrement && capacity >= decrement) ||
           (firstRunMaxLength < decrement && capacity >= decrement + firstRunMaxLength)
        {
          WriteFields(ring, data);
          NextIsComputed(ring.size, ring.writeIndex, data);
          rv := |data|;
          PutRecord(data, firstRunMaxLength < decrement);
          if firstRunMaxLength < decrement {
            at := 0;
            bytes := bytes + decrement + firstRunMaxLength;
          } else {
            bytes := bytes + decrement;
          }
          at := Aligned(at + 4 + |data|);
          writeIndex := if at >= bufferSize - 4 then 0 else at;
          numberOfStoredBytes := bytes;
          framesStored := framesStored + 1;
          Queue := Queue + [data];
          IndicesInRange(ring.Write(data));
          assert Value() == ring.Write(data);
        }
      }
    }

    /** The stores of a write: the jump marker if there is one, the length field, the data. */
    method PutRecord(data: Bytes, jump: bool)
      requires Valid() && Value().Accepts(data) && |data| <= MAX_DATA
      requires jump == Jumps(ptr.Length, writeIndex, data)
      modifies ptr
      ensures IsSize(ptr.Length) && IsIndex(ptr.Length, readIndex)
      ensures Holds(ptr[..], readIndex, Queue + [data])
    {
      hide Aligned, EndIndex, Span, Holds, Ring.Valid, LittleEndian, FromLittleEndian;
      ghost var before := ptr[..];
      IndicesInRange(Value());
      WriteFields(Value(), data);
      if jump {
        MarkJump(writeIndex);
      }
      ghost var marked := ptr[..];
      StoreRecord(if jump then 0 else writeIndex, data);
      ProveStored(Value(), before, marked, ptr[..], data);
    }

    /** A zero length field: the next record is at the start of the array. */
    method MarkJump(at: nat)
      requires at + 4 <= ptr.Length
      modifies ptr
      ensures Header(ptr[..], at) == 0
      ensures forall k :: 0 <= k < ptr.Length && !(at <= k < at + 4) ==> ptr[k] == old(ptr[k])
    {
      forall k | at <= k < at + 4 { ptr[k] := 0; }
      LittleEndianZero(ptr[..][at..at + 4]);
    }

    method StoreRecord(at: nat, data: Bytes)
      requires at + 4 + |data| <= ptr.Length <= MAX_INT
      modifies ptr
      ensures Header(ptr[..], at) == |data|
      ensures ptr[..][at + 4..at + 4 + |data|] == data
      ensures forall k :: 0 <= k < ptr.Length && !(at <= k < at + 4 + |data|) ==> ptr[k] == old(ptr[k])
    {
      Pow256Values();
      var ulen := LittleEndian(|data|, 4);
      LittleEndianInverse(|data|, 4);
      forall k | 0 <= k < 4 { ptr[at + k] := ulen[k]; }
      forall k | 0 <= k < |data| { ptr[at + 4 + k] := data[k]; }
      assert ptr[..][at..at + 4] == ulen;
    }

    /** Returns the number of bytes and the bytes that go to the caller's buffer. */
    method Read() returns (rv: nat, data: Bytes)
      requires Valid()
      modifies `readIndex, `numberOfStoredBytes, `framesStored, `Queue
      ensures Valid()
      ensures Value() == old(Value()).Read()
      ensures data == if old(Queue) == [] then [] else old(Queue)[0]
      ensures rv == |data|
    {
      hide Aligned, EndIndex, Span, Holds, Ring.Valid;
      rv, data := 0, [];
      ghost var ring := Value();
      IndicesInRange(ring);
      ReadIsDequeue(ring);
      IndicesInRange(ring.Read());
      var frames := framesStored;
      var bytes: int := numberOfStoredBytes;
      if frames > 0 {
        ReadFields(ring);
        RestHeld(ring, ptr[..]);
        NextIsComputed(ring.size, ring.readIndex, ring.queue[0]);
        var at, ulen, jump := LocateHead();
        if jump {
          bytes := bytes - (ptr.Length - Aligned(readIndex));
        } else {
          bytes := bytes - Aligned(ulen + 4);
        }
        frames := frames - 1;
        if bytes != 0 && frames == 0 {
          bytes := 0;
        }
        assert bytes == ring.StoredAfterRead();
        data := ptr[at + 4..at + 4 + ulen];
        at := Aligned(at + 4 + ulen);
        readIndex := if at >= ptr.Length - 4 then 0 else at;
        numberOfStoredBytes := bytes;
        framesStored := frames;
        Queue := Queue[1..];
        rv := ulen;
        assert Value() == ring.Read();
      }
    }

    /** Where the head record is and how long, as its length field tells. */
    method LocateHead() returns (at: nat, ulen: nat, jump: bool)
      requires Valid() && framesStored > 0
      ensures jump == Value().HeadJumps()
      ensures at == Place(ptr.Length, readIndex, Queue[0])
      ensures ulen == |Queue[0]|
      ensures Aligned(readIndex) == readIndex
      ensures at + 4 + ulen <= ptr.Length && ptr[at + 4..at + 4 + ulen] == Queue[0]
    {
      hide Aligned, EndIndex, Span, Holds, Ring.Valid, FromLittleEndian;
      HeadFields(Value(), ptr[..]);
      at := Aligned(readIndex);
      ulen := FromLittleEndian(ptr[at..at + 4]);
      jump := ulen == 0;
      if jump {
        at := 0;
        ulen := FromLittleEndian(ptr[0..4]);
      }
    }

    method GetCapacity() returns (capacity: int)
      modifies `slipCounter
      ensures capacity == Value().Capacity()
      ensures slipCounter == old(slipCounter) + if capacity < PUSHBACK then 1 else 0
    {
      capacity := ptr.Length - numberOfStoredBytes;
      if capacity < PUSHBACK {
        slipCounter := slipCounter + 1;
      }
    }
  }

  lemma AlignedShift(i: nat, n: nat)
    requires i % LINE == 0
    ensures Aligned(i + n) == i + Aligned(n)
  {}

  /** The index after a record, as the methods compute it. */
  lemma NextIsComputed(size: nat, i: nat, data: Bytes)
    requires IsSize(size) && IsIndex(size, i)
    ensures var end := Aligned(Place(size, i, data) + 4 + |data|);
            Next(size, i, data) == if end >= size - 4 then 0 else end
  {
    AlignedShift(Place(size, i, data), |data| + 4);
  }

  /** What the length fields in memory tell a read. */
  lemma HeadFields(r: Ring, mem: Bytes)
    requires r.Valid() && r.queue != [] && |mem| == r.size
    requires Holds(mem, r.readIndex, r.queue)
    ensures Aligned(r.readIndex) == r.readIndex && r.readIndex + 4 <= r.size
    ensures Header(mem, r.readIndex) == 0 <==> r.HeadJumps()
    ensures var at := Place(r.size, r.readIndex, r.queue[0]);
            && at + 4 + |r.queue[0]| <= r.size
            && Header(mem, at) == |r.queue[0]|
            && mem[at + 4..at + 4 + |r.queue[0]|] == r.queue[0]
  {
    AlignedShift(r.readIndex, 0);
  }

  lemma RestHeld(r: Ring, mem: Bytes)
    requires r.Valid() && r.queue != [] && |mem| == r.size
    requires Holds(mem, r.readIndex, r.queue)
    ensures r.Read().Valid()
    ensures r.Read().size == r.size && r.Read().queue == r.queue[1..]
    ensures Holds(mem, r.Read().readIndex, r.Read().queue)
  {
    ReadIsDequeue(r);
  }

  lemma ReadFields(r: Ring)
    requires r.Valid() && r.queue != []
    ensures r.Read() == Ring(r.size, Next(r.size, r.readIndex, r.queue[0]), r.writeIndex,
                             r.StoredAfterRead(), r.queue[1..])
    ensures 0 <= if r.HeadJumps() then r.stored - (r.size - r.readIndex) else r.stored - Footprint(r.queue[0])
  {
    NextIsIndex(r.size, r.readIndex, r.queue[0]);
    r.ReadKeepsStored();
  }

  lemma IndicesInRange(r: Ring)
    requires r.Valid()
    ensures IsSize(r.size) && IsIndex(r.size, r.readIndex) && IsIndex(r.size, r.writeIndex)
    ensures r.queue == [] ==> r.stored == 0
    ensures r.stored <= r.size
  {}

  lemma WriteFields(r: Ring, data: Bytes)
    requires r.Valid() && r.Accepts(data)
    ensures r.Write(data).Valid()
    ensures Place(r.size, r.writeIndex, data) + Footprint(data) <= r.size
    ensures r.writeIndex + 4 <= r.size
    ensures r.Write(data) == Ring(r.size, r.readIndex, Next(r.size, r.writeIndex, data),
                                  r.stored + Cost(r.size, r.writeIndex, data), r.queue + [data])
  {
    WriteIsEnqueue(r, data);
  }

  /** The memory before a write, with the jump marker set, and after the write. */
  ghost predicate Written(r: Ring, before: Bytes, marked: Bytes, after: Bytes, data: Bytes)
    requires r.writeIndex + 4 <= r.size && Place(r.size, r.writeIndex, data) + Footprint(data) <= r.size
    requires |before| == |marked| == |after| == r.size
  {
    var at := Place(r.size, r.writeIndex, data);
    && (if Jumps(r.size, r.writeIndex, data)
        then Header(marked, r.writeIndex) == 0 &&
             forall p :: 0 <= p < r.size && !(r.writeIndex <= p < r.writeIndex + 4) ==> marked[p] == before[p]
        else marked == before)
    && Header(after, at) == |data|
    && after[at + 4..at + 4 + |data|] == data
    && forall p :: 0 <= p < r.size && !(at <= p < at + 4 + |data|) ==> after[p] == marked[p]
  }

  lemma WrittenRecord(r: Ring, before: Bytes, marked: Bytes, after: Bytes, data: Bytes)
    requires r.Valid() && r.Accepts(data) && |before| == |marked| == |after| == r.size
    requires r.writeIndex + 4 <= r.size && Place(r.size, r.writeIndex, data) + Footprint(data) <= r.size
    requires Written(r, before, marked, after, data)
    ensures RecordAt(after, r.writeIndex, data)
  {
    var w := r.writeIndex;
    if Jumps(r.size, w, data) {
      assert after[w..w + 4] == marked[w..w + 4];
    }
  }

  lemma WrittenFrame(r: Ring, before: Bytes, marked: Bytes, after: Bytes, data: Bytes)
    requires r.Valid() && r.Accepts(data) && |before| == |marked| == |after| == r.size
    requires r.writeIndex + 4 <= r.size && Place(r.size, r.writeIndex, data) + Footprint(data) <= r.size
    requires Written(r, before, marked, after, data)
    ensures AgreeOn(before, after, r.readIndex, Span(r.size, r.readIndex, r.queue))
  {
    forall p | 0 <= p < r.size && before[p] != after[p]
      ensures Ahead(r.size, r.readIndex, p) >= Span(r.size, r.readIndex, r.queue)
    {
      WriteTouchesFreeBytes(r, data, p);
    }
  }

  lemma ProveStored(r: Ring, before: Bytes, marked: Bytes, after: Bytes, data: Bytes)
    requires r.Valid() && r.Accepts(data) && |before| == |marked| == |after| == r.size
    requires Holds(before, r.readIndex, r.queue)
    requires r.writeIndex + 4 <= r.size && Place(r.size, r.writeIndex, data) + Footprint(data) <= r.size
    requires Written(r, before, marked, after, data)
    ensures Holds(after, r.readIndex, r.queue + [data])
  {
    WrittenRecord(r, before, marked, after, data);
    WrittenFrame(r, before, marked, after, data);
    HoldsFrame(before, after, r.readIndex, r.queue);
    HoldsAppend(after, r.readIndex, r.queue, data);
  }
}
