/**
 NetworkReceiverImplementationEFVI: the pool of packet buffers, the refill of the
 hardware's receive ring, and the reassembly of packets into ring 0.

 The ef_vi library is the environment: it holds the buffers posted to it and
 hands back events for some of them.  Packet buffers are addressed by their ids,
 as GetPktBufPtrFromId computes them; the pool is a list linked through the
 buffers' next fields, with -1 for NULL.
 */
module EfviReceiver {
  import opened Bytes
  import opened RingQueue
  import opened RingFifoBuffer
  import opened CommonData
  import opened Reassembly

  const REFILL_BATCH_SIZE := 16

  // ---------- Buffer ids ----------

  ghost function AllIds(num: nat): multiset<int> {
    if num == 0 then multiset{} else AllIds(num - 1) + multiset{num - 1}
  }

  lemma {:induction false} AllIdsOnce(num: nat, id: int)
    ensures AllIds(num)[id] == if 0 <= id < num then 1 else 0
  {
    if num > 0 {
      AllIdsOnce(num - 1, id);
    }
  }

  lemma {:induction false} AllIdsSize(num: nat)
    ensures |AllIds(num)| == num
  {
    if num > 0 {
      AllIdsSize(num - 1);
    }
  }

  /** From head, the next fields run through exactly these ids and end in NULL. */
  ghost predicate Linked(next: seq<int>, head: int, pool: seq<int>)
    decreases |pool|
  {
    if pool == [] then head == -1
    else head == pool[0] && 0 <= head < |next| && Linked(next, next[head], pool[1..])
  }

  lemma {:induction false} LinkedFrame(next: seq<int>, next': seq<int>, head: int, pool: seq<int>)
    requires |next| == |next'| && Linked(next, head, pool)
    requires forall id :: id in pool && 0 <= id < |next| ==> next'[id] == next[id]
    ensures Linked(next', head, pool)
    decreases |pool|
  {
    if pool != [] {
      assert pool[0] in pool;
      LinkedFrame(next, next', next[head], pool[1..]);
    }
  }

  lemma {:induction false} LinkedInRange(next: seq<int>, head: int, pool: seq<int>)
    requires Linked(next, head, pool)
    ensures forall id :: id in pool ==> 0 <= id < |next|
    decreases |pool|
  {
    if pool != [] {
      LinkedInRange(next, next[head], pool[1..]);
      assert pool == [pool[0]] + pool[1..];
    }
  }

  /** Every buffer is in the pool, posted to the hardware, or in an event being handled: exactly once. */
  ghost predicate Conserved(num: nat, pool: seq<int>, posted: multiset<int>, inFlight: multiset<int>) {
    multiset(pool) + posted + inFlight == AllIds(num)
  }

  /** Conservation makes the pool duplicate-free and gives its length. */
  lemma ConservedCounts(num: nat, pool: seq<int>, posted: multiset<int>, inFlight: multiset<int>)
    requires Conserved(num, pool, posted, inFlight)
    ensures |pool| + |posted| + |inFlight| == num
    ensures forall i, j :: 0 <= i < j < |pool| ==> pool[i] != pool[j]
    ensures forall id :: id in posted || id in inFlight ==> 0 <= id < num && id !in pool
    ensures forall id :: id in posted ==> id !in inFlight
  {
    AllIdsSize(num);
    assert |multiset(pool) + posted + inFlight| == |pool| + |posted| + |inFlight|;
    forall i, j | 0 <= i < j < |pool|
      ensures pool[i] != pool[j]
    {
      if pool[i] == pool[j] {
        AllIdsOnce(num, pool[i]);
        TwiceInPool(pool, i, j);
        assert false;
      }
    }
    forall id | id in posted || id in inFlight
      ensures 0 <= id < num && id !in pool && !(id in posted && id in inFlight)
    {
      AllIdsOnce(num, id);
      assert id in pool <==> multiset(pool)[id] >= 1;
    }
  }

  lemma TwiceInPool(pool: seq<int>, i: nat, j: nat)
    requires i < j < |pool| && pool[i] == pool[j]
    ensures multiset(pool)[pool[i]] >= 2
  {
    assert pool == pool[..j] + pool[j..];
    assert pool[j] == pool[j..][0] && pool[i] == pool[..j][i];
    assert pool[j] in multiset(pool[j..]) && pool[i] in multiset(pool[..j]);
  }

  /** The buffer ids of the events that carry one. */
  function EventIds(num: nat, events: seq<Event>): multiset<int> {
    if events == [] then multiset{} else
      (match events[0]
       case Rx(id, _, _, _, _) => if InPool(num, id) then multiset{id} else multiset{}
       case RxDiscard(id) => multiset{id}
       case Unexpected => multiset{}) + EventIds(num, events[1..])
  }

  class EfviReceiver {
    const common: CommonData
    const ring0: RingFifoBuffer
    // Packet buffers: how many, and the next field of each.
    const num: nat
    const maxFillLevel: nat
    const next: array<int>
    var freePool: int
    var freePoolN: int
    // Buffers the hardware holds, as ef_vi_receive_fill_level reports.
    var fillLevel: nat
    // The jumbo structure.
    var inPkt: bool
    const bufIds: array<int>
    const fragDataLen: array<int>
    const data: array<Byte>
    var nFrags: nat
    var payloadBytes: nat
    // The ids in the pool, in list order; those the hardware holds; those in events not yet handled.
    ghost var Pool: seq<int>
    ghost var Posted: multiset<int>
    ghost var InFlight: multiset<int>

    ghost predicate PoolOk()
      reads `freePool, `freePoolN, `fillLevel, `Pool, `Posted, `InFlight, next
    {
      && next.Length == num
      && Linked(next[..], freePool, Pool)
      && freePoolN == |Pool|
      && Conserved(num, Pool, Posted, InFlight)
      && REFILL_BATCH_SIZE <= maxFillLevel <= num
      && fillLevel == |Posted| <= maxFillLevel
    }

    ghost predicate JumboOk()
      reads `inPkt, `nFrags, `payloadBytes
    {
      && bufIds.Length == fragDataLen.Length == MAX_PKT_FRAGS
      && bufIds != fragDataLen && next != bufIds && next != fragDataLen
      && data.Length == JUMBO_SIZE && data != ring0.ptr
      && payloadBytes <= JUMBO_SIZE && (inPkt ==> nFrags < MAX_PKT_FRAGS)
    }

    ghost function Packet(): Jumbo
      requires JumboOk()
      reads `inPkt, `nFrags, `payloadBytes, data
    {
      Jumbo(inPkt, data[..payloadBytes], nFrags)
    }

    constructor (common: CommonData, ring0: RingFifoBuffer, num: nat, maxFillLevel: nat)
      requires REFILL_BATCH_SIZE <= maxFillLevel <= num
      ensures PoolOk() && JumboOk() && InFlight == multiset{}
      ensures this.common == common && this.ring0 == ring0 && this.num == num && this.maxFillLevel == maxFillLevel
      ensures Packet() == NO_PACKET
      ensures fresh(next) && fresh(bufIds) && fresh(fragDataLen) && fresh(data)
      ensures bufIds.Length == fragDataLen.Length == 7 && data.Length == 9000
    {
      this.common, this.ring0, this.num, this.maxFillLevel := common, ring0, num, maxFillLevel;
      next := new int[num](_ => -1);
      freePool, freePoolN, fillLevel := -1, 0, 0;
      inPkt, nFrags, payloadBytes := false, 0, 0;
      bufIds := new int[MAX_PKT_FRAGS](_ => 0);
      fragDataLen := new int[MAX_PKT_FRAGS](_ => 0);
      data := new Byte[JUMBO_SIZE](_ => 0);
      Pool, Posted, InFlight := [], multiset{}, multiset{};
      new;
      InitPktsMemory();
      RefillRxRing();
    }

    /** Partition the packet memory into a list of free buffers. */
    method InitPktsMemory()
      requires next.Length == num && Pool == [] && freePool == -1 && freePoolN == 0
      modifies `freePool, `freePoolN, `Pool, next
      ensures Linked(next[..], freePool, Pool) && freePoolN == |Pool|
      ensures Conserved(num, Pool, multiset{}, multiset{})
    {
      var i, retVal := 0, 0;
      while retVal == 0 && i < num
        invariant 0 <= i <= num && retVal == 0
        invariant Linked(next[..], freePool, Pool) && freePoolN == |Pool|
        invariant multiset(Pool) == AllIds(i)
      {
        AllIdsOnce(i, i);
        assert i in Pool <==> multiset(Pool)[i] >= 1;
        retVal := ConfigBuffer(i);
        i := i + 1;
      }
    }

    /** Put a buffer that is not in the pool at the head of the list. */
    method Push(id: int)
      requires next.Length == num && InPool(num, id) && id !in Pool
      requires Linked(next[..], freePool, Pool) && freePoolN == |Pool|
      modifies `freePool, `freePoolN, `Pool, next
      ensures Linked(next[..], freePool, Pool) && freePoolN == |Pool|
      ensures Pool == [id] + old(Pool)
    {
      ghost var before := next[..];
      next[id] := freePool;
      LinkedFrame(before, next[..], freePool, Pool);
      freePool := id;
      freePoolN := freePoolN + 1;
      Pool := [id] + Pool;
      assert Pool[1..] == old(Pool);
    }

    method ConfigBuffer(bufferNumber: int) returns (rv: int)
      requires next.Length == num && bufferNumber !in Pool
      requires Linked(next[..], freePool, Pool) && freePoolN == |Pool|
      modifies `freePool, `freePoolN, `Pool, next
      ensures Linked(next[..], freePool, Pool) && freePoolN == |Pool|
      ensures rv == if InPool(num, bufferNumber) then 0 else -1
      ensures Pool == if InPool(num, bufferNumber) then [bufferNumber] + old(Pool) else old(Pool)
    {
      rv := 0;
      if 0 <= bufferNumber < num {
        Push(bufferNumber);
      } else {
        rv := -1;
      }
    }

    /** Back to the pool from an event that has been handled. */
    method PktBufFree(id: int)
      requires PoolOk() && id in InFlight
      modifies `freePool, `freePoolN, `Pool, `InFlight, next
      ensures PoolOk()
      ensures Pool == [id] + old(Pool) && InFlight == old(InFlight) - multiset{id}
    {
      ConservedCounts(num, Pool, Posted, InFlight);
      Push(id);
      InFlight := InFlight - multiset{id};
    }

    /** Post the head of the pool to the hardware. */
    method PostOne()
      requires PoolOk() && Pool != [] && fillLevel < maxFillLevel
      modifies `freePool, `freePoolN, `fillLevel, `Pool, `Posted
      ensures PoolOk()
      ensures Pool == old(Pool)[1..] && fillLevel == old(fillLevel) + 1
      ensures Posted == old(Posted) + multiset{old(freePool)}
    {
      var pktBuf := freePool;
      freePool := next[freePool];
      freePoolN := freePoolN - 1;
      assert Pool == [pktBuf] + Pool[1..];
      Pool := Pool[1..];
      fillLevel := fillLevel + 1;
      Posted := Posted + multiset{pktBuf};
    }

    /**
     Keep the hardware supplied: an empty list is never popped, the receive ring
     is never overfilled, the loop ends, and no more than one batch is missing
     afterwards.
     */
    method RefillRxRing()
      requires PoolOk() && InFlight == multiset{}
      modifies `freePool, `freePoolN, `fillLevel, `Pool, `Posted
      ensures PoolOk()
      ensures old(fillLevel) <= fillLevel <= maxFillLevel
      ensures maxFillLevel - fillLevel <= 16
    {
      var refillLevel := maxFillLevel - REFILL_BATCH_SIZE;
      if maxFillLevel - fillLevel < REFILL_BATCH_SIZE {
        return;
      }
      var more := true;
      while more
        invariant PoolOk() && old(fillLevel) <= fillLevel
        invariant more ==> fillLevel <= refillLevel
        invariant !more ==> fillLevel >= refillLevel
        decreases more, maxFillLevel - fillLevel
      {
        PostBatch();
        more := fillLevel < refillLevel;
      }
    }

    method PostBatch()
      requires PoolOk() && InFlight == multiset{} && fillLevel + REFILL_BATCH_SIZE <= maxFillLevel
      modifies `freePool, `freePoolN, `fillLevel, `Pool, `Posted
      ensures PoolOk() && fillLevel == old(fillLevel) + REFILL_BATCH_SIZE
    {
      var i := 0;
      while i < REFILL_BATCH_SIZE
        invariant 0 <= i <= REFILL_BATCH_SIZE
        invariant PoolOk() && fillLevel == old(fillLevel) + i
      {
        ConservedCounts(num, Pool, Posted, InFlight);
        PostOne();
        i := i + 1;
      }
    }

    // ---------- Events ----------

    /** The next event's buffer is one the hardware has given back, and the packet fits. */
    ghost predicate CanHandle(ev: Event)
      requires JumboOk()
      reads `inPkt, `nFrags, `payloadBytes, `InFlight, data
    {
      match ev
      case Rx(id, _, _, _, _) =>
        InPool(num, id) && !OutOfStep(Packet(), ev) ==> id in InFlight && WithinLimits(Packet(), ev)
      case RxDiscard(id) => id in InFlight
      case Unexpected => true
    }

    /** One fragment: into the packet in progress, and the whole packet into ring 0 when it is complete. */
    method HandleRxEventAccept(ev: Event) returns (rv: int, spinning: bool)
      requires PoolOk() && JumboOk() && ring0.Valid() && ev.Rx? && CanHandle(ev)
      modifies `inPkt, `nFrags, `payloadBytes, `freePool, `freePoolN, `Pool, `InFlight, next, bufIds, fragDataLen, data
      modifies ring0`writeIndex, ring0`numberOfStoredBytes, ring0`framesStored, ring0`Queue, ring0.ptr
      ensures PoolOk() && JumboOk() && ring0.Valid()
      ensures rv == 0 <==> InPool(num, ev.id) && !OutOfStep(old(Packet()), ev)
      ensures rv != 0 ==>
        && !spinning && Packet() == old(Packet())
        && ring0.Value() == old(ring0.Value()) && InFlight == old(InFlight)
      ensures rv == 0 && !spinning ==>
        && Packet() == Accepted(old(Packet()), ev)
        && InFlight == old(InFlight) - multiset{ev.id}
        && ring0.Value() == if ev.isCont then old(ring0.Value()) else old(ring0.Value()).Write(Packet().payload)
      ensures spinning <==> rv == 0 && !ev.isCont && !old(ring0.Value()).Accepts(Accepted(old(Packet()), ev).payload)
    {
      hide Ring.Valid, Holds, PoolOk, WithinLimits;
      rv, spinning := 0, false;
      if !(0 <= ev.id < num) {
        rv := -1;
        return;
      }
      if (ev.isStart && inPkt) || (!ev.isStart && !inPkt) {
        rv := -1;
        return;
      }
      ghost var before := Packet();
      AddFragment(ev);
      if !ev.isCont {
        var written := ring0.Write(data[..payloadBytes]);
        if written == 0 {
          spinning := true;
          return;
        }
        inPkt := false;
      }
      PktBufFree(ev.id);
    }

    /** Copy the fragment's bytes behind those of the packet in progress, or start a packet with them. */
    method AddFragment(ev: Event)
      requires JumboOk() && ev.Rx? && !OutOfStep(Packet(), ev) && WithinLimits(Packet(), ev)
      modifies `inPkt, `nFrags, `payloadBytes, bufIds, fragDataLen, data
      ensures JumboOk()
      ensures Packet() == Accepted(old(Packet()), ev).(inPkt := true)
    {
      if ev.isStart {
        inPkt := true;
        bufIds[0] := ev.id;
        fragDataLen[0] := ev.received - UDP_HEADER_LEN;
        payloadBytes := ev.received - UDP_HEADER_LEN;
        nFrags := 0;
        forall k | 0 <= k < fragDataLen[0] { data[k] := ev.content[UDP_HEADER_LEN + k]; }
      } else {
        nFrags := nFrags + 1;
        bufIds[nFrags] := ev.id;
        fragDataLen[nFrags] := ev.received - UDP_HEADER_LEN - payloadBytes;
        var length := fragDataLen[nFrags];
        forall k | 0 <= k < length { data[payloadBytes + k] := ev.content[k]; }
        payloadBytes := payloadBytes + length;
      }
    }

    method HandleRxEventDiscard(ev: Event) returns (rv: int)
      requires PoolOk() && ev.RxDiscard? && ev.id in InFlight
      modifies `freePool, `freePoolN, `Pool, `InFlight, next
      ensures PoolOk() && rv == 0
      ensures InFlight == old(InFlight) - multiset{ev.id}
    {
      PktBufFree(ev.id);
      rv := 0;
    }

    /** The hardware has handed back the buffers of these events. */
    method TakeEvents(events: seq<Event>)
      requires PoolOk() && InFlight == multiset{} && EventIds(num, events) <= Posted
      modifies `fillLevel, `Posted, `InFlight
      ensures PoolOk() && InFlight == EventIds(num, events)
    {
      hide EventIds, Linked, Conserved;
      MoveOut(num, Pool, Posted, EventIds(num, events));
      fillLevel := fillLevel - |EventIds(num, events)|;
      InFlight := EventIds(num, events);
      Posted := Posted - InFlight;
    }

    /** Handle the first of the remaining events; packet is the packet it completes, if any. */
    method HandleEvent(events: seq<Event>) returns (rv: int, spinning: bool, ghost packet: seq<Bytes>)
      requires PoolOk() && JumboOk() && ring0.Valid() && events != []
      requires EventsOk(num, Packet(), events) && InFlight == EventIds(num, events)
      modifies `inPkt, `nFrags, `payloadBytes, `freePool, `freePoolN, `Pool, `InFlight, next, bufIds, fragDataLen, data
      modifies ring0`writeIndex, ring0`numberOfStoredBytes, ring0`framesStored, ring0`Queue, ring0.ptr
      ensures PoolOk() && JumboOk() && ring0.Valid() && |packet| <= 1
      ensures rv != 0 ==>
        && !spinning && Packet() == old(Packet()) && ring0.Value() == old(ring0.Value())
        && Poll(num, old(Packet()), events) == Polled(Packet(), [], true)
      ensures rv == 0 && !spinning ==>
        && EventsOk(num, Packet(), events[1..]) && InFlight == EventIds(num, events[1..])
        && Poll(num, old(Packet()), events) == Continued(packet, Poll(num, Packet(), events[1..]))
        && (packet != [] ==> old(ring0.Value()).Accepts(packet[0]))
        && ring0.Value() == if packet == [] then old(ring0.Value()) else old(ring0.Value()).Write(packet[0])
      ensures spinning ==>
        && rv == 0 && packet != [] && packet <= Poll(num, old(Packet()), events).packets
        && !old(ring0.Value()).Accepts(packet[0])
    {
      hide Ring.Valid, Holds, Linked, Conserved, WithinLimits, EventsOk, Poll, EventIds;
      PollStep(num, Packet(), events);
      rv, spinning, packet := 0, false, [];
      if events[0].Rx? {
        if Handled(num, Packet(), events[0]) && !events[0].isCont {
          packet := [Accepted(Packet(), events[0]).payload];
        }
        assert Handled(num, Packet(), events[0]) ==> events[0].id in EventIds(num, events);
        rv, spinning := HandleRxEventAccept(events[0]);
      } else if events[0].RxDiscard? {
        rv := HandleRxEventDiscard(events[0]);
      } else {
        rv := -1;
      }
    }

    /** Handle the events of one poll until one fails, and refill when none did. */
    method IterateInternal(events: seq<Event>) returns (rv: int, spinning: bool)
      requires PoolOk() && JumboOk() && ring0.Valid() && InFlight == multiset{}
      requires EventsOk(num, Packet(), events) && EventIds(num, events) <= Posted
      modifies `inPkt, `nFrags, `payloadBytes, `freePool, `freePoolN, `fillLevel, `Pool, `Posted, `InFlight
      modifies next, bufIds, fragDataLen, data
      modifies ring0`writeIndex, ring0`numberOfStoredBytes, ring0`framesStored, ring0`Queue, ring0.ptr
      ensures PoolOk() && JumboOk() && ring0.Valid()
      ensures rv == 0 && !spinning ==> InFlight == multiset{} && maxFillLevel - fillLevel <= REFILL_BATCH_SIZE
      ensures var p := Poll(num, old(Packet()), events);
              && (spinning <==> !AllAccepted(old(ring0.Value()), p.packets))
              && (!spinning ==>
                    && (rv != 0 <==> p.failed)
                    && Packet() == p.jumbo
                    && ring0.Value() == WriteAll(old(ring0.Value()), p.packets))
    {
      hide Ring.Valid, Holds, PoolOk, EventsOk, Poll, AllAccepted, WriteAll, EventIds;
      rv, spinning := 0, false;
      ghost var start, whole := ring0.Value(), Poll(num, Packet(), events);
      ghost var done: seq<Bytes> := [];
      NothingDone(start, whole);
      TakeEvents(events);
      var i := 0;
      assert events[0..] == events;
      assert Packet() == old(Packet());
      while rv == 0 && i < |events|
        invariant 0 <= i <= |events|
        invariant PoolOk() && JumboOk() && ring0.Valid()
        invariant AllAccepted(start, done) && ring0.Value() == WriteAll(start, done)
        invariant rv == 0 ==> EventsOk(num, Packet(), events[i..]) && InFlight == EventIds(num, events[i..])
        invariant rv == 0 ==> whole == Continued(done, Poll(num, Packet(), events[i..]))
        invariant rv != 0 ==> whole == Polled(Packet(), done, true)
        decreases |events| - i
      {
        ghost var packet;
        assert events[i..][1..] == events[i + 1..];
        rv, spinning, packet := HandleEvent(events[i..]);
        if packet == [] {
          assert done + packet == done;
        } else {
          assert packet == [packet[0]];
          WriteAllLast(start, done, packet[0]);
        }
        if spinning {
          StoppedShort(start, done + [packet[0]], whole.packets);
          return;
        }
        if rv == 0 {
          ContinuedTwice(done, packet, Poll(num, Packet(), events[i + 1..]));
          done := done + packet;
        }
        i := i + 1;
      }
      if rv == 0 {
        assert events[i..] == [];
        PollEnd(num, Packet(), events[i..]);
        assert done + [] == done;
        RefillRxRing();
      }
    }

    /** Poll the hardware only when ring 0 has room; an error stops the program. */
    method Iterate(events: seq<Event>) returns (spinning: bool)
      requires PoolOk() && JumboOk() && ring0.Valid() && InFlight == multiset{}
      requires EventsOk(num, Packet(), events) && EventIds(num, events) <= Posted
      modifies `inPkt, `nFrags, `payloadBytes, `freePool, `freePoolN, `fillLevel, `Pool, `Posted, `InFlight
      modifies next, bufIds, fragDataLen, data, common`applicationRunFlag
      modifies ring0`writeIndex, ring0`numberOfStoredBytes, ring0`framesStored, ring0`Queue, ring0`slipCounter
      modifies ring0.ptr
      ensures PoolOk() && JumboOk() && ring0.Valid()
      ensures !spinning && common.applicationRunFlag ==> InFlight == multiset{}
      ensures var open := old(ring0.Value()).Capacity() >= PUSHBACK;
              var p := Poll(num, old(Packet()), events);
              && (spinning <==> open && !AllAccepted(old(ring0.Value()), p.packets))
              && (!spinning ==>
                    && Packet() == (if open then p.jumbo else old(Packet()))
                    && ring0.Value() == (if open then WriteAll(old(ring0.Value()), p.packets) else old(ring0.Value()))
                    && common.applicationRunFlag == (old(common.applicationRunFlag) && !(open && p.failed)))
    {
      hide Ring.Valid, Holds, Linked, Conserved, EventsOk, Poll, AllAccepted, WriteAll;
      spinning := false;
      var capacity := ring0.GetCapacity();
      assert ring0.Valid() && ring0.Value() == old(ring0.Value()) && Packet() == old(Packet());
      if capacity >= PUSHBACK {
        var rv;
        rv, spinning := IterateInternal(events);
        if !spinning && rv != 0 {
          common.applicationRunFlag := false;
        }
      }
    }
  }

  lemma MoveOut(num: nat, pool: seq<int>, posted: multiset<int>, ids: multiset<int>)
    requires Conserved(num, pool, posted, multiset{}) && ids <= posted
    ensures |posted - ids| == |posted| - |ids| && Conserved(num, pool, posted - ids, ids)
  {
    assert posted == (posted - ids) + ids;
  }

  /** What a poll gives when some packets were already done. */
  function Continued(done: seq<Bytes>, rest: Polled): Polled {
    Polled(rest.jumbo, done + rest.packets, rest.failed)
  }

  lemma ContinuedTwice(done: seq<Bytes>, packet: seq<Bytes>, rest: Polled)
    ensures Continued(done, Continued(packet, rest)) == Continued(done + packet, rest)
  {
    assert done + (packet + rest.packets) == done + packet + rest.packets;
  }

  lemma NothingDone(start: Ring, whole: Polled)
    requires start.Valid()
    ensures AllAccepted(start, []) && WriteAll(start, []) == start
    ensures Continued([], whole) == whole
  {
    assert [] + whole.packets == whole.packets;
  }

  lemma PollEnd(num: nat, j: Jumbo, events: seq<Event>)
    requires events == []
    ensures EventsOk(num, j, events) && Poll(num, j, events) == Polled(j, [], false)
    ensures EventIds(num, events) == multiset{}
  {}

  /** The receiver can handle this event: a fragment in step, or a discard. */
  predicate Handled(num: nat, j: Jumbo, ev: Event) {
    match ev
    case Rx(id, _, _, _, _) => InPool(num, id) && !OutOfStep(j, ev)
    case RxDiscard(id) => true
    case Unexpected => false
  }

  /** One step of a poll: what the next event needs, and what remains. */
  lemma PollStep(num: nat, j: Jumbo, events: seq<Event>)
    requires EventsOk(num, j, events) && events != []
    ensures !Handled(num, j, events[0]) ==> Poll(num, j, events) == Polled(j, [], true)
    ensures Handled(num, j, events[0]) && events[0].Rx? ==>
      && WithinLimits(j, events[0])
      && EventsOk(num, Accepted(j, events[0]), events[1..])
      && Poll(num, j, events) ==
         Continued(if events[0].isCont then [] else [Accepted(j, events[0]).payload],
                   Poll(num, Accepted(j, events[0]), events[1..]))
    ensures Handled(num, j, events[0]) && events[0].RxDiscard? ==>
      && EventsOk(num, j, events[1..])
      && Poll(num, j, events) == Poll(num, j, events[1..])
    ensures Handled(num, j, events[0]) ==>
      EventIds(num, events) == multiset{events[0].id} + EventIds(num, events[1..])
  {
    hide WithinLimits;
  }
}
