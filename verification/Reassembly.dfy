/**
 The receiver's reassembly of jumbo packets, as functions on events.

 Hardware delivers a packet in fragments, one event each.  The first is marked as
 the start of a packet, all but the last as continued, and every event carries
 the number of bytes of the packet received so far.
 */
module Reassembly {
  import opened Bytes

  const UDP_HEADER_LEN := 42
  const MAX_PKT_FRAGS := 7
  const JUMBO_SIZE := 9000

  /** received: bytes of the packet so far, without the hardware's own prefix; content: the buffer. */
  datatype Event =
    | Rx(id: int, isStart: bool, isCont: bool, received: int, content: Bytes)
    | RxDiscard(id: int)
    | Unexpected

  /** The packet in progress: its payload bytes so far and the index of its last fragment. */
  datatype Jumbo = Jumbo(inPkt: bool, payload: Bytes, frags: nat)

  const NO_PACKET := Jumbo(false, [], 0)

  /** The payload bytes that an event adds. */
  function Fragment(j: Jumbo, ev: Event): Bytes
    requires ev.Rx? && WithinLimits(j, ev)
  {
    if ev.isStart then ev.content[UDP_HEADER_LEN..ev.received]
    else ev.content[..ev.received - UDP_HEADER_LEN - |j.payload|]
  }

  /** What the receiver takes for granted of the hardware: growing counts, and sizes that fit. */
  predicate WithinLimits(j: Jumbo, ev: Event)
    requires ev.Rx?
  {
    if ev.isStart then
      UDP_HEADER_LEN <= ev.received <= UDP_HEADER_LEN + JUMBO_SIZE && ev.received <= |ev.content|
    else
      && j.frags + 1 < MAX_PKT_FRAGS
      && UDP_HEADER_LEN + |j.payload| <= ev.received <= UDP_HEADER_LEN + JUMBO_SIZE
      && ev.received - UDP_HEADER_LEN - |j.payload| <= |ev.content|
  }

  /** A start inside a packet or a continuation outside one: the receiver gives up. */
  predicate OutOfStep(j: Jumbo, ev: Event)
    requires ev.Rx?
  {
    ev.isStart == j.inPkt
  }

  function Accepted(j: Jumbo, ev: Event): Jumbo
    requires ev.Rx? && !OutOfStep(j, ev) && WithinLimits(j, ev)
  {
    Jumbo(ev.isCont,
          (if ev.isStart then [] else j.payload) + Fragment(j, ev),
          if ev.isStart then 0 else j.frags + 1)
  }

  /** The outcome of one poll: the packets completed, in order, and whether the receiver gave up. */
  datatype Polled = Polled(jumbo: Jumbo, packets: seq<Bytes>, failed: bool)

  predicate InPool(num: nat, id: int) {
    0 <= id < num
  }

  /** The hardware keeps its limits along the whole series. */
  predicate EventsOk(num: nat, j: Jumbo, events: seq<Event>)
    decreases |events|
  {
    events == [] ||
    match events[0]
    case Rx(id, _, _, _, _) =>
      !InPool(num, id) || OutOfStep(j, events[0]) ||
      (WithinLimits(j, events[0]) && EventsOk(num, Accepted(j, events[0]), events[1..]))
    case RxDiscard(id) => InPool(num, id) && EventsOk(num, j, events[1..])
    case Unexpected => true
  }

  function Poll(num: nat, j: Jumbo, events: seq<Event>): Polled
    requires EventsOk(num, j, events)
    decreases |events|
  {
    if events == [] then Polled(j, [], false) else
      match events[0]
      case Rx(id, _, isCont, _, _) =>
        if !InPool(num, id) || OutOfStep(j, events[0]) then Polled(j, [], true) else
          var j1 := Accepted(j, events[0]);
          var rest := Poll(num, j1, events[1..]);
          Polled(rest.jumbo, (if isCont then [] else [j1.payload]) + rest.packets, rest.failed)
      case RxDiscard(_) => Poll(num, j, events[1..])
      case Unexpected => Polled(j, [], true)
  }

  // ---------- When a poll fails ----------

  /** A packet is in progress behind these events: the last fragment, if there is one, is to be continued. */
  function Continues(inPkt: bool, events: seq<Event>): bool {
    if events == [] then inPkt
    else
      var last := events[|events| - 1];
      if last.Rx? then last.isCont else Continues(inPkt, events[..|events| - 1])
  }

  /** An event of another kind, a buffer that is not one of ours, or a fragment out of step. */
  predicate IsFailure(num: nat, inPkt: bool, ev: Event) {
    match ev
    case Rx(id, isStart, _, _, _) => id < 0 || id >= num || (isStart <==> inPkt)
    case RxDiscard(_) => false
    case Unexpected => true
  }

  predicate HasFailure(num: nat, inPkt: bool, events: seq<Event>) {
    exists i :: 0 <= i < |events| && IsFailure(num, Continues(inPkt, events[..i]), events[i])
  }

  lemma {:induction false} ContinuesOn(inPkt: bool, first: Event, rest: seq<Event>)
    ensures Continues(inPkt, [first] + rest) == Continues(if first.Rx? then first.isCont else inPkt, rest)
  {
    var all := [first] + rest;
    if rest == [] {
      assert all[..0] == [];
    } else {
      assert all[..|all| - 1] == [first] + rest[..|rest| - 1];
      ContinuesOn(inPkt, first, rest[..|rest| - 1]);
    }
  }

  lemma FailureNext(num: nat, inPkt: bool, events: seq<Event>)
    requires events != []
    ensures var first := events[0];
            HasFailure(num, inPkt, events) <==>
            || IsFailure(num, inPkt, first)
            || HasFailure(num, if first.Rx? then first.isCont else inPkt, events[1..])
  {
    hide Continues, IsFailure;
    var first, rest := events[0], events[1..];
    var next := if first.Rx? then first.isCont else inPkt;
    NothingContinues(inPkt);
    assert events[..0] == [];
    forall i | 0 <= i < |rest|
      ensures Continues(inPkt, events[..i + 1]) == Continues(next, rest[..i]) && events[i + 1] == rest[i]
    {
      ContinuesOn(inPkt, first, rest[..i]);
      assert events[..i + 1] == [first] + rest[..i];
    }
    if HasFailure(num, next, rest) {
      var i :| 0 <= i < |rest| && IsFailure(num, Continues(next, rest[..i]), rest[i]);
      assert IsFailure(num, Continues(inPkt, events[..i + 1]), events[i + 1]);
    }
    if IsFailure(num, inPkt, first) {
      assert IsFailure(num, Continues(inPkt, events[..0]), events[0]);
    }
    if HasFailure(num, inPkt, events) {
      var i :| 0 <= i < |events| && IsFailure(num, Continues(inPkt, events[..i]), events[i]);
      if i > 0 {
        assert IsFailure(num, Continues(next, rest[..i - 1]), rest[i - 1]);
      }
    }
  }

  lemma NothingContinues(inPkt: bool)
    ensures Continues(inPkt, []) == inPkt
  {}

  /** A poll fails if and only if one of its events is a failure where it stands. */
  lemma {:induction false} FailsIff(num: nat, j: Jumbo, events: seq<Event>)
    requires EventsOk(num, j, events)
    ensures Poll(num, j, events).failed <==> HasFailure(num, j.inPkt, events)
    decreases |events|
  {
    hide HasFailure;
    if events == [] {
      NoFailure(num, j.inPkt);
    } else {
      FailureNext(num, j.inPkt, events);
      match events[0]
      case Rx(id, _, _, _, _) =>
        if InPool(num, id) && !OutOfStep(j, events[0]) {
          FailsIff(num, Accepted(j, events[0]), events[1..]);
        }
      case RxDiscard(_) => FailsIff(num, j, events[1..]);
      case Unexpected =>
    }
  }

  lemma NoFailure(num: nat, inPkt: bool)
    ensures !HasFailure(num, inPkt, [])
  {}

  /** The byte count of the packet so far is always the last cumulative count less the UDP header. */
  lemma PayloadCount(j: Jumbo, ev: Event)
    requires ev.Rx? && !OutOfStep(j, ev) && WithinLimits(j, ev)
    ensures |Accepted(j, ev).payload| == ev.received - 42
  {}

  /** None is larger than the buffer that packets are reassembled in. */
  predicate Fits(packets: seq<Bytes>) {
    forall p :: p in packets ==> |p| <= JUMBO_SIZE
  }

  /** A completed packet fits the buffer it is reassembled in. */
  lemma {:induction false} PacketsFit(num: nat, j: Jumbo, events: seq<Event>)
    requires EventsOk(num, j, events)
    ensures Fits(Poll(num, j, events).packets)
    decreases |events|
  {
    if events != [] && events[0].Rx? && InPool(num, events[0].id) && !OutOfStep(j, events[0]) {
      PayloadCount(j, events[0]);
      PacketsFit(num, Accepted(j, events[0]), events[1..]);
    } else if events != [] && events[0].RxDiscard? {
      PacketsFit(num, j, events[1..]);
    }
  }

  // ---------- Independent definition: the events of one packet, and its payload ----------

  /** The events of one packet: a start, then continuations, all but the last marked as continued. */
  predicate IsPacket(num: nat, events: seq<Event>) {
    && events != []
    && forall i :: 0 <= i < |events| ==>
         && events[i].Rx? && InPool(num, events[i].id)
         && events[i].isStart == (i == 0)
         && events[i].isCont == (i + 1 < |events|)
  }

  /** Cumulative counts that grow, fragments that are there, and sizes within the limits. */
  predicate IsDelivered(events: seq<Event>) {
    && |events| <= MAX_PKT_FRAGS
    && (forall i :: 0 <= i < |events| ==> events[i].Rx?)
    && forall i :: 0 <= i < |events| ==>
         && Before(events, i) <= events[i].received <= UDP_HEADER_LEN + JUMBO_SIZE
         && events[i].received - Before(events, i) + Skipped(i) <= |events[i].content|
  }

  /** Bytes of the packet received before fragment i, the UDP header counted from the start. */
  function Before(events: seq<Event>, i: nat): int
    requires i < |events| && (i > 0 ==> events[i - 1].Rx?)
  {
    if i == 0 then UDP_HEADER_LEN else events[i - 1].received
  }

  /** Only the first buffer begins with the UDP header. */
  function Skipped(i: nat): nat {
    if i == 0 then UDP_HEADER_LEN else 0
  }

  /** The payload of a packet: each fragment's own bytes, one after the other. */
  function PayloadOf(events: seq<Event>, k: nat): Bytes
    requires IsDelivered(events) && k <= |events|
  {
    if k == 0 then [] else
      var e := events[k - 1];
      PayloadOf(events, k - 1) + e.content[Skipped(k - 1)..Skipped(k - 1) + e.received - Before(events, k - 1)]
  }

  lemma {:induction false} PayloadLength(events: seq<Event>, k: nat)
    requires IsDelivered(events) && 0 < k <= |events|
    ensures |PayloadOf(events, k)| == events[k - 1].received - UDP_HEADER_LEN
  {
    if k > 1 {
      PayloadLength(events, k - 1);
    }
  }

  /** The packet in progress after the first k events of a packet. */
  function After(events: seq<Event>, k: nat): Jumbo
    requires IsDelivered(events) && 0 < k <= |events|
  {
    Jumbo(k < |events|, PayloadOf(events, k), k - 1)
  }

  lemma StepInPacket(num: nat, events: seq<Event>, k: nat)
    requires IsPacket(num, events) && IsDelivered(events) && 0 < k < |events|
    ensures !OutOfStep(After(events, k), events[k]) && WithinLimits(After(events, k), events[k])
    ensures Accepted(After(events, k), events[k]) == After(events, k + 1)
  {
    PayloadLength(events, k);
    assert Before(events, k) == events[k - 1].received;
  }

  lemma StartOfPacket(num: nat, events: seq<Event>, j: Jumbo)
    requires IsPacket(num, events) && IsDelivered(events) && !j.inPkt
    ensures !OutOfStep(j, events[0]) && WithinLimits(j, events[0])
    ensures Accepted(j, events[0]) == After(events, 1)
  {
    assert Before(events, 0) == UDP_HEADER_LEN;
    assert PayloadOf(events, 0) == [];
  }

  /** From the middle of a packet, the remaining events complete exactly this packet. */
  lemma {:induction false} RestOfPacket(num: nat, packet: seq<Event>, k: nat, more: seq<Event>)
    requires IsPacket(num, packet) && IsDelivered(packet) && 0 < k < |packet|
    requires EventsOk(num, After(packet, |packet|), more)
    ensures EventsOk(num, After(packet, k), packet[k..] + more)
    ensures Poll(num, After(packet, k), packet[k..] + more) ==
            var rest := Poll(num, After(packet, |packet|), more);
            Polled(rest.jumbo, [PayloadOf(packet, |packet|)] + rest.packets, rest.failed)
    decreases |packet| - k
  {
    hide PayloadOf, Fragment, WithinLimits, Accepted, IsDelivered;
    var events := packet[k..] + more;
    StepInPacket(num, packet, k);
    assert events[1..] == packet[k + 1..] + more;
    if k + 1 < |packet| {
      RestOfPacket(num, packet, k + 1, more);
    }
  }

  /** A whole packet at the head of the events puts its payload, and only it, into the ring. */
  lemma WholePacket(num: nat, j: Jumbo, packet: seq<Event>, more: seq<Event>)
    requires IsPacket(num, packet) && IsDelivered(packet) && !j.inPkt
    requires EventsOk(num, After(packet, |packet|), more)
    ensures EventsOk(num, j, packet + more)
    ensures Poll(num, j, packet + more) ==
            var rest := Poll(num, After(packet, |packet|), more);
            Polled(rest.jumbo, [PayloadOf(packet, |packet|)] + rest.packets, rest.failed)
  {
    var events := packet + more;
    StartOfPacket(num, packet, j);
    assert events[0] == packet[0] && events[1..] == packet[1..] + more;
    if |packet| > 1 {
      RestOfPacket(num, packet, 1, more);
    }
  }

  // ---------- Every completed packet is one packet ----------

  /** The accept events: discards leave the packet in progress alone. */
  function Fragments(events: seq<Event>): seq<Event> {
    if events == [] then [] else
      (if events[0].RxDiscard? then [] else [events[0]]) + Fragments(events[1..])
  }

  lemma {:induction false} DiscardsDoNotMatter(num: nat, j: Jumbo, events: seq<Event>)
    requires EventsOk(num, j, events)
    ensures EventsOk(num, j, Fragments(events))
    ensures Poll(num, j, Fragments(events)) == Poll(num, j, events)
    decreases |events|
  {
    if events != [] {
      var e := events[0];
      if e.RxDiscard? {
        assert Fragments(events) == Fragments(events[1..]);
        DiscardsDoNotMatter(num, j, events[1..]);
      } else {
        assert Fragments(events)[1..] == Fragments(events[1..]);
        if e.Rx? && InPool(num, e.id) && !OutOfStep(j, e) {
          DiscardsDoNotMatter(num, Accepted(j, e), events[1..]);
        }
      }
    }
  }

  /** Cut a series of fragments after each one that is not continued. */
  function Groups(head: seq<Event>, events: seq<Event>): seq<seq<Event>>
    decreases |events|
  {
    if events == [] then [] else
      var e := events[0];
      if e.Rx? && e.isCont then Groups(head + [e], events[1..])
      else [head + [e]] + Groups([], events[1..])
  }

  /** The fragments of the packet in progress. */
  predicate InProgress(num: nat, head: seq<Event>, j: Jumbo) {
    && (head == [] <==> !j.inPkt)
    && (head != [] ==>
          && IsDelivered(head)
          && (forall i :: 0 <= i < |head| ==>
                InPool(num, head[i].id) && head[i].isStart == (i == 0) && head[i].isCont)
          && j.payload == PayloadOf(head, |head|) && j.frags == |head| - 1)
  }

  lemma {:induction false} PayloadOfPrefix(head: seq<Event>, e: Event, k: nat)
    requires IsDelivered(head) && IsDelivered(head + [e]) && k <= |head|
    ensures PayloadOf(head + [e], k) == PayloadOf(head, k)
  {
    if k > 0 {
      PayloadOfPrefix(head, e, k - 1);
      assert Before(head + [e], k - 1) == Before(head, k - 1);
    }
  }

  lemma FragmentDelivered(num: nat, head: seq<Event>, j: Jumbo, e: Event)
    requires InProgress(num, head, j)
    requires e.Rx? && !OutOfStep(j, e) && WithinLimits(j, e)
    ensures IsDelivered(head + [e])
    ensures Before(head + [e], |head|) == UDP_HEADER_LEN + if head == [] then 0 else |j.payload|
  {
    var all := head + [e];
    if head != [] {
      PayloadLength(head, |head|);
    }
    forall i | 0 <= i < |all|
      ensures Before(all, i) <= all[i].received <= UDP_HEADER_LEN + JUMBO_SIZE
      ensures all[i].received - Before(all, i) + Skipped(i) <= |all[i].content|
    {
      if i < |head| {
        assert Before(all, i) == Before(head, i);
      }
    }
  }

  lemma FragmentPayload(num: nat, head: seq<Event>, j: Jumbo, e: Event)
    requires InProgress(num, head, j) && IsDelivered(head + [e])
    requires e.Rx? && !OutOfStep(j, e) && WithinLimits(j, e)
    ensures PayloadOf(head + [e], |head| + 1) == Accepted(j, e).payload
  {
    hide IsDelivered, Before;
    FragmentDelivered(num, head, j, e);
    PayloadOfPrefix(head, e, |head|);
    assert (head + [e])[|head|] == e;
    if head == [] {
      NoPayload(head);
    }
  }

  lemma NoPayload(head: seq<Event>)
    requires head == []
    ensures IsDelivered(head) && PayloadOf(head, 0) == []
  {}

  lemma FragmentContinues(num: nat, head: seq<Event>, j: Jumbo, e: Event)
    requires InProgress(num, head, j)
    requires e.Rx? && InPool(num, e.id) && !OutOfStep(j, e) && WithinLimits(j, e)
    ensures IsDelivered(head + [e])
    ensures PayloadOf(head + [e], |head| + 1) == Accepted(j, e).payload
    ensures if e.isCont then InProgress(num, head + [e], Accepted(j, e))
            else IsPacket(num, head + [e]) && InProgress(num, [], Accepted(j, e))
  {
    hide IsDelivered, Before, PayloadOf, Fragment;
    FragmentDelivered(num, head, j, e);
    FragmentPayload(num, head, j, e);
  }

  /**
   As long as the receiver does not give up, cutting the fragments at the packet
   ends gives packets, and the k-th one put into the ring is the payload of the
   k-th group: the fragments of one packet, never of two.
   */
  lemma {:induction false} PacketsAreGroups(num: nat, j: Jumbo, head: seq<Event>, events: seq<Event>)
    requires EventsOk(num, j, events) && InProgress(num, head, j) && !Poll(num, j, events).failed
    requires forall i :: 0 <= i < |events| ==> !events[i].RxDiscard?
    ensures AreGroups(num, Groups(head, events), Poll(num, j, events).packets)
    decreases |events|
  {
    hide IsDelivered, IsPacket, WithinLimits, PayloadOf, Before;
    if events != [] {
      var e := events[0];
      FragmentContinues(num, head, j, e);
      if e.isCont {
        PacketsAreGroups(num, Accepted(j, e), head + [e], events[1..]);
      } else {
        PacketsAreGroups(num, Accepted(j, e), [], events[1..]);
      }
    }
  }

  /** The fragments that no packet has taken yet. */
  function Left(head: seq<Event>, events: seq<Event>): seq<Event>
    decreases |events|
  {
    if events == [] then head else
      var e := events[0];
      Left(if e.Rx? && e.isCont then head + [e] else [], events[1..])
  }

  /** The fragments left at the end of a series are those of the packet then in progress. */
  lemma {:induction false} EndsInProgress(num: nat, j: Jumbo, head: seq<Event>, events: seq<Event>)
    requires EventsOk(num, j, events) && InProgress(num, head, j) && !Poll(num, j, events).failed
    requires forall i :: 0 <= i < |events| ==> !events[i].RxDiscard?
    ensures InProgress(num, Left(head, events), Poll(num, j, events).jumbo)
    decreases |events|
  {
    hide IsDelivered, IsPacket, WithinLimits, PayloadOf, Before, InProgress, Fragment;
    if events != [] {
      var e := events[0];
      FragmentContinues(num, head, j, e);
      EndsInProgress(num, Accepted(j, e), if e.isCont then head + [e] else [], events[1..]);
    }
  }

  // ---------- Series of polls ----------

  /** A packet may be spread over any number of polls: polling again goes on where the last poll stopped. */
  lemma {:induction false} PollSplit(num: nat, j: Jumbo, a: seq<Event>, b: seq<Event>)
    requires EventsOk(num, j, a) && !Poll(num, j, a).failed
    requires EventsOk(num, Poll(num, j, a).jumbo, b)
    ensures EventsOk(num, j, a + b)
    ensures var first, rest := Poll(num, j, a), Poll(num, Poll(num, j, a).jumbo, b);
            Poll(num, j, a + b) == Polled(rest.jumbo, first.packets + rest.packets, rest.failed)
    decreases |a|
  {
    hide WithinLimits, Fragment;
    if a == [] {
      assert a + b == b;
    } else {
      var e := a[0];
      assert (a + b)[0] == e && (a + b)[1..] == a[1..] + b;
      PollSplit(num, if e.Rx? then Accepted(j, e) else j, a[1..], b);
    }
  }

  /** The events of a poll that the receiver handles: all before the one it gives up on. */
  function HandledPart(num: nat, j: Jumbo, events: seq<Event>): seq<Event>
    requires EventsOk(num, j, events)
    decreases |events|
  {
    if events == [] then [] else
      match events[0]
      case Rx(id, _, _, _, _) =>
        if !InPool(num, id) || OutOfStep(j, events[0]) then []
        else [events[0]] + HandledPart(num, Accepted(j, events[0]), events[1..])
      case RxDiscard(_) => [events[0]] + HandledPart(num, j, events[1..])
      case Unexpected => []
  }

  /** What a poll completes is what its handled events complete, whether or not it fails. */
  lemma {:induction false} HandledPartPolls(num: nat, j: Jumbo, events: seq<Event>)
    requires EventsOk(num, j, events)
    ensures var part, p := HandledPart(num, j, events), Poll(num, j, events);
            && part <= events && (p.failed <==> part != events)
            && EventsOk(num, j, part) && Poll(num, j, part) == Polled(p.jumbo, p.packets, false)
    decreases |events|
  {
    hide WithinLimits, Fragment;
    var part := HandledPart(num, j, events);
    if part != [] {
      var e := events[0];
      HandledPartPolls(num, if e.Rx? then Accepted(j, e) else j, events[1..]);
      assert part[1..] == HandledPart(num, if e.Rx? then Accepted(j, e) else j, events[1..]);
      assert events == [e] + events[1..];
    }
  }

  /** One packet for each group, and it is that group's payload. */
  ghost predicate AreGroups(num: nat, groups: seq<seq<Event>>, packets: seq<Bytes>) {
    && |packets| == |groups|
    && forall k :: 0 <= k < |groups| ==>
         IsPacket(num, groups[k]) && IsDelivered(groups[k]) && packets[k] == PayloadOf(groups[k], |groups[k]|)
  }

  lemma {:induction false} FragmentsAreNoDiscards(events: seq<Event>)
    ensures forall i :: 0 <= i < |Fragments(events)| ==> !Fragments(events)[i].RxDiscard?
  {
    if events != [] {
      FragmentsAreNoDiscards(events[1..]);
    }
  }

  /**
   For every series of events, with discards anywhere and whether or not the
   receiver gives up in the end: cutting the handled fragments at the packet ends,
   behind those of the packet in progress before, gives the packets it completes
   and, as the rest, the packet in progress afterwards.
   */
  lemma PolledPacketsAreGroups(num: nat, j: Jumbo, head: seq<Event>, events: seq<Event>)
    requires EventsOk(num, j, events) && InProgress(num, head, j)
    ensures var fragments, p := Fragments(HandledPart(num, j, events)), Poll(num, j, events);
            AreGroups(num, Groups(head, fragments), p.packets) && InProgress(num, Left(head, fragments), p.jumbo)
  {
    hide InProgress, Poll, EventsOk, HandledPart, Fragments, Groups, Left;
    HandledPartPolls(num, j, events);
    var part := HandledPart(num, j, events);
    DiscardsDoNotMatter(num, j, part);
    FragmentsAreNoDiscards(part);
    PacketsAreGroups(num, j, head, Fragments(part));
    EndsInProgress(num, j, head, Fragments(part));
  }

  predicate AllContinued(events: seq<Event>) {
    forall i :: 0 <= i < |events| ==> events[i].Rx? && events[i].isCont
  }

  /** Cutting loses nothing: the groups, and what is left, are all the fragments in order. */
  lemma {:induction false} GroupsCoverEvents(head: seq<Event>, events: seq<Event>)
    requires AllContinued(head)
    ensures Joined(Groups(head, events)) + Left(head, events) == head + events
    ensures AllContinued(Left(head, events))
    decreases |events|
  {
    hide Joined;
    if events == [] {
      NothingJoined();
      assert [] + head == head && head + events == head;
    } else {
      var e, more := events[0], events[1..];
      assert events == [e] + more;
      if e.Rx? && e.isCont {
        GroupsCoverEvents(head + [e], more);
      } else {
        GroupsCoverEvents([], more);
        JoinedHead(head + [e], Groups([], more));
        calc {
          Joined(Groups(head, events)) + Left(head, events);
          head + [e] + Joined(Groups([], more)) + Left([], more);
          head + [e] + (Joined(Groups([], more)) + Left([], more));
          head + [e] + ([] + more);
        }
      }
    }
  }

  lemma NothingJoined()
    ensures Joined([]) == []
  {}

  lemma JoinedHead(group: seq<Event>, groups: seq<seq<Event>>)
    ensures Joined([group] + groups) == group + Joined(groups)
  {
    assert ([group] + groups)[1..] == groups;
  }

  function Joined(groups: seq<seq<Event>>): seq<Event> {
    if groups == [] then [] else groups[0] + Joined(groups[1..])
  }
}
