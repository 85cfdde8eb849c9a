/**
 UDPJubmoFrameReceiverImplementation: the objects of the program and the loop
 body that runs them.  One call of Iterate is proved to be one iteration of the
 machine in Pipeline, so that every theorem about runs of the machine is a
 theorem about the objects; and every call that Iterate makes meets the
 preconditions of its stage, because of those theorems.
 */
module RunLoop {
  import opened Bytes
  import opened CommonData
  import opened RingQueue
  import opened RingFifoBuffer
  import opened Pipeline
  import PipelineProofs
  import PipelineTheorems
  import PipelineSequence
  import L = SharedLog
  import Inserter
  import Parser
  import ParserModel
  import opened Reassembly
  import opened EfviReceiver

  /** The input of the machine that a poll of the hardware amounts to. */
  function InputOf(polled: Polled, beyond: nat -> Byte, toggleFilter: bool, interrupt: nat): Input {
    Input(polled.packets, polled.failed, beyond, toggleFilter, interrupt)
  }

  /** The events that a poll handles now: none while ring 0 is nearly full. */
  function HandledNow(ring0: Ring, num: nat, packet: Jumbo, events: seq<Event>): seq<Event>
    requires EventsOk(num, packet, events)
  {
    if ring0.Capacity() >= PUSHBACK then HandledPart(num, packet, events) else []
  }

  /** Whether an iteration gets as far as the receiver. */
  predicate Polls(s: State, interrupted: bool) {
    && s.common.applicationRunFlag && !interrupted
    && match s.stream
       case WaitForSession => !(s.common.connected && s.common.sessionIdReceived)
       case TransitToSession => false
       case InSession => s.common.connected
  }

  class RunLoop {
    const common: CommonData
    const ring0: RingFifoBuffer
    const ring1: RingFifoBuffer
    const receiver: EfviReceiver
    const parser: Parser.Parser
    const inserter: Inserter.Inserter
    var streamState: StreamState
    // History: what was delivered and taken, when messages were committed, and all inputs.
    ghost var Delivered: seq<Bytes>
    ghost var Log: seq<Taken>
    ghost var CommittedAt: seq<nat>
    ghost var EverOpened: bool
    ghost var Inputs: seq<Input>
    // The events that the receiver has handled.
    ghost var Events: seq<Event>

    /** Who shares what with whom, and that nothing else is shared. */
    ghost predicate Wired() {
      && receiver.common == parser.common == inserter.common == common
      && receiver.ring0 == parser.ring0 == ring0
      && parser.ring1 == inserter.ring == ring1
      && ring0 != ring1 && ring0.ptr != ring1.ptr
      && inserter.data != ring0.ptr && inserter.data != ring1.ptr && inserter.data != receiver.data
      && receiver.data != ring0.ptr && receiver.data != ring1.ptr
    }

    ghost function Value(): State
      reads this, common, ring0, ring1, parser, inserter
    {
      State(streamState, false, common.Value(), parser.State(), ring0.Value(), ring1.Value(),
            inserter.Publication(), inserter.n, inserter.History, Delivered, Log, inserter.PublishedAt, CommittedAt,
            EverOpened)
    }

    /** What was delivered, and the packet in progress, is what all handled events amount to. */
    ghost predicate Reassembled()
      requires receiver.JumboOk()
      reads `Events, `Delivered, receiver`inPkt, receiver`nFrags, receiver`payloadBytes, receiver.data
    {
      IsReassembled(receiver.num, Events, Delivered, receiver.Packet())
    }

    /** Every object is well formed; the hardware's buffers are accounted for while the program runs. */
    ghost predicate Parts()
      reads common, ring0, ring0.ptr, ring1, ring1.ptr, inserter, inserter.data, receiver, receiver.next
    {
      && Wired()
      && ring0.Valid() && ring1.Valid() && inserter.Valid() && receiver.PoolOk() && receiver.JumboOk()
      && (common.applicationRunFlag ==> receiver.InFlight == multiset{})
    }

    ghost predicate Whole()
      reads `Events, `Delivered, receiver.data
      reads common, ring0, ring0.ptr, ring1, ring1.ptr, inserter, inserter.data, receiver, receiver.next
    {
      Parts() && Reassembled()
    }

    /** Between iterations the objects are where a run of the machine has led. */
    ghost predicate Valid()
      reads this, common, ring0, ring0.ptr, ring1, ring1.ptr, parser, inserter, inserter.data, receiver, receiver.next
      reads receiver.data
    {
      && Whole()
      && IsSize(ring0.ptr.Length) && IsSize(ring1.ptr.Length) && inserter.n >= L.MAX_LINES
      && PipelineTheorems.FitsJumbo(Inputs)
      && Value() == Pipeline.Run(ring0.ptr.Length, ring1.ptr.Length, inserter.n, Inputs)
    }

    /** The parts of a program that has just started. */
    constructor (receiver: EfviReceiver, parser: Parser.Parser, inserter: Inserter.Inserter, ghost size: nat)
      requires receiver.ring0 == parser.ring0 && parser.ring1 == inserter.ring
      requires receiver.common == parser.common == inserter.common
      requires parser.ring0.ptr != parser.ring1.ptr && parser.ring0 != parser.ring1
      requires inserter.data != parser.ring0.ptr && inserter.data != parser.ring1.ptr && inserter.data != receiver.data
      requires receiver.data != parser.ring1.ptr
      requires parser.ring0.Valid() && parser.ring1.Valid() && inserter.Valid()
      requires receiver.PoolOk() && receiver.JumboOk() && receiver.InFlight == multiset{}
      requires receiver.Packet() == NO_PACKET
      requires parser.ring0.Value() == parser.ring1.Value() == Empty(size)
      requires IsSize(size) && inserter.n >= L.MAX_LINES
      requires parser.common.Value() == Common(true, true, false, false, 0, 0, false)
      requires parser.State() == ParserModel.ParserState(ParserModel.Startup, 0, 0)
      requires inserter.Publication() == Inserter.Published(0, 0, 0)
      requires inserter.History == [] && inserter.PublishedAt == []
      ensures Valid() && Inputs == [] && Events == []
    {
      hide Ring.Valid, Holds, Linked, Conserved, Inserter.Inserter.Recorded, EfviReceiver.PoolOk, L.Start;
      hide RunLoop.Valid, PipelineTheorems.FitsJumbo, Pipeline.Run;
      this.receiver, this.parser, this.inserter := receiver, parser, inserter;
      common, ring0, ring1 := parser.common, parser.ring0, parser.ring1;
      streamState := WaitForSession;
      Delivered, Log, CommittedAt, EverOpened, Inputs, Events := [], [], [], false, [], [];
      new;
      StartIsValid(size);
    }

    /** Start-up when every part initializes: the run is the empty one. */
    static method Initialize(bufferSizeBytes: nat, n: nat, num: nat, maxFillLevel: nat) returns (loop: RunLoop)
      requires LINE / 2 < bufferSizeBytes <= 0x4000_0000
      requires n >= L.MAX_LINES && REFILL_BATCH_SIZE <= maxFillLevel <= num
      ensures fresh(loop) && loop.Valid() && loop.Inputs == [] && loop.Events == []
    {
      hide Ring.Valid, Holds, Linked, Conserved, Inserter.Inserter.Recorded, EfviReceiver.PoolOk, L.Start;
      hide RunLoop.Valid, PipelineTheorems.FitsJumbo, Pipeline.Run, IsSize, NextPow2;
      hide EfviReceiver.JumboOk, RunLoop.Whole, IsReassembled;
      SizeOfRings(bufferSizeBytes);
      var common := new CommonData();
      var ring0 := new RingFifoBuffer(bufferSizeBytes);
      var ring1 := new RingFifoBuffer(bufferSizeBytes);
      loop := Assemble(common, ring0, ring1, n, num, maxFillLevel);
    }

    /** The stages around the rings, each of which sets what it has to set in the common data. */
    static method Assemble(common: CommonData, ring0: RingFifoBuffer, ring1: RingFifoBuffer,
                           n: nat, num: nat, maxFillLevel: nat)
      returns (loop: RunLoop)
      requires n >= L.MAX_LINES && REFILL_BATCH_SIZE <= maxFillLevel <= num
      requires ring0 != ring1 && ring0.ptr != ring1.ptr && ring0.Valid() && ring1.Valid()
      requires ring0.Value() == ring1.Value() == Empty(ring0.ptr.Length) && IsSize(ring0.ptr.Length)
      requires common.Value() == Common(false, false, false, false, 0, 0, false)
      modifies common
      ensures fresh(loop) && loop.Valid() && loop.Inputs == [] && loop.Events == []
    {
      hide Ring.Valid, Holds, Linked, Conserved, Inserter.Inserter.Recorded, EfviReceiver.PoolOk, L.Start;
      hide RunLoop.Valid, PipelineTheorems.FitsJumbo, Pipeline.Run, IsSize;
      hide EfviReceiver.JumboOk, RunLoop.Whole, IsReassembled;
      var receiver := new EfviReceiver(common, ring0, num, maxFillLevel);
      common.connected := true;
      var parser := new Parser.Parser(common, ring0, ring1);
      var inserter := new Inserter.Inserter(common, ring1, n);
      common.applicationRunFlag := true;
      loop := new RunLoop(receiver, parser, inserter, ring0.ptr.Length);
    }

    lemma StartIsValid(size: nat)
      requires IsSize(size) && inserter.n >= L.MAX_LINES
      requires Whole() && Inputs == [] && ring0.ptr.Length == ring1.ptr.Length == size
      requires Value() == Started(size, size, inserter.n)
      ensures Valid()
    {
      hide Whole;
    }

    /** The signal handler runs now, or not. */
    method Interrupt(now: bool)
      requires Whole()
      modifies common`applicationRunFlag
      ensures Whole() && Value() == Interrupted(old(Value()), now) && Events == old(Events)
    {
      if now {
        common.applicationRunFlag := false;
      }
    }

    /** KeyboardReadInput: the key that toggles the session filter. */
    method ReadKeyboardInput(toggleFilter: bool)
      requires Whole()
      modifies common`dontFilterSourceId
      ensures Whole() && Value() == KeyboardStage(old(Value()), toggleFilter) && Events == old(Events)
    {
      if toggleFilter {
        common.dontFilterSourceId := !common.dontFilterSourceId;
      }
    }

    method RunInserter()
      requires Whole() && inserter.n > 0
      requires Fits(ring1.Queue)
      requires common.sequenceNumber < 0x1_0000_0000_0000_0000
      modifies `CommittedAt, inserter, inserter.data
      modifies ring1`readIndex, ring1`numberOfStoredBytes, ring1`framesStored, ring1`Queue
      ensures Whole() && Value() == InserterStage(old(Value())) && Events == old(Events)
      ensures old(inserter.Trace) <= inserter.Trace
    {
      hide Ring.Valid, Holds, Linked, Conserved, Inserter.Inserter.Recorded, EfviReceiver.PoolOk, L.Start;
      ghost var t := InserterStage(Value());
      inserter.CommitIsStart();
      inserter.Iterate();
      CommittedAt := t.committedAt;
    }

    lemma PartsAreWell()
      requires Parts()
      ensures receiver.JumboOk() && ring0.Value().Valid()
    {}

    /** The receiver's poll, before what it delivered is recorded. */
    method PollReceiver(events: seq<Event>) returns (spinning: bool)
      requires Parts() && receiver.InFlight == multiset{} && Deliverable(events)
      modifies receiver, receiver.next, receiver.bufIds, receiver.fragDataLen, receiver.data
      modifies common`applicationRunFlag, ring0`writeIndex, ring0`numberOfStoredBytes, ring0`framesStored
      modifies ring0`Queue, ring0`slipCounter, ring0.ptr
      ensures var p, before := old(Polled(events)), old(Value());
              var polls := before.ring0.Capacity() >= PUSHBACK;
              && spinning == (polls && !AllAccepted(before.ring0, p.packets))
              && (!spinning ==>
                    && Parts() && receiver.JumboOk()
                    && receiver.Packet() == (if polls then p.jumbo else old(receiver.Packet()))
                    && Value() == ReceiverStage(before, p.packets, p.failed).(delivered := before.delivered))
    {
      hide Ring.Valid, Holds, Linked, Conserved, EventsOk, Poll, AllAccepted, WriteAll, Inserter.Inserter.Recorded;
      hide EfviReceiver.PoolOk, EfviReceiver.JumboOk, L.Start, EventIds;
      ghost var before := Value();
      spinning := receiver.Iterate(events);
      assert ring1.Valid() && inserter.Valid();
      assert Value() == before.(ring0 := ring0.Value(), common := common.Value());
    }

    method RunReceiver(events: seq<Event>, ghost after: seq<Event>) returns (spinning: bool)
      requires Whole() && receiver.InFlight == multiset{} && Deliverable(events) && Fits(ring0.Queue)
      requires after == Events + HandledNow(ring0.Value(), receiver.num, receiver.Packet(), events)
      modifies `Delivered, `Events, receiver, receiver.next, receiver.bufIds, receiver.fragDataLen, receiver.data
      modifies common`applicationRunFlag, ring0`writeIndex, ring0`numberOfStoredBytes, ring0`framesStored
      modifies ring0`Queue, ring0`slipCounter, ring0.ptr
      ensures var p := old(Polled(events));
              var t := ReceiverStage(old(Value()), p.packets, p.failed);
              && spinning == t.hung
              && (!spinning ==> Whole() && Value() == t && Fits(ring0.Queue))
      ensures !spinning ==> Events == after
    {
      hide Ring.Valid, EventsOk, Poll, AllAccepted, WriteAll, RunLoop.Parts, IsReassembled;
      hide EfviReceiver.JumboOk, EventIds, Fits, HandledPart;
      PartsAreWell();
      ghost var p, before, packet := Polled(events), Value(), receiver.Packet();
      PolledIsFit(events);
      ReceiverFits(before, p.packets, p.failed);
      spinning := PollReceiver(events);
      if before.ring0.Capacity() >= PUSHBACK {
        HandledOn(receiver.num, Events, Delivered, packet, events);
        Delivered := Delivered + p.packets;
        Events := after;
      }
    }

    method RunParser(beyond: nat -> Byte) returns (spinning: bool)
      requires Whole()
      requires Fits(ring0.Queue)
      modifies `Log, `EverOpened, parser, common, ring0, ring1, ring1.ptr
      ensures var t := ParserStage(old(Value()), beyond);
              && spinning == t.hung
              && (!spinning ==> Whole() && Value() == t && Events == old(Events))
    {
      hide Ring.Valid, Holds, Linked, Conserved, ParserModel.ParserStep;
      hide Inserter.Inserter.Recorded, EfviReceiver.PoolOk, EfviReceiver.JumboOk, RunLoop.Reassembled, Fits;
      HeadFits(ring0.Queue);
      ghost var before := Value();
      ghost var t := ParserStage(before, beyond);
      spinning := parser.Iterate(beyond);
      Log, EverOpened := t.log, t.everOpened;
    }

    /** What the theorems about runs say of the objects. */
    lemma EverythingFits()
      requires Valid()
      ensures Fits(ring0.Queue) && Fits(ring1.Queue) && Wired() && receiver.JumboOk()
      ensures common.sequenceNumber < 0x1_0000_0000_0000_0000 && Sound(Value())
      ensures common.applicationRunFlag ==> receiver.InFlight == multiset{}
    {
      hide Pipeline.Run, Inserter.Inserter.Recorded, Ring.Valid, Holds;
      PipelineTheorems.RecordsFitBuffers(ring0.ptr.Length, ring1.ptr.Length, inserter.n, Inputs);
      PipelineProofs.RunKeepsInv(ring0.ptr.Length, ring1.ptr.Length, inserter.n, Inputs);
      assert Value().ring0.queue == ring0.Queue && Value().ring1.queue == ring1.Queue;
    }

    ghost function Polled(events: seq<Event>): Polled
      requires receiver.JumboOk() && Deliverable(events)
      reads receiver, receiver.data
    {
      Poll(receiver.num, receiver.Packet(), events)
    }

    ghost function HandledHere(events: seq<Event>): seq<Event>
      requires receiver.JumboOk() && Deliverable(events)
      reads receiver, receiver.data, ring0
    {
      HandledNow(ring0.Value(), receiver.num, receiver.Packet(), events)
    }

    /** The hardware hands back buffers it holds, and keeps its limits. */
    ghost predicate Deliverable(events: seq<Event>)
      requires receiver.JumboOk()
      reads receiver, receiver.data
    {
      EventsOk(receiver.num, receiver.Packet(), events) && EventIds(receiver.num, events) <= receiver.Posted
    }

    /** One iteration while no session is known: keyboard, receiver, parser. */
    method WaitForSessionIteration(events: seq<Event>, beyond: nat -> Byte, toggleFilter: bool, interrupt: nat,
                                   ghost after: seq<Event>)
      returns (spinning: bool)
      requires Whole() && receiver.InFlight == multiset{} && Deliverable(events) && Fits(ring0.Queue)
      requires Sound(Value())
      requires after == Events + HandledNow(ring0.Value(), receiver.num, receiver.Packet(), events)
      modifies `Delivered, `Events, `Log, `EverOpened, parser, common, ring0, ring0.ptr, ring1, ring1.ptr
      modifies receiver, receiver.next, receiver.bufIds, receiver.fragDataLen, receiver.data
      ensures var t := WaitIteration(old(Value()), InputOf(old(Polled(events)), beyond, toggleFilter, interrupt));
              && spinning == t.hung
              && (!spinning ==> Whole() && Value() == t)
      ensures !spinning ==> Events == after
    {
      hide Ring.Valid, Fits, RunLoop.Whole, ReceiverStage, ParserStage, RunLoop.Deliverable, EventsOk, Poll, EventIds;
      hide EfviReceiver.JumboOk, HandledNow;
      ReadKeyboardInput(toggleFilter);
      Interrupt(interrupt == 1);
      spinning := RunReceiver(events, after);
      if !spinning {
        Interrupt(interrupt == 2);
        if common.applicationRunFlag {
          spinning := RunParser(beyond);
        }
      }
    }

    /** One iteration in session: inserter, receiver, parser, keyboard. */
    method InSessionIteration(events: seq<Event>, beyond: nat -> Byte, toggleFilter: bool, interrupt: nat,
                              ghost after: seq<Event>)
      returns (spinning: bool)
      requires Whole() && receiver.InFlight == multiset{} && Deliverable(events)
      requires Fits(ring0.Queue) && Fits(ring1.Queue) && Wired()
      requires common.sequenceNumber < 0x1_0000_0000_0000_0000
      requires Sound(Value())
      requires after == Events + HandledNow(ring0.Value(), receiver.num, receiver.Packet(), events)
      modifies `Delivered, `Events, `Log, `CommittedAt, `EverOpened, parser, common, ring0, ring0.ptr, ring1, ring1.ptr
      modifies receiver, receiver.next, receiver.bufIds, receiver.fragDataLen, receiver.data, inserter, inserter.data
      ensures old(inserter.Trace) <= inserter.Trace
      ensures var t := SessionIteration(old(Value()), InputOf(old(Polled(events)), beyond, toggleFilter, interrupt));
              && spinning == t.hung
              && (!spinning ==> Whole() && Value() == t)
      ensures !spinning ==> Events == after
    {
      hide Ring.Valid, Fits, RunLoop.Whole, ReceiverStage, ParserStage, RunLoop.Deliverable, EventsOk, Poll, EventIds;
      hide EfviReceiver.JumboOk, HandledNow, InserterStage;
      RunInserter();
      Interrupt(interrupt == 1);
      spinning := RunReceiver(events, after);
      if !spinning {
        Interrupt(interrupt == 2);
        spinning := RunParser(beyond);
        if !spinning {
          ReadKeyboardInput(toggleFilter);
        }
      }
    }

    /** The switch on the state of the stream. */
    method Step(events: seq<Event>, beyond: nat -> Byte, toggleFilter: bool, interrupt: nat,
                ghost after: seq<Event>)
      returns (spinning: bool)
      requires Whole() && Wired() && Deliverable(events)
      requires Fits(ring0.Queue) && Fits(ring1.Queue)
      requires common.sequenceNumber < 0x1_0000_0000_0000_0000
      requires Sound(Value())
      requires common.applicationRunFlag ==> receiver.InFlight == multiset{}
      requires after == Events + HandledNow(ring0.Value(), receiver.num, receiver.Packet(), events)
      modifies `streamState, `Delivered, `Events, `Log, `CommittedAt, `EverOpened
      modifies parser, common, ring0, ring0.ptr, ring1, ring1.ptr
      modifies receiver, receiver.next, receiver.bufIds, receiver.fragDataLen, receiver.data, inserter, inserter.data
      ensures old(inserter.Trace) <= inserter.Trace
      ensures var t := Iterated(old(Value()), InputOf(old(Polled(events)), beyond, toggleFilter, interrupt));
              && spinning == t.hung
              && (!spinning ==> Whole() && Value() == t)
      ensures !spinning ==> Events == if Polls(old(Value()), interrupt == 0) then after else old(Events)
    {
      hide Ring.Valid, Fits, RunLoop.Whole, ReceiverStage, ParserStage, RunLoop.Deliverable, EventsOk, Poll, EventIds;
      hide EfviReceiver.JumboOk, HandledNow, InserterStage, WaitIteration, SessionIteration;
      spinning := false;
      Interrupt(interrupt == 0);
      match streamState {
      case WaitForSession =>
        if common.applicationRunFlag && !(common.connected && common.sessionIdReceived) {
          spinning := WaitForSessionIteration(events, beyond, toggleFilter, interrupt, after);
        } else {
          streamState := TransitToSession;
        }
      case TransitToSession =>
        if common.applicationRunFlag && common.connected {
          streamState := InSession;
        }
      case InSession =>
        if common.applicationRunFlag && common.connected {
          spinning := InSessionIteration(events, beyond, toggleFilter, interrupt, after);
        }
      }
    }

    /**
     One call of the loop body.  Whatever the hardware hands back, it is one
     iteration of the machine, and leaves the objects where the longer run leads.
     */
    method Iterate(events: seq<Event>, beyond: nat -> Byte, toggleFilter: bool, interrupt: nat)
      returns (running: bool, spinning: bool)
      requires Valid() && Deliverable(events)
      modifies this, parser, common, ring0, ring0.ptr, ring1, ring1.ptr
      modifies receiver, receiver.next, receiver.bufIds, receiver.fragDataLen, receiver.data, inserter, inserter.data
      ensures old(inserter.Trace) <= inserter.Trace
      ensures var input := InputOf(old(Polled(events)), beyond, toggleFilter, interrupt);
              && Sound(old(Value()))
              && spinning == Iterated(old(Value()), input).hung
              && (!spinning ==>
                    && Valid() && Inputs == old(Inputs) + [input]
                    && Value() == Iterated(old(Value()), input)
                    && running == common.applicationRunFlag
                    && Events == if Polls(old(Value()), interrupt == 0) then old(Events + HandledHere(events))
                                 else old(Events))
    {
      hide Ring.Valid, Fits, RunLoop.Whole, RunLoop.Deliverable, EventsOk, Poll, EventIds;
      hide EfviReceiver.JumboOk, HandledNow, Iterated, Pipeline.Run, PipelineTheorems.FitsJumbo, Sound;
      EverythingFits();
      PolledIsFit(events);
      ghost var input := InputOf(Polled(events), beyond, toggleFilter, interrupt);
      RunGoesOn(ring0.ptr.Length, ring1.ptr.Length, inserter.n, Inputs, input);
      ghost var after := Events + HandledHere(events);
      spinning := Step(events, beyond, toggleFilter, interrupt, after);
      running := !spinning && common.applicationRunFlag;
      Inputs := Inputs + [input];
    }

    lemma PolledIsFit(events: seq<Event>)
      requires receiver.JumboOk() && Deliverable(events)
      ensures Fits(Polled(events).packets)
    {
      PacketsFit(receiver.num, receiver.Packet(), events);
    }

    /**
     From the hardware to ring 0, over all polls: cutting the handled fragments at
     the packet ends gives packets, each from one packet's fragments only, however
     the polls and the discards fall; the payloads are exactly what was delivered,
     which is the frames that the parser took and those in ring 0; and what is left
     are the fragments of the packet in progress.
     */
    lemma DeliveredArePackets()
      requires Valid()
      ensures receiver.JumboOk()
      ensures var fragments := Fragments(Events);
              var groups := Groups([], fragments);
              && AreGroups(receiver.num, groups, Delivered)
              && Delivered == PipelineProofs.Frames(Log) + ring0.Queue
              && Joined(groups) + Left([], fragments) == fragments
              && InProgress(receiver.num, Left([], fragments), receiver.Packet())
    {
      hide Pipeline.Run, Poll, EventsOk, Groups, Left, Fragments, Joined, AreGroups, InProgress;
      NothingInProgress(receiver.num);
      HandledPartPolls(receiver.num, NO_PACKET, Events);
      PolledPacketsAreGroups(receiver.num, NO_PACKET, [], Events);
      GroupsCoverEvents([], Fragments(Events));
      PipelineTheorems.EndToEnd(ring0.ptr.Length, ring1.ptr.Length, inserter.n, Inputs);
      assert Value().ring0.queue == ring0.Queue && Value().delivered == Delivered && Value().log == Log;
    }

    /** On safe traffic the next call of Iterate does not spin. */
    lemma SafeIterationEnds(input: Input)
      requires Valid() && Fits(input.packets)
      requires PipelineTheorems.IsSafeInput(input)
      requires forall k :: 0 <= k < |Inputs| ==> PipelineTheorems.IsSafeInput(Inputs[k])
      ensures Sound(Value()) && !Iterated(Value(), input).hung
    {
      hide Pipeline.Run, Iterated, RunLoop.Whole, PipelineTheorems.IsSafeInput, PipelineTheorems.FitsJumbo, Fits;
      RunGoesOn(ring0.ptr.Length, ring1.ptr.Length, inserter.n, Inputs, input);
      PipelineTheorems.SafeTrafficNeverHangs(ring0.ptr.Length, ring1.ptr.Length, inserter.n, Inputs + [input]);
    }

    /**
     From the network to a consumer.  Whatever way a consumer's copying is
     interleaved with the stores of the inserter, when its check succeeds the
     messages it decodes between two record boundaries are a stretch of the
     accepted messages, in order, none missing, byte for byte.
     */
    lemma ConsumersReadAcceptedMessages(states: seq<L.Shared>, actions: seq<L.Action>, t: nat, i: nat, j: nat)
      requires Valid()
      requires L.IsRun(states, actions) && t < |states| && states[0].log == inserter.Trace[0]
      requires Inserter.Writes(actions) <= inserter.Steps
      requires states[t].reader.Holding?
      requires i <= j <= |states[t].log.history|
      requires states[t].reader.from == L.Start(states[t].log.history, i)
      requires states[t].reader.to == L.Start(states[t].log.history, j)
      ensures var history := states[t].log.history;
              var accepted := PipelineTheorems.Stripped(PipelineTheorems.AcceptedMessages(Log));
              var from, to := |L.Messages(history[..i])|, |L.Messages(history[..j])|;
              && from <= to <= |accepted|
              && PipelineTheorems.Payloads(L.Walk(states[t].reader.copy)) == accepted[from..to]
    {
      hide Pipeline.Run, L.Messages, L.Walk, L.Start, RunLoop.Whole, Inserter.IsWriterRun, L.Inv;
      hide PipelineTheorems.AcceptedMessages, PipelineTheorems.Stripped, PipelineTheorems.Payloads;
      var history := states[t].log.history;
      TraceIsRecorded();
      Inserter.InterleavingFollowsRun(inserter.Trace, inserter.Steps, states, actions, t);
      Inserter.WriterGrows(inserter.Trace, inserter.Steps, |Inserter.Writes(actions[..t])|);
      L.HeldCopyIsCommitted(states, actions, t);
      L.MessagesPrefix(history, inserter.History);
      L.MessagesSlice(history, i, j);
      AcceptedInOrder();
      var accepted := PipelineTheorems.Stripped(PipelineTheorems.AcceptedMessages(Log));
      StretchOfPayloads(L.Messages(inserter.History), PipelineTheorems.Stripped(ring1.Queue), accepted,
                        L.Messages(history), |L.Messages(history[..i])|, |L.Messages(history[..j])|);
    }

    /**
     As long as no accepted frame carries the number 0, such a consumer may also
     take a zero sequence number for a skip.
     */
    lemma ConsumersMayTakeZeroForSkip(states: seq<L.Shared>, actions: seq<L.Action>, t: nat, i: nat, j: nat)
      requires Valid() && PipelineSequence.AreNumbered(Log)
      requires L.IsRun(states, actions) && t < |states| && states[0].log == inserter.Trace[0]
      requires Inserter.Writes(actions) <= inserter.Steps
      requires states[t].reader.Holding?
      requires i <= j <= |states[t].log.history|
      requires states[t].reader.from == L.Start(states[t].log.history, i)
      requires states[t].reader.to == L.Start(states[t].log.history, j)
      ensures L.WalkBySequence(states[t].reader.copy) == L.Messages(states[t].log.history[i..j])
    {
      hide Pipeline.Run, L.Messages, L.WalkBySequence, L.Start, RunLoop.Whole, Inserter.IsWriterRun, L.Laid, L.Window;
      var log := states[t].log;
      TraceIsRecorded();
      Inserter.InterleavingFollowsRun(inserter.Trace, inserter.Steps, states, actions, t);
      Inserter.WriterGrows(inserter.Trace, inserter.Steps, |Inserter.Writes(actions[..t])|);
      L.RunKeepsInv(states, actions, t);
      L.HeldCopyIsCommitted(states, actions, t);
      RecordsAreNumbered();
      forall e | e in log.history[i..j] && e.Record?
        ensures e.job.sequence != 0
      {
        assert e in log.history && e in inserter.History;
      }
      L.WalkBySequenceIff(log.n, log.image, log.history, i, j);
    }

    lemma RecordsAreNumbered()
      requires Valid() && PipelineSequence.AreNumbered(Log)
      ensures forall e :: e in inserter.History && e.Record? ==> e.job.sequence != 0
    {
      hide Pipeline.Run, RunLoop.Whole, PipelineSequence.AreNumbered, L.Messages;
      assert Value().log == Log && Value().history == inserter.History;
      PipelineSequence.NumberedFramesNumberRecords(ring0.ptr.Length, ring1.ptr.Length, inserter.n, Inputs);
      PipelineSequence.RecordsAreMessages(inserter.History);
    }

    lemma TraceIsRecorded()
      requires Valid()
      ensures Inserter.IsWriterRun(inserter.Trace, inserter.Steps)
      ensures inserter.Trace[|inserter.Steps|] == inserter.Value()
    {
      hide Pipeline.Run;
    }

    lemma AcceptedInOrder()
      requires Valid()
      ensures PipelineTheorems.Payloads(L.Messages(inserter.History)) + PipelineTheorems.Stripped(ring1.Queue)
              == PipelineTheorems.Stripped(PipelineTheorems.AcceptedMessages(Log))
    {
      hide Pipeline.Run, RunLoop.Whole;
      PipelineTheorems.EndToEnd(ring0.ptr.Length, ring1.ptr.Length, inserter.n, Inputs);
      assert Value().ring1.queue == ring1.Queue && Value().history == inserter.History && Value().log == Log;
    }
  }

  lemma StretchOfPayloads(jobs: seq<L.Job>, waiting: seq<Bytes>, accepted: seq<Bytes>,
                          shown: seq<L.Job>, from: nat, to: nat)
    requires PipelineTheorems.Payloads(jobs) + waiting == accepted
    requires shown <= jobs && from <= to <= |shown|
    ensures to <= |accepted| && PipelineTheorems.Payloads(shown[from..to]) == accepted[from..to]
  {
    assert forall k :: from <= k < to ==> accepted[k] == jobs[k].payload;
  }

  lemma SizeOfRings(bufferSizeBytes: nat)
    requires LINE / 2 < bufferSizeBytes <= 0x4000_0000
    ensures IsSize(NextPow2(bufferSizeBytes))
  {
    NextPow2IsLeast(bufferSizeBytes);
  }

  lemma RunGoesOn(size0: nat, size1: nat, n: nat, inputs: seq<Input>, input: Input)
    requires IsSize(size0) && IsSize(size1) && n >= L.MAX_LINES
    requires PipelineTheorems.FitsJumbo(inputs) && Fits(input.packets)
    ensures PipelineTheorems.FitsJumbo(inputs + [input])
    ensures Pipeline.Run(size0, size1, n, inputs + [input]) == Iterated(Pipeline.Run(size0, size1, n, inputs), input)
  {
    hide Iterated;
    assert (inputs + [input])[..|inputs|] == inputs;
  }

  /** From the start, these events complete these packets and leave this one in progress. */
  ghost predicate IsReassembled(num: nat, events: seq<Event>, delivered: seq<Bytes>, packet: Jumbo) {
    && EventsOk(num, NO_PACKET, events)
    && Poll(num, NO_PACKET, events) == Reassembly.Polled(packet, delivered, false)
  }

  /** All events handled so far, and those of the next poll. */
  lemma HandledOn(num: nat, sofar: seq<Event>, delivered: seq<Bytes>, j: Jumbo, events: seq<Event>)
    requires IsReassembled(num, sofar, delivered, j) && EventsOk(num, j, events)
    ensures var p := Poll(num, j, events);
            IsReassembled(num, sofar + HandledPart(num, j, events), delivered + p.packets, p.jumbo)
  {
    hide EventsOk, Poll, HandledPart;
    HandledPartPolls(num, j, events);
    PollSplit(num, NO_PACKET, sofar, HandledPart(num, j, events));
  }

  lemma NothingInProgress(num: nat)
    ensures InProgress(num, [], NO_PACKET)
  {}

  lemma HeadFits(queue: seq<Bytes>)
    requires Fits(queue)
    ensures queue != [] ==> |queue[0]| <= JUMBO_SIZE
  {}

  lemma ReceiverFits(s: State, packets: seq<Bytes>, fails: bool)
    requires s.ring0.Valid() && Fits(s.ring0.queue) && Fits(packets)
    ensures Fits(ReceiverStage(s, packets, fails).ring0.queue)
  {
    hide Ring.Valid, AllAccepted, WriteAll;
    if AllAccepted(s.ring0, packets) {
      WriteAllAppends(s.ring0, packets);
    }
  }
}
