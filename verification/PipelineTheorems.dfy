/**
 The main results about whole runs.  A run is any series of inputs; a run that is
 not hung is one in which no retry loop has ever spun.
 */
module PipelineTheorems {
  import opened Bytes
  import opened CommonData
  import opened RingQueue
  import opened FrameFormat
  import opened ParserModel
  import L = SharedLog
  import opened Inserter
  import opened Pipeline
  import opened PipelineProofs
  import Reassembly

  function Payloads(jobs: seq<L.Job>): seq<Bytes> {
    seq(|jobs|, i requires 0 <= i < |jobs| => jobs[i].payload)
  }

  /** Messages without their 2-byte length field. */
  function Stripped(msgs: seq<Bytes>): seq<Bytes> {
    seq(|msgs|, i requires 0 <= i < |msgs| => if |msgs[i]| >= 2 then msgs[i][2..] else [])
  }

  /** The messages of all frames accepted so far, in order. */
  function AcceptedMessages(log: seq<Taken>): seq<Bytes> {
    seq(|Items(log)|, i requires 0 <= i < |Items(log)| => Items(log)[i].message)
  }

  /**
   The packets delivered are the frames taken and those waiting in ring 0; each
   frame was taken whole, as the tiling of its body, or not at all; and the
   payloads committed to shared memory, followed by what waits in ring 1, are the
   accepted messages, in order and byte for byte.
   */
  ghost predicate IsComplete(s: State) {
    && s.delivered == Frames(s.log) + s.ring0.queue
    && (forall t :: t in s.log && t.msgs != [] ==> |t.frame| >= FRAME_HEADER && Tiles(t.frame, t.msgs))
    && Payloads(L.Messages(s.history)) + Stripped(s.ring1.queue) == Stripped(AcceptedMessages(s.log))
  }

  /** Each committed payload is as long as its message's own 16-bit length field says. */
  ghost predicate IsExact(s: State) {
    && |L.Messages(s.history)| <= |Items(s.log)|
    && forall i :: 0 <= i < |L.Messages(s.history)| ==>
         && |Items(s.log)[i].message| >= 4
         && |L.Messages(s.history)[i].payload| == FromBigEndian(Items(s.log)[i].message[0..2]) < 0x1_0000
  }

  /**
   Each message that is sure of a session (see Owner) was committed while shared
   memory showed that session's id.
   */
  ghost predicate IsIsolated(s: State) {
    && |L.Messages(s.history)| == |s.publishedAt| <= |Items(s.log)|
    && forall i :: 0 <= i < |s.publishedAt| ==>
         (Items(s.log)[i].tag.Of? ==> s.publishedAt[i] == Items(s.log)[i].tag.session)
  }

  lemma InvIsComplete(s: State)
    requires PipelineProofs.Inv(s)
    ensures IsComplete(s) && IsExact(s) && IsIsolated(s)
  {
    hide Items, L.Messages, IsMessage, Sound, StreamOk, SessionOk, PublishedOk;
    FlowIsComplete(Items(s.log), L.Messages(s.history), s.publishedAt, s.ring1.queue);
    Pow256Values();
    forall i | 0 <= i < |L.Messages(s.history)|
      ensures |Items(s.log)[i].message| >= 4
      ensures |L.Messages(s.history)[i].payload| == FromBigEndian(Items(s.log)[i].message[0..2]) < 0x1_0000
    {
      MessageLength(Items(s.log)[i].message);
    }
  }

  lemma MessageLength(m: Bytes)
    requires IsMessage(m)
    ensures |m| >= 4 && |m[2..]| == FromBigEndian(m[0..2]) < 0x1_0000
  {
    Pow256Values();
  }

  /** Every run, between two iterations, and when the inserter has run in the next one, which may then hang. */
  lemma RunAndCommit(size0: nat, size1: nat, n: nat, inputs: seq<Input>)
    requires IsSize(size0) && IsSize(size1) && n >= L.MAX_LINES
    requires !Pipeline.Run(size0, size1, n, inputs).hung
    ensures var s := Pipeline.Run(size0, size1, n, inputs);
            PipelineProofs.Inv(s) && (s.stream == InSession ==> PipelineProofs.Inv(InserterStage(s)))
  {
    hide Pipeline.Run, PipelineProofs.Inv, InserterStage;
    RunKeepsInv(size0, size1, n, inputs);
    var s := Pipeline.Run(size0, size1, n, inputs);
    if s.stream == InSession {
      InserterKeepsInv(s);
    }
  }

  /** End to end, in every run, and for the commit of an iteration that hangs after it. */
  lemma EndToEnd(size0: nat, size1: nat, n: nat, inputs: seq<Input>)
    requires IsSize(size0) && IsSize(size1) && n >= L.MAX_LINES
    requires !Pipeline.Run(size0, size1, n, inputs).hung
    ensures var s := Pipeline.Run(size0, size1, n, inputs);
            IsComplete(s) && (s.stream == InSession ==> IsComplete(InserterStage(s)))
  {
    hide Pipeline.Run, PipelineProofs.Inv, InserterStage, IsComplete, IsExact, IsIsolated;
    RunAndCommit(size0, size1, n, inputs);
    var s := Pipeline.Run(size0, size1, n, inputs);
    InvIsComplete(s);
    if s.stream == InSession {
      InvIsComplete(InserterStage(s));
    }
  }

  lemma FlowIsComplete(items: seq<Item>, jobs: seq<L.Job>, publishedAt: seq<nat>, queue: seq<Bytes>)
    requires Flows(items, jobs, publishedAt, queue)
    ensures Payloads(jobs) + Stripped(queue) ==
            Stripped(seq(|items|, i requires 0 <= i < |items| => items[i].message))
  {
    var left := Payloads(jobs) + Stripped(queue);
    var right := Stripped(seq(|items|, i requires 0 <= i < |items| => items[i].message));
    forall i | 0 <= i < |items|
      ensures left[i] == right[i]
    {
      assert IsMessage(items[i].message);
      if i >= |jobs| {
        assert queue[i - |jobs|] == items[|jobs| + (i - |jobs|)].message;
      }
    }
  }

  /** The 16-bit length store never truncates. */
  lemma LengthStoreIsExact(size0: nat, size1: nat, n: nat, inputs: seq<Input>)
    requires IsSize(size0) && IsSize(size1) && n >= L.MAX_LINES
    requires !Pipeline.Run(size0, size1, n, inputs).hung
    ensures var s := Pipeline.Run(size0, size1, n, inputs);
            IsExact(s) && (s.stream == InSession ==> IsExact(InserterStage(s)))
  {
    hide Pipeline.Run, PipelineProofs.Inv, InserterStage, IsComplete, IsExact, IsIsolated;
    RunAndCommit(size0, size1, n, inputs);
    var s := Pipeline.Run(size0, size1, n, inputs);
    InvIsComplete(s);
    if s.stream == InSession {
      InvIsComplete(InserterStage(s));
    }
  }

  /** Session isolation, in every run, hung or not, and when the inserter has run in the next iteration. */
  lemma {:induction false} SessionIsolation(size0: nat, size1: nat, n: nat, inputs: seq<Input>)
    requires IsSize(size0) && IsSize(size1) && n >= L.MAX_LINES
    ensures var s := Pipeline.Run(size0, size1, n, inputs);
            IsIsolated(s) && (!s.hung && s.stream == InSession ==> IsIsolated(InserterStage(s)))
  {
    hide Iterated, PipelineProofs.Inv, InserterStage, IsComplete, IsExact, IsIsolated, Interrupted;
    var s := Pipeline.Run(size0, size1, n, inputs);
    if !s.hung {
      RunAndCommit(size0, size1, n, inputs);
      InvIsComplete(s);
      if s.stream == InSession {
        InvIsComplete(InserterStage(s));
      }
    } else {
      var last := |inputs| - 1;
      var before := Pipeline.Run(size0, size1, n, inputs[..last]);
      if before.hung {
        SessionIsolation(size0, size1, n, inputs[..last]);
        HungIsFinal(before, inputs[last]);
      } else {
        RunKeepsInv(size0, size1, n, inputs[..last]);
        HangKeepsIsolation(before, inputs[last]);
      }
    }
  }

  lemma HungIsFinal(s: State, input: Input)
    requires Sound(s) && s.hung
    ensures Iterated(s, input) == s
  {}

  /** A stage that hangs leaves the log and what is committed as they are. */
  lemma StagesKeepHistory(s: State, input: Input)
    requires Sound(s)
    ensures var t := ReceiverStage(s, input.packets, input.receiverFails);
            t.history == s.history && t.publishedAt == s.publishedAt && t.log == s.log
    ensures ParserStage(s, input.beyond).hung && !s.hung ==> ParserStage(s, input.beyond) == s.(hung := true)
  {
    hide Ring.Valid, AllAccepted, WriteAll, ParserStep;
  }

  lemma HangKeepsIsolation(s: State, input: Input)
    requires PipelineProofs.Inv(s) && !s.hung && Iterated(s, input).hung
    ensures IsIsolated(Iterated(s, input))
  {
    hide PipelineProofs.Inv, ReceiverStage, ParserStage, InserterStage, IsComplete, IsExact, Items, L.Messages;
    hide Ring.Valid;
    FlagsKeepInv(s, input.interrupt == 0, false);
    var s0 := Interrupted(s, input.interrupt == 0);
    InvIsSound(s);
    InvIsSound(s0);
    StagesAreSound(s, input);
    FlagsKeepInv(s0, false, input.toggleFilter);
    StagesKeepStream(s0, input);
    if s0.stream == InSession {
      InserterKeepsInv(s0);
    }
    var i := if s0.stream == InSession then InserterStage(s0) else KeyboardStage(s0, input.toggleFilter);
    InvIsComplete(i);
    var r := Interrupted(i, input.interrupt == 1);
    StagesKeepHistory(r, input);
    StagesKeepHistory(Interrupted(ReceiverStage(r, input.packets, input.receiverFails), input.interrupt == 2), input);
  }

  /**
   With the session filter on, a frame accepted in session carries the open session's
   id, and that session is open after it.
   */
  lemma FilteredFramesAreTagged(p: ParserState, c: Common, ring: Ring, v: View)
    requires ring.Valid() && SessionInv(p, c) && p.phase == Session && !c.dontFilterSourceId
    requires ProcessFrame(p, c, ring, v).verdict.Accepted?
    ensures |v.frame| >= FRAME_HEADER && SessionId(v.frame) == p.sessionId
    ensures OpenSession(ProcessFrame(p, c, ring, v).parser) == Of(SessionId(v.frame))
  {
    hide Ring.Valid, AllAccepted, WriteAll, ScanFrame, FromLittleEndian, FromBigEndian;
    UpdateKeepsSession(p, c, MessageType(v.frame), SessionId(v.frame), Drained(ring));
  }

  /** The session and stream invariants, and no commit before a session was opened. */
  lemma SessionInvariants(size0: nat, size1: nat, n: nat, inputs: seq<Input>)
    requires IsSize(size0) && IsSize(size1) && n >= L.MAX_LINES
    requires !Pipeline.Run(size0, size1, n, inputs).hung
    ensures var s := Pipeline.Run(size0, size1, n, inputs);
            && (s.parser.phase != Startup <==> s.common.sessionIdReceived)
            && (s.parser.phase != Startup ==> s.parser.sessionId == s.common.sessionId && !s.common.shutdownReceived)
            && (s.history != [] ==> s.everOpened)
            && (s.published.flags != 0 ==> s.everOpened)
  {
    hide Pipeline.Run, DataOk, Sound;
    RunKeepsInv(size0, size1, n, inputs);
  }

  /**
   The published session is never stale: although the id is stored only when the
   flags change, whenever the loop runs the inserter, shared memory shows the
   current id and the current flags afterwards.
   */
  lemma PublishedIsCurrent(size0: nat, size1: nat, n: nat, inputs: seq<Input>)
    requires IsSize(size0) && IsSize(size1) && n >= L.MAX_LINES
    requires !Pipeline.Run(size0, size1, n, inputs).hung
    ensures var t := InserterStage(Pipeline.Run(size0, size1, n, inputs));
            && t.published == Published(Flags(t.common), Flags(t.common), t.common.sessionId)
            && (t.stream == InSession ==> t.published.flags == if t.parser.phase != Startup then 3 else 5)
  {
    hide Pipeline.Run, DataOk;
    RunKeepsInv(size0, size1, n, inputs);
    InserterPublishes(Pipeline.Run(size0, size1, n, inputs));
  }

  // ---------- Everything fits the buffers ----------

  predicate FitsJumbo(inputs: seq<Input>) {
    forall i :: 0 <= i < |inputs| ==> Reassembly.Fits(inputs[i].packets)
  }

  /** What was delivered came from some input. */
  lemma {:induction false} DeliveredIsInput(size0: nat, size1: nat, n: nat, inputs: seq<Input>, p: Bytes)
    requires IsSize(size0) && IsSize(size1) && n >= L.MAX_LINES
    requires p in Pipeline.Run(size0, size1, n, inputs).delivered
    ensures exists i :: 0 <= i < |inputs| && p in inputs[i].packets
  {
    hide Iterated;
    var last := |inputs| - 1;
    var before := Pipeline.Run(size0, size1, n, inputs[..last]);
    DeliveredGrows(before, inputs[last]);
    if p in inputs[last].packets {
    } else {
      DeliveredIsInput(size0, size1, n, inputs[..last], p);
    }
  }

  lemma DeliveredByStages(s: State, input: Input)
    requires Sound(s)
    ensures InserterStage(s).delivered == s.delivered
    ensures ParserStage(s, input.beyond).delivered == s.delivered
    ensures ReceiverStage(s, input.packets, input.receiverFails).delivered == s.delivered
         || ReceiverStage(s, input.packets, input.receiverFails).delivered == s.delivered + input.packets
  {
    hide Ring.Valid, AllAccepted, WriteAll, ParserStep;
  }

  lemma DeliveredGrows(s: State, input: Input)
    requires Sound(s)
    ensures forall p :: p in Iterated(s, input).delivered ==> p in s.delivered || p in input.packets
  {
    hide ReceiverStage, ParserStage, InserterStage, Ring.Valid;
    var s0 := Interrupted(s, input.interrupt == 0);
    StagesAreSound(s, input);
    var r := Interrupted(if s0.stream == InSession then InserterStage(s0) else KeyboardStage(s0, input.toggleFilter),
                         input.interrupt == 1);
    var s2 := ReceiverStage(r, input.packets, input.receiverFails);
    DeliveredByStages(s0, input);
    DeliveredByStages(r, input);
    DeliveredByStages(Interrupted(s2, input.interrupt == 2), input);
  }

  /** The states between the stages of an iteration are sound. */
  lemma StagesAreSound(s: State, input: Input)
    requires Sound(s)
    ensures var s0 := Interrupted(s, input.interrupt == 0);
            && Sound(s0)
            && var r := Interrupted(
                 if s0.stream == InSession then InserterStage(s0) else KeyboardStage(s0, input.toggleFilter),
                 input.interrupt == 1);
               && Sound(r)
               && Sound(Interrupted(ReceiverStage(r, input.packets, input.receiverFails), input.interrupt == 2))
  {
    hide ReceiverStage, InserterStage, Ring.Valid;
    var s0 := Interrupted(s, input.interrupt == 0);
    InserterIsSound(s0);
    var r := Interrupted(if s0.stream == InSession then InserterStage(s0) else KeyboardStage(s0, input.toggleFilter),
                         input.interrupt == 1);
    ReceiverIsSound(r, input.packets, input.receiverFails);
  }

  lemma {:induction false} ItemsComeFromFrames(log: seq<Taken>, bound: nat, i: nat)
    requires forall t :: t in log ==> |t.frame| <= bound
    requires forall t :: t in log && t.msgs != [] ==> |t.frame| >= FRAME_HEADER && Tiles(t.frame, t.msgs)
    requires i < |Items(log)|
    ensures |Items(log)[i].message| + FRAME_HEADER <= bound
  {
    hide IsMessage;
    var init, last := log[..|log| - 1], log[|log| - 1];
    if i < |Items(init)| {
      ItemsComeFromFrames(init, bound, i);
    } else {
      assert last in log;
      PartIsShorter(last.msgs, i - |Items(init)|);
    }
  }

  lemma {:induction false} PartIsShorter(parts: seq<Bytes>, i: nat)
    requires i < |parts|
    ensures |parts[i]| <= |Flatten(parts)|
  {
    if i > 0 {
      PartIsShorter(parts[1..], i - 1);
    }
  }

  /** With packets of jumbo size, no record in either ring is larger than a stage's 16384-byte buffer. */
  lemma RecordsFitBuffers(size0: nat, size1: nat, n: nat, inputs: seq<Input>)
    requires IsSize(size0) && IsSize(size1) && n >= L.MAX_LINES
    requires FitsJumbo(inputs) && !Pipeline.Run(size0, size1, n, inputs).hung
    ensures var s := Pipeline.Run(size0, size1, n, inputs);
            && (forall r :: r in s.ring0.queue ==> |r| <= 9000)
            && (forall r :: r in s.ring1.queue ==> |r| <= 8980)
  {
    hide Pipeline.Run, Items, L.Messages, IsMessage, Sound, StreamOk, SessionOk, PublishedOk, Tiles;
    RunKeepsInv(size0, size1, n, inputs);
    var s := Pipeline.Run(size0, size1, n, inputs);
    forall p | p in s.delivered
      ensures |p| <= Reassembly.JUMBO_SIZE
    {
      DeliveredIsInput(size0, size1, n, inputs, p);
    }
    forall t | t in s.log
      ensures |t.frame| <= Reassembly.JUMBO_SIZE
    {
      var i :| 0 <= i < |s.log| && s.log[i] == t;
      assert s.delivered[i] == t.frame;
    }
    forall r | r in s.ring0.queue
      ensures |r| <= Reassembly.JUMBO_SIZE
    {
      assert r in s.delivered;
    }
    forall r | r in s.ring1.queue
      ensures |r| <= Reassembly.JUMBO_SIZE - FRAME_HEADER
    {
      var i :| 0 <= i < |s.ring1.queue| && s.ring1.queue[i] == r;
      ItemsComeFromFrames(s.log, Reassembly.JUMBO_SIZE, |L.Messages(s.history)| + i);
    }
  }

  // ---------- Runs that never hang ----------

  /**
   A packet that is not empty, and from which the parser, if it starts on it, takes
   messages whose worst layout is within its gate, whatever lies behind the packet
   in memory.  GateIsSafeIff shows that this is what it takes.
   */
  ghost predicate IsSafe(packet: Bytes) {
    && packet != []
    && (HeaderOk(packet) ==>
          forall beyond: Memory :: WorstLayout(ScanFrame(View(packet, beyond)).msgs) <= PUSHBACK)
  }

  /** Packets that are no message frames, and well-formed frames with bodies of up to 7680 bytes, are safe. */
  lemma SmallBodiesAreSafe(packet: Bytes)
    requires packet != []
    requires HeaderOk(packet) ==> |packet| - FRAME_HEADER <= SAFE_BODY && exists msgs :: Tiles(packet, msgs)
    ensures IsSafe(packet)
  {
    hide Tiles, WorstLayout;
    if HeaderOk(packet) {
      var msgs :| Tiles(packet, msgs);
      SafeBodyIsSafe(packet, msgs);
      forall beyond: Memory
        ensures WorstLayout(ScanFrame(View(packet, beyond)).msgs) <= PUSHBACK
      {
        TiledBy(View(packet, beyond), msgs);
      }
    }
  }

  /** Safe packets, and in one poll no more of them than the receiver's own gate covers. */
  ghost predicate IsSafeInput(input: Input) {
    && (forall p :: p in input.packets ==> IsSafe(p))
    && WorstLayout(input.packets) <= PUSHBACK
  }

  lemma SafeFrameDoesNotSpin(p: ParserState, c: Common, ring: Ring, v: View)
    requires ring.Valid() && ring.Capacity() >= PUSHBACK && IsSafe(v.frame)
    ensures ProcessFrame(p, c, ring, v).verdict != Spinning
  {
    hide Ring.Valid, WorstLayout;
    if HeaderOk(v.frame) {
      HeaderOkCounts(v.frame);
      assert v == View(v.frame, v.beyond);
      ScanIsNonempty(v, MessageCount(v.frame), FRAME_HEADER, 0);
      NoRetryBound(ring, ScanFrame(v).msgs);
    }
  }

  lemma ParserDoesNotHang(s: State, beyond: Memory)
    requires PipelineProofs.Inv(s) && !s.hung
    requires forall p :: p in s.delivered ==> IsSafe(p)
    ensures !ParserStage(s, beyond).hung
  {
    hide Ring.Valid, ProcessFrame, Flows, Items, IsSafe, SessionOk, StreamOk, PublishedOk, Tiles;
    if s.ring0.queue == [] {
      EmptyDoesNotSpin(s.parser, s.common, s.ring1, View(Head(s.ring0), beyond));
    } else {
      assert s.ring0.queue[0] == s.delivered[|s.log|];
      if s.ring1.Capacity() >= PUSHBACK {
        SafeFrameDoesNotSpin(s.parser, s.common, s.ring1, View(Head(s.ring0), beyond));
      }
    }
  }

  lemma EmptyDoesNotSpin(p: ParserState, c: Common, ring: Ring, v: View)
    requires ring.Valid() && v.frame == []
    ensures ProcessFrame(p, c, ring, v).verdict == Ignored
  {}

  lemma ReceiverDoesNotHang(s: State, input: Input)
    requires Sound(s) && !s.hung && IsSafeInput(input)
    ensures !ReceiverStage(s, input.packets, input.receiverFails).hung
  {
    hide Ring.Valid, WorstLayout;
    if s.ring0.Capacity() >= PUSHBACK {
      assert forall p :: p in input.packets ==> IsSafe(p);
      NoRetryBound(s.ring0, input.packets);
    }
  }

  /** The receiver and parser stages of an iteration, from the state before the receiver. */
  lemma StagesDoNotHang(r: State, input: Input)
    requires PipelineProofs.Inv(r) && !r.hung && IsSafeInput(input)
    requires forall p :: p in r.delivered ==> IsSafe(p)
    ensures var s2 := ReceiverStage(r, input.packets, input.receiverFails);
            && !s2.hung
            && Sound(Interrupted(s2, input.interrupt == 2))
            && !ParserStage(Interrupted(s2, input.interrupt == 2), input.beyond).hung
  {
    hide PipelineProofs.Inv, IsSafe, ReceiverStage, ParserStage, Sound;
    InvIsSound(r);
    ReceiverDoesNotHang(r, input);
    ReceiverKeepsInv(r, input.packets, input.receiverFails);
    DeliveredByStages(r, input);
    var s2 := ReceiverStage(r, input.packets, input.receiverFails);
    FlagsKeepInv(s2, input.interrupt == 2, false);
    InvIsSound(Interrupted(s2, input.interrupt == 2));
    ParserDoesNotHang(Interrupted(s2, input.interrupt == 2), input.beyond);
  }

  lemma IterationDoesNotHang(s: State, input: Input)
    requires PipelineProofs.Inv(s) && !s.hung && IsSafeInput(input)
    requires forall p :: p in s.delivered ==> IsSafe(p)
    ensures !Iterated(s, input).hung
  {
    hide PipelineProofs.Inv, IsSafe, IsSafeInput, ReceiverStage, ParserStage, InserterStage, Sound;
    FlagsKeepInv(s, input.interrupt == 0, false);
    var s0 := Interrupted(s, input.interrupt == 0);
    InvIsSound(s0);
    if s0.stream == InSession {
      InserterKeepsInv(s0);
      StagesKeepStream(s0, input);
      DeliveredByStages(s0, input);
      FlagsKeepInv(InserterStage(s0), input.interrupt == 1, false);
      StagesDoNotHang(Interrupted(InserterStage(s0), input.interrupt == 1), input);
    } else {
      FlagsKeepInv(s0, false, input.toggleFilter);
      FlagsKeepInv(KeyboardStage(s0, input.toggleFilter), input.interrupt == 1, false);
      StagesDoNotHang(Interrupted(KeyboardStage(s0, input.toggleFilter), input.interrupt == 1), input);
    }
  }

  /** On safe traffic no retry loop ever spins, in any run of any length. */
  lemma {:induction false} SafeTrafficNeverHangs(size0: nat, size1: nat, n: nat, inputs: seq<Input>)
    requires IsSize(size0) && IsSize(size1) && n >= L.MAX_LINES
    requires forall i :: 0 <= i < |inputs| ==> IsSafeInput(inputs[i])
    ensures !Pipeline.Run(size0, size1, n, inputs).hung
  {
    hide Iterated, PipelineProofs.Inv;
    if inputs != [] {
      var last := |inputs| - 1;
      SafeTrafficNeverHangs(size0, size1, n, inputs[..last]);
      RunKeepsInv(size0, size1, n, inputs[..last]);
      var before := Pipeline.Run(size0, size1, n, inputs[..last]);
      forall p | p in before.delivered
        ensures IsSafe(p)
      {
        DeliveredIsInput(size0, size1, n, inputs[..last], p);
      }
      IterationDoesNotHang(before, inputs[last]);
    }
  }
}
