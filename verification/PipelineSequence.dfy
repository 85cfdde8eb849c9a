/** Which sequence numbers the committed records carry, over every run. */
module PipelineSequence {
  import opened Bytes
  import opened CommonData
  import opened RingQueue
  import opened FrameFormat
  import opened ParserModel
  import L = SharedLog
  import opened Inserter
  import opened Pipeline
  import opened PipelineProofs
  import opened PipelineSteps
  import PipelineHangs

  /** The frame of the log that the i-th accepted message comes from. */
  function ItemFrame(log: seq<Taken>, i: nat): (k: nat)
    requires i < |Items(log)|
    ensures k < |log| && log[k].msgs != []
  {
    var init := log[..|log| - 1];
    if i < |Items(init)| then ItemFrame(init, i) else |log| - 1
  }

  /** The last accepted frame of the log, or -1. */
  function LastAccepted(log: seq<Taken>): (k: int)
    ensures -1 <= k < |log|
    ensures k >= 0 ==> log[k].msgs != []
    ensures forall m :: k < m < |log| ==> log[m].msgs == []
  {
    if log == [] then -1
    else if log[|log| - 1].msgs != [] then |log| - 1
    else LastAccepted(log[..|log| - 1])
  }

  predicate Carries(t: Taken, sequence: nat) {
    t.msgs != [] && |t.frame| >= FRAME_HEADER && SequenceNumber(t.frame) == sequence
  }

  /** The common sequence number is that of the last accepted frame. */
  predicate SequenceOk(s: State) {
    var k := LastAccepted(s.log);
    if k < 0 then s.common.sequenceNumber == 0 else Carries(s.log[k], s.common.sequenceNumber)
  }

  /** The last frame accepted among the first so many that were taken, or -1. */
  function LastBefore(log: seq<Taken>, taken: nat): int
    requires taken <= |log|
  {
    LastAccepted(log[..taken])
  }

  /**
   Each committed record carries the number of the frame accepted last before its
   commit, which is its own frame or a later one.
   */
  predicate Stamped(log: seq<Taken>, jobs: seq<L.Job>, committedAt: seq<nat>) {
    && |committedAt| == |jobs| <= |Items(log)|
    && (forall i :: 0 <= i < |committedAt| ==> committedAt[i] <= |log|)
    && (forall i, j :: 0 <= i < j < |committedAt| ==> committedAt[i] <= committedAt[j])
    && forall i :: 0 <= i < |committedAt| ==>
         && ItemFrame(log, i) <= LastBefore(log, committedAt[i])
         && Carries(log[LastBefore(log, committedAt[i])], jobs[i].sequence)
  }

  predicate IsStamped(s: State) {
    SequenceOk(s) && Stamped(s.log, L.Messages(s.history), s.committedAt)
  }

  // ---------- The stages ----------

  lemma TakenLast(log: seq<Taken>, t: Taken)
    ensures LastAccepted(log + [t]) == if t.msgs != [] then |log| else LastAccepted(log)
    ensures Items(log + [t]) == Items(log) + ItemsOf(t)
    ensures forall i :: 0 <= i < |Items(log)| ==> ItemFrame(log + [t], i) == ItemFrame(log, i)
    ensures forall n :: 0 <= n <= |log| ==> LastBefore(log + [t], n) == LastBefore(log, n) < |log|
  {
    ItemsAppend(log, t);
    assert (log + [t])[..|log|] == log;
    forall n | 0 <= n <= |log|
      ensures LastBefore(log + [t], n) == LastBefore(log, n) < |log|
    {
      assert (log + [t])[..n] == log[..n];
    }
  }

  lemma LogGrowsStamped(log: seq<Taken>, t: Taken, jobs: seq<L.Job>, committedAt: seq<nat>)
    requires Stamped(log, jobs, committedAt)
    ensures Stamped(log + [t], jobs, committedAt)
  {
    hide Items, LastAccepted, ItemFrame, LastBefore;
    TakenLast(log, t);
  }

  lemma ItemFrameIsBeforeLast(log: seq<Taken>, i: nat)
    requires i < |Items(log)|
    ensures ItemFrame(log, i) <= LastAccepted(log)
  {
    hide ItemFrame, LastAccepted, Items;
    var k := ItemFrame(log, i);
    assert log[k].msgs != [];
  }

  lemma CommitStamped(log: seq<Taken>, jobs: seq<L.Job>, committedAt: seq<nat>, job: L.Job)
    requires Stamped(log, jobs, committedAt) && |jobs| < |Items(log)|
    requires LastAccepted(log) >= 0 ==> Carries(log[LastAccepted(log)], job.sequence)
    ensures Stamped(log, jobs + [job], committedAt + [|log|])
  {
    hide Items, LastAccepted, ItemFrame, Carries;
    ItemFrameIsBeforeLast(log, |jobs|);
    assert log[..|log|] == log;
  }

  lemma InserterStamps(s: State)
    requires PipelineProofs.Inv(s) && IsStamped(s)
    ensures IsStamped(InserterStage(s))
  {
    hide IsMessage, Ring.Valid, L.Messages, Items, Stamped, LastAccepted, Carries, SessionOk, StreamOk, PublishedOk;
    var t := InserterStage(s);
    if s.ring1.queue != [] {
      var m := s.ring1.queue[0];
      HeadIsMessage(Items(s.log), L.Messages(s.history), s.publishedAt, s.ring1.queue);
      MessageHasPayload(m);
      var job := L.Job(s.common.sequenceNumber, Payload(m));
      AppendedMessages(s.history, s.n, L.Start(s.history, |s.history|), job);
      CommitStamped(s.log, L.Messages(s.history), s.committedAt, job);
    } else {
      assert t.history == s.history && t.committedAt == s.committedAt;
    }
  }

  lemma ParserStamps(s: State, beyond: Memory)
    requires PipelineProofs.Inv(s) && !s.hung && !ParserStage(s, beyond).hung
    requires IsStamped(s)
    ensures IsStamped(ParserStage(s, beyond))
  {
    hide Ring.Valid, ProcessFrame, ParserStage, L.Messages, Items, Stamped, LastAccepted, DataOk;
    ParserStepCases(s, beyond);
    var v := View(Head(s.ring0), beyond);
    FrameIsAtomic(s.parser, s.common, s.ring1, v);
    var o := ProcessFrame(s.parser, s.common, s.ring1, v);
    if s.ring0.queue != [] && o.verdict != Spinning {
      var taken := Taken(s.ring0.queue[0], Kept(o.verdict), OpenSession(s.parser), OpenSession(o.parser));
      TakenLast(s.log, taken);
      LogGrowsStamped(s.log, taken, L.Messages(s.history), s.committedAt);
    }
  }

  /** The receiver and the flags change nothing that the stamps depend on. */
  lemma ReceiverStamps(s: State, packets: seq<Bytes>, fails: bool)
    requires Sound(s) && IsStamped(s)
    ensures IsStamped(ReceiverStage(s, packets, fails))
  {
    hide L.Messages, Items, Stamped, LastAccepted, Carries, Ring.Valid, AllAccepted, WriteAll;
  }

  lemma FlagsStamp(s: State, now: bool, toggle: bool)
    requires IsStamped(s)
    ensures IsStamped(Interrupted(s, now)) && IsStamped(KeyboardStage(s, toggle))
  {
    hide L.Messages, Items, Stamped, LastAccepted, Carries;
  }

  /** From the state before the receiver to the one after the parser. */
  lemma StagesStamp(r: State, input: Input)
    requires PipelineProofs.Inv(r) && !r.hung && IsStamped(r)
    requires !ReceiverStage(r, input.packets, input.receiverFails).hung
    ensures var s3 := Interrupted(ReceiverStage(r, input.packets, input.receiverFails), input.interrupt == 2);
            && Sound(s3) && IsStamped(s3)
            && (!ParserStage(s3, input.beyond).hung ==> IsStamped(ParserStage(s3, input.beyond)))
  {
    hide PipelineProofs.Inv, IsStamped, ReceiverStage, ParserStage, Sound;
    InvIsSound(r);
    ReceiverKeepsInv(r, input.packets, input.receiverFails);
    ReceiverStamps(r, input.packets, input.receiverFails);
    var s2 := ReceiverStage(r, input.packets, input.receiverFails);
    FlagsKeepInv(s2, input.interrupt == 2, false);
    FlagsStamp(s2, input.interrupt == 2, false);
    var s3 := Interrupted(s2, input.interrupt == 2);
    InvIsSound(s3);
    if !ParserStage(s3, input.beyond).hung {
      ParserStamps(s3, input.beyond);
    }
  }

  // ---------- Whole runs ----------

  lemma IterateStamps(s: State, input: Input)
    requires PipelineProofs.Inv(s) && IsStamped(s) && !Iterated(s, input).hung
    ensures IsStamped(Iterated(s, input))
  {
    hide PipelineProofs.Inv, IsStamped, ReceiverStage, ParserStage, InserterStage, Ring.Valid;
    InvIsSound(s);
    FlagsKeepInv(s, input.interrupt == 0, false);
    FlagsStamp(s, input.interrupt == 0, false);
    var s0 := Interrupted(s, input.interrupt == 0);
    InvIsSound(s0);
    if s0.stream == InSession && s0.common.applicationRunFlag && s0.common.connected {
      InserterStamps(s0);
      InserterKeepsInv(s0);
      var i := InserterStage(s0);
      StagesKeepStream(s0, input);
      FlagsKeepInv(i, input.interrupt == 1, false);
      FlagsStamp(i, input.interrupt == 1, false);
      var r := Interrupted(i, input.interrupt == 1);
      InvIsSound(r);
      StagesKeepStream(r, input);
      StagesStamp(r, input);
      var s3 := Interrupted(ReceiverStage(r, input.packets, input.receiverFails), input.interrupt == 2);
      FlagsStamp(ParserStage(s3, input.beyond), false, input.toggleFilter);
    } else if s0.stream == WaitForSession && s0.common.applicationRunFlag
              && !(s0.common.connected && s0.common.sessionIdReceived) {
      var k := KeyboardStage(s0, input.toggleFilter);
      FlagsKeepInv(s0, false, input.toggleFilter);
      FlagsStamp(s0, false, input.toggleFilter);
      FlagsKeepInv(k, input.interrupt == 1, false);
      FlagsStamp(k, input.interrupt == 1, false);
      StagesStamp(Interrupted(k, input.interrupt == 1), input);
    } else {
      StreamStamps(s0, TransitToSession);
      StreamStamps(s0, InSession);
    }
  }

  lemma StreamStamps(s: State, to: StreamState)
    requires IsStamped(s)
    ensures IsStamped(s.(stream := to))
  {}

  lemma StartIsStamped(size0: nat, size1: nat, n: nat)
    ensures IsStamped(Started(size0, size1, n))
  {}

  /**
   Where sequence numbers come from: in every run each committed record carries the
   number of the last frame accepted before its commit, which is its own frame or a
   later one, and commits follow each other along the log.
   */
  lemma {:induction false} RunIsStamped(size0: nat, size1: nat, n: nat, inputs: seq<Input>)
    requires IsSize(size0) && IsSize(size1) && n >= L.MAX_LINES
    requires !Pipeline.Run(size0, size1, n, inputs).hung
    ensures IsStamped(Pipeline.Run(size0, size1, n, inputs))
  {
    hide PipelineProofs.Inv, Iterated, IsStamped;
    if inputs == [] {
      StartIsStamped(size0, size1, n);
    } else {
      var last := |inputs| - 1;
      var before := Pipeline.Run(size0, size1, n, inputs[..last]);
      HungStays(before, inputs[last]);
      RunKeepsInv(size0, size1, n, inputs[..last]);
      RunIsStamped(size0, size1, n, inputs[..last]);
      IterateStamps(before, inputs[last]);
    }
  }

  /** No accepted frame carries the number 0. */
  predicate AreNumbered(log: seq<Taken>) {
    forall t :: t in log ==> !Carries(t, 0)
  }

  /** If no accepted frame carries 0, no committed record does, and a consumer may take 0 for a skip. */
  lemma NumberedFramesNumberRecords(size0: nat, size1: nat, n: nat, inputs: seq<Input>)
    requires IsSize(size0) && IsSize(size1) && n >= L.MAX_LINES
    requires !Pipeline.Run(size0, size1, n, inputs).hung
    requires AreNumbered(Pipeline.Run(size0, size1, n, inputs).log)
    ensures var s := Pipeline.Run(size0, size1, n, inputs);
            && (forall job :: job in L.Messages(s.history) ==> job.sequence != 0)
            && L.Numbered(s.history) == L.Messages(s.history)
  {
    hide Pipeline.Run, Items, L.Messages, L.Numbered, LastAccepted, ItemFrame;
    RunIsStamped(size0, size1, n, inputs);
    var s := Pipeline.Run(size0, size1, n, inputs);
    forall job | job in L.Messages(s.history)
      ensures job.sequence != 0
    {
      var i :| 0 <= i < |L.Messages(s.history)| && L.Messages(s.history)[i] == job;
      assert s.log[LastBefore(s.log, s.committedAt[i])] in s.log;
    }
    RecordsAreMessages(s.history);
    L.NumberedIff(s.history);
  }

  lemma {:induction false} RecordsAreMessages(history: seq<L.Entry>)
    ensures forall e :: e in history && e.Record? ==> e.job in L.Messages(history)
  {
    if history != [] {
      RecordsAreMessages(history[1..]);
      assert history == [history[0]] + history[1..];
    }
  }

  /** A run in which the condition fails: the first record is stamped with its frame's number, 0 included. */
  lemma FirstRecordIsStamped(prefix: Bytes, beyond: Memory, n: nat)
    requires PipelineHangs.IsStream(prefix) && n >= L.MAX_LINES
    ensures var s := Pipeline.Run(RING_SIZE, RING_SIZE, n,
                                  PipelineHangs.Stream(prefix, beyond, 4));
            && !s.hung
            && L.Messages(s.history) ==
               [L.Job(SequenceNumber(PipelineHangs.Frame(prefix)), PipelineHangs.Message()[2..])]
  {
    hide Pipeline.Run, Iterated, PipelineHangs.Stream, PipelineHangs.FrameInput, PipelineHangs.Frame, Ring.Valid;
    hide L.Messages, MessageOfSize, Appended, FromBigEndian;
    var size := RING_SIZE;
    PipelineHangs.FrameFacts(prefix);
    PipelineHangs.StreamRun(prefix, beyond, 3, n);
    PipelineHangs.StreamRun(prefix, beyond, 4, n);
    PipelineHangs.StreamOneMore(prefix, beyond, 3, n);
    var s := Pipeline.Run(size, size, n, PipelineHangs.Stream(prefix, beyond, 3));
    PipelineHangs.FloodIterates(s, prefix, beyond, 1);
    assert s.ring1.queue[0] == PipelineHangs.Message();
    var job := L.Job(SequenceNumber(PipelineHangs.Frame(prefix)), PipelineHangs.Message()[2..]);
    assert InserterStage(s).history == [] + Appended(s.n, L.Start([], 0), job);
    AppendedMessages([], s.n, L.Start([], 0), job);
    L.NoMessages();
  }

  /** With frames numbered 0 a consumer that takes 0 for a skip misses a committed record. */
  lemma ZeroFrameIsMissed(prefix: Bytes, beyond: Memory, n: nat)
    requires PipelineHangs.IsStream(prefix) && n >= L.MAX_LINES
    requires SequenceNumber(PipelineHangs.Frame(prefix)) == 0
    ensures var s := Pipeline.Run(RING_SIZE, RING_SIZE, n,
                                  PipelineHangs.Stream(prefix, beyond, 4));
            !s.hung && |L.Messages(s.history)| == 1 && L.Numbered(s.history) != L.Messages(s.history)
  {
    hide Pipeline.Run, PipelineHangs.Frame, L.Numbered, L.Messages, PipelineHangs.Stream;
    PipelineHangs.FrameFacts(prefix);
    FirstRecordIsStamped(prefix, beyond, n);
    var s := Pipeline.Run(RING_SIZE, RING_SIZE, n, PipelineHangs.Stream(prefix, beyond, 4));
    MessagesAreRecords(s.history);
    assert L.Messages(s.history)[0] in L.Messages(s.history);
    L.NumberedIff(s.history);
  }

  lemma {:induction false} MessagesAreRecords(history: seq<L.Entry>)
    ensures forall job :: job in L.Messages(history) ==> L.Record(job) in history
  {
    if history != [] {
      MessagesAreRecords(history[1..]);
      assert history == [history[0]] + history[1..];
    }
  }

  /** There are such frames. */
  lemma ZeroFrameExists() returns (prefix: Bytes)
    ensures PipelineHangs.IsStream(prefix) && SequenceNumber(PipelineHangs.Frame(prefix)) == 0
  {
    hide SmallFrame, FromBigEndian;
    prefix := [0, MESSAGE_FRAME_HEADER] + seq(16, _ => 0);
    SmallFrameIsTiled(prefix, PipelineHangs.COUNT);
    var frame := PipelineHangs.Frame(prefix);
    assert forall k :: 10 <= k < 18 ==> frame[k] == frame[..MESSAGE_FRAME_HEADER][k];
    L.ZeroDecodes(frame[10..18]);
  }
}
