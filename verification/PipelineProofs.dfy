/** What holds between any two iterations of every run of the program. */
module PipelineProofs {
  import opened Bytes
  import opened CommonData
  import opened RingQueue
  import opened FrameFormat
  import opened ParserModel
  import L = SharedLog
  import opened Inserter
  import opened Pipeline

  /** A message of an accepted frame and the session it is sure to be committed under. */
  datatype Item = Item(message: Bytes, tag: Tag)

  /**
   The session open after the frame; for the first message of a frame that closes
   its session, that session; none for the others and for frames outside a session.
   */
  function Owner(t: Taken, i: nat): Tag {
    if t.after == None && i == 0 then t.before else t.after
  }

  function ItemsOf(t: Taken): seq<Item> {
    seq(|t.msgs|, i requires 0 <= i < |t.msgs| => Item(t.msgs[i], Owner(t, i)))
  }

  /** The messages of all accepted frames, in order. */
  function Items(log: seq<Taken>): seq<Item> {
    if log == [] then [] else Items(log[..|log| - 1]) + ItemsOf(log[|log| - 1])
  }

  /** The frames the parser took, in order. */
  function Frames(log: seq<Taken>): seq<Bytes> {
    seq(|log|, i requires 0 <= i < |log| => log[i].frame)
  }

  lemma ItemsAppend(log: seq<Taken>, t: Taken)
    ensures Items(log + [t]) == Items(log) + ItemsOf(t)
    ensures Frames(log + [t]) == Frames(log) + [t.frame]
  {
    assert (log + [t])[..|log|] == log;
  }

  // ---------- The invariant, in four parts, and what holds after the inserter ----------

  ghost predicate SessionOk(s: State) {
    && SessionInv(s.parser, s.common)
    && (s.common.sessionIdReceived ==> s.everOpened)
    && s.common.sequenceNumber < 0x1_0000_0000_0000_0000
  }

  /** Nothing is published before the stream is in session, and it gets there only with a session id. */
  ghost predicate StreamOk(s: State) {
    && s.common.connected
    && (s.stream != InSession ==> s.published == Published(0, 0, 0) && s.history == [] && s.publishedAt == [])
    && (s.stream == TransitToSession && s.common.applicationRunFlag ==> s.common.sessionIdReceived)
    && (s.stream == InSession ==>
          s.everOpened && (s.parser.phase == Startup ==> s.common.shutdownReceived))
  }

  /** The published id is the current one, or the flags differ so that it will be republished. */
  ghost predicate PublishedOk(s: State) {
    && s.published.flags == s.published.flagsPrevious
    && (s.published.flagsPrevious == Flags(s.common) ==> s.published.sessionId == s.common.sessionId)
  }

  ghost predicate Current(s: State) {
    s.published == Published(Flags(s.common), Flags(s.common), s.common.sessionId)
  }

  /** Packets in, frames taken, messages committed and waiting: nothing lost, added or reordered. */
  ghost predicate DataOk(s: State) {
    && s.delivered == Frames(s.log) + s.ring0.queue
    && (forall t :: t in s.log && t.msgs != [] ==> |t.frame| >= FRAME_HEADER && Tiles(t.frame, t.msgs))
    && Flows(Items(s.log), L.Messages(s.history), s.publishedAt, s.ring1.queue)
    && Waiting(Items(s.log), |L.Messages(s.history)|, s.parser, s.common.sessionId, 1)
  }

  /** The accepted messages: first those committed, each under its session, then those in ring 1. */
  ghost predicate Flows(items: seq<Item>, jobs: seq<L.Job>, publishedAt: seq<nat>, queue: seq<Bytes>) {
    && |items| == |jobs| + |queue|
    && |publishedAt| == |jobs|
    && (forall i :: 0 <= i < |items| ==> IsMessage(items[i].message))
    && (forall i :: 0 <= i < |jobs| ==> jobs[i].payload == items[i].message[2..])
    && (forall i :: 0 <= i < |jobs| ==> items[i].tag.Of? ==> publishedAt[i] == items[i].tag.session)
    && (forall i :: 0 <= i < |queue| ==> queue[i] == items[|jobs| + i].message)
  }

  /**
   The messages in ring 1 that have a session have the current one; when it is
   closed, they are among the next so many to be committed.
   */
  predicate Waiting(items: seq<Item>, committed: nat, p: ParserState, current: nat, late: nat) {
    forall i :: committed <= i < |items| && items[i].tag.Of? ==>
      items[i].tag.session == current && (p.phase == Startup ==> i < committed + late)
  }

  /** Nothing of a closed session waits. */
  predicate Settled(s: State) {
    Waiting(Items(s.log), |L.Messages(s.history)|, s.parser, s.common.sessionId, 0)
  }

  /** The inserter has just run. */
  ghost predicate Synced(s: State) {
    Current(s) && Settled(s)
  }

  ghost predicate Inv(s: State) {
    && Sound(s) && SessionOk(s) && StreamOk(s) && PublishedOk(s) && DataOk(s)
    && (s.stream != InSession ==> Settled(s))
  }

  // ---------- The inserter ----------

  lemma AppendedMessages(history: seq<L.Entry>, n: nat, commit: nat, job: L.Job)
    requires n > 0
    ensures L.Messages(history + Appended(n, commit, job)) == L.Messages(history) + [job]
  {
    var remaining := n - commit % n;
    if L.LinesFor(job.payload) > remaining {
      L.MessagesAppend(history, L.Skip(remaining));
      L.MessagesAppend(history + [L.Skip(remaining)], L.Record(job));
      assert history + Appended(n, commit, job) == history + [L.Skip(remaining)] + [L.Record(job)];
    } else {
      L.MessagesAppend(history, L.Record(job));
      assert Appended(n, commit, job) == [L.Record(job)];
    }
  }

  lemma MessageHasPayload(m: Bytes)
    requires IsMessage(m)
    ensures Payload(m) == m[2..] && Payload(m) != []
    ensures |Payload(m)| == FromBigEndian(m[0..2])
  {}

  /** Committing the head of ring 1 under the published id. */
  lemma FlowCommits(items: seq<Item>, jobs: seq<L.Job>, publishedAt: seq<nat>, queue: seq<Bytes>, p: ParserState,
                    job: L.Job, at: nat)
    requires Flows(items, jobs, publishedAt, queue) && queue != []
    requires Waiting(items, |jobs|, p, at, 1)
    requires job.payload == queue[0][2..]
    ensures Flows(items, jobs + [job], publishedAt + [at], queue[1..])
    ensures Waiting(items, |jobs + [job]|, p, at, 0)
  {
    hide IsMessage;
    assert queue[0] == items[|jobs| + 0].message;
    forall i | 0 <= i < |queue[1..]|
      ensures queue[1..][i] == items[|jobs + [job]| + i].message
    {
      assert queue[i + 1] == items[|jobs| + (i + 1)].message;
    }
  }

  lemma HeadIsMessage(items: seq<Item>, jobs: seq<L.Job>, publishedAt: seq<nat>, queue: seq<Bytes>)
    requires Flows(items, jobs, publishedAt, queue) && queue != []
    ensures IsMessage(queue[0])
  {
    assert queue[0] == items[|jobs| + 0].message;
  }

  lemma InserterKeepsFlow(s: State)
    requires Inv(s)
    ensures DataOk(InserterStage(s)) && Settled(InserterStage(s))
  {
    hide IsMessage, Ring.Valid, L.Messages, Items, Publish, SessionOk, StreamOk, Tiles, Appended, L.Start, Frames;
    var t := InserterStage(s);
    ReadIsDequeue(s.ring1);
    InserterPublishes(s);
    if s.ring1.queue != [] {
      var m := s.ring1.queue[0];
      HeadIsMessage(Items(s.log), L.Messages(s.history), s.publishedAt, s.ring1.queue);
      MessageHasPayload(m);
      var job := L.Job(s.common.sequenceNumber, Payload(m));
      AppendedMessages(s.history, s.n, L.Start(s.history, |s.history|), job);
      FlowCommits(Items(s.log), L.Messages(s.history), s.publishedAt, s.ring1.queue, s.parser,
                  job, t.published.sessionId);
    } else {
      assert t.history == s.history && t.publishedAt == s.publishedAt;
    }
  }

  /** After the inserter, shared memory shows the current session id and flags, whether or not they changed. */
  lemma InserterPublishes(s: State)
    requires s.ring1.Valid() && s.n > 0 && PublishedOk(s)
    ensures Current(InserterStage(s))
  {
    hide Ring.Valid;
  }

  lemma InserterKeepsInv(s: State)
    requires Inv(s) && s.stream == InSession
    ensures Inv(InserterStage(s)) && Synced(InserterStage(s))
  {
    hide Ring.Valid, DataOk, Settled;
    InserterIsSound(s);
    InserterPublishes(s);
    InserterKeepsFlow(s);
  }

  // ---------- The receiver ----------

  lemma ReceiverKeepsInv(s: State, packets: seq<Bytes>, fails: bool)
    requires Inv(s) && !ReceiverStage(s, packets, fails).hung
    ensures Inv(ReceiverStage(s, packets, fails))
    ensures Synced(s) ==> Synced(ReceiverStage(s, packets, fails))
  {
    hide Ring.Valid, Flows, Waiting, Tiles, Items;
    ReceiverIsSound(s, packets, fails);
    if AllAccepted(s.ring0, packets) {
      WriteAllAppends(s.ring0, packets);
    }
  }

  // ---------- The parser ----------

  /** Taking a frame adds its messages to ring 1 and to the items, or nothing to either. */
  lemma FlowAccepts(items: seq<Item>, jobs: seq<L.Job>, publishedAt: seq<nat>, queue: seq<Bytes>, t: Taken)
    requires Flows(items, jobs, publishedAt, queue)
    requires forall m :: m in t.msgs ==> IsMessage(m)
    ensures Flows(items + ItemsOf(t), jobs, publishedAt, queue + t.msgs)
  {
    hide IsMessage;
    var all, waiting := items + ItemsOf(t), queue + t.msgs;
    forall i | 0 <= i < |all|
      ensures IsMessage(all[i].message)
    {
      if i >= |items| {
        assert all[i].message == t.msgs[i - |items|];
      }
    }
    forall i | 0 <= i < |waiting|
      ensures waiting[i] == all[|jobs| + i].message
    {
      if i < |queue| {
        assert queue[i] == items[|jobs| + i].message;
      }
    }
  }

  /** The id that a frame leaves current, with respect to the session before it and the messages in ring 1. */
  predicate Follows(p: ParserState, current: nat, q: ParserState, next: nat, drained: bool) {
    && (p.phase != Startup ==> p.sessionId == current == next)
    && (q.phase != Startup ==> q.sessionId == next)
    && (p.phase != Startup && q.phase == Startup ==> drained)
  }

  /** The messages of a frame wait for the session that is open after it, or the first for the one it closes. */
  lemma WaitAccepts(items: seq<Item>, committed: nat, p: ParserState, current: nat,
                    q: ParserState, next: nat, t: Taken)
    requires committed <= |items| && Waiting(items, committed, p, current, 0)
    requires Follows(p, current, q, next, committed == |items|)
    requires t.before == OpenSession(p) && t.after == OpenSession(q)
    ensures Waiting(items + ItemsOf(t), committed, q, next, if p.phase == Startup then 0 else 1)
  {
    var all := items + ItemsOf(t);
    forall i | committed <= i < |all| && all[i].tag.Of?
      ensures all[i].tag.session == next
      ensures q.phase == Startup ==> p.phase != Startup && i < committed + 1
    {
      if i >= |items| {
        assert all[i].tag == Owner(t, i - |items|);
      }
    }
  }

  /** A record in ring 1 keeps the parser in its session. */
  lemma DrainedMeansEmpty(r: Ring)
    requires r.Valid()
    ensures Drained(r) <==> r.queue == []
  {
    ByteAccounting(r);
  }

  /** The three things a frame can do to the session. */
  predicate Stays(p: ParserState, c: Common, o: Outcome) {
    && (o.parser.phase == Startup <==> p.phase == Startup)
    && o.common == c.(sequenceNumber := o.common.sequenceNumber)
  }

  predicate Opens(p: ParserState, c: Common, o: Outcome) {
    && p.phase == Startup && o.parser.phase == Session
    && o.common == c.(shutdownReceived := false, sessionIdReceived := true, sessionId := o.common.sessionId,
                      sequenceNumber := o.common.sequenceNumber)
  }

  predicate Closes(p: ParserState, c: Common, o: Outcome) {
    && p.phase == Shutdown && o.parser.phase == Startup
    && o.common == c.(shutdownReceived := true, sessionIdReceived := false, sequenceNumber := o.common.sequenceNumber)
  }

  /** What one frame does to the session. */
  lemma FrameKeepsSession(p: ParserState, c: Common, ring: Ring, v: View)
    requires ring.Valid() && SessionInv(p, c) && c.sequenceNumber < 0x1_0000_0000_0000_0000
    ensures var o := ProcessFrame(p, c, ring, v);
            && SessionInv(o.parser, o.common)
            && o.common.sequenceNumber < 0x1_0000_0000_0000_0000
            && (Stays(p, c, o) || Opens(p, c, o) || Closes(p, c, o))
            && Follows(p, c.sessionId, o.parser, o.common.sessionId, ring.queue == [])
  {
    hide Ring.Valid, AllAccepted, WriteAll, ScanFrame, FromLittleEndian, FromBigEndian;
    DrainedMeansEmpty(ring);
    Pow256Values();
    if HeaderOk(v.frame) {
      UpdateKeepsSession(p, c, MessageType(v.frame), SessionId(v.frame), Drained(ring));
      SequenceFits(v.frame);
    }
  }

  lemma SequenceFits(frame: Bytes)
    requires |frame| >= FRAME_HEADER
    ensures SequenceNumber(frame) < 0x1_0000_0000_0000_0000
  {
    Pow256Values();
  }

  /** The parser step in terms of the frame it took, if any. */
  lemma ParserStepCases(s: State, beyond: Memory)
    requires Sound(s) && !s.hung && !ParserStage(s, beyond).hung
    ensures var t := ParserStage(s, beyond);
            var o := ProcessFrame(s.parser, s.common, s.ring1, View(Head(s.ring0), beyond));
            || t == s.(everOpened := s.everOpened || s.common.sessionIdReceived)
            || (s.ring0.queue != [] && o.verdict != Spinning &&
                t == s.(parser := o.parser, common := o.common, ring0 := s.ring0.Read(), ring1 := o.ring,
                        everOpened := s.everOpened || o.common.sessionIdReceived,
                        log := s.log + [Taken(s.ring0.queue[0], Kept(o.verdict),
                                              OpenSession(s.parser), OpenSession(o.parser))]))
  {
    hide AllAccepted, WriteAll, ScanFrame, Ring.Write, EndIndex, RingQueue.Span;
    assert s.log + [] == s.log;
    if s.ring0.queue != [] {
      assert s.ring0.queue[0] in s.ring0.queue;
    }
  }

  lemma ParserKeepsSession(s: State, beyond: Memory)
    requires Inv(s) && !s.hung && !ParserStage(s, beyond).hung && s.stream != TransitToSession
    requires s.stream == InSession ==> Current(s)
    ensures var t := ParserStage(s, beyond); SessionOk(t) && StreamOk(t) && PublishedOk(t) && t.stream == s.stream
  {
    hide DataOk, Ring.Valid, ProcessFrame, ParserStage;
    ParserStepCases(s, beyond);
    FrameKeepsSession(s.parser, s.common, s.ring1, View(Head(s.ring0), beyond));
    var o := ProcessFrame(s.parser, s.common, s.ring1, View(Head(s.ring0), beyond));
    var t := ParserStage(s, beyond);
    assert t.stream == s.stream && t.published == s.published;
    assert t.history == s.history && t.publishedAt == s.publishedAt;
  }

  lemma TakeKeepsData(s: State, o: Outcome, t: Taken)
    requires Sound(s) && DataOk(s) && Settled(s) && s.ring0.queue != []
    requires t.frame == s.ring0.queue[0] && t.msgs == Kept(o.verdict)
    requires t.before == OpenSession(s.parser) && t.after == OpenSession(o.parser)
    requires t.msgs != [] ==> |t.frame| >= FRAME_HEADER && Tiles(t.frame, t.msgs)
    requires o.ring.queue == s.ring1.queue + t.msgs
    requires Follows(s.parser, s.common.sessionId, o.parser, o.common.sessionId, s.ring1.queue == [])
    ensures var u := s.(parser := o.parser, common := o.common, ring0 := s.ring0.Read(), ring1 := o.ring,
                        everOpened := s.everOpened || o.common.sessionIdReceived, log := s.log + [t]);
            DataOk(u) && (s.parser.phase == Startup ==> Settled(u))
  {
    hide IsMessage, Ring.Valid, Items, Waiting, ItemsOf, L.Messages;
    ReadIsDequeue(s.ring0);
    ItemsAppend(s.log, t);
    FlowAccepts(Items(s.log), L.Messages(s.history), s.publishedAt, s.ring1.queue, t);
    WaitAccepts(Items(s.log), |L.Messages(s.history)|, s.parser, s.common.sessionId,
                o.parser, o.common.sessionId, t);
    if s.parser.phase == Startup {
      WaitsLonger(Items(s.log + [t]), |L.Messages(s.history)|, o.parser, o.common.sessionId);
    }
    assert s.ring0.queue == [t.frame] + s.ring0.queue[1..];
  }

  lemma WaitsLonger(items: seq<Item>, committed: nat, p: ParserState, current: nat)
    requires Waiting(items, committed, p, current, 0)
    ensures Waiting(items, committed, p, current, 1)
  {}

  lemma ParserKeepsData(s: State, beyond: Memory)
    requires Inv(s) && Settled(s) && !s.hung && !ParserStage(s, beyond).hung
    ensures DataOk(ParserStage(s, beyond))
    ensures s.parser.phase == Startup ==> Settled(ParserStage(s, beyond))
  {
    hide Ring.Valid, ProcessFrame, ParserStage, Flows, Waiting, Items, IsMessage, Follows;
    ParserStepCases(s, beyond);
    var v := View(Head(s.ring0), beyond);
    FrameIsAtomic(s.parser, s.common, s.ring1, v);
    FrameKeepsSession(s.parser, s.common, s.ring1, v);
    var o := ProcessFrame(s.parser, s.common, s.ring1, v);
    if s.ring0.queue != [] && o.verdict != Spinning {
      var t := Taken(s.ring0.queue[0], Kept(o.verdict), OpenSession(s.parser), OpenSession(o.parser));
      assert s.ring1.queue + [] == s.ring1.queue;
      TakeKeepsData(s, o, t);
    }
  }

  lemma ParserKeepsInv(s: State, beyond: Memory)
    requires Inv(s) && !s.hung && !ParserStage(s, beyond).hung && s.stream != TransitToSession
    requires s.stream == InSession ==> Synced(s)
    requires s.stream == WaitForSession ==> s.parser.phase == Startup
    ensures Inv(ParserStage(s, beyond))
  {
    hide SessionOk, StreamOk, PublishedOk, DataOk, Sound, Settled, Current, ParserStage;
    ParserKeepsSession(s, beyond);
    ParserKeepsData(s, beyond);
    ParserIsSound(s, beyond);
  }

  // ---------- Whole iterations and runs ----------

  lemma FlagsKeepInv(s: State, now: bool, toggle: bool)
    requires Inv(s)
    ensures Inv(Interrupted(s, now)) && Inv(KeyboardStage(s, toggle))
    ensures Synced(s) ==> Synced(Interrupted(s, now))
    ensures Interrupted(s, now).parser == KeyboardStage(s, toggle).parser == s.parser
  {
    hide Ring.Valid, Flows, Waiting, Items, Tiles;
  }

  lemma WaitKeepsInv(s: State, input: Input)
    requires Inv(s) && !s.hung && s.stream == WaitForSession && !WaitIteration(s, input).hung
    requires s.parser.phase == Startup
    ensures Inv(WaitIteration(s, input))
  {
    hide Inv, Synced, ReceiverStage, ParserStage;
    var s1 := KeyboardStage(s, input.toggleFilter);
    FlagsKeepInv(s, false, input.toggleFilter);
    var r := Interrupted(s1, input.interrupt == 1);
    FlagsKeepInv(s1, input.interrupt == 1, false);
    InvIsSound(r);
    var s2 := ReceiverStage(r, input.packets, input.receiverFails);
    StagesKeepStream(r, input);
    if !s2.hung {
      ReceiverKeepsInv(r, input.packets, input.receiverFails);
      FlagsKeepInv(s2, input.interrupt == 2, false);
      var s3 := Interrupted(s2, input.interrupt == 2);
      if s3.common.applicationRunFlag {
        ParserKeepsInv(s3, input.beyond);
      }
    }
  }

  lemma InvIsSound(s: State)
    requires Inv(s)
    ensures Sound(s)
  {}

  lemma StagesKeepStream(s: State, input: Input)
    requires Sound(s)
    ensures var t := ReceiverStage(s, input.packets, input.receiverFails);
            t.stream == s.stream && t.parser == s.parser && (t.hung || t.hung == s.hung)
    ensures InserterStage(s).stream == s.stream && InserterStage(s).hung == s.hung
  {}

  lemma SessionKeepsInv(s: State, input: Input)
    requires Inv(s) && !s.hung && s.stream == InSession && !SessionIteration(s, input).hung
    ensures Inv(SessionIteration(s, input))
  {
    hide Inv, Synced, ReceiverStage, ParserStage, InserterStage;
    InvIsSound(s);
    InserterKeepsInv(s);
    StagesKeepStream(s, input);
    var s1 := InserterStage(s);
    FlagsKeepInv(s1, input.interrupt == 1, false);
    var r := Interrupted(s1, input.interrupt == 1);
    InvIsSound(r);
    StagesKeepStream(r, input);
    var s2 := ReceiverStage(r, input.packets, input.receiverFails);
    if !s2.hung {
      ReceiverKeepsInv(r, input.packets, input.receiverFails);
      FlagsKeepInv(s2, input.interrupt == 2, false);
      var s3 := Interrupted(s2, input.interrupt == 2);
      InvIsSound(s3);
      if !ParserStage(s3, input.beyond).hung {
        ParserKeepsInv(s3, input.beyond);
        FlagsKeepInv(ParserStage(s3, input.beyond), false, input.toggleFilter);
      }
    }
  }

  lemma IterateKeepsInv(s: State, input: Input)
    requires Inv(s) && !Iterated(s, input).hung
    ensures Inv(Iterated(s, input))
  {
    hide WaitIteration, SessionIteration, DataOk, Settled, PublishedOk;
    FlagsKeepInv(s, input.interrupt == 0, false);
    var s0 := Interrupted(s, input.interrupt == 0);
    match s0.stream
    case WaitForSession =>
      if s0.common.applicationRunFlag && !(s0.common.connected && s0.common.sessionIdReceived) {
        WaitKeepsInv(s0, input);
      } else {
        StreamChange(s0, TransitToSession);
      }
    case TransitToSession =>
      if s0.common.applicationRunFlag && s0.common.connected {
        StreamChange(s0, InSession);
      }
    case InSession =>
      if s0.common.applicationRunFlag && s0.common.connected {
        SessionKeepsInv(s0, input);
      }
  }

  /** The two transitions of the stream need the run flag and the session id that they check. */
  lemma StreamChange(s: State, to: StreamState)
    requires Inv(s)
    requires to == TransitToSession ==>
               && s.stream == WaitForSession
               && (s.common.applicationRunFlag ==> s.common.connected && s.common.sessionIdReceived)
    requires to == InSession ==> s.stream == TransitToSession && s.common.applicationRunFlag
    requires to != WaitForSession
    ensures Inv(s.(stream := to))
  {
    hide Ring.Valid, Flows, Waiting, Items, Tiles;
  }

  lemma StartedInv(size0: nat, size1: nat, n: nat)
    requires IsSize(size0) && IsSize(size1) && n >= L.MAX_LINES
    ensures Inv(Started(size0, size1, n))
  {}

  /** Hanging is for ever: a run that is not hung has never been. */
  lemma {:induction false} RunKeepsInv(size0: nat, size1: nat, n: nat, inputs: seq<Input>)
    requires IsSize(size0) && IsSize(size1) && n >= L.MAX_LINES
    requires !Pipeline.Run(size0, size1, n, inputs).hung
    ensures Inv(Pipeline.Run(size0, size1, n, inputs))
  {
    hide Inv, Iterated;
    if inputs == [] {
      StartedInv(size0, size1, n);
    } else {
      var before := Pipeline.Run(size0, size1, n, inputs[..|inputs| - 1]);
      HungStays(before, inputs[|inputs| - 1]);
      RunKeepsInv(size0, size1, n, inputs[..|inputs| - 1]);
      IterateKeepsInv(before, inputs[|inputs| - 1]);
    }
  }

  lemma HungStays(s: State, input: Input)
    requires Sound(s)
    ensures s.hung ==> Iterated(s, input).hung
  {}
}
