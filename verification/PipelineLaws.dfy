/**
 Laws of whole runs that can be checked from outside: the frames taken determine
 which session is open and what shared memory shows of it, and the signal and the
 receiver's failures determine when the program stops.
 */
module PipelineLaws {
  import opened Bytes
  import opened CommonData
  import opened RingQueue
  import opened FrameFormat
  import opened ParserModel
  import L = SharedLog
  import opened Inserter
  import opened Pipeline
  import opened PipelineProofs
  import opened PipelineTheorems
  import opened PipelineSequence

  // ---------- The session, from the frames taken ----------

  /** A frame of type 1 that carries the id of the session open when it comes. */
  predicate Shuts(t: Taken) {
    HasHeader(t.frame) && t.frame[0] == 1 && t.before == Of(SessionId(t.frame))
  }

  /** Such a frame was taken since the open session was opened. */
  predicate IsShut(log: seq<Taken>) {
    exists k :: 0 <= k < |log| && Shuts(log[k]) && StaysOpen(log, k)
  }

  predicate StaysOpen(log: seq<Taken>, k: nat) {
    forall m :: k <= m < |log| ==> log[m].after.Of?
  }

  /** Every message of these frames had been committed when the frame after them was taken. */
  predicate AllCommitted(log: seq<Taken>, committedAt: seq<nat>) {
    |Items(log)| <= |committedAt| && forall i :: 0 <= i < |Items(log)| ==> committedAt[i] <= |log|
  }

  /** The session open after the first so many frames. */
  function SessionAfter(log: seq<Taken>, k: nat): Tag
    requires k <= |log|
  {
    if k == 0 then None else log[k - 1].after
  }

  /**
   What one frame does.  Without the right header, nothing.  Outside a session it
   opens its own, unless it is of type 1.  In a session that was shut down it closes
   it if every message has been committed; otherwise it leaves the session open.
   */
  predicate FrameLaw(log: seq<Taken>, committedAt: seq<nat>, k: nat)
    requires k < |log|
  {
    var t := log[k];
    && t.before == SessionAfter(log, k)
    && t.after ==
         if !HasHeader(t.frame) then t.before
         else if t.before == None then (if t.frame[0] != 1 then Of(SessionId(t.frame)) else None)
         else if IsShut(log[..k]) && AllCommitted(log[..k], committedAt) then None
         else t.before
  }

  /** The id of the session opened last, or 0. */
  function LastOpened(log: seq<Taken>): nat {
    if log == [] then 0
    else if log[|log| - 1].after.Of? then log[|log| - 1].after.session
    else LastOpened(log[..|log| - 1])
  }

  predicate EverOpened(log: seq<Taken>) {
    exists k :: 0 <= k < |log| && log[k].after.Of?
  }

  /** What the parser and the shared flags remember of it; the previous id is never one. */
  predicate MemoryLaw(p: ParserState, c: Common, log: seq<Taken>) {
    && OpenSession(p) == SessionAfter(log, |log|)
    && (p.phase == Shutdown <==> IsShut(log))
    && (p.phase == Startup ==> p.sessionId == 0)
    && p.previous == 0
    && (c.sessionIdReceived <==> p.phase != Startup)
    && c.sessionId == LastOpened(log)
    && (c.shutdownReceived <==> EverOpened(log) && SessionAfter(log, |log|) == None)
  }

  predicate IsLawful(s: State) {
    && (forall k :: 0 <= k < |s.log| ==> FrameLaw(s.log, s.committedAt, k))
    && MemoryLaw(s.parser, s.common, s.log)
  }

  // ---------- One more frame ----------

  lemma ShutNext(log: seq<Taken>, t: Taken)
    ensures IsShut(log + [t]) <==> t.after.Of? && (Shuts(t) || IsShut(log))
  {
    var more := log + [t];
    if t.after.Of? && Shuts(t) {
      assert more[|log|] == t && StaysOpen(more, |log|);
    } else if t.after.Of? && IsShut(log) {
      var k :| 0 <= k < |log| && Shuts(log[k]) && StaysOpen(log, k);
      assert more[k] == log[k] && StaysOpen(more, k);
    }
    if IsShut(more) {
      var k :| 0 <= k < |more| && Shuts(more[k]) && StaysOpen(more, k);
      assert more[|log|] == t;
      if k < |log| {
        assert more[k] == log[k];
        forall m | k <= m < |log|
          ensures log[m].after.Of?
        {
          assert more[m] == log[m];
        }
        assert StaysOpen(log, k);
      }
    }
  }

  lemma OpenedNext(log: seq<Taken>, t: Taken)
    ensures EverOpened(log + [t]) <==> t.after.Of? || EverOpened(log)
    ensures LastOpened(log + [t]) == if t.after.Of? then t.after.session else LastOpened(log)
    ensures SessionAfter(log + [t], |log| + 1) == t.after
  {
    var more := log + [t];
    assert more[..|log|] == log && more[|log|] == t;
    if EverOpened(log) {
      var k :| 0 <= k < |log| && log[k].after.Of?;
      assert more[k].after.Of?;
    }
  }

  /** The session a frame leaves open, by its header, its type and its id alone. */
  lemma FrameDoes(p: ParserState, c: Common, ring: Ring, v: View)
    requires ring.Valid() && SessionInv(p, c) && ProcessFrame(p, c, ring, v).verdict != Spinning
    ensures var o := ProcessFrame(p, c, ring, v);
            && (!HasHeader(v.frame) ==> o.parser == p && o.common == c)
            && (HasHeader(v.frame) && p.phase == Startup && v.frame[0] == 1 ==> o.parser == p && o.common == c
                  .(sequenceNumber := o.common.sequenceNumber))
            && (HasHeader(v.frame) && p.phase == Startup && v.frame[0] != 1 ==>
                  && o.parser == ParserState(Session, SessionId(v.frame), p.sessionId)
                  && o.common == c.(shutdownReceived := false, sessionIdReceived := true,
                                    sessionId := SessionId(v.frame), sequenceNumber := o.common.sequenceNumber))
            && (HasHeader(v.frame) && p.phase == Session ==>
                  && o.parser == p.(phase := if v.frame[0] == 1 && SessionId(v.frame) == p.sessionId
                                             then Shutdown else Session)
                  && o.common == c.(sequenceNumber := o.common.sequenceNumber))
            && (HasHeader(v.frame) && p.phase == Shutdown && ring.queue == [] ==>
                  && o.parser == ParserState(Startup, 0, 0)
                  && o.common == c.(shutdownReceived := true, sessionIdReceived := false,
                                    sequenceNumber := o.common.sequenceNumber))
            && (HasHeader(v.frame) && p.phase == Shutdown && ring.queue != [] ==>
                  o.parser == p && o.common == c.(sequenceNumber := o.common.sequenceNumber))
  {
    hide Ring.Valid, AllAccepted, WriteAll, ScanFrame, FromLittleEndian, FromBigEndian;
    HeaderIff(v.frame);
    DrainedMeansEmpty(ring);
  }

  lemma MemoryNext(p: ParserState, c: Common, ring: Ring, v: View, log: seq<Taken>, t: Taken)
    requires ring.Valid() && SessionInv(p, c) && ProcessFrame(p, c, ring, v).verdict != Spinning
    requires MemoryLaw(p, c, log)
    requires t.frame == v.frame && t.before == OpenSession(p)
    requires t.after == OpenSession(ProcessFrame(p, c, ring, v).parser)
    ensures var o := ProcessFrame(p, c, ring, v);
            && MemoryLaw(o.parser, o.common, log + [t])
            && t.after == if !HasHeader(t.frame) then t.before
                          else if t.before == None then (if t.frame[0] != 1 then Of(SessionId(t.frame)) else None)
                          else if IsShut(log) && ring.queue == [] then None
                          else t.before
  {
    hide ProcessFrame, IsShut, EverOpened, LastOpened, Ring.Valid, SessionId;
    FrameDoes(p, c, ring, v);
    ShutNext(log, t);
    OpenedNext(log, t);
    OpenWasOpened(log);
  }

  lemma OpenWasOpened(log: seq<Taken>)
    ensures SessionAfter(log, |log|).Of? ==> EverOpened(log)
  {
    if SessionAfter(log, |log|).Of? {
      assert log[|log| - 1].after.Of?;
    }
  }

  /** A frame finds ring 1 empty if and only if every message before it has been committed. */
  lemma EmptyIsCommitted(s: State)
    requires PipelineProofs.Inv(s) && IsStamped(s)
    ensures AllCommitted(s.log, s.committedAt) <==> s.ring1.queue == []
  {
    hide Items, L.Messages, IsMessage, Sound, SessionOk, StreamOk, PublishedOk, Tiles, LastBefore, ItemFrame;
    assert |Items(s.log)| == |s.committedAt| + |s.ring1.queue|;
  }

  /** The laws of the earlier frames do not change. */
  lemma LawsStay(log: seq<Taken>, committedAt: seq<nat>, t: Taken)
    requires forall k :: 0 <= k < |log| ==> FrameLaw(log, committedAt, k)
    ensures forall k :: 0 <= k < |log| ==> FrameLaw(log + [t], committedAt, k)
  {
    hide IsShut, AllCommitted;
    forall k | 0 <= k < |log|
      ensures FrameLaw(log + [t], committedAt, k)
    {
      assert FrameLaw(log, committedAt, k);
      assert (log + [t])[..k] == log[..k] && (log + [t])[k] == log[k];
      assert k > 0 ==> (log + [t])[k - 1] == log[k - 1];
    }
  }

  lemma ParserLaws(s: State, beyond: Memory)
    requires PipelineProofs.Inv(s) && !s.hung && !ParserStage(s, beyond).hung
    requires IsStamped(s) && IsLawful(s)
    ensures IsLawful(ParserStage(s, beyond))
  {
    hide Ring.Valid, ProcessFrame, ParserStage, IsStamped, FrameLaw, MemoryLaw, DataOk;
    ParserStepCases(s, beyond);
    var v := View(Head(s.ring0), beyond);
    var o := ProcessFrame(s.parser, s.common, s.ring1, v);
    if s.ring0.queue != [] && o.verdict != Spinning {
      var t := Taken(s.ring0.queue[0], Kept(o.verdict), OpenSession(s.parser), OpenSession(o.parser));
      NextLaw(s, v, t);
    }
  }

  lemma NextLaw(s: State, v: View, t: Taken)
    requires PipelineProofs.Inv(s) && IsStamped(s) && IsLawful(s)
    requires ProcessFrame(s.parser, s.common, s.ring1, v).verdict != Spinning
    requires t.frame == v.frame && t.before == OpenSession(s.parser)
    requires t.after == OpenSession(ProcessFrame(s.parser, s.common, s.ring1, v).parser)
    ensures forall k :: 0 <= k < |s.log + [t]| ==> FrameLaw(s.log + [t], s.committedAt, k)
    ensures var o := ProcessFrame(s.parser, s.common, s.ring1, v); MemoryLaw(o.parser, o.common, s.log + [t])
  {
    hide Ring.Valid, ProcessFrame, IsStamped, IsShut, AllCommitted, DataOk, EverOpened, LastOpened, SessionId;
    MemoryNext(s.parser, s.common, s.ring1, v, s.log, t);
    LawsStay(s.log, s.committedAt, t);
    EmptyIsCommitted(s);
    assert (s.log + [t])[..|s.log|] == s.log;
  }

  // ---------- The other stages ----------

  /** A commit after all frames were taken says nothing of any frame. */
  lemma InserterLaws(s: State)
    requires PipelineProofs.Inv(s) && IsStamped(s) && IsLawful(s)
    ensures IsLawful(InserterStage(s))
  {
    hide Ring.Valid, L.Messages, IsShut, Items, MemoryLaw, DataOk, LastBefore, ItemFrame, Publish;
    var t := InserterStage(s);
    assert t.committedAt == s.committedAt || t.committedAt == s.committedAt + [|s.log|];
    forall k | 0 <= k < |s.log|
      ensures FrameLaw(t.log, t.committedAt, k)
    {
      assert FrameLaw(s.log, s.committedAt, k);
      CommitsLater(s.log[..k], s.committedAt, |s.log|);
    }
  }

  lemma CommitsLater(log: seq<Taken>, committedAt: seq<nat>, now: nat)
    requires |log| < now
    ensures AllCommitted(log, committedAt + [now]) <==> AllCommitted(log, committedAt)
  {
    hide Items;
    var more := committedAt + [now];
    assert more[|committedAt|] == now;
    assert forall i :: 0 <= i < |committedAt| ==> more[i] == committedAt[i];
  }

  lemma ReceiverLaws(s: State, packets: seq<Bytes>, fails: bool)
    requires Sound(s) && IsLawful(s)
    ensures IsLawful(ReceiverStage(s, packets, fails))
  {
    hide FrameLaw, IsShut, EverOpened, LastOpened, Ring.Valid, AllAccepted, WriteAll;
  }

  lemma FlagsLaws(s: State, now: bool, toggle: bool, to: StreamState)
    requires IsLawful(s)
    ensures IsLawful(Interrupted(s, now)) && IsLawful(KeyboardStage(s, toggle)) && IsLawful(s.(stream := to))
  {
    hide FrameLaw, IsShut, EverOpened, LastOpened;
  }

  /** From the state before the receiver to the one after the parser. */
  lemma StagesLaws(r: State, input: Input)
    requires PipelineProofs.Inv(r) && !r.hung && IsStamped(r) && IsLawful(r)
    requires !ReceiverStage(r, input.packets, input.receiverFails).hung
    ensures var s3 := Interrupted(ReceiverStage(r, input.packets, input.receiverFails), input.interrupt == 2);
            && Sound(s3) && IsLawful(s3)
            && (!ParserStage(s3, input.beyond).hung ==> IsLawful(ParserStage(s3, input.beyond)))
  {
    hide PipelineProofs.Inv, IsStamped, IsLawful, ReceiverStage, ParserStage, Sound;
    InvIsSound(r);
    ReceiverKeepsInv(r, input.packets, input.receiverFails);
    ReceiverStamps(r, input.packets, input.receiverFails);
    ReceiverLaws(r, input.packets, input.receiverFails);
    var s2 := ReceiverStage(r, input.packets, input.receiverFails);
    FlagsKeepInv(s2, input.interrupt == 2, false);
    FlagsStamp(s2, input.interrupt == 2, false);
    FlagsLaws(s2, input.interrupt == 2, false, s2.stream);
    var s3 := Interrupted(s2, input.interrupt == 2);
    InvIsSound(s3);
    if !ParserStage(s3, input.beyond).hung {
      ParserLaws(s3, input.beyond);
    }
  }

  lemma IterateLaws(s: State, input: Input)
    requires PipelineProofs.Inv(s) && IsStamped(s) && IsLawful(s) && !Iterated(s, input).hung
    ensures IsLawful(Iterated(s, input))
  {
    hide PipelineProofs.Inv, IsStamped, IsLawful, ReceiverStage, ParserStage, InserterStage, Ring.Valid;
    InvIsSound(s);
    FlagsKeepInv(s, input.interrupt == 0, false);
    FlagsStamp(s, input.interrupt == 0, false);
    FlagsLaws(s, input.interrupt == 0, false, s.stream);
    var s0 := Interrupted(s, input.interrupt == 0);
    InvIsSound(s0);
    if s0.stream == InSession && s0.common.applicationRunFlag && s0.common.connected {
      InserterLaws(s0);
      InserterStamps(s0);
      InserterKeepsInv(s0);
      var i := InserterStage(s0);
      StagesKeepStream(s0, input);
      FlagsKeepInv(i, input.interrupt == 1, false);
      FlagsStamp(i, input.interrupt == 1, false);
      FlagsLaws(i, input.interrupt == 1, false, i.stream);
      var r := Interrupted(i, input.interrupt == 1);
      InvIsSound(r);
      StagesKeepStream(r, input);
      StagesLaws(r, input);
      var s3 := Interrupted(ReceiverStage(r, input.packets, input.receiverFails), input.interrupt == 2);
      FlagsLaws(ParserStage(s3, input.beyond), false, input.toggleFilter, InSession);
    } else if s0.stream == WaitForSession && s0.common.applicationRunFlag
              && !(s0.common.connected && s0.common.sessionIdReceived) {
      var k := KeyboardStage(s0, input.toggleFilter);
      FlagsKeepInv(s0, false, input.toggleFilter);
      FlagsStamp(s0, false, input.toggleFilter);
      FlagsLaws(s0, false, input.toggleFilter, s0.stream);
      FlagsKeepInv(k, input.interrupt == 1, false);
      FlagsStamp(k, input.interrupt == 1, false);
      FlagsLaws(k, input.interrupt == 1, false, k.stream);
      StagesLaws(Interrupted(k, input.interrupt == 1), input);
    } else {
      FlagsLaws(s0, false, false, TransitToSession);
      FlagsLaws(s0, false, false, InSession);
    }
  }

  lemma StartIsLawful(size0: nat, size1: nat, n: nat)
    ensures IsLawful(Started(size0, size1, n))
  {}

  /**
   In every run the frames taken, rejected ones included, determine which session is
   open, and what the parser and the shared flags remember of it.
   */
  lemma {:induction false} FramesDetermineSession(size0: nat, size1: nat, n: nat, inputs: seq<Input>)
    requires IsSize(size0) && IsSize(size1) && n >= L.MAX_LINES
    requires !Pipeline.Run(size0, size1, n, inputs).hung
    ensures IsLawful(Pipeline.Run(size0, size1, n, inputs))
  {
    hide PipelineProofs.Inv, Iterated, IsStamped, IsLawful;
    if inputs == [] {
      StartIsLawful(size0, size1, n);
    } else {
      var last := |inputs| - 1;
      var before := Pipeline.Run(size0, size1, n, inputs[..last]);
      HungStays(before, inputs[last]);
      RunKeepsInv(size0, size1, n, inputs[..last]);
      RunIsStamped(size0, size1, n, inputs[..last]);
      FramesDetermineSession(size0, size1, n, inputs[..last]);
      IterateLaws(before, inputs[last]);
    }
  }

  // ---------- What shared memory shows ----------

  /**
   Whenever the loop runs the inserter, shared memory shows afterwards 3, connected
   and in session, if a session is open and 5, connected and shutdown, if not, and
   the id of the session opened last, as the frames taken determine both.
   */
  lemma PublishedFollowsFrames(size0: nat, size1: nat, n: nat, inputs: seq<Input>)
    requires IsSize(size0) && IsSize(size1) && n >= L.MAX_LINES
    requires var s := Pipeline.Run(size0, size1, n, inputs); !s.hung && s.stream == InSession
    ensures var s := Pipeline.Run(size0, size1, n, inputs);
            var t := InserterStage(s);
            && t.published.flags == t.published.flagsPrevious
            && t.published.flags == (if SessionAfter(s.log, |s.log|).Of? then 3 else 5)
            && t.published.sessionId == LastOpened(s.log)
  {
    hide Pipeline.Run, DataOk, InserterStage, LastOpened, FrameLaw, Settled;
    RunKeepsInv(size0, size1, n, inputs);
    FramesDetermineSession(size0, size1, n, inputs);
    var s := Pipeline.Run(size0, size1, n, inputs);
    InserterPublishes(s);
    InserterKeepsCommon(s);
  }

  lemma InserterKeepsCommon(s: State)
    requires Sound(s)
    ensures InserterStage(s).common == s.common
  {}

  // ---------- When the program stops ----------

  /** The iteration gets as far as the receiver. */
  predicate Works(s: State, input: Input) {
    && !s.hung && s.common.applicationRunFlag && input.interrupt != 0
    && (s.stream == InSession || (s.stream == WaitForSession && !s.common.sessionIdReceived))
  }

  /** The signal comes in time for this iteration, or the receiver polls and fails. */
  predicate Stops(s: State, input: Input) {
    || input.interrupt == 0
    || (Works(s, input) && (input.interrupt == 1 || input.interrupt == 2))
    || (Works(s, input) && input.receiverFails && s.ring0.Capacity() >= 16384)
  }

  /** Where the stream goes: into the session two iterations after one is open, and never back. */
  function StreamAfter(s: State, input: Input): StreamState {
    match s.stream
    case WaitForSession => if Works(s, input) then WaitForSession else TransitToSession
    case TransitToSession =>
      if s.common.applicationRunFlag && input.interrupt != 0 then InSession else TransitToSession
    case InSession => InSession
  }

  /**
   What an iteration does to the run flag, the session filter and the stream; one
   that gets no further than the switch does nothing else, and one that is stopped
   before its parser takes no frame.
   */
  predicate ControlLaw(s: State, input: Input, t: State) {
    && (t.common.applicationRunFlag <==> s.common.applicationRunFlag && !Stops(s, input))
    && (t.common.dontFilterSourceId <==>
          (s.common.dontFilterSourceId != (Works(s, input) && input.toggleFilter)))
    && t.stream == StreamAfter(s, input)
    && (!Works(s, input) ==> t == s.(stream := t.stream, common := s.common.(applicationRunFlag :=
                                       t.common.applicationRunFlag)))
    && (Stops(s, input) ==> t.log == s.log)
  }

  lemma ParserObeys(s: State, beyond: Memory)
    requires Sound(s) && !s.hung && !ParserStage(s, beyond).hung
    ensures var t := ParserStage(s, beyond);
            && t.common.applicationRunFlag == s.common.applicationRunFlag
            && t.common.dontFilterSourceId == s.common.dontFilterSourceId
            && t.stream == s.stream
            && (!s.common.applicationRunFlag ==> t.log == s.log)
  {
    hide Ring.Valid, AllAccepted, WriteAll, ScanFrame, HeaderOk, Ring.Read;
  }

  lemma ReceiverObeys(s: State, packets: seq<Bytes>, fails: bool)
    requires Sound(s) && !s.hung && !ReceiverStage(s, packets, fails).hung
    ensures var t := ReceiverStage(s, packets, fails);
            && t.common == s.common.(applicationRunFlag := s.common.applicationRunFlag &&
                                       !(fails && s.ring0.Capacity() >= 16384))
            && t.stream == s.stream && t.log == s.log
  {
    hide Ring.Valid, AllAccepted, WriteAll;
  }

  /** From the state before the receiver to the one after the parser. */
  lemma StagesObey(r: State, input: Input)
    requires Sound(r) && !r.hung && !ReceiverStage(r, input.packets, input.receiverFails).hung
    ensures var s3 := Interrupted(ReceiverStage(r, input.packets, input.receiverFails), input.interrupt == 2);
            && Sound(s3) && s3.stream == r.stream && s3.log == r.log
            && s3.common == r.common.(applicationRunFlag := r.common.applicationRunFlag && input.interrupt != 2 &&
                                        !(input.receiverFails && r.ring0.Capacity() >= 16384))
            && var t := ParserStage(s3, input.beyond);
               !t.hung ==>
                 && t.common.applicationRunFlag == s3.common.applicationRunFlag
                 && t.common.dontFilterSourceId == s3.common.dontFilterSourceId
                 && t.stream == s3.stream
                 && (!s3.common.applicationRunFlag ==> t.log == s3.log)
  {
    hide Ring.Valid, ReceiverStage, ParserStage;
    ReceiverIsSound(r, input.packets, input.receiverFails);
    ReceiverObeys(r, input.packets, input.receiverFails);
    var s3 := Interrupted(ReceiverStage(r, input.packets, input.receiverFails), input.interrupt == 2);
    if !ParserStage(s3, input.beyond).hung {
      ParserObeys(s3, input.beyond);
    }
  }

  lemma InserterObeys(s: State)
    requires Sound(s)
    ensures var t := InserterStage(s);
            && Sound(t) && t.common == s.common && t.stream == s.stream && t.log == s.log
            && t.ring0 == s.ring0 && t.hung == s.hung
  {
    InserterIsSound(s);
  }

  lemma WaitObeys(s: State, input: Input)
    requires Sound(s) && s.common.connected && s.stream == WaitForSession && Works(s, input)
    requires !Iterated(s, input).hung
    ensures ControlLaw(s, input, Iterated(s, input))
  {
    hide Ring.Valid, ReceiverStage, ParserStage;
    var r := Interrupted(KeyboardStage(s, input.toggleFilter), input.interrupt == 1);
    StagesAreSound(s, input);
    StagesObey(r, input);
  }

  lemma SessionObeys(s: State, input: Input)
    requires Sound(s) && s.common.connected && s.stream == InSession && Works(s, input)
    requires !Iterated(s, input).hung
    ensures ControlLaw(s, input, Iterated(s, input))
  {
    hide Ring.Valid, ReceiverStage, ParserStage, InserterStage;
    InserterObeys(s);
    var r := Interrupted(InserterStage(s), input.interrupt == 1);
    StagesObey(r, input);
  }

  lemma IterationObeys(s: State, input: Input)
    requires Sound(s) && s.common.connected && !s.hung && !Iterated(s, input).hung
    ensures ControlLaw(s, input, Iterated(s, input))
  {
    hide Ring.Valid, WaitIteration, SessionIteration;
    if Works(s, input) {
      if s.stream == InSession {
        SessionObeys(s, input);
      } else {
        WaitObeys(s, input);
      }
    }
  }

  lemma IterationOfRun(size0: nat, size1: nat, n: nat, inputs: seq<Input>, k: nat)
    requires IsSize(size0) && IsSize(size1) && n >= L.MAX_LINES && k < |inputs|
    ensures Pipeline.Run(size0, size1, n, inputs[..k + 1]) ==
            Iterated(Pipeline.Run(size0, size1, n, inputs[..k]), inputs[k])
  {
    hide Iterated;
    assert inputs[..k + 1][..k] == inputs[..k];
  }

  /** The run before the k-th input. */
  function At(size0: nat, size1: nat, n: nat, inputs: seq<Input>, k: nat): State
    requires IsSize(size0) && IsSize(size1) && n >= L.MAX_LINES && k <= |inputs|
  {
    Pipeline.Run(size0, size1, n, inputs[..k])
  }

  /** Every iteration of every run obeys. */
  lemma RunObeys(size0: nat, size1: nat, n: nat, inputs: seq<Input>, k: nat)
    requires IsSize(size0) && IsSize(size1) && n >= L.MAX_LINES && k < |inputs|
    requires !At(size0, size1, n, inputs, k + 1).hung
    ensures ControlLaw(At(size0, size1, n, inputs, k), inputs[k], At(size0, size1, n, inputs, k + 1))
  {
    hide Pipeline.Run, Iterated, ControlLaw, DataOk, SessionOk, PublishedOk, Settled;
    IterationOfRun(size0, size1, n, inputs, k);
    var s := At(size0, size1, n, inputs, k);
    HungStays(s, inputs[k]);
    RunKeepsInv(size0, size1, n, inputs[..k]);
    IterationObeys(s, inputs[k]);
  }

  lemma {:induction false} HungFromThere(size0: nat, size1: nat, n: nat, inputs: seq<Input>, k: nat)
    requires IsSize(size0) && IsSize(size1) && n >= L.MAX_LINES && k <= |inputs|
    requires !Pipeline.Run(size0, size1, n, inputs).hung
    ensures !At(size0, size1, n, inputs, k).hung
    decreases |inputs| - k
  {
    hide Pipeline.Run, Iterated;
    if k == |inputs| {
      assert inputs[..k] == inputs;
    } else {
      HungFromThere(size0, size1, n, inputs, k + 1);
      IterationOfRun(size0, size1, n, inputs, k);
      HungStays(At(size0, size1, n, inputs, k), inputs[k]);
    }
  }

  predicate NeverStopped(size0: nat, size1: nat, n: nat, inputs: seq<Input>)
    requires IsSize(size0) && IsSize(size1) && n >= L.MAX_LINES
  {
    forall k :: 0 <= k < |inputs| ==> !Stops(At(size0, size1, n, inputs, k), inputs[k])
  }

  lemma NeverStoppedNext(size0: nat, size1: nat, n: nat, inputs: seq<Input>)
    requires IsSize(size0) && IsSize(size1) && n >= L.MAX_LINES && inputs != []
    ensures var last := |inputs| - 1;
            NeverStopped(size0, size1, n, inputs) <==>
            NeverStopped(size0, size1, n, inputs[..last]) && !Stops(At(size0, size1, n, inputs, last), inputs[last])
  {
    hide Pipeline.Run, Stops;
    var last := |inputs| - 1;
    forall k | 0 <= k < last
      ensures At(size0, size1, n, inputs[..last], k) == At(size0, size1, n, inputs, k)
    {
      assert inputs[..last][..k] == inputs[..k];
    }
    assert forall k :: 0 <= k < last ==> inputs[..last][k] == inputs[k];
  }

  /** The program runs exactly as long as nothing has stopped it. */
  lemma {:induction false} RunsUntilStopped(size0: nat, size1: nat, n: nat, inputs: seq<Input>)
    requires IsSize(size0) && IsSize(size1) && n >= L.MAX_LINES
    requires !Pipeline.Run(size0, size1, n, inputs).hung
    ensures Pipeline.Run(size0, size1, n, inputs).common.applicationRunFlag <==>
            NeverStopped(size0, size1, n, inputs)
  {
    hide Iterated, Stops, NeverStopped;
    if inputs == [] {
      NothingStopped(size0, size1, n);
    } else {
      var last := |inputs| - 1;
      assert inputs[..last + 1] == inputs;
      HungFromThere(size0, size1, n, inputs, last);
      RunObeys(size0, size1, n, inputs, last);
      RunsUntilStopped(size0, size1, n, inputs[..last]);
      NeverStoppedNext(size0, size1, n, inputs);
    }
  }

  lemma NothingStopped(size0: nat, size1: nat, n: nat)
    requires IsSize(size0) && IsSize(size1) && n >= L.MAX_LINES
    ensures NeverStopped(size0, size1, n, [])
  {}

  /** Once stopped, it does nothing any more, whatever comes; only the stream may leave its waiting state. */
  lemma {:induction false} StoppedIsFinal(size0: nat, size1: nat, n: nat, inputs: seq<Input>, more: seq<Input>)
    requires IsSize(size0) && IsSize(size1) && n >= L.MAX_LINES
    requires var s := Pipeline.Run(size0, size1, n, inputs); !s.hung && !s.common.applicationRunFlag
    ensures var s, t := Pipeline.Run(size0, size1, n, inputs), Pipeline.Run(size0, size1, n, inputs + more);
            t == s.(stream := t.stream) && (t.stream == s.stream || t.stream == TransitToSession)
    decreases |more|
  {
    hide Pipeline.Run, Iterated;
    if more == [] {
      assert inputs + more == inputs;
    } else {
      var init, last := more[..|more| - 1], more[|more| - 1];
      StoppedIsFinal(size0, size1, n, inputs, init);
      assert (inputs + more)[..|inputs + init|] == inputs + init && (inputs + more)[|inputs + init|] == last;
      assert (inputs + more)[..|inputs + more|] == inputs + more;
      IterationOfRun(size0, size1, n, inputs + more, |inputs + init|);
      StoppedStays(Pipeline.Run(size0, size1, n, inputs + init), last);
    }
  }

  lemma StoppedStays(s: State, input: Input)
    requires Sound(s) && !s.hung && !s.common.applicationRunFlag
    ensures var t := Iterated(s, input);
            t == s.(stream := t.stream) && (t.stream == s.stream || t.stream == TransitToSession)
  {
    hide WaitIteration, SessionIteration;
  }

  /** How often the key that toggles the filter was handled. */
  function Toggles(size0: nat, size1: nat, n: nat, inputs: seq<Input>): nat
    requires IsSize(size0) && IsSize(size1) && n >= L.MAX_LINES
  {
    if inputs == [] then 0 else
      var last := |inputs| - 1;
      Toggles(size0, size1, n, inputs[..last]) +
      if Works(Pipeline.Run(size0, size1, n, inputs[..last]), inputs[last]) && inputs[last].toggleFilter then 1 else 0
  }

  /** The session filter starts on and changes with every such key. */
  lemma {:induction false} FilterIsToggled(size0: nat, size1: nat, n: nat, inputs: seq<Input>)
    requires IsSize(size0) && IsSize(size1) && n >= L.MAX_LINES
    requires !Pipeline.Run(size0, size1, n, inputs).hung
    ensures Pipeline.Run(size0, size1, n, inputs).common.dontFilterSourceId <==>
            Toggles(size0, size1, n, inputs) % 2 == 1
  {
    hide Iterated, Works;
    if inputs != [] {
      var last := |inputs| - 1;
      assert inputs[..last + 1] == inputs;
      HungFromThere(size0, size1, n, inputs, last);
      RunObeys(size0, size1, n, inputs, last);
      FilterIsToggled(size0, size1, n, inputs[..last]);
    }
  }

  // ---------- Skips ----------

  /** A skip ends its lap and stands before a record that is too long for the lines it skips. */
  predicate IsNeeded(n: nat, history: seq<L.Entry>, k: nat)
    requires n > 0 && k < |history| && history[k].Skip?
  {
    && history[k].lines == n - L.Start(history, k) % n
    && k + 1 < |history| && history[k + 1].Record?
    && 12 + |history[k + 1].job.payload| > 64 * history[k].lines
  }

  predicate AreNeeded(n: nat, history: seq<L.Entry>)
    requires n > 0
  {
    forall k :: 0 <= k < |history| && history[k].Skip? ==> IsNeeded(n, history, k)
  }

  lemma NeededNext(n: nat, history: seq<L.Entry>, job: L.Job)
    requires n > 0 && AreNeeded(n, history)
    ensures AreNeeded(n, history + Appended(n, L.Start(history, |history|), job))
  {
    hide L.Start;
    var more := history + Appended(n, L.Start(history, |history|), job);
    forall k | 0 <= k < |more| && more[k].Skip?
      ensures IsNeeded(n, more, k)
    {
      StartOfPrefix(history, more, k);
      if k < |history| {
        assert history[k] == more[k] && IsNeeded(n, history, k) && history[k + 1] == more[k + 1];
      }
    }
  }

  lemma {:induction false} StartOfPrefix(history: seq<L.Entry>, more: seq<L.Entry>, k: nat)
    requires history <= more
    ensures k <= |history| ==> L.Start(more, k) == L.Start(history, k)
  {
    if 0 < k <= |history| {
      StartOfPrefix(history, more, k - 1);
      assert more[k - 1] == history[k - 1];
    }
  }

  lemma IterationNeeds(s: State, input: Input)
    requires Sound(s) && AreNeeded(s.n, s.history)
    ensures Iterated(s, input).n == s.n && AreNeeded(s.n, Iterated(s, input).history)
  {
    hide Ring.Valid, ReceiverStage, ParserStage, AreNeeded, InserterStage;
    StagesAreSound(s, input);
    var s0 := Interrupted(s, input.interrupt == 0);
    InserterNeeds(s0);
    var i := if s0.stream == InSession then InserterStage(s0) else KeyboardStage(s0, input.toggleFilter);
    var r := Interrupted(i, input.interrupt == 1);
    OthersKeepHistory(r, input);
    var s2 := ReceiverStage(r, input.packets, input.receiverFails);
    OthersKeepHistory(Interrupted(s2, input.interrupt == 2), input);
  }

  lemma InserterNeeds(s: State)
    requires Sound(s) && AreNeeded(s.n, s.history)
    ensures InserterStage(s).n == s.n && AreNeeded(s.n, InserterStage(s).history)
  {
    hide AreNeeded, Appended, L.Start;
    var payload := Payload(Head(s.ring1));
    if payload == [] {
      assert InserterStage(s).history == s.history;
    } else {
      NeededNext(s.n, s.history, L.Job(s.common.sequenceNumber, payload));
    }
  }

  lemma OthersKeepHistory(s: State, input: Input)
    requires Sound(s)
    ensures var t := ReceiverStage(s, input.packets, input.receiverFails); t.history == s.history && t.n == s.n
    ensures var t := ParserStage(s, input.beyond); t.history == s.history && t.n == s.n
  {
    hide Ring.Valid, AllAccepted, WriteAll, ParserStep;
  }

  /** In every run a skip is written only where the next message does not fit into the rest of the lap. */
  lemma {:induction false} SkipsAreNeeded(size0: nat, size1: nat, n: nat, inputs: seq<Input>)
    requires IsSize(size0) && IsSize(size1) && n >= L.MAX_LINES
    ensures AreNeeded(n, Pipeline.Run(size0, size1, n, inputs).history)
    ensures Pipeline.Run(size0, size1, n, inputs).n == n
  {
    hide Iterated;
    if inputs != [] {
      var last := |inputs| - 1;
      SkipsAreNeeded(size0, size1, n, inputs[..last]);
      IterationNeeds(Pipeline.Run(size0, size1, n, inputs[..last]), inputs[last]);
    }
  }
}
