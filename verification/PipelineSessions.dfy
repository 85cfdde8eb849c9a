/**
 Which messages of a session are committed under it: exactly when a frame keeps its
 messages in the session that is open when it comes, and a run in which one of them
 is committed under the next session, with the next session's sequence number.
 */
module PipelineSessions {
  import opened Bytes
  import opened CommonData
  import opened RingQueue
  import opened FrameFormat
  import opened ParserModel
  import L = SharedLog
  import opened Inserter
  import opened Pipeline
  import opened PipelineProofs
  import opened PipelineSteps
  import opened PipelineTheorems
  import opened PipelineSequence
  import Reassembly

  // ---------- Frames with a given header ----------

  const MAX64 := 0x1_0000_0000_0000_0000

  function Header(messageType: Byte, session: nat, sequence: nat): (h: Bytes)
    requires session < MAX64 && sequence < MAX64
    ensures IsPrefix(h)
  {
    Pow256Values();
    [messageType, MESSAGE_FRAME_HEADER] + LittleEndian(session, 8) + BigEndian(sequence, 8)
  }

  function Message(): Bytes {
    MessageOfSize(MIN_MESSAGE)
  }

  /** A frame of this type, session and number, with so many messages of 30 bytes. */
  function FrameWith(messageType: Byte, session: nat, sequence: nat, count: nat): Bytes
    requires session < MAX64 && sequence < MAX64 && count < 0x1_0000
  {
    SmallFrame(Header(messageType, session, sequence), count)
  }

  lemma FrameWithFacts(messageType: Byte, session: nat, sequence: nat, count: nat)
    requires session < MAX64 && sequence < MAX64 && 0 < count < 0x1_0000
    ensures var frame := FrameWith(messageType, session, sequence, count);
            && HeaderOk(frame) && Tiles(frame, Copies(Message(), count))
            && |frame| == FRAME_HEADER + MIN_MESSAGE * count
            && MessageType(frame) == messageType && SessionId(frame) == session && SequenceNumber(frame) == sequence
    ensures WorstLayout(Copies(Message(), count)) == LINE * count
  {
    hide Tiles, HeaderOk, SmallFrame, Copies, FromLittleEndian, LittleEndian, FromBigEndian, BigEndian;
    Pow256Values();
    var h, frame := Header(messageType, session, sequence), FrameWith(messageType, session, sequence, count);
    SmallFrameIsTiled(h, count);
    CopiesAdd(Message(), count);
    LittleEndianInverse(session, 8);
    BigEndianInverse(sequence, 8);
    assert frame[2..10] == frame[..MESSAGE_FRAME_HEADER][2..10] == LittleEndian(session, 8);
    assert frame[10..18] == frame[..MESSAGE_FRAME_HEADER][10..18] == BigEndian(sequence, 8);
    assert frame[0] == frame[..MESSAGE_FRAME_HEADER][0];
    assert Footprint(Message()) == LINE;
  }

  // ---------- A run in which a session's message is committed under the next session ----------

  function Sequences(jobs: seq<L.Job>): seq<nat> {
    seq(|jobs|, i requires 0 <= i < |jobs| => jobs[i].sequence)
  }

  /** Between two iterations: what the parser knows, what ring 1 holds, and the history. */
  ghost predicate At(s: State, p: ParserState, id: nat, number: nat, count: nat,
                     log: seq<Taken>, publishedAt: seq<nat>, sequences: seq<nat>) {
    && IsRunning(s) && s.parser == p && s.common.sessionId == id && s.common.sequenceNumber == number
    && s.ring1.queue == Copies(Message(), count) && s.ring1.stored <= 2 * LINE * |log|
    && s.log == log && s.publishedAt == publishedAt && Sequences(L.Messages(s.history)) == sequences
  }

  /** The next frame of the run. */
  lemma AtNext(s: State, count: nat, messageType: Byte, session: nat, number: nat, k: nat, beyond: Memory)
    requires session < MAX64 && number < MAX64 && 0 < k <= 2 && 0 < count && |s.log| < 10
    requires At(s, s.parser, s.common.sessionId, s.common.sequenceNumber, count, s.log, s.publishedAt,
                Sequences(L.Messages(s.history)))
    requires s.parser.phase == Session ==> s.parser.sessionId == session
    ensures var frame := FrameWith(messageType, session, number, k);
            var u := UpdateParserState(s.parser, s.common, messageType, session, count == 1);
            Sound(s) &&
            At(Iterated(s, PacketInput(frame, beyond)), u.parser, u.common.sessionId, number, count - 1 + k,
               s.log + [Taken(frame, Copies(Message(), k), OpenSession(s.parser), OpenSession(u.parser))],
               s.publishedAt + [s.common.sessionId],
               Sequences(L.Messages(s.history)) + [s.common.sequenceNumber])
  {
    hide Ring.Valid, Tiles, HeaderOk, FrameWith, MessageOfSize, L.Messages, Iterated, WorstLayout, DataOk, Settled;
    hide Ring.Read;
    var frame := FrameWith(messageType, session, number, k);
    FrameWithFacts(messageType, session, number, k);
    ReadIsDequeue(s.ring1);
    DrainedMeansEmpty(s.ring1.Read());
    assert s.ring1.Read().queue == Copies(Message(), count - 1);
    HeaderOkCounts(frame);
    SessionTakes(s, frame, Copies(Message(), k), beyond);
  }

  /** Three iterations open a session and enter it. */
  lemma Enters(n: nat, session: nat, number: nat, beyond: Memory)
    requires n >= L.MAX_LINES && session < MAX64 && number < MAX64
    ensures var frame := FrameWith(0, session, number, 1);
            var input := PacketInput(frame, beyond);
            At(Pipeline.Run(RING_SIZE, RING_SIZE, n, [input, input, input]), ParserState(Session, session, 0),
               session, number, 1, [Taken(frame, [Message()], None, Of(session))], [], [])
  {
    hide Ring.Valid, Tiles, HeaderOk, FrameWith, MessageOfSize, L.Messages, Iterated, WorstLayout, DataOk, Settled;
    hide Pipeline.Run;
    var frame := FrameWith(0, session, number, 1);
    var input := PacketInput(frame, beyond);
    FrameWithFacts(0, session, number, 1);
    HeaderOkCounts(frame);
    StartIsEmpty(n, input);
    FirstTakes(n, frame, Copies(Message(), 1), beyond);
    assert [input] + [input] == [input, input] && [input, input] + [input] == [input, input, input];
    RunOneMore(n, [input], input);
    RunOneMore(n, [input, input], input);
    var s := Pipeline.Run(RING_SIZE, RING_SIZE, n, [input]);
    Transits(s, input);
    Transits(s.(stream := TransitToSession), input);
    StreamChange(s, TransitToSession);
    StreamChange(s.(stream := TransitToSession), InSession);
    L.NoMessages();
    assert Copies(Message(), 1) == [Message()];
  }

  /**
   Open a session, shut it down, send one more frame of it with two messages, and
   open the next session.
   */
  function Crossing(a: nat, x: nat, b: nat, y: nat, beyond: Memory): seq<Input>
    requires a < MAX64 && x < MAX64 && b < MAX64 && y < MAX64
  {
    var first, last := FrameWith(0, a, x, 1), FrameWith(SHUTDOWN_MESSAGE, a, x, 1);
    var close, next := FrameWith(SHUTDOWN_MESSAGE, a, x, 2), FrameWith(0, b, y, 1);
    var frames := [first, first, first, last, close, next, next];
    seq(7, i requires 0 <= i < 7 => PacketInput(frames[i], beyond))
  }

  /** The session is shut down, and closed by a frame of its own. */
  lemma Closes(s: State, a: nat, x: nat, beyond: Memory, log: seq<Taken>, publishedAt: seq<nat>, sequences: seq<nat>)
    requires a < MAX64 && x < MAX64 && |log| < 9
    requires At(s, ParserState(Session, a, 0), a, x, 1, log, publishedAt, sequences)
    ensures var last, close := FrameWith(SHUTDOWN_MESSAGE, a, x, 1), FrameWith(SHUTDOWN_MESSAGE, a, x, 2);
            var s1 := Iterated(s, PacketInput(last, beyond));
            && Sound(s1)
            && At(Iterated(s1, PacketInput(close, beyond)), ParserState(Startup, 0, 0), a, x, 2,
                  log + [Taken(last, Copies(Message(), 1), Of(a), Of(a))]
                      + [Taken(close, Copies(Message(), 2), Of(a), None)],
                  publishedAt + [a] + [a], sequences + [x] + [x])
  {
    hide Ring.Valid, FrameWith, MessageOfSize, L.Messages, Iterated, PipelineProofs.Inv;
    AtNext(s, 1, SHUTDOWN_MESSAGE, a, x, 1, beyond);
    var s1 := Iterated(s, PacketInput(FrameWith(SHUTDOWN_MESSAGE, a, x, 1), beyond));
    InvIsSound(s1);
    AtNext(s1, 1, SHUTDOWN_MESSAGE, a, x, 2, beyond);
  }

  /** The next session is opened while a message of the closed one is in ring 1. */
  lemma Reopens(s: State, a: nat, x: nat, b: nat, y: nat, beyond: Memory,
                log: seq<Taken>, publishedAt: seq<nat>, sequences: seq<nat>)
    requires b < MAX64 && y < MAX64 && |log| < 9
    requires At(s, ParserState(Startup, 0, 0), a, x, 2, log, publishedAt, sequences)
    ensures var next := FrameWith(0, b, y, 1);
            var s1 := Iterated(s, PacketInput(next, beyond));
            && Sound(s1)
            && At(Iterated(s1, PacketInput(next, beyond)), ParserState(Session, b, 0), b, y, 2,
                  log + [Taken(next, Copies(Message(), 1), None, Of(b))]
                      + [Taken(next, Copies(Message(), 1), Of(b), Of(b))],
                  publishedAt + [a] + [b], sequences + [x] + [y])
  {
    hide Ring.Valid, FrameWith, MessageOfSize, L.Messages, Iterated, PipelineProofs.Inv;
    AtNext(s, 2, 0, b, y, 1, beyond);
    var s1 := Iterated(s, PacketInput(FrameWith(0, b, y, 1), beyond));
    InvIsSound(s1);
    AtNext(s1, 2, 0, b, y, 1, beyond);
  }

  /** What the final log says. */
  lemma CrossedItems(a: nat, x: nat, b: nat, y: nat, s: State)
    requires a < MAX64 && x < MAX64 && b < MAX64 && y < MAX64
    requires var first, last := FrameWith(0, a, x, 1), FrameWith(SHUTDOWN_MESSAGE, a, x, 1);
             var close, next := FrameWith(SHUTDOWN_MESSAGE, a, x, 2), FrameWith(0, b, y, 1);
             At(s, ParserState(Session, b, 0), b, y, 2,
                [Taken(first, [Message()], None, Of(a))] + [Taken(last, Copies(Message(), 1), Of(a), Of(a))]
                  + [Taken(close, Copies(Message(), 2), Of(a), None)]
                  + [Taken(next, Copies(Message(), 1), None, Of(b))]
                  + [Taken(next, Copies(Message(), 1), Of(b), Of(b))],
                [] + [a] + [a] + [a] + [b], [] + [x] + [x] + [x] + [y])
    ensures !s.hung && |s.log| == 5 && s.publishedAt == [a, a, a, b] && Sequences(L.Messages(s.history)) == [x, x, x, y]
    ensures s.log[2] == Taken(FrameWith(SHUTDOWN_MESSAGE, a, x, 2), [Message(), Message()], Of(a), None)
    ensures |s.log[2].frame| >= FRAME_HEADER && SessionId(s.log[2].frame) == a && SequenceNumber(s.log[2].frame) == x
    ensures |Items(s.log)| == 6 && ItemFrame(s.log, 2) == ItemFrame(s.log, 3) == 2
  {
    hide FrameWith, MessageOfSize, L.Messages, Iterated, HeaderOk, Tiles, PipelineProofs.Inv, ItemsOf;
    hide SessionId, SequenceNumber;
    FrameWithFacts(SHUTDOWN_MESSAGE, a, x, 2);
    HeaderOkCounts(s.log[2].frame);
    assert Copies(Message(), 2) == [Message(), Message()];
    ItemsStep(s.log, 1);
    ItemsStep(s.log, 2);
    ItemsStep(s.log, 3);
    ItemsStep(s.log, 4);
    ItemsStep(s.log, 5);
    assert s.log[..5] == s.log;
  }

  /** The messages of the first so many frames. */
  lemma ItemsStep(log: seq<Taken>, k: nat)
    requires 0 < k <= |log|
    ensures k == 1 ==> |Items(log[..0])| == 0
    ensures |Items(log[..k])| == |Items(log[..k - 1])| + |log[k - 1].msgs|
    ensures forall i :: |Items(log[..k - 1])| <= i < |Items(log[..k])| ==> ItemFrame(log[..k], i) == k - 1
    ensures forall i :: 0 <= i < |Items(log[..k - 1])| ==> ItemFrame(log[..k], i) == ItemFrame(log[..k - 1], i)
  {
    assert log[..k][..k - 1] == log[..k - 1];
  }

  /**
   A message that crosses sessions: the third frame carries the id of the session a
   that is open when it comes, and the number x.  It closes the session, since ring 1
   is drained, and its messages are written to ring 1 all the same.  The second of
   them is committed under the session b that the next frame opens, and stamped with
   that frame's number y.
   */
  lemma SecondMessageCrosses(a: nat, x: nat, b: nat, y: nat, beyond: Memory, n: nat)
    requires a < MAX64 && x < MAX64 && b < MAX64 && y < MAX64 && n >= L.MAX_LINES
    ensures var s := Pipeline.Run(RING_SIZE, RING_SIZE, n, Crossing(a, x, b, y, beyond));
            && !s.hung && |s.log| == 5
            && s.log[2] == Taken(FrameWith(SHUTDOWN_MESSAGE, a, x, 2), [Message(), Message()], Of(a), None)
            && SessionId(s.log[2].frame) == a && SequenceNumber(s.log[2].frame) == x
            && |Items(s.log)| == 6 && ItemFrame(s.log, 2) == ItemFrame(s.log, 3) == 2
            && s.publishedAt == [a, a, a, b]
            && Sequences(L.Messages(s.history)) == [x, x, x, y]
  {
    hide Pipeline.Run, At, FrameWith, MessageOfSize, L.Messages, Iterated, HeaderOk, Tiles, Items, ItemFrame;
    var inputs := Crossing(a, x, b, y, beyond);
    Enters(n, a, x, beyond);
    assert inputs[..3] == [inputs[0], inputs[0], inputs[0]];
    RunOneMore(n, inputs[..3], inputs[3]);
    RunOneMore(n, inputs[..4], inputs[4]);
    RunOneMore(n, inputs[..5], inputs[5]);
    RunOneMore(n, inputs[..6], inputs[6]);
    assert inputs[..4] == inputs[..3] + [inputs[3]] && inputs[..5] == inputs[..4] + [inputs[4]];
    assert inputs[..6] == inputs[..5] + [inputs[5]] && inputs == inputs[..6] + [inputs[6]];
    var s3 := Pipeline.Run(RING_SIZE, RING_SIZE, n, inputs[..3]);
    var log3 := [Taken(FrameWith(0, a, x, 1), [Message()], None, Of(a))];
    Closes(s3, a, x, beyond, log3, [], []);
    var s5 := Pipeline.Run(RING_SIZE, RING_SIZE, n, inputs[..5]);
    var log5 := log3 + [Taken(FrameWith(SHUTDOWN_MESSAGE, a, x, 1), Copies(Message(), 1), Of(a), Of(a))]
                     + [Taken(FrameWith(SHUTDOWN_MESSAGE, a, x, 2), Copies(Message(), 2), Of(a), None)];
    Reopens(s5, a, x, b, y, beyond, log5, [] + [a] + [a], [] + [x] + [x]);
    CrossedItems(a, x, b, y, Pipeline.Run(RING_SIZE, RING_SIZE, n, inputs));
  }

  // ---------- When a frame's messages stay in the session ----------

  /** So far every message of the k-th frame was committed while shared memory showed this id. */
  predicate IsUnder(s: State, k: nat, id: nat) {
    forall i :: 0 <= i < |s.publishedAt| && i < |Items(s.log)| && ItemFrame(s.log, i) == k ==> s.publishedAt[i] == id
  }

  /** A frame whose messages are all sure of this session. */
  predicate IsOwned(t: Taken, id: nat) {
    forall j :: 0 <= j < |t.msgs| ==> Owner(t, j) == Of(id)
  }

  lemma {:induction false} ItemHasOwner(log: seq<Taken>, i: nat) returns (j: nat)
    requires i < |Items(log)|
    ensures var t := log[ItemFrame(log, i)];
            j < |t.msgs| && Items(log)[i] == Item(t.msgs[j], Owner(t, j))
  {
    var init := log[..|log| - 1];
    if i < |Items(init)| {
      j := ItemHasOwner(init, i);
    } else {
      j := i - |Items(init)|;
    }
  }

  lemma OwnedIsUnder(s: State, k: nat, id: nat)
    requires IsIsolated(s) && k < |s.log| && IsOwned(s.log[k], id)
    ensures IsUnder(s, k, id)
  {
    hide Items, ItemFrame, Owner, L.Messages;
    forall i | 0 <= i < |s.publishedAt| && i < |Items(s.log)| && ItemFrame(s.log, i) == k
      ensures s.publishedAt[i] == id
    {
      var j := ItemHasOwner(s.log, i);
    }
  }

  lemma ParserGrowsLog(s: State, beyond: Memory)
    requires Sound(s)
    ensures s.log <= ParserStage(s, beyond).log && ParserStage(s, beyond).stream == s.stream
  {
    hide Ring.Valid, ParserStep;
  }

  lemma LogStep(s: State, input: Input)
    requires Sound(s)
    ensures s.log <= Iterated(s, input).log
  {
    hide ReceiverStage, ParserStage, InserterStage, Ring.Valid;
    StagesAreSound(s, input);
    var s0 := Interrupted(s, input.interrupt == 0);
    var i := if s0.stream == InSession then InserterStage(s0) else KeyboardStage(s0, input.toggleFilter);
    var r := Interrupted(i, input.interrupt == 1);
    InserterKeepsLog(s0);
    StagesKeepHistory(r, input);
    var s2 := ReceiverStage(r, input.packets, input.receiverFails);
    ParserGrowsLog(Interrupted(s2, input.interrupt == 2), input.beyond);
  }

  lemma InserterKeepsLog(s: State)
    requires Sound(s)
    ensures InserterStage(s).log == s.log
  {}

  /** What was taken stays taken. */
  lemma {:induction false} LogGrows(n: nat, inputs: seq<Input>, more: seq<Input>)
    requires n >= L.MAX_LINES
    ensures Pipeline.Run(RING_SIZE, RING_SIZE, n, inputs).log <=
            Pipeline.Run(RING_SIZE, RING_SIZE, n, inputs + more).log
    decreases |more|
  {
    hide Pipeline.Run, Iterated;
    if more == [] {
      assert inputs + more == inputs;
    } else {
      var init, last := more[..|more| - 1], more[|more| - 1];
      LogGrows(n, inputs, init);
      assert inputs + more == inputs + init + [last];
      RunOneMore(n, inputs + init, last);
      LogStep(Pipeline.Run(RING_SIZE, RING_SIZE, n, inputs + init), last);
    }
  }

  /** The last frame of t was accepted while the session of s was open, and what that left behind. */
  ghost predicate TookInSession(s: State, t: State, ring: Ring)
    requires ring.Valid()
  {
    && |t.log| == |s.log| + 1 && t.log[..|s.log|] == s.log
    && var e := t.log[|s.log|];
       && HeaderOk(e.frame) && Tiles(e.frame, e.msgs)
       && e.before == Of(s.parser.sessionId)
       && e.after == OpenSession(t.parser)
       && e.after == (if s.parser.phase == Shutdown && Drained(ring) then None else e.before)
       && AllAccepted(ring, e.msgs) && t.ring1 == WriteAll(ring, e.msgs)
       && t.common.sessionId == s.parser.sessionId && t.common.applicationRunFlag
  }

  lemma ParserTakes(s: State, beyond: Memory)
    requires Sound(s) && !s.hung && !ParserStage(s, beyond).hung
    requires SessionInv(s.parser, s.common) && s.parser.phase != Startup
    requires var t := ParserStage(s, beyond); |t.log| > |s.log| && t.log[|s.log|].msgs != []
    ensures TookInSession(s, ParserStage(s, beyond), s.ring1)
  {
    hide Ring.Valid, AllAccepted, WriteAll, ScanFrame, HeaderOk, Tiles, Ring.Read;
    var v := View(Head(s.ring0), beyond);
    FrameIsAtomic(s.parser, s.common, s.ring1, v);
    HeaderOkCounts(v.frame);
    UpdateKeepsSession(s.parser, s.common, MessageType(v.frame), SessionId(v.frame), Drained(s.ring1));
    UpdateKeepsFlags(s.parser, s.common, s.ring1, v.frame);
  }

  /** An iteration that accepts a frame while a session is open. */
  lemma IterationTakes(s: State, input: Input)
    requires PipelineProofs.Inv(s) && !s.hung && !Iterated(s, input).hung && s.parser.phase != Startup
    requires var t := Iterated(s, input); |t.log| > |s.log| && t.log[|s.log|].msgs != []
    ensures s.stream == InSession && Iterated(s, input).stream == InSession
    ensures Sound(s) && s.ring1.Read().Valid() && TookInSession(s, Iterated(s, input), s.ring1.Read())
  {
    hide ReceiverStage, ParserStage, Ring.Valid, AllAccepted, WriteAll, HeaderOk, Tiles, DataOk, Settled, Drained;
    hide Ring.Read;
    StagesAreSound(s, input);
    ReadIsDequeue(s.ring1);
    var s0 := Interrupted(s, input.interrupt == 0);
    var i := InserterStage(s0);
    var r := Interrupted(i, input.interrupt == 1);
    var s2 := ReceiverStage(r, input.packets, input.receiverFails);
    var s3 := Interrupted(s2, input.interrupt == 2);
    StagesKeepHistory(r, input);
    StagesKeepStream(r, input);
    ReceiverKeepsSession(r, input);
    assert Iterated(s, input) == KeyboardStage(ParserStage(s3, input.beyond), input.toggleFilter);
    ParserTakes(s3, input.beyond);
    ParserGrowsLog(s3, input.beyond);
    TookElsewhere(s3, ParserStage(s3, input.beyond), s, input.toggleFilter, s.ring1.Read());
  }

  lemma TookElsewhere(s3: State, t3: State, s: State, toggle: bool, ring: Ring)
    requires ring.Valid() && TookInSession(s3, t3, ring) && s.log == s3.log && s.parser == s3.parser
    ensures TookInSession(s, KeyboardStage(t3, toggle), ring)
  {
    hide Ring.Valid, AllAccepted, WriteAll, HeaderOk, Tiles, Drained;
  }

  lemma ReceiverKeepsSession(s: State, input: Input)
    requires Sound(s)
    ensures var t := ReceiverStage(s, input.packets, input.receiverFails);
            t.ring1 == s.ring1 && t.parser == s.parser &&
            t.common == s.common.(applicationRunFlag := t.common.applicationRunFlag)
  {
    hide Ring.Valid, AllAccepted, WriteAll;
  }

  lemma StageSizes(s: State, input: Input)
    requires Sound(s)
    ensures var t := ReceiverStage(s, input.packets, input.receiverFails);
            t.ring0.size == s.ring0.size && t.ring1.size == s.ring1.size
    ensures var t := ParserStage(s, input.beyond); t.ring0.size == s.ring0.size && t.ring1.size == s.ring1.size
    ensures var t := InserterStage(s); t.ring0.size == s.ring0.size && t.ring1.size == s.ring1.size
  {
    hide Ring.Valid, AllAccepted, WriteAll, ScanFrame, HeaderOk, UpdateFor, Ring.Read;
    if AllAccepted(s.ring0, input.packets) {
      WriteAllAppends(s.ring0, input.packets);
    }
    ReadFreesBytes(s.ring0);
    ReadFreesBytes(s.ring1);
    var v := View(Head(s.ring0), input.beyond);
    FrameSize(s.parser, s.common, s.ring1, v);
  }

  lemma FrameSize(p: ParserState, c: Common, ring: Ring, v: View)
    requires ring.Valid()
    ensures ProcessFrame(p, c, ring, v).ring.size == ring.size
  {
    hide Ring.Valid, AllAccepted, WriteAll, ScanFrame, UpdateFor;
    if HeaderOk(v.frame) && AllAccepted(ring, ScanFrame(v).msgs) {
      WriteAllAppends(ring, ScanFrame(v).msgs);
    }
  }

  lemma {:induction false} RunKeepsSizes(n: nat, inputs: seq<Input>)
    requires n >= L.MAX_LINES
    ensures var s := Pipeline.Run(RING_SIZE, RING_SIZE, n, inputs); s.ring0.size == s.ring1.size == RING_SIZE
  {
    hide Iterated;
    if inputs != [] {
      RunKeepsSizes(n, inputs[..|inputs| - 1]);
      IterationKeepsSizes(Pipeline.Run(RING_SIZE, RING_SIZE, n, inputs[..|inputs| - 1]), inputs[|inputs| - 1]);
    }
  }

  lemma IterationKeepsSizes(s: State, input: Input)
    requires Sound(s)
    ensures Iterated(s, input).ring0.size == s.ring0.size && Iterated(s, input).ring1.size == s.ring1.size
  {
    hide ReceiverStage, ParserStage, InserterStage, Ring.Valid;
    StagesAreSound(s, input);
    var s0 := Interrupted(s, input.interrupt == 0);
    StageSizes(s0, input);
    var i := if s0.stream == InSession then InserterStage(s0) else KeyboardStage(s0, input.toggleFilter);
    var r := Interrupted(i, input.interrupt == 1);
    StageSizes(r, input);
    StageSizes(Interrupted(ReceiverStage(r, input.packets, input.receiverFails), input.interrupt == 2), input);
  }

  lemma ItemCount(s: State, k: nat)
    requires PipelineProofs.Inv(s) && |s.log| == k + 1 && s.ring1.queue == s.log[k].msgs
    ensures |Items(s.log)| == |s.publishedAt| + |s.log[k].msgs|
    ensures forall i :: |s.publishedAt| <= i < |Items(s.log)| ==> ItemFrame(s.log, i) == k
  {
    hide L.Messages, IsMessage, Waiting, SessionOk, StreamOk, PublishedOk, Sound;
  }

  /** After a closed session with two messages waiting, the next session gets the second one. */
  lemma ClosedSessionLeaks(n: nat, inputs: seq<Input>, k: nat) returns (more: seq<Input>)
    requires n >= L.MAX_LINES
    requires var t := Pipeline.Run(RING_SIZE, RING_SIZE, n, inputs);
             && IsRunning(t) && |t.log| == k + 1 && t.parser.phase == Startup
             && t.ring1.queue == t.log[k].msgs && |t.log[k].msgs| > 1 && t.ring1.stored < 20000
    ensures var t := Pipeline.Run(RING_SIZE, RING_SIZE, n, inputs);
            !IsUnder(Pipeline.Run(RING_SIZE, RING_SIZE, n, inputs + more), k, t.common.sessionId)
  {
    hide Pipeline.Run, Iterated, FrameWith, MessageOfSize, L.Messages, HeaderOk, Tiles, Items, ItemFrame, Ring.Valid;
    hide PipelineProofs.Inv, ItemsOf, WorstLayout, Ring.Read;
    var t := Pipeline.Run(RING_SIZE, RING_SIZE, n, inputs);
    var b := if t.common.sessionId == 0 then 1 else 0;
    var frame, msgs := FrameWith(0, b, 0, 1), Copies(Message(), 1);
    var input := PacketInput(frame, _ => 0);
    FrameWithFacts(0, b, 0, 1);
    HeaderOkCounts(frame);
    InvIsSound(t);
    ReadIsDequeue(t.ring1);
    SessionTakes(t, frame, msgs, input.beyond);
    var t1 := Iterated(t, input);
    InvIsSound(t1);
    SessionTakes(t1, frame, msgs, input.beyond);
    RunOneMore(n, inputs, input);
    RunOneMore(n, inputs + [input], input);
    more := [input, input];
    assert inputs + more == inputs + [input] + [input];
    ItemCount(t, k);
    TakenLast(t.log, Taken(frame, msgs, None, Of(b)));
    TakenLast(t1.log, Taken(frame, msgs, Of(b), Of(b)));
    var t2 := Iterated(t1, input);
    assert t2.publishedAt[|t.publishedAt| + 1] == b;
    assert ItemFrame(t2.log, |t.publishedAt| + 1) == k;
  }

  /**
   The exact condition, for every frame that is accepted while a session is open,
   whether it carries the session's id or not, and with nothing waiting behind it in
   ring 0: in every continuation of the run, hung or not, all its messages are
   committed under that session, if and only if the frame does not close it, which
   takes phase Shutdown and a ring 1 that the inserter has just drained, or has one
   message.
   */
  lemma FrameStaysIff(n: nat, inputs: seq<Input>, input: Input)
    requires n >= L.MAX_LINES
    requires var s := Pipeline.Run(RING_SIZE, RING_SIZE, n, inputs);
             var t := Pipeline.Run(RING_SIZE, RING_SIZE, n, inputs + [input]);
             && !t.hung && s.parser.phase != Startup && t.ring0.queue == []
             && |t.log| > |s.log| && t.log[|s.log|].msgs != []
             && |t.log[|s.log|].frame| <= Reassembly.JUMBO_SIZE
    ensures var s := Pipeline.Run(RING_SIZE, RING_SIZE, n, inputs);
            var msgs := Pipeline.Run(RING_SIZE, RING_SIZE, n, inputs + [input]).log[|s.log|].msgs;
            (forall more: seq<Input> ::
               IsUnder(Pipeline.Run(RING_SIZE, RING_SIZE, n, inputs + [input] + more), |s.log|, s.parser.sessionId))
            <==> !(s.parser.phase == Shutdown && Drained(s.ring1.Read())) || |msgs| == 1
  {
    hide Pipeline.Run, Iterated, L.Messages, HeaderOk, Tiles, Items, ItemFrame, Ring.Valid, IsUnder, IsIsolated;
    hide PipelineProofs.Inv, ItemsOf, WorstLayout, Ring.Read, AllAccepted, WriteAll, Drained;
    var s := Pipeline.Run(RING_SIZE, RING_SIZE, n, inputs);
    var t := Pipeline.Run(RING_SIZE, RING_SIZE, n, inputs + [input]);
    var k, id := |s.log|, s.parser.sessionId;
    RunOneMore(n, inputs, input);
    HungStays(s, input);
    RunKeepsInv(RING_SIZE, RING_SIZE, n, inputs);
    RunKeepsInv(RING_SIZE, RING_SIZE, n, inputs + [input]);
    IterationTakes(s, input);
    if !(s.parser.phase == Shutdown && Drained(s.ring1.Read())) || |t.log[k].msgs| == 1 {
      forall more: seq<Input>
        ensures IsUnder(Pipeline.Run(RING_SIZE, RING_SIZE, n, inputs + [input] + more), k, id)
      {
        LogGrows(n, inputs + [input], more);
        SessionIsolation(RING_SIZE, RING_SIZE, n, inputs + [input] + more);
        OwnedIsUnder(Pipeline.Run(RING_SIZE, RING_SIZE, n, inputs + [input] + more), k, id);
      }
    } else {
      HeaderOkCounts(t.log[k].frame);
      ClosedRing(s.ring1.Read(), t.log[k].frame, t.log[k].msgs);
      RunKeepsSizes(n, inputs + [input]);
      var more := ClosedSessionLeaks(n, inputs + [input], k);
      assert !IsUnder(Pipeline.Run(RING_SIZE, RING_SIZE, n, inputs + [input] + more), k, id);
    }
  }

  lemma ClosedRing(ring: Ring, frame: Bytes, msgs: seq<Bytes>)
    requires ring.Valid() && Drained(ring) && AllAccepted(ring, msgs)
    requires |frame| >= FRAME_HEADER && Tiles(frame, msgs) && |frame| <= Reassembly.JUMBO_SIZE
    ensures WriteAll(ring, msgs).queue == msgs && WriteAll(ring, msgs).stored < 20000
  {
    hide Tiles, WorstLayout, AllAccepted, WriteAll;
    ByteAccounting(ring);
    WriteAllAppends(ring, msgs);
    JumboLayout(frame, msgs);
    SpanIsAtLeastSum(ring.size, ring.writeIndex, msgs);
    OneJumpLayout(ring.size, ring.writeIndex, msgs);
    assert [] + msgs == msgs;
  }
}
