/**
 Single iterations of the machine, on the program's own ring size: what one of them
 does when the network hands over one frame and the parser takes it.
 */
module PipelineSteps {
  import opened Bytes
  import opened CommonData
  import opened RingQueue
  import opened FrameFormat
  import opened ParserModel
  import L = SharedLog
  import opened Inserter
  import opened Pipeline
  import opened PipelineProofs

  /** __RING_BUFFER_SIZE__. */
  const RING_SIZE := 0x20_0000

  /** One packet, and nothing else happens. */
  function PacketInput(packet: Bytes, beyond: Memory): Input {
    Input([packet], false, beyond, false, 3)
  }

  lemma StartedIsSound(n: nat)
    requires n >= L.MAX_LINES
    ensures Sound(Started(RING_SIZE, RING_SIZE, n))
  {}

  lemma StartIsEmpty(n: nat, input: Input)
    requires n >= L.MAX_LINES
    ensures Sound(Started(RING_SIZE, RING_SIZE, n))
    ensures Pipeline.Run(RING_SIZE, RING_SIZE, n, [input]) == Iterated(Started(RING_SIZE, RING_SIZE, n), input)
  {
    hide Iterated;
    var none: seq<Input> := [];
    assert [input][..0] == none;
    StartedIsSound(n);
  }

  lemma RunOneMore(n: nat, inputs: seq<Input>, input: Input)
    requires n >= L.MAX_LINES
    ensures Pipeline.Run(RING_SIZE, RING_SIZE, n, inputs + [input]) ==
            Iterated(Pipeline.Run(RING_SIZE, RING_SIZE, n, inputs), input)
  {
    hide Iterated;
    assert (inputs + [input])[..|inputs|] == inputs;
  }

  /** Ring 0 is empty between iterations, so the receiver can always deliver one frame. */
  lemma Delivers(s: State, packet: Bytes)
    requires Sound(s) && s.ring0.size == RING_SIZE && s.ring0.queue == []
    requires 0 < |packet| <= 9000
    ensures var t := ReceiverStage(s, [packet], false);
            && t == s.(ring0 := t.ring0, delivered := s.delivered + [packet])
            && t.ring0.Valid() && t.ring0.size == RING_SIZE && t.ring0.queue == [packet]
            && t.ring0.Read().Valid() && t.ring0.Read().size == RING_SIZE && t.ring0.Read().queue == []
  {
    hide Ring.Valid, AllAccepted, Ring.Write, Ring.Read;
    EmptyIsFlat(s.ring0);
    assert Footprint(packet) <= RING_SIZE / 2;
    EmptyRingAccepts(RING_SIZE, packet);
    assert s.ring0.Accepts(packet);
    OneAccepted(s.ring0, packet);
    WriteAllAppends(s.ring0, [packet]);
    assert s.ring0.queue + [packet] == [packet];
    ReadIsDequeue(WriteAll(s.ring0, [packet]));
    SizesStay(s.ring0, packet);
  }

  lemma EmptyIsFlat(r: Ring)
    requires r.Valid() && r.queue == []
    ensures IsIndex(r.size, r.readIndex) && r == Ring(r.size, r.readIndex, r.readIndex, 0, [])
  {}

  lemma SizesStay(r: Ring, packet: Bytes)
    requires r.Valid()
    ensures WriteAll(r, [packet]).size == r.size
    ensures WriteAll(r, [packet]).Valid() ==> WriteAll(r, [packet]).Read().size == r.size
  {
    assert [] + [packet] == [packet];
    WriteAllLast(r, [], packet);
  }

  lemma LongEnough(frame: Bytes)
    requires HeaderOk(frame)
    ensures |frame| >= MIN_FRAME && |frame| >= FRAME_HEADER
  {}

  /** The parser takes the only frame in ring 0. */
  lemma TakesFrame(s: State, frame: Bytes, msgs: seq<Bytes>, beyond: Memory)
    requires Sound(s) && !s.hung && s.common.applicationRunFlag && s.common.connected
    requires HeaderOk(frame) && Tiles(frame, msgs) && Passes(s.parser, s.common, frame)
    requires s.ring0.queue == [frame] && s.ring1.Capacity() >= PUSHBACK && AllAccepted(s.ring1, msgs)
    ensures var u := UpdateFor(s.parser, s.common, s.ring1, frame);
            ParserStage(s, beyond) ==
            s.(parser := u.parser, common := u.common.(sequenceNumber := SequenceNumber(frame)),
               ring0 := s.ring0.Read(), ring1 := WriteAll(s.ring1, msgs),
               log := s.log + [Taken(frame, msgs, OpenSession(s.parser), OpenSession(u.parser))],
               everOpened := s.everOpened || u.common.sessionIdReceived)
  {
    hide Ring.Valid, AllAccepted, WriteAll, Tiles, HeaderOk, Scan, Ring.Read, UpdateFor;
    var v := View(frame, beyond);
    TiledBy(v, msgs);
    PassesIff(s.parser, s.common, s.ring1, frame);
    HeaderOkCounts(frame);
    LongEnough(frame);
  }

  /** In session, with ring 0 empty: the next iteration runs all stages on the packet it gets. */
  ghost predicate IsRunning(s: State) {
    && PipelineProofs.Inv(s) && !s.hung && s.stream == InSession && s.common.applicationRunFlag
    && s.ring0.size == s.ring1.size == RING_SIZE && s.ring0.queue == []
  }

  /** The message that the inserter commits next, if any. */
  function NextJob(s: State): seq<L.Job> {
    if s.ring1.queue == [] then [] else [L.Job(s.common.sequenceNumber, Payload(s.ring1.queue[0]))]
  }

  /** What the inserter adds to the history, and under which id and at which point of the log. */
  lemma InserterCommits(s: State)
    requires PipelineProofs.Inv(s)
    ensures var i := InserterStage(s);
            && L.Messages(i.history) == L.Messages(s.history) + NextJob(s)
            && i.publishedAt == s.publishedAt + seq(|NextJob(s)|, _ => s.common.sessionId)
            && i.committedAt == s.committedAt + seq(|NextJob(s)|, _ => |s.log|)
  {
    hide IsMessage, Ring.Valid, L.Messages, Items, Publish, L.Start;
    InserterPublishes(s);
    if s.ring1.queue != [] {
      HeadIsMessage(Items(s.log), L.Messages(s.history), s.publishedAt, s.ring1.queue);
      MessageHasPayload(s.ring1.queue[0]);
      AppendedMessages(s.history, s.n, L.Start(s.history, |s.history|), NextJob(s)[0]);
    } else {
      assert InserterStage(s).history == s.history;
    }
  }

  /** An iteration in session that takes a frame. */
  lemma SessionTakes(s: State, frame: Bytes, msgs: seq<Bytes>, beyond: Memory)
    requires IsRunning(s)
    requires HeaderOk(frame) && Tiles(frame, msgs) && |frame| <= 9000 && Passes(s.parser, s.common, frame)
    requires PUSHBACK + WorstLayout(msgs) + s.ring1.stored <= RING_SIZE
    ensures var u, t := UpdateFor(s.parser, s.common, s.ring1.Read(), frame), Iterated(s, PacketInput(frame, beyond));
            && IsRunning(t)
            && t.parser == u.parser && t.common == u.common.(sequenceNumber := SequenceNumber(frame))
            && t.ring1.queue == s.ring1.Read().queue + msgs
            && t.ring1.stored <= s.ring1.stored + WorstLayout(msgs)
            && t.log == s.log + [Taken(frame, msgs, OpenSession(s.parser), OpenSession(u.parser))]
            && L.Messages(t.history) == L.Messages(s.history) + NextJob(s)
            && t.publishedAt == s.publishedAt + seq(|NextJob(s)|, _ => s.common.sessionId)
            && t.committedAt == s.committedAt + seq(|NextJob(s)|, _ => |s.log|)
  {
    hide Ring.Valid, AllAccepted, WriteAll, Tiles, HeaderOk, Ring.Read, UpdateFor, WorstLayout, L.Messages, Passes;
    hide ReceiverStage, ParserStage, PipelineProofs.Inv, Appended;
    RingTakes(s, frame, msgs);
    InvIsSound(s);
    InserterIsSound(s);
    InserterCommits(s);
    var i, input := InserterStage(s), PacketInput(frame, beyond);
    LongEnough(frame);
    Delivers(i, frame);
    TakesFrame(ReceiverStage(i, [frame], false), frame, msgs, beyond);
    UpdateKeepsFlags(s.parser, s.common, s.ring1.Read(), frame);
    assert Iterated(s, input) == ParserStage(ReceiverStage(i, [frame], false), beyond);
    IterateKeepsInv(s, input);
  }

  lemma UpdateKeepsFlags(p: ParserState, c: Common, ring: Ring, frame: Bytes)
    requires HeaderOk(frame)
    ensures var u := UpdateFor(p, c, ring, frame);
            && u.common.applicationRunFlag == c.applicationRunFlag
            && u.common.dontFilterSourceId == c.dontFilterSourceId
  {}

  lemma RingTakes(s: State, frame: Bytes, msgs: seq<Bytes>)
    requires IsRunning(s) && HeaderOk(frame) && Tiles(frame, msgs)
    requires PUSHBACK + WorstLayout(msgs) + s.ring1.stored <= RING_SIZE
    ensures Sound(s) && s.common.connected
    ensures var r := s.ring1.Read();
            && r.Valid() && r.Capacity() >= PUSHBACK && AllAccepted(r, msgs)
            && var w := WriteAll(r, msgs);
               w.size == RING_SIZE && w.queue == r.queue + msgs && w.stored <= s.ring1.stored + WorstLayout(msgs)
  {
    hide Ring.Valid, AllAccepted, WriteAll, Tiles, WorstLayout, DataOk, Settled, Ring.Read, HeaderOk;
    var r := s.ring1.Read();
    ReadIsDequeue(s.ring1);
    ReadFreesBytes(s.ring1);
    TiledBy(View(frame, _ => 0), msgs);
    NoRetryBound(r, msgs);
    WriteAllAppends(r, msgs);
    r.IndexIsValid();
  }

  /** The first iteration of a run: the frame opens its session. */
  lemma FirstTakes(n: nat, frame: Bytes, msgs: seq<Bytes>, beyond: Memory)
    requires n >= L.MAX_LINES
    requires HeaderOk(frame) && Tiles(frame, msgs) && |frame| <= 9000 && MessageType(frame) != SHUTDOWN_MESSAGE
    requires WorstLayout(msgs) <= RING_SIZE
    ensures Sound(Started(RING_SIZE, RING_SIZE, n))
    ensures var t, id := Iterated(Started(RING_SIZE, RING_SIZE, n), PacketInput(frame, beyond)), SessionId(frame);
            && PipelineProofs.Inv(t) && !t.hung && t.stream == WaitForSession
            && t.parser == ParserState(Session, id, 0)
            && t.common == Common(true, true, false, true, id, SequenceNumber(frame), false)
            && t.ring0.size == t.ring1.size == RING_SIZE && t.ring0.queue == []
            && t.ring1.queue == msgs && t.ring1.stored <= WorstLayout(msgs)
            && t.log == [Taken(frame, msgs, None, Of(id))]
            && t.history == [] && t.publishedAt == [] && t.committedAt == []
  {
    hide Ring.Valid, AllAccepted, WriteAll, Tiles, HeaderOk, Ring.Read, WorstLayout, Appended;
    hide ReceiverStage, ParserStage, PipelineProofs.Inv;
    var s, input := Started(RING_SIZE, RING_SIZE, n), PacketInput(frame, beyond);
    StartedIsSound(n);
    StartedInv(RING_SIZE, RING_SIZE, n);
    FirstRingTakes(frame, msgs);
    LongEnough(frame);
    Delivers(s, frame);
    TakesFrame(ReceiverStage(s, [frame], false), frame, msgs, beyond);
    assert Iterated(s, input) == ParserStage(ReceiverStage(s, [frame], false), beyond);
    IterateKeepsInv(s, input);
  }

  lemma FirstRingTakes(frame: Bytes, msgs: seq<Bytes>)
    requires HeaderOk(frame) && Tiles(frame, msgs) && WorstLayout(msgs) <= RING_SIZE
    ensures var r := Empty(RING_SIZE);
            && r.Valid() && r.Capacity() >= PUSHBACK && AllAccepted(r, msgs)
            && var w := WriteAll(r, msgs);
               w.size == RING_SIZE && w.queue == msgs && w.stored <= WorstLayout(msgs)
  {
    hide AllAccepted, WriteAll, Tiles, WorstLayout, HeaderOk;
    var r := Empty(RING_SIZE);
    TiledBy(View(frame, _ => 0), msgs);
    NoRetryBound(r, msgs);
    WriteAllAppends(r, msgs);
    assert [] + msgs == msgs;
  }

  /** With a session open, two iterations without a stage take the stream into the session. */
  lemma Transits(s: State, input: Input)
    requires Sound(s) && !s.hung && s.stream != InSession && input.interrupt == 3
    requires s.common.applicationRunFlag && s.common.connected && s.common.sessionIdReceived
    ensures Iterated(s, input) == s.(stream := if s.stream == WaitForSession then TransitToSession else InSession)
  {
    hide Ring.Valid, WaitIteration, SessionIteration;
  }
}
