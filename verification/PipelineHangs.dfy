/**
 Runs in which a retry loop spins for ever, on the program's own ring size: a
 datagram of a bare header, a steady stream of well-formed frames that the gate
 does not cover, a malformed frame after a stream of well-formed ones, and packets
 that come faster than the parser takes them.
 */
module PipelineHangs {
  import opened Bytes
  import opened CommonData
  import opened RingQueue
  import opened FrameFormat
  import opened ParserModel
  import L = SharedLog
  import opened Inserter
  import opened Pipeline
  import opened PipelineProofs
  import opened PipelineSteps
  import opened Reassembly

  // ---------- An empty packet ----------

  /** The ring refuses an empty record, so a poll that completes an empty packet never ends. */
  lemma EmptyPacketHangs(s: State, packets: seq<Bytes>, fails: bool)
    requires Sound(s) && s.ring0.Capacity() >= PUSHBACK && [] in packets
    ensures ReceiverStage(s, packets, fails).hung
  {
    EmptyRecordIsRefused(s.ring0, packets);
  }

  /**
   A datagram in one fragment gives a packet of its bytes behind the first 42.  The
   receiver goes by the bytes of the Ethernet frame and not by the UDP length, so
   padding counts.
   */
  lemma OneFragment(num: nat, ev: Event)
    requires ev.Rx? && InPool(num, ev.id) && ev.isStart && !ev.isCont && WithinLimits(NO_PACKET, ev)
    ensures EventsOk(num, NO_PACKET, [ev])
    ensures Poll(num, NO_PACKET, [ev]) == Polled(Jumbo(false, ev.content[UDP_HEADER_LEN..ev.received], 0),
                                                 [ev.content[UDP_HEADER_LEN..ev.received]], false)
  {
    var none: seq<Event> := [];
    assert [ev][1..] == none;
    assert [] + ev.content[UDP_HEADER_LEN..ev.received] == ev.content[UDP_HEADER_LEN..ev.received];
  }

  /**
   The first datagram of a run makes the receiver spin if and only if it has no byte
   behind the 42 of the headers; the first iteration then never ends.
   */
  lemma BareHeaderHangs(n: nat, num: nat, ev: Event, beyond: Memory, toggle: bool, interrupt: nat)
    requires n >= L.MAX_LINES && interrupt != 0
    requires ev.Rx? && InPool(num, ev.id) && ev.isStart && !ev.isCont && WithinLimits(NO_PACKET, ev)
    ensures EventsOk(num, NO_PACKET, [ev]) && Sound(Started(RING_SIZE, RING_SIZE, n))
    ensures var polled, s := Poll(num, NO_PACKET, [ev]), Started(RING_SIZE, RING_SIZE, n);
            && (ReceiverStage(s, polled.packets, polled.failed).hung <==> ev.received == 42)
            && var input := Input(polled.packets, polled.failed, beyond, toggle, interrupt);
               ev.received == 42 ==> Pipeline.Run(RING_SIZE, RING_SIZE, n, [input]).hung
  {
    hide ReceiverStage, ParserStage, EventsOk, Poll;
    OneFragment(num, ev);
    StartedIsSound(n);
    var polled, s := Poll(num, NO_PACKET, [ev]), Started(RING_SIZE, RING_SIZE, n);
    if ev.received == UDP_HEADER_LEN {
      var input := Input(polled.packets, polled.failed, beyond, toggle, interrupt);
      StartIsEmpty(n, input);
      EmptyPacketHangs(s, polled.packets, polled.failed);
      var r := Interrupted(KeyboardStage(s, toggle), interrupt == 1);
      EmptyPacketHangs(r, polled.packets, polled.failed);
    } else {
      Delivers(s, polled.packets[0]);
    }
  }

  // ---------- A stream of frames of 299 messages ----------

  const COUNT := 299

  function Message(): Bytes {
    MessageOfSize(MIN_MESSAGE)
  }

  function Frame(prefix: Bytes): Bytes {
    SmallFrame(prefix, COUNT)
  }

  /** The header opens a session or belongs to it. */
  predicate IsStream(prefix: Bytes) {
    IsPrefix(prefix) && prefix[0] != SHUTDOWN_MESSAGE
  }

  /** One frame, and nothing else happens. */
  function FrameInput(prefix: Bytes, beyond: Memory): Input {
    PacketInput(Frame(prefix), beyond)
  }

  function Stream(prefix: Bytes, beyond: Memory, k: nat): seq<Input> {
    seq(k, _ => FrameInput(prefix, beyond))
  }

  /** Ring 1 after m frames and m - 1 reads: no wrap so far, and no slack. */
  function FloodRing(m: nat): Ring
    requires m > 0
  {
    Ring(RING_SIZE, LINE * (m - 1), COUNT * LINE * m, COUNT * LINE * m - LINE * (m - 1),
         Copies(Message(), COUNT * m - (m - 1)))
  }

  /** In the session of the frames, with ring 0 empty and m frames in ring 1. */
  ghost predicate Flooded(s: State, prefix: Bytes, m: nat)
    requires IsStream(prefix) && m > 0
  {
    && Sound(s) && !s.hung
    && s.common.applicationRunFlag && s.common.connected && s.common.sessionIdReceived
    && s.parser.phase == Session && s.parser.sessionId == SessionId(Frame(prefix))
    && s.common.sequenceNumber == SequenceNumber(Frame(prefix))
    && s.ring0.size == RING_SIZE && s.ring0.queue == []
    && s.ring1 == FloodRing(m)
  }

  lemma FrameFacts(prefix: Bytes)
    requires IsStream(prefix)
    ensures var frame := Frame(prefix);
            && HeaderOk(frame) && Tiles(frame, Copies(Message(), COUNT))
            && |frame| == 8990 && MessageType(frame) == prefix[0]
    ensures FootprintSum(Copies(Message(), COUNT)) == COUNT * LINE
  {
    hide Tiles, HeaderOk, SmallFrame, Copies;
    SmallFrameIsTiled(prefix, COUNT);
    assert Frame(prefix)[..MESSAGE_FRAME_HEADER][0] == prefix[0];
  }

  /** The inserter takes one message from ring 1. */
  lemma FloodRead(m: nat)
    requires 0 < m <= 109 && FloodRing(m).Valid()
    ensures var r := FloodRing(m).Read();
            && r.Valid()
            && r == Ring(RING_SIZE, LINE * m, COUNT * LINE * m, (COUNT - 1) * LINE * m,
                         Copies(Message(), (COUNT - 1) * m))
  {
    hide Ring.Valid, MessageOfSize;
    var q := FloodRing(m).queue;
    assert q[0] == Message() && Footprint(Message()) == LINE;
    assert q[1..] == Copies(Message(), (COUNT - 1) * m);
    ReadIsDequeue(FloodRing(m));
  }

  /** The parser adds a whole frame, as long as there is room. */
  lemma FloodWrite(m: nat)
    requires 0 < m <= 108 && FloodRing(m).Valid()
    ensures var r, msgs := FloodRing(m).Read(), Copies(Message(), COUNT);
            && r.Valid() && r.Capacity() >= PUSHBACK
            && AllAccepted(r, msgs) && WriteAll(r, msgs) == FloodRing(m + 1)
  {
    hide Ring.Valid, MessageOfSize, AllAccepted, WriteAll, Ring.Read;
    FloodRead(m);
    var r, msgs := FloodRing(m).Read(), Copies(Message(), COUNT);
    CopiesAdd(Message(), COUNT);
    assert Footprint(Message()) == LINE;
    StraightWrites(r, msgs);
    assert r.queue + msgs == FloodRing(m + 1).queue;
  }

  /** The first frame into an empty ring. */
  lemma FloodStart()
    ensures var r, msgs := Empty(RING_SIZE), Copies(Message(), COUNT);
            && r.Valid() && AllAccepted(r, msgs) && WriteAll(r, msgs) == FloodRing(1)
  {
    hide MessageOfSize, AllAccepted, WriteAll;
    var r, msgs := Empty(RING_SIZE), Copies(Message(), COUNT);
    CopiesAdd(Message(), COUNT);
    assert Footprint(Message()) == LINE;
    StraightWrites(r, msgs);
    assert r.queue + msgs == msgs;
  }

  /** The parser is ready for the frames: it opens their session, or is in it. */
  predicate IsReady(s: State, prefix: Bytes)
    requires IsStream(prefix)
  {
    && s.common.applicationRunFlag && s.common.connected
    && (s.parser.phase == Startup ||
        (s.parser.phase == Session && s.parser.sessionId == SessionId(Frame(prefix)) && s.common.sessionIdReceived))
  }

  lemma ReadyPasses(s: State, prefix: Bytes)
    requires IsStream(prefix) && IsReady(s, prefix)
    ensures Passes(s.parser, s.common, Frame(prefix))
    ensures |Frame(prefix)| == 8990 && MessageType(Frame(prefix)) == prefix[0]
  {
    FrameFacts(prefix);
  }

  lemma Takes(s: State, prefix: Bytes, beyond: Memory)
    requires Sound(s) && !s.hung && IsStream(prefix) && IsReady(s, prefix)
    requires s.ring0.queue == [Frame(prefix)] && s.ring1.Capacity() >= PUSHBACK
    requires AllAccepted(s.ring1, Copies(Message(), COUNT))
    ensures var t := ParserStage(s, beyond);
            && !t.hung && t.stream == s.stream && t.history == s.history
            && t.ring0 == s.ring0.Read() && t.ring1 == WriteAll(s.ring1, Copies(Message(), COUNT))
            && t.common.applicationRunFlag && t.common.connected && t.common.sessionIdReceived
            && t.common.sequenceNumber == SequenceNumber(Frame(prefix))
            && t.parser.phase == Session && t.parser.sessionId == SessionId(Frame(prefix))
  {
    hide Ring.Valid, AllAccepted, WriteAll, Tiles, HeaderOk, SmallFrame, Copies, Ring.Read, ParserStage;
    FrameFacts(prefix);
    ReadyPasses(s, prefix);
    TakesFrame(s, Frame(prefix), Copies(Message(), COUNT), beyond);
  }

  lemma Spins(s: State, prefix: Bytes, beyond: Memory)
    requires Sound(s) && IsStream(prefix) && IsReady(s, prefix)
    requires s.ring0.queue == [Frame(prefix)] && PUSHBACK <= s.ring1.Capacity() < 19136
    ensures ParserStage(s, beyond).hung
  {
    hide Ring.Valid, Tiles, HeaderOk, SmallFrame, ParserStep, Passes, MessageOfSize;
    FrameFacts(prefix);
    ReadyPasses(s, prefix);
    GateIsTooLow(s.parser, s.common, s.ring0, s.ring1, beyond, Copies(Message(), COUNT));
  }

  /** The first frame opens the session. */
  lemma FirstIteration(prefix: Bytes, beyond: Memory, n: nat)
    requires IsStream(prefix) && n >= L.MAX_LINES
    ensures Sound(Started(RING_SIZE, RING_SIZE, n))
    ensures var t := Iterated(Started(RING_SIZE, RING_SIZE, n), FrameInput(prefix, beyond));
            Flooded(t, prefix, 1) && t.stream == WaitForSession && t.history == []
  {
    hide Ring.Valid, AllAccepted, WriteAll, ReceiverStage, ParserStage, Ring.Read, SmallFrame, FloodRing;
    var s, input := Started(RING_SIZE, RING_SIZE, n), FrameInput(prefix, beyond);
    StartedIsSound(n);
    FrameFacts(prefix);
    Delivers(s, Frame(prefix));
    FloodStart();
    IteratedIsSound(s, input);
    Takes(ReceiverStage(s, [Frame(prefix)], false), prefix, beyond);
  }

  /** One frame more in ring 1, less the message that the inserter takes. */
  lemma FloodIterates(s: State, prefix: Bytes, beyond: Memory, m: nat)
    requires IsStream(prefix) && 0 < m <= 108 && Flooded(s, prefix, m) && s.stream == InSession
    ensures var t := Iterated(s, FrameInput(prefix, beyond)); Flooded(t, prefix, m + 1) && t.stream == InSession
    ensures Iterated(s, FrameInput(prefix, beyond)).history == InserterStage(s).history
  {
    hide Ring.Valid, AllAccepted, WriteAll, ReceiverStage, ParserStage, Ring.Read, SmallFrame, FloodRing, Publish;
    var input := FrameInput(prefix, beyond);
    FrameFacts(prefix);
    FloodWrite(m);
    IteratedIsSound(s, input);
    InserterIsSound(s);
    var i := InserterStage(s);
    Delivers(i, Frame(prefix));
    Takes(ReceiverStage(i, [Frame(prefix)], false), prefix, beyond);
  }

  lemma FloodHangs(s: State, prefix: Bytes, beyond: Memory)
    requires IsStream(prefix) && Flooded(s, prefix, 109) && s.stream == InSession
    ensures Iterated(s, FrameInput(prefix, beyond)).hung
    ensures InserterStage(s).ring1.Capacity() == 18304
  {
    hide Ring.Valid, AllAccepted, WriteAll, ReceiverStage, ParserStage, Ring.Read, SmallFrame, FloodRing, Publish;
    FrameFacts(prefix);
    FloodRead(109);
    InserterIsSound(s);
    var i := InserterStage(s);
    Delivers(i, Frame(prefix));
    Spins(ReceiverStage(i, [Frame(prefix)], false), prefix, beyond);
  }

  lemma StreamOneMore(prefix: Bytes, beyond: Memory, k: nat, n: nat)
    requires IsStream(prefix) && n >= L.MAX_LINES
    ensures var before := Pipeline.Run(RING_SIZE, RING_SIZE, n, Stream(prefix, beyond, k));
            Pipeline.Run(RING_SIZE, RING_SIZE, n, Stream(prefix, beyond, k + 1)) ==
            Iterated(before, FrameInput(prefix, beyond))
  {
    hide Iterated;
    assert Stream(prefix, beyond, k + 1)[..k] == Stream(prefix, beyond, k);
  }

  lemma NoStream(prefix: Bytes, beyond: Memory, n: nat)
    requires IsStream(prefix) && n >= L.MAX_LINES
    ensures Pipeline.Run(RING_SIZE, RING_SIZE, n, Stream(prefix, beyond, 0)) == Started(RING_SIZE, RING_SIZE, n)
  {}

  lemma {:induction false} StreamRun(prefix: Bytes, beyond: Memory, k: nat, n: nat)
    requires IsStream(prefix) && n >= L.MAX_LINES && 3 <= k <= 111
    ensures var s := Pipeline.Run(RING_SIZE, RING_SIZE, n, Stream(prefix, beyond, k));
            && Flooded(s, prefix, k - 2) && s.stream == InSession
            && (k == 3 ==> s.history == [])
  {
    hide Iterated, Pipeline.Run, Stream, Frame, FloodRing, Sound;
    StreamOneMore(prefix, beyond, k - 1, n);
    if k == 3 {
      NoStream(prefix, beyond, n);
      StreamOneMore(prefix, beyond, 0, n);
      StreamOneMore(prefix, beyond, 1, n);
      FirstIteration(prefix, beyond, n);
      Transits(Pipeline.Run(RING_SIZE, RING_SIZE, n, Stream(prefix, beyond, 1)), FrameInput(prefix, beyond));
      Transits(Pipeline.Run(RING_SIZE, RING_SIZE, n, Stream(prefix, beyond, 2)), FrameInput(prefix, beyond));
    } else {
      StreamRun(prefix, beyond, k - 1, n);
      FloodIterates(Pipeline.Run(RING_SIZE, RING_SIZE, n, Stream(prefix, beyond, k - 1)), prefix, beyond, k - 3);
    }
  }

  /**
   A run of the program that hangs on well-formed traffic alone: frames of 299
   messages of 30 bytes, one in each iteration, of any one session.  The 112th
   iteration starts on its frame with 18304 bytes free in ring 1, which the gate
   lets pass, and never ends; no iteration before it hangs.
   */
  lemma StreamHangs(prefix: Bytes, beyond: Memory, n: nat)
    requires IsStream(prefix) && n >= L.MAX_LINES
    ensures !Pipeline.Run(RING_SIZE, RING_SIZE, n, Stream(prefix, beyond, 111)).hung
    ensures Pipeline.Run(RING_SIZE, RING_SIZE, n, Stream(prefix, beyond, 112)).hung
    ensures InserterStage(Pipeline.Run(RING_SIZE, RING_SIZE, n, Stream(prefix, beyond, 111))).ring1.Capacity() == 18304
  {
    hide Iterated, Pipeline.Run, Stream, FrameInput, Frame, FloodRing, InserterStage;
    StreamRun(prefix, beyond, 111, n);
    StreamOneMore(prefix, beyond, 111, n);
    FloodHangs(Pipeline.Run(RING_SIZE, RING_SIZE, n, Stream(prefix, beyond, 111)), prefix, beyond);
  }

  // ---------- A malformed frame ----------

  /** 36 bytes that count one message and give it a length field of 0xFFFF. */
  function BadFrame(prefix: Bytes): Bytes {
    prefix + [0, 1, 255, 255] + seq(14, _ => 0)
  }

  lemma BadFrameFacts(prefix: Bytes, beyond: Memory)
    requires IsStream(prefix)
    ensures var bad := BadFrame(prefix);
            && |bad| == MIN_FRAME && HeaderOk(bad)
            && MessageType(bad) == prefix[0] && SessionId(bad) == SessionId(Frame(prefix))
            && View(bad, beyond).At(FRAME_HEADER) == 255 && View(bad, beyond).At(FRAME_HEADER + 1) == 255
  {
    hide FromLittleEndian, SmallFrame;
    var bad := BadFrame(prefix);
    SmallFrameIsTiled(prefix, COUNT);
    assert bad[2..10] == prefix[2..10];
    assert Frame(prefix)[2..10] == Frame(prefix)[..MESSAGE_FRAME_HEADER][2..10];
    TwoBytesCount(bad);
  }

  lemma TwoBytesCount(frame: Bytes)
    requires |frame| == MIN_FRAME && frame[18] == 0 && frame[19] == 1
    ensures MessageCount(frame) == 1
  {
    TwoBytes(frame[18..20]);
  }

  lemma BadFrameSpins(s: State, prefix: Bytes, beyond: Memory)
    requires Sound(s) && IsStream(prefix) && s.parser.phase == Session
    requires s.parser.sessionId == SessionId(Frame(prefix)) && s.common.applicationRunFlag && s.common.connected
    requires s.ring0.queue == [BadFrame(prefix)] && PUSHBACK <= s.ring1.Capacity() < 65600
    ensures ParserStage(s, beyond).hung
  {
    hide Ring.Valid, HeaderOk, BadFrame, ScanFrame, ProcessFrame;
    BadFrameFacts(prefix, beyond);
    MalformedFrameSpins(s.parser, s.common, s.ring1, View(BadFrame(prefix), beyond));
  }

  /**
   A frame that the parser would reject hangs the program too: after 109 iterations
   of the stream above, when 56448 bytes are free in ring 1, the malformed frame of
   36 bytes is enough.
   */
  lemma MalformedFrameHangs(prefix: Bytes, beyond: Memory, n: nat)
    requires IsStream(prefix) && n >= L.MAX_LINES
    ensures var stream := Stream(prefix, beyond, 109);
            && !Pipeline.Run(RING_SIZE, RING_SIZE, n, stream).hung
            && Pipeline.Run(RING_SIZE, RING_SIZE, n, stream + [PacketInput(BadFrame(prefix), beyond)]).hung
  {
    hide Ring.Valid, Pipeline.Run, Stream, Frame, BadFrame, FloodRing, ReceiverStage, ParserStage, Publish;
    var stream, input := Stream(prefix, beyond, 109), PacketInput(BadFrame(prefix), beyond);
    StreamRun(prefix, beyond, 109, n);
    var s := Pipeline.Run(RING_SIZE, RING_SIZE, n, stream);
    RunOneMore(n, stream, input);
    FloodRead(107);
    InserterIsSound(s);
    BadFrameFacts(prefix, beyond);
    Delivers(InserterStage(s), BadFrame(prefix));
    BadFrameSpins(ReceiverStage(InserterStage(s), [BadFrame(prefix)], false), prefix, beyond);
  }

  // ---------- Packets that come faster than the parser takes them ----------

  const SLOT := 1024
  const POLL := 32

  /** Not empty, not a message frame, and 1024 bytes in a ring, of which it divides the size. */
  predicate IsFiller(packet: Bytes) {
    packet != [] && !HeaderOk(packet) && Footprint(packet) == SLOT
  }

  lemma FillerIff(packet: Bytes)
    ensures IsFiller(packet) <==>
            957 <= |packet| <= 1020 && (packet[1] == MESSAGE_FRAME_HEADER ==> MessageCount(packet) == 0)
  {
    hide FromBigEndian;
  }

  /** A poll that completes 32 such packets. */
  function FullPoll(packet: Bytes, beyond: Memory): Input {
    Input(Copies(packet, POLL), false, beyond, false, 3)
  }

  ghost predicate InSlots(ring: Ring, packet: Bytes, q: nat) {
    && ring.Valid() && ring.size == RING_SIZE && ring.readIndex % SLOT == 0
    && ring.queue == Copies(packet, q) && ring.stored == SLOT * q
  }

  lemma {:induction false} SlotLayout(size: nat, i: nat, packet: Bytes, k: nat)
    requires IsSize(size) && IsIndex(size, i) && size % SLOT == 0 && i % SLOT == 0 && Footprint(packet) == SLOT
    ensures Span(size, i, Copies(packet, k)) == SLOT * k
    ensures EndIndex(size, i, Copies(packet, k)) % SLOT == 0
    decreases k
  {
    hide Footprint;
    if k > 0 {
      assert Copies(packet, k)[1..] == Copies(packet, k - 1);
      CostBound(size, i, packet);
      SlotLayout(size, Next(size, i, packet), packet, k - 1);
    }
  }

  /** No tail is skipped, so the ring takes as many packets as it has slots free, and no more. */
  lemma SlotsFill(ring: Ring, packet: Bytes, q: nat)
    requires InSlots(ring, packet, q) && IsFiller(packet)
    ensures ring.Capacity() == RING_SIZE - SLOT * q
    ensures AllAccepted(ring, Copies(packet, POLL)) <==> SLOT * (q + POLL) <= RING_SIZE
    ensures SLOT * (q + POLL) <= RING_SIZE ==> InSlots(WriteAll(ring, Copies(packet, POLL)), packet, q + POLL)
  {
    hide Footprint, Span, EndIndex, AllAccepted, WriteAll;
    SlotLayout(ring.size, ring.readIndex, packet, q);
    SlotLayout(ring.size, ring.writeIndex, packet, POLL);
    AllAcceptedIff(ring, Copies(packet, POLL));
    if AllAccepted(ring, Copies(packet, POLL)) {
      WriteAllAppends(ring, Copies(packet, POLL));
      WriteKeepsReadIndex(ring, Copies(packet, POLL));
      assert Copies(packet, q) + Copies(packet, POLL) == Copies(packet, q + POLL);
    }
  }

  lemma {:induction false} WriteKeepsReadIndex(ring: Ring, msgs: seq<Bytes>)
    requires ring.Valid()
    ensures WriteAll(ring, msgs).readIndex == ring.readIndex
    decreases |msgs|
  {
    if msgs != [] {
      WriteIsEnqueue(ring, msgs[0]);
      WriteKeepsReadIndex(ring.Write(msgs[0]), msgs[1..]);
    }
  }

  lemma SlotsDrain(ring: Ring, packet: Bytes, q: nat)
    requires InSlots(ring, packet, q) && IsFiller(packet) && q > 0
    ensures InSlots(ring.Read(), packet, q - 1)
  {
    hide Footprint, Span, EndIndex;
    ReadIsDequeue(ring);
    assert Copies(packet, q)[1..] == Copies(packet, q - 1);
    CostBound(ring.size, ring.readIndex, packet);
  }

  /** Waiting for a session, with so many of the packets in ring 0. */
  ghost predicate Unread(s: State, packet: Bytes, q: nat) {
    && Sound(s) && !s.hung && s.stream == WaitForSession
    && s.common.applicationRunFlag && s.common.connected && !s.common.sessionIdReceived
    && InSlots(s.ring0, packet, q) && s.ring1 == Empty(RING_SIZE)
  }

  /** The parser takes one packet in each iteration, and makes nothing of it. */
  lemma ParserDrops(s: State, packet: Bytes, q: nat, beyond: Memory)
    requires Unread(s, packet, q) && IsFiller(packet) && q > 0
    ensures Unread(ParserStage(s, beyond), packet, q - 1)
  {
    hide Ring.Valid, AllAccepted, WriteAll, Footprint, HeaderOk, Ring.Read;
    SlotsDrain(s.ring0, packet, q);
    ParserIsSound(s, beyond);
    assert Head(s.ring0) == packet;
  }

  /** The receiver's gate, and what a poll does behind it. */
  lemma ReceiverFills(s: State, packet: Bytes, q: nat)
    requires Unread(s, packet, q) && IsFiller(packet) && q <= 2048
    ensures var t := ReceiverStage(s, Copies(packet, POLL), false);
            && (q <= 2016 ==> Unread(t, packet, q + POLL))
            && (2016 < q <= 2032 ==> t.hung)
            && (q > 2032 ==> t == s)
  {
    hide Ring.Valid, AllAccepted, WriteAll, Footprint, Copies;
    SlotsFill(s.ring0, packet, q);
  }

  lemma PollIterates(s: State, packet: Bytes, q: nat, beyond: Memory)
    requires Unread(s, packet, q) && IsFiller(packet) && q <= 2048
    ensures var t := Iterated(s, FullPoll(packet, beyond));
            && (q <= 2016 ==> Unread(t, packet, q + POLL - 1))
            && (2016 < q <= 2032 ==> t.hung)
            && (q > 2032 ==> Unread(t, packet, q - 1))
  {
    hide Ring.Valid, ReceiverStage, ParserStage, Copies, InSlots, IsFiller;
    ReceiverFills(s, packet, q);
    var t := ReceiverStage(s, Copies(packet, POLL), false);
    if q <= 2016 {
      ParserDrops(t, packet, q + POLL, beyond);
    } else if q > 2032 {
      ParserDrops(s, packet, q, beyond);
    }
  }

  function FullPolls(packet: Bytes, beyond: Memory, j: nat): seq<Input> {
    seq(j, _ => FullPoll(packet, beyond))
  }

  /** The packets in ring 0 after so many iterations: 31 more in each, then one less in each behind the gate. */
  function UnreadAfter(j: nat): int {
    if j <= 66 then (POLL - 1) * j else 2112 - j
  }

  lemma {:induction false} PollsRun(packet: Bytes, beyond: Memory, n: nat, j: nat)
    requires n >= L.MAX_LINES && IsFiller(packet) && j <= 80
    ensures Unread(Pipeline.Run(RING_SIZE, RING_SIZE, n, FullPolls(packet, beyond, j)), packet, UnreadAfter(j))
  {
    hide Iterated, Pipeline.Run, IsFiller, FullPoll, Unread;
    if j == 0 {
      PollsStart(packet, beyond, n);
    } else {
      PollsRun(packet, beyond, n, j - 1);
      assert FullPolls(packet, beyond, j) == FullPolls(packet, beyond, j - 1) + [FullPoll(packet, beyond)];
      RunOneMore(n, FullPolls(packet, beyond, j - 1), FullPoll(packet, beyond));
      PollIterates(Pipeline.Run(RING_SIZE, RING_SIZE, n, FullPolls(packet, beyond, j - 1)), packet,
                   UnreadAfter(j - 1), beyond);
    }
  }

  lemma PollsStart(packet: Bytes, beyond: Memory, n: nat)
    requires n >= L.MAX_LINES
    ensures Unread(Pipeline.Run(RING_SIZE, RING_SIZE, n, FullPolls(packet, beyond, 0)), packet, 0)
  {
    StartedIsSound(n);
  }

  /**
   A run in which the receiver's loop spins on packets that are not empty: each poll
   completes 32 packets of 957 to 1020 bytes that are no message frames, and the
   parser takes one in each iteration.  The 81st iteration polls with 16384 bytes
   free, as the gate asks, needs 32768, and never ends; no iteration before it hangs.
   */
  lemma FullPollsHang(packet: Bytes, beyond: Memory, n: nat)
    requires n >= L.MAX_LINES && IsFiller(packet)
    ensures var s := Pipeline.Run(RING_SIZE, RING_SIZE, n, FullPolls(packet, beyond, 80));
            && !s.hung && s.ring0.Capacity() == PUSHBACK
            && ReceiverStage(s, Copies(packet, POLL), false).hung
    ensures Pipeline.Run(RING_SIZE, RING_SIZE, n, FullPolls(packet, beyond, 81)).hung
  {
    hide Iterated, Pipeline.Run, IsFiller, FullPoll;
    PollsRun(packet, beyond, n, 80);
    ReceiverFills(Pipeline.Run(RING_SIZE, RING_SIZE, n, FullPolls(packet, beyond, 80)), packet, 2032);
    assert FullPolls(packet, beyond, 81) == FullPolls(packet, beyond, 80) + [FullPoll(packet, beyond)];
    RunOneMore(n, FullPolls(packet, beyond, 80), FullPoll(packet, beyond));
    PollIterates(Pipeline.Run(RING_SIZE, RING_SIZE, n, FullPolls(packet, beyond, 80)), packet, 2032, beyond);
  }
}
