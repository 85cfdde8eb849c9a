/**
 The whole program as one state machine on values: the run loop of
 UDPJubmoFrameReceiverImplementation with the receiver, the parser and the
 inserter as its stages, and what holds over every run.

 A run is a series of iterations, each with an input: the packets that the
 network hands over, whether the receiver fails, the keyboard, and when the
 interrupt signal arrives.  An iteration in which a retry loop spins never ends;
 the machine then stays hung.
 */
module Pipeline {
  import opened Bytes
  import opened CommonData
  import opened RingQueue
  import opened FrameFormat
  import opened ParserModel
  import L = SharedLog
  import opened Inserter

  datatype StreamState = WaitForSession | TransitToSession | InSession

  /** A frame that the parser took, the messages it kept, and the session open before and after it. */
  datatype Taken = Taken(frame: Bytes, msgs: seq<Bytes>, before: Tag, after: Tag)

  /**
   The state between two iterations.  The last five fields are history: the
   packets delivered, the frames taken, the session id that shared memory showed
   and the number of frames taken when each message was committed, and whether a
   session was ever opened.
   */
  datatype State = State(
    stream: StreamState, hung: bool, common: Common, parser: ParserState, ring0: Ring, ring1: Ring,
    published: Published, n: nat, history: seq<L.Entry>,
    delivered: seq<Bytes>, log: seq<Taken>, publishedAt: seq<nat>, committedAt: seq<nat>,
    everOpened: bool)

  datatype Input = Input(
    packets: seq<Bytes>, receiverFails: bool, beyond: Memory, toggleFilter: bool, interrupt: nat)

  /** The interrupt handler clears the run flag; it may run before any stage. */
  function Interrupted(s: State, now: bool): State {
    if now then s.(common := s.common.(applicationRunFlag := false)) else s
  }

  function KeyboardStage(s: State, toggleFilter: bool): State {
    if toggleFilter then s.(common := s.common.(dontFilterSourceId := !s.common.dontFilterSourceId)) else s
  }

  /** The receiver writes every packet it has completed to ring 0, if ring 0 has room to begin with. */
  function ReceiverStage(s: State, packets: seq<Bytes>, fails: bool): State
    requires s.ring0.Valid()
  {
    if s.ring0.Capacity() < PUSHBACK then s
    else if !AllAccepted(s.ring0, packets) then s.(hung := true)
    else
      s.(ring0 := WriteAll(s.ring0, packets), delivered := s.delivered + packets,
         common := if fails then s.common.(applicationRunFlag := false) else s.common)
  }

  function Kept(verdict: Verdict): seq<Bytes> {
    if verdict.Accepted? then verdict.msgs else []
  }

  function ParserStage(s: State, beyond: Memory): State
    requires s.ring0.Valid() && s.ring1.Valid()
  {
    var t := ParserStep(s.parser, s.common, s.ring0, s.ring1, beyond);
    if t.verdict == Spinning then s.(hung := true)
    else
      s.(parser := t.parser, common := t.common, ring0 := t.ring0, ring1 := t.ring1,
         log := s.log + if t.frame == [] then [] else
           [Taken(t.frame, Kept(t.verdict), OpenSession(s.parser), OpenSession(t.parser))],
         everOpened := s.everOpened || t.common.sessionIdReceived)
  }

  function InserterStage(s: State): State
    requires s.ring1.Valid() && s.n > 0
  {
    var payload := Payload(Head(s.ring1));
    var published := Publish(s.published, s.common);
    s.(ring1 := s.ring1.Read(), published := published,
       history := s.history + if payload == [] then [] else
         Appended(s.n, L.Start(s.history, |s.history|), L.Job(s.common.sequenceNumber, payload)),
       publishedAt := s.publishedAt + if payload == [] then [] else [published.sessionId],
       committedAt := s.committedAt + if payload == [] then [] else [|s.log|])
  }

  /** What every stage needs, and every stage keeps. */
  ghost predicate Sound(s: State) {
    s.ring0.Valid() && s.ring1.Valid() && s.n >= L.MAX_LINES
  }

  lemma ReceiverIsSound(s: State, packets: seq<Bytes>, fails: bool)
    requires Sound(s)
    ensures Sound(ReceiverStage(s, packets, fails))
  {
    if AllAccepted(s.ring0, packets) {
      WriteAllAppends(s.ring0, packets);
    }
  }

  lemma ParserIsSound(s: State, beyond: Memory)
    requires Sound(s)
    ensures Sound(ParserStage(s, beyond))
  {
    hide ProcessFrame;
    FrameIsAtomic(s.parser, s.common, s.ring1, View(Head(s.ring0), beyond));
    ReadIsDequeue(s.ring0);
  }

  lemma InserterIsSound(s: State)
    requires Sound(s)
    ensures Sound(InserterStage(s))
  {
    ReadIsDequeue(s.ring1);
  }

  // ---------- The run loop ----------

  function WaitIteration(s: State, input: Input): State
    requires Sound(s)
  {
    var s1 := KeyboardStage(s, input.toggleFilter);
    var s2 := ReceiverStage(Interrupted(s1, input.interrupt == 1), input.packets, input.receiverFails);
    ReceiverIsSound(Interrupted(s1, input.interrupt == 1), input.packets, input.receiverFails);
    var s3 := Interrupted(s2, input.interrupt == 2);
    if s2.hung || !s3.common.applicationRunFlag then s3 else ParserStage(s3, input.beyond)
  }

  function SessionIteration(s: State, input: Input): State
    requires Sound(s)
  {
    var s1 := InserterStage(s);
    InserterIsSound(s);
    var s2 := ReceiverStage(Interrupted(s1, input.interrupt == 1), input.packets, input.receiverFails);
    ReceiverIsSound(Interrupted(s1, input.interrupt == 1), input.packets, input.receiverFails);
    if s2.hung then s2 else
      var s3 := ParserStage(Interrupted(s2, input.interrupt == 2), input.beyond);
      KeyboardStage(s3, input.toggleFilter)
  }

  function Iterated(s: State, input: Input): State
    requires Sound(s)
  {
    if s.hung then s else
      var s0 := Interrupted(s, input.interrupt == 0);
      match s0.stream
      case WaitForSession =>
        if s0.common.applicationRunFlag && !(s0.common.connected && s0.common.sessionIdReceived)
        then WaitIteration(s0, input)
        else s0.(stream := TransitToSession)
      case TransitToSession =>
        if s0.common.applicationRunFlag && s0.common.connected then s0.(stream := InSession) else s0
      case InSession =>
        if s0.common.applicationRunFlag && s0.common.connected then SessionIteration(s0, input) else s0
  }

  /** After a successful Initialize: connected, running, session filter on, nothing published. */
  function Started(size0: nat, size1: nat, n: nat): State {
    State(WaitForSession, false, Common(true, true, false, false, 0, 0, false), ParserState(Startup, 0, 0),
          Empty(size0), Empty(size1), Published(0, 0, 0), n, [], [], [], [], [], false)
  }

  lemma IteratedIsSound(s: State, input: Input)
    requires Sound(s)
    ensures Sound(Iterated(s, input))
  {
    hide ReceiverStage, ParserStage, InserterStage, Ring.Valid;
    var s0 := Interrupted(s, input.interrupt == 0);
    var k := KeyboardStage(s0, input.toggleFilter);
    ReceiverIsSound(Interrupted(k, input.interrupt == 1), input.packets, input.receiverFails);
    var s2 := ReceiverStage(Interrupted(k, input.interrupt == 1), input.packets, input.receiverFails);
    ParserIsSound(Interrupted(s2, input.interrupt == 2), input.beyond);
    InserterIsSound(s0);
    var i := InserterStage(s0);
    ReceiverIsSound(Interrupted(i, input.interrupt == 1), input.packets, input.receiverFails);
    var i2 := ReceiverStage(Interrupted(i, input.interrupt == 1), input.packets, input.receiverFails);
    ParserIsSound(Interrupted(i2, input.interrupt == 2), input.beyond);
  }

  function Run(size0: nat, size1: nat, n: nat, inputs: seq<Input>): (s: State)
    requires IsSize(size0) && IsSize(size1) && n >= L.MAX_LINES
    ensures Sound(s)
  {
    if inputs == [] then Started(size0, size1, n) else
      var before := Run(size0, size1, n, inputs[..|inputs| - 1]);
      IteratedIsSound(before, inputs[|inputs| - 1]);
      Iterated(before, inputs[|inputs| - 1])
  }
}
