/**
 ParserImplementation: takes a frame from ring 0, runs the session state machine,
 writes the frame's messages to ring 1 as it finds them, and rolls ring 1 back
 when the frame turns out to be bad.  Every method is proved to compute the
 functions of ParserModel.

 The retry loop around a write ends at once or never: a refused write changes
 nothing, and the only reader of ring 1 runs in the same thread.  The methods
 report the second case as spinning.
 */
module Parser {
  import opened Bytes
  import opened RingQueue
  import opened RingFifoBuffer
  import opened FrameFormat
  import opened CommonData
  import opened ParserModel

  class Parser {
    const common: CommonData
    const ring0: RingFifoBuffer
    const ring1: RingFifoBuffer
    var phase: Phase
    var sessionIdVal: nat
    var sessionIdPrevious: nat
    var discardFrame: bool

    ghost function State(): ParserState
      reads `phase, `sessionIdVal, `sessionIdPrevious
    {
      ParserState(phase, sessionIdVal, sessionIdPrevious)
    }

    constructor (common: CommonData, ring0: RingFifoBuffer, ring1: RingFifoBuffer)
      modifies common
      ensures this.common == common && this.ring0 == ring0 && this.ring1 == ring1
      ensures State() == ParserState(Startup, 0, 0)
      ensures common.Value() == old(common.Value()).(sequenceNumber := 0)
    {
      this.common, this.ring0, this.ring1 := common, ring0, ring1;
      phase, sessionIdVal, sessionIdPrevious, discardFrame := Startup, 0, 0, false;
      new;
      common.sequenceNumber := 0;
    }

    method UpdateParserState(frame: Bytes)
      requires |frame| >= FRAME_HEADER && ring1.Valid()
      modifies `phase, `sessionIdVal, `sessionIdPrevious, `discardFrame
      modifies common`shutdownReceived, common`sessionId, common`sessionIdReceived
      ensures var u := ParserModel.UpdateParserState(
                old(State()), old(common.Value()), MessageType(frame), SessionId(frame), Drained(old(ring1.Value())));
              && State() == u.parser
              && common.Value() == u.common
              && discardFrame == (old(discardFrame) || u.discard)
      ensures old(phase) == Startup && frame[0] == 1 ==>
                State() == old(State()) && common.Value() == old(common.Value())
      ensures ring1.Valid() && ring1.Value() == old(ring1.Value())
    {
      hide Holds, Ring.Valid;
      match phase
      case Startup =>
        if MessageType(frame) != SHUTDOWN_MESSAGE {
          sessionIdPrevious := sessionIdVal;
          sessionIdVal := SessionId(frame);
          phase := Session;
          common.shutdownReceived := false;
          common.sessionId := SessionId(frame);
          common.sessionIdReceived := true;
        }
      case Session =>
        if SessionId(frame) != sessionIdVal {
          if !common.dontFilterSourceId {
            discardFrame := true;
          }
        } else if MessageType(frame) == SHUTDOWN_MESSAGE {
          phase := Shutdown;
        }
      case Shutdown =>
        if ring1.numberOfStoredBytes == 0 || ring1.framesStored == 0 {
          sessionIdPrevious := 0;
          sessionIdVal := 0;
          phase := Startup;
          common.shutdownReceived := true;
          common.sessionIdReceived := false;
        }
    }

    /** The message loop, from Snap to Discard. */
    method TakeMessages(v: View, messageCounter: nat) returns (spinning: bool)
      requires ring1.Valid() && !discardFrame
      requires |v.frame| >= FRAME_HEADER && messageCounter == MessageCount(v.frame) > 0
      modifies `discardFrame, ring1, ring1.ptr
      ensures ring1.Valid()
      ensures spinning <==> !AllAccepted(old(ring1.Value()), ScanFrame(v).msgs)
      ensures !spinning ==>
        && discardFrame == !ScanFrame(v).ok
        && ring1.Value() == if ScanFrame(v).ok then WriteAll(old(ring1.Value()), ScanFrame(v).msgs)
                            else old(ring1.Value())
    {
      hide Ring.Valid, Holds, AllAccepted, WriteAll, Scan, ScanFrame, MessageCount, Progress;
      spinning := false;
      ghost var start := ring1.Value();
      var messageBytesReceived: int := |v.frame| - FRAME_HEADER;
      var messageBytesExpected: nat := 0;
      var at: nat := FRAME_HEADER;
      var messageIndex := 0;
      ghost var done: seq<Bytes> := [];
      NoProgress(v, start);
      ring1.Snap();
      while messageIndex < messageCounter && !discardFrame
        invariant 0 <= messageIndex <= messageCounter
        invariant ring1.Valid() && ring1.SnapIntact() && ring1.SnapValue() == start
        invariant AllAccepted(start, done) && ring1.Value() == WriteAll(start, done)
        invariant Progress(v, messageCounter - messageIndex, at, messageBytesExpected, done, discardFrame)
      {
        ProgressStep(v, messageCounter - messageIndex, at, messageBytesExpected, done);
        var messageLengthBytes := v.SizeAt(at);
        messageBytesExpected := messageBytesExpected + messageLengthBytes;
        if v.BadAt(at) {
          discardFrame := true;
        }
        var currentlySentBytes := WriteMessage(v.Cut(at, messageLengthBytes), start, done);
        done := done + [v.Cut(at, messageLengthBytes)];
        if currentlySentBytes == 0 {
          spinning := true;
          StoppedShort(start, done, ScanFrame(v).msgs);
          return;
        }
        if messageIndex + 1 < messageCounter {
          at := at + messageLengthBytes;
        } else if messageBytesExpected != messageBytesReceived {
          discardFrame := true;
        }
        messageIndex := messageIndex + 1;
      }
      AllDone(v, messageCounter - messageIndex, at, messageBytesExpected, done, discardFrame);
      if discardFrame {
        ring1.Discard();
      }
    }

    /** One frame, or nothing.  Returns true when the frame would never be finished. */
    method IterateInternal(beyond: Memory) returns (spinning: bool)
      requires ring0.Valid() && ring1.Valid() && Apart()
      requires ring0.Queue != [] ==> |ring0.Queue[0]| <= DATA_BUFFER_SIZE
      requires common.applicationRunFlag && common.connected
      modifies `phase, `sessionIdVal, `sessionIdPrevious, `discardFrame
      modifies common`shutdownReceived, common`sessionId, common`sessionIdReceived, common`sequenceNumber
      modifies ring0`readIndex, ring0`numberOfStoredBytes, ring0`framesStored, ring0`Queue
      modifies ring1, ring1.ptr
      ensures ring0.Valid() && ring1.Valid()
      ensures ring0.Value() == old(ring0.Value()).Read()
      ensures var o := ProcessFrame(old(State()), old(common.Value()), old(ring1.Value()),
                                    View(old(Head(ring0.Value())), beyond));
              && spinning == (o.verdict == Spinning)
              && (!spinning ==> State() == o.parser && common.Value() == o.common && ring1.Value() == o.ring)
    {
      hide Ring.Valid, Holds, AllAccepted, WriteAll, ScanFrame, FromLittleEndian, FromBigEndian;
      spinning := false;
      discardFrame := false;
      var payloadBytesReceived, frame := ring0.Read();
      assert ring1.Valid() && ring1.Value() == old(ring1.Value());
      if payloadBytesReceived >= MIN_FRAME {
        if frame[1] != MESSAGE_FRAME_HEADER {
          discardFrame := true;
        }
        if MessageCount(frame) == 0 {
          discardFrame := true;
        }
        if !discardFrame {
          UpdateParserState(frame);
          if !discardFrame {
            spinning := TakeMessages(View(frame, beyond), MessageCount(frame));
            if !spinning && !discardFrame {
              common.sequenceNumber := SequenceNumber(frame);
            }
          }
        }
      }
    }

    /** Push back when ring 1 is nearly full; otherwise take one frame. */
    method Iterate(beyond: Memory) returns (spinning: bool)
      requires ring0.Valid() && ring1.Valid() && Apart()
      requires ring0.Queue != [] ==> |ring0.Queue[0]| <= DATA_BUFFER_SIZE
      modifies `phase, `sessionIdVal, `sessionIdPrevious, `discardFrame
      modifies common`shutdownReceived, common`sessionId, common`sessionIdReceived, common`sequenceNumber
      modifies ring0`readIndex, ring0`numberOfStoredBytes, ring0`framesStored, ring0`Queue
      modifies ring1, ring1.ptr
      ensures ring0.Valid() && ring1.Valid()
      ensures var s := ParserStep(old(State()), old(common.Value()), old(ring0.Value()), old(ring1.Value()), beyond);
              && spinning == (s.verdict == Spinning)
              && (!spinning ==>
                    && State() == s.parser && common.Value() == s.common
                    && ring0.Value() == s.ring0 && ring1.Value() == s.ring1)
    {
      hide Ring.Valid, Holds, ProcessFrame;
      spinning := false;
      var capacity := ring1.GetCapacity();
      assert ring1.Valid() && ring1.Value() == old(ring1.Value());
      if capacity >= PUSHBACK {
        if common.applicationRunFlag && common.connected {
          spinning := IterateInternal(beyond);
        }
      }
    }

    /** The two rings are different objects with different arrays. */
    ghost predicate Apart() {
      ring0 != ring1 && ring0.ptr != ring1.ptr
    }

    /** One write of the loop: it continues the series of accepted writes, or is refused. */
    method WriteMessage(message: Bytes, ghost start: Ring, ghost done: seq<Bytes>) returns (sent: nat)
      requires ring1.Valid() && ring1.SnapIntact() && ring1.SnapValue() == start
      requires AllAccepted(start, done) && ring1.Value() == WriteAll(start, done)
      requires 0 < |message| <= MAX_DATA
      modifies ring1`writeIndex, ring1`numberOfStoredBytes, ring1`framesStored, ring1`Queue, ring1.ptr
      ensures ring1.Valid() && ring1.SnapIntact() && ring1.SnapValue() == start
      ensures sent == 0 <==> !AllAccepted(start, done + [message])
      ensures sent != 0 ==> ring1.Value() == WriteAll(start, done + [message])
    {
      hide Holds, AllAccepted, WriteAll;
      WriteAllLast(start, done, message);
      sent := ring1.Write(message);
    }
  }

  /** What the loop has done, and how the scan goes on from here. */
  ghost predicate Progress(v: View, left: nat, at: nat, expected: nat, done: seq<Bytes>, discard: bool)
    requires |v.frame| >= FRAME_HEADER && MessageCount(v.frame) > 0
  {
    if discard then ScanFrame(v) == Scanned(done, false)
    else if left == 0 then ScanFrame(v) == Scanned(done, true)
    else
      var rest := Scan(v, left, at, expected);
      ScanFrame(v) == Scanned(done + rest.msgs, rest.ok)
  }

  lemma NoProgress(v: View, start: Ring)
    requires |v.frame| >= FRAME_HEADER && MessageCount(v.frame) > 0 && start.Valid()
    ensures Progress(v, MessageCount(v.frame), FRAME_HEADER, 0, [], false)
    ensures AllAccepted(start, []) && WriteAll(start, []) == start
  {
    assert [] + ScanFrame(v).msgs == ScanFrame(v).msgs;
  }

  lemma ProgressStep(v: View, left: nat, at: nat, expected: nat, done: seq<Bytes>)
    requires |v.frame| >= FRAME_HEADER && MessageCount(v.frame) > 0
    requires left > 0 && Progress(v, left, at, expected, done, false)
    ensures var size := v.SizeAt(at);
            var discard := v.BadAt(at) || (left == 1 && expected + size != |v.frame| - FRAME_HEADER);
            var next := if left == 1 then at else at + size;
            Progress(v, left - 1, next, expected + size, done + [v.Cut(at, size)], discard)
    ensures done + [v.Cut(at, v.SizeAt(at))] <= ScanFrame(v).msgs
    ensures 0 < |v.Cut(at, v.SizeAt(at))| <= MAX_DATA
  {
    hide ScanFrame, MessageCount;
    var msg := v.Cut(at, v.SizeAt(at));
    if !v.BadAt(at) && left > 1 {
      var rest := Scan(v, left - 1, at + |msg|, expected + |msg|);
      assert done + ([msg] + rest.msgs) == done + [msg] + rest.msgs;
    }
  }

  lemma AllDone(v: View, left: nat, at: nat, expected: nat, done: seq<Bytes>, discard: bool)
    requires |v.frame| >= FRAME_HEADER && MessageCount(v.frame) > 0
    requires Progress(v, left, at, expected, done, discard) && (left == 0 || discard)
    ensures ScanFrame(v) == Scanned(done, !discard)
  {}
}
