/**
 InserterImplementation: takes one message from the ring, publishes flags and
 session id when they change, and appends the message to the shared log.
 HandleSharedMemoryFrames is proved to be a run of the atomic steps of
 SharedLog, in the order in which the program text performs its stores.
 */
module Inserter {
  import opened Bytes
  import opened CommonData
  import R = RingQueue
  import opened RingFifoBuffer
  import opened SharedLog

  const CONNECTED := 0x01
  const IN_SESSION := 0x02
  const SHUTDOWN := 0x04

  function Flags(c: Common): nat {
    if c.shutdownReceived then CONNECTED + SHUTDOWN else CONNECTED + IN_SESSION
  }

  /** What the control block of shared memory tells readers, and what the inserter remembers of it. */
  datatype Published = Published(flagsPrevious: nat, flags: nat, sessionId: nat)

  /** Flags and session id go out together, and only when the flags have changed. */
  function Publish(p: Published, c: Common): Published {
    if p.flagsPrevious != Flags(c) then Published(Flags(c), Flags(c), c.sessionId) else p
  }

  /** A ring record without its 2-byte length field; nothing when there is no more than that. */
  function Payload(record: Bytes): Bytes {
    if |record| > 2 then record[2..] else []
  }

  /** The entries that appending a message adds to the log. */
  function Appended(n: nat, commit: nat, job: Job): seq<Entry>
    requires n > 0
  {
    var remaining := n - commit % n;
    (if LinesFor(job.payload) > remaining then [Skip(remaining)] else []) + [Record(job)]
  }

  /** Announce the lines, store their number, clear the other header bytes, publish. */
  function SkipSteps(): seq<Step> {
    [Reserve] + [Store(2)] + seq(HEADER - 2, _ => Store(1)) + [Commit]
  }

  /** The steps of one append, in program order. */
  function AppendSteps(n: nat, commit: nat, job: Job): seq<Step>
    requires n > 0
  {
    [Begin(job)]
    + (if LinesFor(job.payload) > n - commit % n then SkipSteps() else [])
    + RecordSteps(job.payload)
  }

  /** Announce the lines, store three header fields and every byte of the payload, publish. */
  function RecordSteps(payload: Bytes): seq<Step> {
    [Reserve] + [Store(2), Store(2), Store(8)] + seq(|payload|, _ => Store(1)) + [Commit]
  }

  /** A writer run: every state follows from the one before by an enabled step. */
  ghost predicate IsWriterRun(trace: seq<Log>, steps: seq<Step>) {
    && |trace| == |steps| + 1
    && forall i :: 0 <= i < |steps| ==> IsWriterStep(trace[i], steps[i], trace[i + 1])
  }

  ghost predicate IsWriterStep(s: Log, step: Step, t: Log) {
    IsLog(s) && Enabled(s, step) && t == Apply(s, step)
  }

  lemma ExtendRun(trace: seq<Log>, steps: seq<Step>, s: Log, step: Step, t: Log)
    requires IsWriterRun(trace, steps) && trace[|steps|] == s && IsWriterStep(s, step, t)
    ensures IsWriterRun(trace + [t], steps + [step])
  {
    hide IsWriterStep;
    var more, all := trace + [t], steps + [step];
    forall i | 0 <= i < |all|
      ensures IsWriterStep(more[i], all[i], more[i + 1])
    {
      if i < |steps| {
        assert IsWriterStep(trace[i], steps[i], trace[i + 1]);
      }
    }
  }

  /** The writer's steps in a run of writer and reader. */
  function Writes(actions: seq<Action>): seq<Step> {
    if actions == [] then [] else
      Writes(actions[..|actions| - 1]) +
      if actions[|actions| - 1].Write? then [actions[|actions| - 1].step] else []
  }

  lemma {:induction false} WritesPrefix(actions: seq<Action>, i: nat)
    requires i <= |actions|
    ensures Writes(actions[..i]) <= Writes(actions)
    decreases |actions|
  {
    if i < |actions| {
      WritesPrefix(actions[..|actions| - 1], i);
      assert actions[..|actions| - 1][..i] == actions[..i];
    } else {
      assert actions[..i] == actions;
    }
  }

  /**
   A reader may run between any two stores: however its actions are interleaved
   with the steps of a writer run, shared memory goes through the states of that
   run, so that what SharedLog proves of readers holds for readers of this writer.
   */
  lemma {:induction false} InterleavingFollowsRun(trace: seq<Log>, steps: seq<Step>,
                                                  states: seq<Shared>, actions: seq<Action>, i: nat)
    requires IsWriterRun(trace, steps) && IsRun(states, actions) && i <= |actions|
    requires states[0].log == trace[0] && Writes(actions) <= steps
    ensures |Writes(actions[..i])| <= |steps|
    ensures states[i].log == trace[|Writes(actions[..i])|]
  {
    hide IsLog, Enabled, Apply;
    WritesPrefix(actions, i);
    if i > 0 {
      InterleavingFollowsRun(trace, steps, states, actions, i - 1);
      assert actions[..i][..i - 1] == actions[..i - 1];
      RunStep(states, actions, i - 1);
      var k := |Writes(actions[..i - 1])|;
      if actions[i - 1].Write? {
        assert Writes(actions[..i])[k] == actions[i - 1].step == steps[k];
        assert IsWriterStep(trace[k], steps[k], trace[k + 1]);
      }
    }
  }

  /** Along a writer run nothing committed is taken back. */
  lemma {:induction false} WriterGrows(trace: seq<Log>, steps: seq<Step>, k: nat)
    requires IsWriterRun(trace, steps) && k <= |steps|
    ensures Grows(trace[k], trace[|steps|])
    decreases |steps| - k
  {
    hide IsLog, Enabled, Apply, Grows;
    if k == |steps| {
      GrowsReflexive(trace[k]);
    } else {
      assert IsWriterStep(trace[k], steps[k], trace[k + 1]);
      StepGrows(trace[k], steps[k]);
      WriterGrows(trace, steps, k + 1);
      GrowsTransitive(trace[k], trace[k + 1], trace[|steps|]);
    }
  }

  class Inserter {
    const common: CommonData
    const ring: RingFifoBuffer
    const n: nat
    const data: array<Byte>
    // Shared memory.
    var sharedCommit: nat
    var sharedReserve: nat
    var sharedFlags: nat
    var sharedSessionId: nat
    // Fields of the inserter.
    var commitSequenceValue: nat
    var reserveSequenceValue: nat
    var currentCacheLine: nat
    var cacheLinesRemaining: nat
    var writerFlagsPrevious: nat
    // Ghost: the step machine's phase and job, the history, and every step ever taken.
    ghost var Phase: Phase
    ghost var Job: Job
    ghost var History: seq<Entry>
    ghost var Image: Bytes
    ghost var Trace: seq<Log>
    ghost var Steps: seq<Step>
    // The session id that shared memory shows when each message is committed.
    ghost var PublishedAt: seq<nat>

    ghost function Value(): Log
      reads `sharedCommit, `sharedReserve, `Phase, `currentCacheLine, `cacheLinesRemaining, `Job, `History, `Image, data
    {
      Log(n, data[..], sharedCommit, sharedReserve, Phase, currentCacheLine, cacheLinesRemaining, Job, History, Image)
    }

    ghost function Publication(): Published
      reads `writerFlagsPrevious, `sharedFlags, `sharedSessionId
    {
      Published(writerFlagsPrevious, sharedFlags, sharedSessionId)
    }

    /** The object is where its recorded run of atomic steps has led. */
    ghost predicate Recorded()
      reads `sharedCommit, `sharedReserve, `Phase, `currentCacheLine, `cacheLinesRemaining, `Job, `History, `Image, data
      reads `commitSequenceValue, `reserveSequenceValue, `Trace, `Steps
    {
      && IsWriterRun(Trace, Steps)
      && Initial(Trace[0])
      && Trace[|Steps|] == Value()
      && Inv(Value())
      && commitSequenceValue == sharedCommit
      && reserveSequenceValue == sharedReserve
    }

    ghost predicate Valid()
      reads `sharedCommit, `sharedReserve, `Phase, `currentCacheLine, `cacheLinesRemaining, `Job, `History, `Image, data
      reads `commitSequenceValue, `reserveSequenceValue, `Trace, `Steps
    {
      Recorded() && Phase.Idle?
    }

    constructor (common: CommonData, ring: RingFifoBuffer, n: nat)
      requires n >= MAX_LINES
      ensures Valid() && History == [] && PublishedAt == []
      ensures this.common == common && this.ring == ring && this.n == n
      ensures Publication() == Published(0, 0, 0)
      ensures fresh(data)
    {
      this.common, this.ring, this.n := common, ring, n;
      data := new Byte[LINE * n](_ => 0);
      sharedCommit, sharedReserve, sharedFlags, sharedSessionId := 0, 0, 0, 0;
      commitSequenceValue, reserveSequenceValue, currentCacheLine, cacheLinesRemaining := 0, 0, 0, 0;
      writerFlagsPrevious := 0;
      Phase, Job, History, Image := Idle, SharedLog.Job(0, []), [], [];
      new;
      InitialInv(Value());
      Trace, Steps := [Value()], [];
      PublishedAt := [];
    }

    /** Record one step that the fields have just taken. */
    ghost method Record(s: Log, step: Step)
      requires IsWriterRun(Trace, Steps) && Initial(Trace[0]) && Trace[|Steps|] == s && Inv(s)
      requires IsWriterStep(s, step, Value())
      modifies `Trace, `Steps
      ensures IsWriterRun(Trace, Steps) && Initial(Trace[0]) && Trace[|Steps|] == Value()
      ensures Inv(Value())
      ensures Steps == old(Steps) + [step] && old(Trace) <= Trace
    {
      hide Initial, Inv, IsLog, Enabled, Apply;
      StepKeepsInv(s, step);
      ExtendRun(Trace, Steps, s, step, Value());
      Trace, Steps := Trace + [Value()], Steps + [step];
    }

    lemma CanStore(count: nat)
      requires Recorded() && IsStoring(Phase) && IsEntry(Pending(Value()))
      requires 0 < count && Phase.done + count <= |SharedLog.Image(Pending(Value()))|
      ensures Enabled(Value(), Store(count))
    {
      hide Window, Laid, Initial, IsWriterRun;
      RoomToStore(Value());
    }

    lemma CanCommit()
      requires Recorded() && IsStoring(Phase) && IsEntry(Pending(Value()))
      requires Phase.done == |SharedLog.Image(Pending(Value()))|
      ensures Enabled(Value(), Commit)
    {
      hide Window, Laid, Initial, IsWriterRun;
      RoomToStore(Value());
    }

    /** What the writer is about to store is an entry. */
    lemma PendingIsEntry()
      requires Recorded() && !Phase.Idle?
      ensures IsEntry(Pending(Value()))
    {
      hide Window, Laid, Initial, IsWriterRun;
    }

    /** Announce lines: add to the local counter, then store it in shared memory. */
    method PublishReserve(lines: nat)
      requires Recorded() && (Phase.ReserveSkip? || Phase.ReserveRecord?) && lines == Lines(Pending(Value()))
      modifies `reserveSequenceValue, `sharedReserve, `Phase, `Trace, `Steps
      ensures Recorded() && Steps == old(Steps) + [Reserve] && old(Trace) <= Trace
      ensures Phase == if old(Phase).ReserveSkip? then StoringSkip(0) else StoringRecord(0)
    {
      hide Window, Laid, Initial, IsWriterRun, SharedLog.Image;
      ghost var s := Value();
      reserveSequenceValue := reserveSequenceValue + lines;
      sharedReserve := reserveSequenceValue;
      Phase := if Phase.ReserveSkip? then StoringSkip(0) else StoringRecord(0);
      Record(s, Reserve);
    }

    /** Publish lines; after a skip the current line is the first one. */
    method PublishCommit(lines: nat, skip: bool)
      requires Recorded() && IsStoring(Phase) && Enabled(Value(), Commit) && lines == Lines(Pending(Value()))
      requires skip == Phase.StoringSkip?
      modifies `commitSequenceValue, `sharedCommit, `currentCacheLine, `Phase, `History, `Image, `Trace, `Steps
      ensures Recorded() && Steps == old(Steps) + [Commit] && old(Trace) <= Trace
      ensures Phase == if skip then ReserveRecord else Idle
      ensures currentCacheLine == if skip then 0 else old(currentCacheLine)
      ensures History == old(History) + [old(Pending(Value()))]
    {
      hide Window, Laid, Initial, IsWriterRun, SharedLog.Image;
      ghost var s := Value();
      commitSequenceValue := commitSequenceValue + lines;
      sharedCommit := commitSequenceValue;
      Image := Image + s.data[LINE * s.line..LINE * (s.line + lines)];
      History := History + [Pending(s)];
      Phase := if skip then ReserveRecord else Idle;
      if skip {
        currentCacheLine := 0;
      }
      Record(s, Commit);
    }

    /** One store into the announced lines: the next bytes of the pending entry. */
    method StoreAt(at: nat, bytes: Bytes)
      requires Recorded() && IsStoring(Phase) && Enabled(Value(), Store(|bytes|))
      requires at == LINE * currentCacheLine + Phase.done
      requires bytes == SharedLog.Image(Pending(Value()))[Phase.done..Phase.done + |bytes|]
      modifies data, `Phase, `Trace, `Steps
      ensures Recorded() && Steps == old(Steps) + [Store(|bytes|)] && old(Trace) <= Trace
      ensures Phase == if old(Phase).StoringSkip? then StoringSkip(old(Phase.done) + |bytes|)
                       else StoringRecord(old(Phase.done) + |bytes|)
    {
      hide SharedLog.Image, Window, Laid, Initial, IsWriterRun, Overwrite, Busy, Stored;
      ghost var s := Value();
      StoreBytes(at, bytes);
      Phase := if Phase.StoringSkip? then StoringSkip(Phase.done + |bytes|) else StoringRecord(Phase.done + |bytes|);
      Record(s, Store(|bytes|));
    }

    method StoreBytes(at: nat, bytes: Bytes)
      requires at + |bytes| <= data.Length
      modifies data
      ensures data[..] == Overwrite(old(data[..]), at, bytes)
    {
      forall k | 0 <= k < |bytes| { data[at + k] := bytes[k]; }
    }

    /** Where the next entry goes, and how many lines the lap still has. */
    method Begin(ghost job: Job)
      requires Recorded() && Phase.Idle? && IsJob(job)
      modifies `currentCacheLine, `cacheLinesRemaining, `Phase, `Job, `Trace, `Steps
      ensures Recorded() && Steps == old(Steps) + [SharedLog.Begin(job)] && old(Trace) <= Trace
      ensures n > 0 && currentCacheLine == sharedCommit % n && cacheLinesRemaining == n - currentCacheLine
      ensures Job == job
      ensures Phase == if LinesFor(job.payload) > cacheLinesRemaining then ReserveSkip else ReserveRecord
    {
      hide SharedLog.Image, Window, Laid, Initial, IsWriterRun;
      ghost var s := Value();
      currentCacheLine := commitSequenceValue % n;
      cacheLinesRemaining := n - currentCacheLine;
      Job := job;
      Phase := if LinesFor(job.payload) > cacheLinesRemaining then ReserveSkip else ReserveRecord;
      Record(s, SharedLog.Begin(job));
    }

    /** The bytes of the header behind the number of lines, one by one. */
    method ClearHeader()
      requires Recorded() && Phase == StoringSkip(2) && 0 < cacheLinesRemaining < MAX_LINES
      modifies `Phase, `Trace, `Steps, data
      ensures Recorded() && Phase == StoringSkip(HEADER)
      ensures Steps == old(Steps) + seq(HEADER - 2, _ => Store(1)) && old(Trace) <= Trace
    {
      hide SharedLog.Image, Recorded, Enabled, BigEndian, Pow256;
      SkipImage(cacheLinesRemaining);
      var at := LINE * currentCacheLine;
      var k := 2;
      while k < HEADER
        invariant 2 <= k <= HEADER
        invariant Recorded() && Phase == StoringSkip(k)
        invariant Steps == old(Steps) + seq(k - 2, _ => Store(1)) && old(Trace) <= Trace
      {
        CanStore(1);
        assert SharedLog.Image(Pending(Value()))[k..k + 1] == [0];
        StoreAt(at + k, [0]);
        k := k + 1;
      }
    }

    /** The skip section: its lines, and zeros for its bytes and its sequence number. */
    method WriteSkip()
      requires Recorded() && Phase.ReserveSkip?
      modifies `reserveSequenceValue, `sharedReserve, `commitSequenceValue, `sharedCommit, `currentCacheLine
      modifies `Phase, `History, `Image, `Trace, `Steps, data
      ensures Recorded() && Phase.ReserveRecord? && Steps == old(Steps) + SkipSteps() && old(Trace) <= Trace
      ensures History == old(History) + [Skip(cacheLinesRemaining)]
      ensures currentCacheLine == 0 && cacheLinesRemaining < MAX_LINES
    {
      hide SharedLog.Image, Recorded, Enabled, BigEndian, Pow256;
      PendingIsEntry();
      SkipImage(cacheLinesRemaining);
      PublishReserve(cacheLinesRemaining);
      CanStore(2);
      StoreAt(LINE * currentCacheLine, BigEndian(cacheLinesRemaining, 2));
      ClearHeader();
      CanCommit();
      PublishCommit(cacheLinesRemaining, true);
    }

    /** The three header fields, each in one store. */
    method WriteHeader(payload: Bytes, sequence: nat, totalLines: nat)
      requires Recorded() && Phase == StoringRecord(0) && IsJob(Job)
      requires Job == SharedLog.Job(sequence, payload) && totalLines == LinesFor(payload)
      modifies `Phase, `Trace, `Steps, data
      ensures Recorded() && Phase == StoringRecord(HEADER)
      ensures Steps == old(Steps) + [Store(2), Store(2), Store(8)] && old(Trace) <= Trace
    {
      hide SharedLog.Image, Recorded, Enabled, BigEndian, Pow256;
      RecordImage(Job);
      var at := LINE * currentCacheLine;
      CanStore(2);
      StoreAt(at, BigEndian(totalLines, 2));
      CanStore(2);
      StoreAt(at + 2, BigEndian(|payload|, 2));
      CanStore(8);
      StoreAt(at + 4, BigEndian(sequence, 8));
    }

    /** The payload, byte by byte. */
    method CopyPayload(payload: Bytes)
      requires Recorded() && Phase == StoringRecord(HEADER) && IsJob(Job) && Job.payload == payload
      modifies `Phase, `Trace, `Steps, data
      ensures Recorded() && Phase == StoringRecord(HEADER + |payload|)
      ensures Steps == old(Steps) + seq(|payload|, _ => Store(1)) && old(Trace) <= Trace
    {
      hide SharedLog.Image, Recorded, Enabled, BigEndian, Pow256;
      RecordImage(Job);
      var at := LINE * currentCacheLine + HEADER;
      var k := 0;
      while k < |payload|
        invariant 0 <= k <= |payload|
        invariant Recorded() && Phase == StoringRecord(HEADER + k)
        invariant Steps == old(Steps) + seq(k, _ => Store(1)) && old(Trace) <= Trace
      {
        CanStore(1);
        StoreAt(at + k, [payload[k]]);
        k := k + 1;
      }
    }

    /** Reserve, store and commit the pending message. */
    method WriteRecord(payload: Bytes, sequence: nat, totalLines: nat)
      requires Recorded() && Phase.ReserveRecord? && IsJob(Job)
      requires Job == SharedLog.Job(sequence, payload) && totalLines == LinesFor(payload)
      modifies `reserveSequenceValue, `sharedReserve, `commitSequenceValue, `sharedCommit, `currentCacheLine
      modifies `Phase, `History, `Image, `Trace, `Steps, data
      ensures Valid() && currentCacheLine == old(currentCacheLine)
      ensures Steps == old(Steps) + RecordSteps(payload) && old(Trace) <= Trace
      ensures History == old(History) + [SharedLog.Record(Job)]
    {
      hide SharedLog.Image, Recorded, Enabled, BigEndian, Pow256;
      RecordImage(Job);
      PublishReserve(totalLines);
      WriteHeader(payload, sequence, totalLines);
      CopyPayload(payload);
      CanCommit();
      PublishCommit(totalLines, false);
    }

    /**
     Append one message.  All of its stores are in the recorded run, in program
     order; what it adds to the history is the message, after a skip when the
     lines left in the lap are too few.  Only without a skip do the registers
     afterwards add up to n.
     */
    method HandleSharedMemoryFrames(payload: Bytes, sequence: nat)
      requires Valid()
      requires |payload| < 0x1_0000 && sequence < 0x1_0000_0000_0000_0000
      modifies `reserveSequenceValue, `sharedReserve, `commitSequenceValue, `sharedCommit
      modifies `currentCacheLine, `cacheLinesRemaining, `Phase, `Job, `History, `Image, `Trace, `Steps, `PublishedAt
      modifies data
      ensures Valid() && n > 0
      ensures PublishedAt == old(PublishedAt) + if payload == [] then [] else [sharedSessionId]
      ensures Steps == old(Steps) +
              if payload == [] then [] else AppendSteps(n, old(sharedCommit), SharedLog.Job(sequence, payload))
      ensures old(Trace) <= Trace
      ensures History == old(History) +
              if payload == [] then [] else Appended(n, old(sharedCommit), SharedLog.Job(sequence, payload))
      ensures payload != [] ==>
              (currentCacheLine + cacheLinesRemaining == n <==>
               LinesFor(payload) <= n - old(sharedCommit) % n)
    {
      hide SharedLog.Image, Recorded, Enabled, BigEndian, Pow256, RecordSteps, SkipSteps;
      SizeIsPositive();
      if |payload| > 0 {
        Begin(SharedLog.Job(sequence, payload));
        var totalLines := (|payload| + 2 + 2 + 8 + LINE - 1) / LINE;
        if totalLines > cacheLinesRemaining {
          WriteSkip();
        }
        PublishedAt := PublishedAt + [sharedSessionId];
        ghost var begun := Trace;
        assert old(Trace) <= begun;
        WriteRecord(payload, sequence, totalLines);
        assert old(Trace) <= Trace;
      }
    }

    /** Flags and session id go to shared memory only when the flags have changed. */
    method UpdateWriterFlags()
      modifies `writerFlagsPrevious, `sharedFlags, `sharedSessionId
      ensures Publication() == Publish(old(Publication()), common.Value())
      ensures writerFlagsPrevious == if common.shutdownReceived then 5 else 3
    {
      var writerFlags := if common.shutdownReceived then CONNECTED + SHUTDOWN else CONNECTED + IN_SESSION;
      if writerFlagsPrevious != writerFlags {
        writerFlagsPrevious := writerFlags;
        sharedFlags := writerFlags;
        sharedSessionId := common.sessionId;
      }
    }

    /** Take one record from the ring, publish, and append; in this order. */
    method Iterate()
      requires Valid() && ring.Valid() && ring.ptr != data
      requires ring.Queue != [] ==> |ring.Queue[0]| <= DATA_BUFFER_SIZE
      requires common.sequenceNumber < 0x1_0000_0000_0000_0000
      modifies this, data
      modifies ring`readIndex, ring`numberOfStoredBytes, ring`framesStored, ring`Queue
      ensures Valid() && ring.Valid() && n > 0
      ensures ring.Value() == old(ring.Value()).Read()
      ensures Publication() == Publish(old(Publication()), common.Value())
      ensures old(Steps) <= Steps && old(Trace) <= Trace
      ensures var payload := if old(ring.Queue) == [] then [] else Payload(old(ring.Queue)[0]);
              && History == old(History) + (if payload == [] then [] else
                   Appended(n, old(sharedCommit), SharedLog.Job(common.sequenceNumber, payload)))
              && PublishedAt == old(PublishedAt) + (if payload == [] then [] else
                   [Publish(old(Publication()), common.Value()).sessionId])
    {
      hide Recorded, AppendSteps, Appended, R.Ring.Valid, Holds;
      var numberOfPayloadBytes, received := ring.Read();
      var payload := [];
      if numberOfPayloadBytes > 2 {
        payload := received[2..];
      }
      UpdateWriterFlags();
      HandleSharedMemoryFrames(payload, common.sequenceNumber);
    }

    /** The commit counter is the number of lines of the history. */
    lemma CommitIsStart()
      requires Recorded()
      ensures sharedCommit == Start(History, |History|)
    {
      hide Initial, IsWriterRun;
    }

    lemma SizeIsPositive()
      requires Recorded()
      ensures n >= MAX_LINES
    {}
  }

  predicate IsStoring(phase: Phase) {
    phase.StoringSkip? || phase.StoringRecord?
  }

  /** While it stores, the writer stays inside its announced lines. */
  lemma RoomToStore(s: Log)
    requires Inv(s) && IsStoring(s.phase)
    ensures IsEntry(Pending(s))
    ensures |SharedLog.Image(Pending(s))| <= LINE * Lines(Pending(s))
    ensures LINE * (s.line + Lines(Pending(s))) <= |s.data|
  {
    hide Window, Laid;
  }

  lemma SkipImage(lines: nat)
    requires 0 < lines < MAX_LINES
    ensures lines < Pow256(2)
    ensures var image := SharedLog.Image(Skip(lines));
            && |image| == HEADER
            && image[0..2] == BigEndian(lines, 2)
            && forall k :: 2 <= k < 12 ==> image[k] == 0
  {
    Pow256Values();
  }

  lemma RecordImage(job: Job)
    requires IsJob(job)
    ensures LinesFor(job.payload) < Pow256(2) && |job.payload| < Pow256(2) && job.sequence < Pow256(8)
    ensures var image := SharedLog.Image(SharedLog.Record(job));
            && |image| == HEADER + |job.payload|
            && image[0..2] == BigEndian(LinesFor(job.payload), 2)
            && image[2..4] == BigEndian(|job.payload|, 2)
            && image[4..12] == BigEndian(job.sequence, 8)
            && forall k :: 0 <= k < |job.payload| ==> image[12 + k..13 + k] == [job.payload[k]]
  {
    hide BigEndian, Pow256;
    Pow256Values();
    LinesAreLeast(job);
  }
}
