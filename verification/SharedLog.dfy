/**
 The data section of the shared memory file: a ring of 64-byte lines with one
 writer, which announces lines with the Reserve counter before it touches them
 and publishes them with the Commit counter afterwards, and any reader that
 copies committed lines and then looks at Reserve again.

 The writer is a state machine whose steps are its stores to shared memory, so
 that a reader may run between any two of them.  Stores are sequentially
 consistent and the counters unbounded.
 */
module SharedLog {
  import opened Bytes

  const LINE := 64
  const HEADER := 12
  /** The most lines one record can take: 65535 bytes and the header. */
  const MAX_LINES := 1025

  datatype Job = Job(sequence: nat, payload: Bytes)

  predicate IsJob(job: Job) {
    0 < |job.payload| < 0x1_0000 && job.sequence < 0x1_0000_0000_0000_0000
  }

  datatype Entry = Record(job: Job) | Skip(lines: nat)

  function LinesFor(payload: Bytes): nat {
    (|payload| + HEADER + LINE - 1) / LINE
  }

  function Lines(e: Entry): nat {
    match e
    case Record(job) => LinesFor(job.payload)
    case Skip(lines) => lines
  }

  predicate IsEntry(e: Entry) {
    match e
    case Record(job) => IsJob(job)
    case Skip(lines) => 0 < lines < MAX_LINES
  }

  /** A record takes the least number of lines that covers its header and payload. */
  lemma LinesAreLeast(job: Job)
    requires IsJob(job)
    ensures 64 * (LinesFor(job.payload) - 1) < 12 + |job.payload| <= 64 * LinesFor(job.payload)
    ensures 1 <= LinesFor(job.payload) <= MAX_LINES == 1025
  {}

  /** The bytes the writer stores for an entry, from the start of its first line. */
  function Image(e: Entry): (b: Bytes)
    requires IsEntry(e)
    ensures HEADER <= |b| <= LINE * Lines(e)
  {
    Pow256Values();
    match e
    case Record(job) =>
      LinesAreLeast(job);
      BigEndian(LinesFor(job.payload), 2) + BigEndian(|job.payload|, 2) + BigEndian(job.sequence, 8) + job.payload
    case Skip(lines) =>
      BigEndian(lines, 2) + seq(HEADER - 2, _ => 0)
  }

  // ---------- The writer ----------

  datatype Phase =
    | Idle
    | ReserveSkip
    | StoringSkip(done: nat)
    | ReserveRecord
    | StoringRecord(done: nat)

  /**
   Shared memory (data, commit, reserve), the writer's registers (phase, line,
   remaining, job), and the history: the entries committed so far and the bytes
   their lines held when they were committed.
   */
  datatype Log = Log(
    n: nat, data: Bytes, commit: nat, reserve: nat,
    phase: Phase, line: nat, remaining: nat, job: Job,
    history: seq<Entry>, image: Bytes)

  datatype Step =
    | Begin(job: Job)
    | Reserve
    | Store(count: nat)
    | Commit

  /** Where logical byte b of the log lives in the data section. */
  function Slot(n: nat, b: nat): nat
    requires n > 0
  {
    b % (LINE * n)
  }

  function Overwrite(data: Bytes, at: nat, bytes: Bytes): (d: Bytes)
    requires at + |bytes| <= |data|
    ensures |d| == |data|
  {
    data[..at] + bytes + data[at + |bytes|..]
  }

  /** The entry the writer is storing. */
  function Pending(s: Log): Entry {
    if s.phase.ReserveSkip? || s.phase.StoringSkip? then Skip(s.remaining) else Record(s.job)
  }

  predicate IsLog(s: Log) {
    s.n >= MAX_LINES && |s.data| == LINE * s.n
  }

  /** Which steps the program text allows next. */
  predicate Enabled(s: Log, step: Step) {
    match step
    case Begin(job) => s.phase.Idle? && IsJob(job)
    case Reserve => s.phase.ReserveSkip? || s.phase.ReserveRecord?
    case Store(count) =>
      && (s.phase.StoringSkip? || s.phase.StoringRecord?)
      && IsEntry(Pending(s))
      && count > 0 && s.phase.done + count <= |Image(Pending(s))|
      && LINE * s.line + s.phase.done + count <= |s.data|
    case Commit =>
      && (s.phase.StoringSkip? || s.phase.StoringRecord?)
      && IsEntry(Pending(s))
      && s.phase.done == |Image(Pending(s))|
      && LINE * (s.line + Lines(Pending(s))) <= |s.data|
  }

  function Apply(s: Log, step: Step): Log
    requires IsLog(s) && Enabled(s, step)
  {
    match step
    case Begin(job) =>
      var line := s.commit % s.n;
      var remaining := s.n - line;
      var phase := if LinesFor(job.payload) > remaining then ReserveSkip else ReserveRecord;
      s.(phase := phase, line := line, remaining := remaining, job := job)
    case Reserve =>
      s.(reserve := s.reserve + Lines(Pending(s)),
         phase := if s.phase.ReserveSkip? then StoringSkip(0) else StoringRecord(0))
    case Store(count) =>
      var done := s.phase.done + count;
      s.(data := Overwrite(s.data, LINE * s.line + s.phase.done, Image(Pending(s))[s.phase.done..done]),
         phase := if s.phase.StoringSkip? then StoringSkip(done) else StoringRecord(done))
    case Commit =>
      var lines := Lines(Pending(s));
      s.(commit := s.commit + lines,
         phase := if s.phase.StoringSkip? then ReserveRecord else Idle,
         line := if s.phase.StoringSkip? then 0 else s.line,
         history := s.history + [Pending(s)],
         image := s.image + s.data[LINE * s.line..LINE * (s.line + lines)])
  }

  predicate Initial(s: Log) {
    IsLog(s) && s.commit == s.reserve == 0 && s.phase == Idle && s.history == [] && s.image == []
  }

  // ---------- The writer's invariant ----------

  /** Lines before entry k. */
  function Start(history: seq<Entry>, k: nat): nat
    requires k <= |history|
  {
    if k == 0 then 0 else Start(history, k - 1) + Lines(history[k - 1])
  }

  /** The entry stands at this line of the log, and does not run over the end of the ring. */
  ghost predicate EntryAt(n: nat, image: Bytes, line: nat, e: Entry)
    requires n > 0
  {
    && IsEntry(e)
    && LINE * (line + Lines(e)) <= |image|
    && image[LINE * line..LINE * line + |Image(e)|] == Image(e)
    && WithinLap(n, line, e)
  }

  /** A record never runs over the end of the ring; a skip ends exactly there. */
  predicate WithinLap(n: nat, line: nat, e: Entry)
    requires n > 0
  {
    line % n + Lines(e) <= n && (e.Skip? ==> line % n + Lines(e) == n)
  }

  ghost predicate Laid(n: nat, image: Bytes, history: seq<Entry>)
    requires n > 0
  {
    && |image| == LINE * Start(history, |history|)
    && forall k :: 0 <= k < |history| ==> EntryLaid(n, image, history, k)
  }

  ghost predicate EntryLaid(n: nat, image: Bytes, history: seq<Entry>, k: nat)
    requires n > 0 && k < |history|
  {
    EntryAt(n, image, Start(history, k), history[k])
  }

  /** Every committed line that the writer has not announced to overwrite is as it was committed. */
  ghost predicate Window(s: Log)
    requires IsLog(s)
  {
    |s.image| == LINE * s.commit &&
    forall b :: 0 <= b < LINE * s.commit && LINE * s.reserve <= b + LINE * s.n ==>
      s.data[Slot(s.n, b)] == s.image[b]
  }

  ghost predicate Busy(s: Log)
    requires IsLog(s)
  {
    && IsJob(s.job)
    && IsEntry(Pending(s))
    && s.line == s.commit % s.n
    && s.line + Lines(Pending(s)) <= s.n
    && (Pending(s).Skip? ==> s.line + s.remaining == s.n)
  }

  /** The stored part of the pending entry. */
  ghost predicate Stored(s: Log, done: nat)
    requires IsLog(s) && Busy(s)
  {
    && done <= |Image(Pending(s))|
    && s.data[LINE * s.line..LINE * s.line + done] == Image(Pending(s))[..done]
  }

  ghost predicate Inv(s: Log) {
    && IsLog(s)
    && Window(s)
    && Laid(s.n, s.image, s.history)
    && match s.phase
       case Idle => s.reserve == s.commit
       case ReserveSkip => s.reserve == s.commit && Busy(s)
       case ReserveRecord => s.reserve == s.commit && Busy(s)
       case StoringSkip(done) => Busy(s) && s.reserve == s.commit + Lines(Pending(s)) && Stored(s, done)
       case StoringRecord(done) => Busy(s) && s.reserve == s.commit + Lines(Pending(s)) && Stored(s, done)
  }

  lemma SlotsDiffer(n: nat, a: nat, b: nat)
    requires n > 0 && a < b < a + LINE * n
    ensures Slot(n, a) != Slot(n, b)
  {
    var m := LINE * n;
    MulBound(b / m - a / m, m);
    assert m * (b / m - a / m) == m * (b / m) - m * (a / m);
  }

  lemma MulBound(d: int, m: int)
    requires m >= 0
    ensures d >= 1 ==> m * d >= m
    ensures d <= -1 ==> m * d <= -m
  {
    if d >= 1 {
      assert m * (d - 1) >= 0;
    } else if d <= -1 {
      assert m * (-d - 1) >= 0;
    }
  }

  lemma SlotInLine(n: nat, line: nat, k: nat)
    requires n > 0 && LINE * (line % n) + k < LINE * n
    ensures Slot(n, LINE * line + k) == LINE * (line % n) + k
  {
    var m := LINE * n;
    var q, r := line / n, LINE * (line % n) + k;
    assert line == n * q + line % n;
    assert LINE * line + k == m * q + r;
    ModUnique(m, q, r);
  }

  lemma ModUnique(m: nat, q: nat, r: nat)
    requires r < m
    ensures (m * q + r) % m == r
  {
    var x := m * q + r;
    var d := x / m - q;
    assert x == m * (x / m) + x % m;
    assert m * d == r - x % m;
    MulBound(d, m);
  }

  /** Completing a lap ends at a line that is a multiple of n. */
  lemma LapEnds(n: nat, commit: nat)
    requires n > 0
    ensures (commit + (n - commit % n)) % n == 0
  {
    var q := commit / n + 1;
    assert commit + (n - commit % n) == n * q + 0;
    ModUnique(n, q, 0);
  }

  lemma BeginKeepsInv(s: Log, job: Job)
    requires Inv(s) && Enabled(s, Begin(job))
    ensures Inv(Apply(s, Begin(job)))
  {
    LinesAreLeast(job);
  }

  lemma ReserveKeepsInv(s: Log)
    requires Inv(s) && Enabled(s, Reserve)
    ensures Inv(Apply(s, Reserve))
  {
    var t := Apply(s, Reserve);
    assert t.data[LINE * t.line..LINE * t.line + 0] == Image(Pending(t))[..0];
  }

  /** A store into announced lines leaves every line of the window alone. */
  lemma StoreKeepsWindow(s: Log, count: nat)
    requires Inv(s) && Enabled(s, Store(count))
    ensures Window(Apply(s, Store(count)))
  {
    hide Image, Laid, LinesFor;
    var t := Apply(s, Store(count));
    var from := LINE * s.line + s.phase.done;
    forall b | 0 <= b < LINE * s.commit && LINE * s.reserve <= b + LINE * s.n
      ensures t.data[Slot(s.n, b)] == t.image[b]
    {
      var p := Slot(s.n, b);
      if from <= p < from + count {
        var k := p - LINE * s.line;
        SlotInLine(s.n, s.commit, k);
        SlotsDiffer(s.n, b, LINE * s.commit + k);
        assert false;
      }
    }
  }

  lemma StoreKeepsInv(s: Log, count: nat)
    requires Inv(s) && Enabled(s, Store(count))
    ensures Inv(Apply(s, Store(count)))
  {
    hide Image, Start, LinesFor, EntryAt;
    StoreKeepsWindow(s, count);
    var t := Apply(s, Store(count));
    var e, a := Pending(s), LINE * s.line;
    assert t.data[a..a + s.phase.done] == s.data[a..a + s.phase.done];
    assert t.data[a..a + t.phase.done] == Image(e)[..s.phase.done] + Image(e)[s.phase.done..t.phase.done];
  }

  lemma {:induction false} StartOfPrefix(history: seq<Entry>, e: Entry, k: nat)
    requires k <= |history|
    ensures Start(history + [e], k) == Start(history, k)
  {
    if k > 0 {
      StartOfPrefix(history, e, k - 1);
    }
  }

  lemma {:induction false} StartMonotone(history: seq<Entry>, j: nat, k: nat)
    requires j <= k <= |history|
    ensures Start(history, j) <= Start(history, k)
  {
    if j < k {
      StartMonotone(history, j, k - 1);
    }
  }

  lemma EntryKept(n: nat, image: Bytes, more: Bytes, line: nat, e: Entry)
    requires n > 0 && EntryAt(n, image, line, e)
    ensures EntryAt(n, image + more, line, e)
  {
    hide Image;
    assert (image + more)[LINE * line..LINE * line + |Image(e)|] == image[LINE * line..LINE * line + |Image(e)|];
  }

  /** The lines about to be committed, taken from the data section. */
  function PendingLines(s: Log): Bytes
    requires IsLog(s) && LINE * (s.line + Lines(Pending(s))) <= |s.data|
  {
    s.data[LINE * s.line..LINE * (s.line + Lines(Pending(s)))]
  }

  lemma PendingLaid(s: Log)
    requires Inv(s) && Enabled(s, Commit)
    ensures Apply(s, Commit).image == s.image + PendingLines(s)
    ensures EntryAt(s.n, s.image + PendingLines(s), s.commit, Pending(s))
  {
    hide Image, Laid;
    var e, lines := Pending(s), PendingLines(s);
    assert Image(e)[..|Image(e)|] == Image(e);
    SlicePrefix(s.data, LINE * s.line, LINE * (s.line + Lines(e)), |Image(e)|);
    AtSeam(s.image, lines, |Image(e)|);
  }

  lemma SlicePrefix(a: Bytes, i: nat, j: nat, n: nat)
    requires i + n <= j <= |a|
    ensures a[i..j][..n] == a[i..i + n]
  {}

  lemma AtSeam(a: Bytes, b: Bytes, n: nat)
    requires n <= |b|
    ensures (a + b)[|a|..|a| + n] == b[..n]
  {}

  lemma LaidAppend(n: nat, image: Bytes, history: seq<Entry>, more: Bytes, e: Entry)
    requires n > 0 && Laid(n, image, history)
    requires |more| == LINE * Lines(e)
    requires EntryAt(n, image + more, Start(history, |history|), e)
    ensures Laid(n, image + more, history + [e])
  {
    hide EntryAt, Lines, Image, WithinLap;
    var m := |history|;
    StartOfPrefix(history, e, m);
    forall k | 0 <= k < m + 1
      ensures EntryLaid(n, image + more, history + [e], k)
    {
      StartOfPrefix(history, e, k);
      if k < m {
        assert EntryLaid(n, image, history, k);
        EntryKept(n, image, more, Start(history, k), history[k]);
      }
    }
  }

  lemma CommitKeepsLaid(s: Log)
    requires Inv(s) && Enabled(s, Commit)
    ensures Laid(s.n, Apply(s, Commit).image, Apply(s, Commit).history)
  {
    hide Image, EntryAt;
    PendingLaid(s);
    LaidAppend(s.n, s.image, s.history, PendingLines(s), Pending(s));
  }

  lemma CommitKeepsWindow(s: Log)
    requires Inv(s) && Enabled(s, Commit)
    ensures Window(Apply(s, Commit))
  {
    hide Image, Laid, LinesFor;
    var t := Apply(s, Commit);
    forall b | 0 <= b < LINE * t.commit && LINE * t.reserve <= b + LINE * t.n
      ensures t.data[Slot(t.n, b)] == t.image[b]
    {
      if b >= LINE * s.commit {
        SlotInLine(s.n, s.commit, b - LINE * s.commit);
      } else {
        assert t.image[b] == s.image[b];
      }
    }
  }

  lemma CommitKeepsInv(s: Log)
    requires Inv(s) && Enabled(s, Commit)
    ensures Inv(Apply(s, Commit))
  {
    hide Image, Laid, Window, Start;
    CommitKeepsLaid(s);
    CommitKeepsWindow(s);
    if s.phase.StoringSkip? {
      LapEnds(s.n, s.commit);
      LinesAreLeast(s.job);
    }
  }

  /** The invariant holds in every intermediate state of every append. */
  lemma StepKeepsInv(s: Log, step: Step)
    requires Inv(s) && Enabled(s, step)
    ensures Inv(Apply(s, step))
  {
    match step
    case Begin(job) => BeginKeepsInv(s, job);
    case Reserve => ReserveKeepsInv(s);
    case Store(count) => StoreKeepsInv(s, count);
    case Commit => CommitKeepsInv(s);
  }

  // ---------- A reader, interleaved with the writer ----------

  /**
   A reader takes lines [from, to) below Commit, copies them one byte at a time,
   and keeps the copy only if Reserve has not moved past from + n.
   */
  datatype Reader =
    | Resting
    | Copying(from: nat, to: nat, copy: Bytes)
    | Holding(from: nat, to: nat, copy: Bytes)

  datatype Shared = Shared(log: Log, reader: Reader)

  datatype Action =
    | Write(step: Step)
    | StartCopy(from: nat, to: nat)
    | CopyByte
    | Check

  predicate CanAct(s: Shared, action: Action) {
    && IsLog(s.log)
    && match action
       case Write(step) => Enabled(s.log, step)
       case StartCopy(from, to) => from <= to <= s.log.commit
       case CopyByte => s.reader.Copying? && LINE * s.reader.from + |s.reader.copy| < LINE * s.reader.to
       case Check => s.reader.Copying? && LINE * s.reader.from + |s.reader.copy| == LINE * s.reader.to
  }

  function Act(s: Shared, action: Action): Shared
    requires CanAct(s, action)
  {
    match action
    case Write(step) => s.(log := Apply(s.log, step))
    case StartCopy(from, to) => s.(reader := Copying(from, to, []))
    case CopyByte =>
      var byte := s.log.data[Slot(s.log.n, LINE * s.reader.from + |s.reader.copy|)];
      s.(reader := Copying(s.reader.from, s.reader.to, s.reader.copy + [byte]))
    case Check =>
      s.(reader := if s.log.reserve <= s.reader.from + s.log.n
                   then Holding(s.reader.from, s.reader.to, s.reader.copy)
                   else Resting)
  }

  /** What the reader has copied is right, unless Reserve has already moved too far. */
  ghost predicate ReaderInv(s: Shared)
    requires Inv(s.log)
  {
    match s.reader
    case Resting => true
    case Copying(from, to, copy) =>
      && from <= to <= s.log.commit
      && LINE * from + |copy| <= LINE * to
      && (s.log.reserve <= from + s.log.n ==>
            copy == s.log.image[LINE * from..LINE * from + |copy|])
    case Holding(from, to, copy) =>
      && from <= to <= s.log.commit
      && copy == s.log.image[LINE * from..LINE * to]
  }

  /** Counters only go up; committed bytes and entries are only added to. */
  ghost predicate Grows(s: Log, t: Log) {
    && t.n == s.n
    && s.commit <= t.commit
    && s.reserve <= t.reserve
    && s.image <= t.image
    && s.history <= t.history
  }

  lemma StepGrows(s: Log, step: Step)
    requires IsLog(s) && Enabled(s, step)
    ensures Grows(s, Apply(s, step))
  {
    hide Image;
  }

  lemma GrowsReflexive(s: Log)
    ensures Grows(s, s)
  {}

  lemma GrowsTransitive(s: Log, t: Log, u: Log)
    requires Grows(s, t) && Grows(t, u)
    ensures Grows(s, u)
  {}

  lemma CommitBelowReserve(s: Log)
    requires Inv(s)
    ensures s.commit <= s.reserve
  {
    hide Image, Laid, Window;
  }

  lemma ReaderInvGrows(s: Shared, t: Log)
    requires Inv(s.log) && ReaderInv(s) && Inv(t) && Grows(s.log, t)
    ensures ReaderInv(s.(log := t))
  {
    assert |s.log.image| == LINE * s.log.commit;
    hide Inv;
    assert forall i, j :: 0 <= i <= j <= |s.log.image| ==> t.image[i..j] == s.log.image[i..j];
  }

  lemma WriteKeepsReaderInv(s: Shared, step: Step)
    requires Inv(s.log) && ReaderInv(s) && Enabled(s.log, step)
    ensures Inv(Apply(s.log, step)) && ReaderInv(Act(s, Write(step)))
  {
    StepKeepsInv(s.log, step);
    StepGrows(s.log, step);
    hide Apply, Enabled, Inv, ReaderInv;
    ReaderInvGrows(s, Apply(s.log, step));
  }

  lemma CopyKeepsReaderInv(s: Shared)
    requires Inv(s.log) && ReaderInv(s) && CanAct(s, CopyByte)
    ensures ReaderInv(Act(s, CopyByte))
  {
    hide Image, Laid;
    var r := s.reader;
    var b := LINE * r.from + |r.copy|;
    if s.log.reserve <= r.from + s.log.n {
      assert s.log.data[Slot(s.log.n, b)] == s.log.image[b];
      assert s.log.image[LINE * r.from..b + 1] == s.log.image[LINE * r.from..b] + [s.log.image[b]];
    }
  }

  lemma ActKeepsInv(s: Shared, action: Action)
    requires Inv(s.log) && ReaderInv(s) && CanAct(s, action)
    ensures Inv(Act(s, action).log) && ReaderInv(Act(s, action))
  {
    match action
    case Write(step) => WriteKeepsReaderInv(s, step);
    case StartCopy(from, to) =>
      assert [] == s.log.image[LINE * from..LINE * from + 0];
    case CopyByte => CopyKeepsReaderInv(s);
    case Check =>
  }

  /** A run: any interleaving of writer and reader actions from an initial state. */
  ghost predicate IsRun(states: seq<Shared>, actions: seq<Action>) {
    && |states| == |actions| + 1
    && Initial(states[0].log) && states[0].reader == Resting
    && forall i :: 0 <= i < |actions| ==> CanAct(states[i], actions[i]) && states[i + 1] == Act(states[i], actions[i])
  }

  lemma RunStep(states: seq<Shared>, actions: seq<Action>, i: nat)
    requires IsRun(states, actions) && i < |actions|
    ensures |states| == |actions| + 1
    ensures CanAct(states[i], actions[i]) && states[i + 1] == Act(states[i], actions[i])
  {
    hide CanAct, Act;
  }

  lemma InitialInv(s: Log)
    requires Initial(s)
    ensures Inv(s)
  {}

  lemma {:induction false} RunKeepsInv(states: seq<Shared>, actions: seq<Action>, i: nat)
    requires IsRun(states, actions) && i < |states|
    ensures Inv(states[i].log) && ReaderInv(states[i])
  {
    if i == 0 {
      InitialInv(states[0].log);
    } else {
      RunKeepsInv(states, actions, i - 1);
      RunStep(states, actions, i - 1);
      ActKeepsInv(states[i - 1], actions[i - 1]);
    }
  }

  lemma ActGrows(s: Shared, action: Action)
    requires CanAct(s, action)
    ensures Grows(s.log, Act(s, action).log)
  {
    match action
    case Write(step) => StepGrows(s.log, step);
    case _ =>
  }

  lemma RunKeepsOrder(states: seq<Shared>, actions: seq<Action>, i: nat)
    requires IsRun(states, actions) && i < |states|
    ensures |states| == |actions| + 1
    ensures states[i].log.commit <= states[i].log.reserve
  {
    RunKeepsInv(states, actions, i);
    CommitBelowReserve(states[i].log);
  }

  /** Commit never passes Reserve, and neither ever goes back, in any run. */
  lemma {:induction false} RunGrows(states: seq<Shared>, actions: seq<Action>, i: nat, j: nat)
    requires IsRun(states, actions) && i <= j < |states|
    ensures Grows(states[i].log, states[j].log)
    ensures states[j].log.commit <= states[j].log.reserve
  {
    hide *;
    RunKeepsOrder(states, actions, j);
    if i == j {
      GrowsReflexive(states[i].log);
    } else {
      RunGrows(states, actions, i, j - 1);
      RunStep(states, actions, j - 1);
      ActGrows(states[j - 1], actions[j - 1]);
      GrowsTransitive(states[i].log, states[j - 1].log, states[j].log);
    }
  }

  // ---------- Decoding a copy ----------

  /** The messages among some entries: the skips dropped. */
  function Messages(history: seq<Entry>): seq<Job> {
    if history == [] then [] else MessageOf(history[0]) + Messages(history[1..])
  }

  function MessageOf(e: Entry): seq<Job> {
    if e.Record? then [e.job] else []
  }

  function NumberedOf(e: Entry): seq<Job> {
    if e.Record? && e.job.sequence != 0 then [e.job] else []
  }

  /** The messages with a sequence number other than zero. */
  function Numbered(history: seq<Entry>): seq<Job> {
    if history == [] then [] else NumberedOf(history[0]) + Numbered(history[1..])
  }

  datatype Fields = Fields(lines: nat, bytes: nat, sequence: nat)

  function Decode(copy: Bytes): Fields
    requires |copy| >= HEADER
  {
    Fields(FromBigEndian(copy[0..2]), FromBigEndian(copy[2..4]), FromBigEndian(copy[4..12]))
  }

  predicate IsWhole(copy: Bytes) {
    && |copy| >= HEADER
    && var f := Decode(copy);
       f.lines > 0 && LINE * f.lines <= |copy| && HEADER + f.bytes <= LINE * f.lines
  }

  /** A consumer walks by Total Lines; an entry with no bytes is a skip. */
  function Walk(copy: Bytes): seq<Job>
    decreases |copy|
  {
    if !IsWhole(copy) then [] else
      var f := Decode(copy);
      (if f.bytes == 0 then [] else [Job(f.sequence, copy[HEADER..HEADER + f.bytes])]) + Walk(copy[LINE * f.lines..])
  }

  /** A consumer that follows the writer's remark and takes a zero sequence number for a skip. */
  function WalkBySequence(copy: Bytes): seq<Job>
    decreases |copy|
  {
    if !IsWhole(copy) then [] else
      var f := Decode(copy);
      (if f.sequence == 0 then [] else [Job(f.sequence, copy[HEADER..HEADER + f.bytes])])
      + WalkBySequence(copy[LINE * f.lines..])
  }

  /** The header fields of an entry decode to what was stored. */
  lemma ImageDecodes(e: Entry)
    requires IsEntry(e)
    ensures FromBigEndian(Image(e)[0..2]) == Lines(e)
    ensures e.Record? ==> FromBigEndian(Image(e)[2..4]) == |e.job.payload|
    ensures e.Record? ==> FromBigEndian(Image(e)[4..12]) == e.job.sequence
    ensures e.Record? ==> Image(e)[HEADER..] == e.job.payload
    ensures e.Skip? ==> FromBigEndian(Image(e)[2..4]) == 0 && FromBigEndian(Image(e)[4..12]) == 0
  {
    Pow256Values();
    match e
    case Record(job) =>
      LinesAreLeast(job);
      BigEndianInverse(LinesFor(job.payload), 2);
      BigEndianInverse(|job.payload|, 2);
      BigEndianInverse(job.sequence, 8);
      assert Image(e)[0..2] == BigEndian(LinesFor(job.payload), 2);
      assert Image(e)[2..4] == BigEndian(|job.payload|, 2);
      assert Image(e)[4..12] == BigEndian(job.sequence, 8);
    case Skip(lines) =>
      BigEndianInverse(lines, 2);
      assert Image(e)[0..2] == BigEndian(lines, 2);
      ZeroDecodes(Image(e)[2..4]);
      ZeroDecodes(Image(e)[4..12]);
  }

  lemma {:induction false} ZeroDecodes(b: Bytes)
    requires forall k :: 0 <= k < |b| ==> b[k] == 0
    ensures FromBigEndian(b) == 0
  {
    if b != [] {
      ZeroDecodes(b[..|b| - 1]);
    }
  }

  /** The committed bytes of the lines of entries i to j - 1. */
  function Span(image: Bytes, history: seq<Entry>, i: nat, j: nat): Bytes
    requires i <= j <= |history|
    requires Start(history, i) <= Start(history, j) && LINE * Start(history, j) <= |image|
  {
    image[LINE * Start(history, i)..LINE * Start(history, j)]
  }

  lemma {:induction false} StartInPrefix(history: seq<Entry>, j: nat, k: nat)
    requires k <= j <= |history|
    ensures Start(history[..j], k) == Start(history, k)
  {
    if k > 0 {
      StartInPrefix(history, j, k - 1);
    }
  }

  /** What is laid out stays laid out up to any record boundary. */
  lemma LaidPrefix(n: nat, image: Bytes, history: seq<Entry>, j: nat)
    requires n > 0 && Laid(n, image, history) && j <= |history|
    ensures LINE * Start(history, j) <= |image|
    ensures Laid(n, image[..LINE * Start(history, j)], history[..j])
  {
    hide Image, WithinLap;
    StartMonotone(history, j, |history|);
    StartInPrefix(history, j, j);
    var cut := image[..LINE * Start(history, j)];
    forall k | 0 <= k < j
      ensures EntryLaid(n, cut, history[..j], k)
    {
      assert EntryLaid(n, image, history, k);
      StartInPrefix(history, j, k);
      StartMonotone(history, k + 1, j);
      var line, e := Start(history, k), history[k];
      assert cut[LINE * line..LINE * line + |Image(e)|] == image[LINE * line..LINE * line + |Image(e)|];
    }
  }

  /** The lines from entry k on, to the end. */
  function Tail(image: Bytes, history: seq<Entry>, k: nat): Bytes
    requires k <= |history| && LINE * Start(history, k) <= |image|
  {
    image[LINE * Start(history, k)..]
  }

  lemma TailExists(n: nat, image: Bytes, history: seq<Entry>, k: nat)
    requires n > 0 && Laid(n, image, history) && k <= |history|
    ensures LINE * Start(history, k) <= |image|
    ensures k == |history| ==> Tail(image, history, k) == []
  {
    StartMonotone(history, k, |history|);
  }

  /** The lines from entry k on begin with its image and go on with those of the next entry. */
  lemma TailStep(n: nat, image: Bytes, history: seq<Entry>, k: nat)
    requires n > 0 && Laid(n, image, history) && k < |history|
    ensures LINE * Start(history, k) <= LINE * Start(history, k + 1) <= |image|
    ensures var copy := Tail(image, history, k);
            && IsEntry(history[k]) && |Image(history[k])| <= |copy|
            && copy[..|Image(history[k])|] == Image(history[k])
            && LINE * Lines(history[k]) <= |copy|
            && copy[LINE * Lines(history[k])..] == Tail(image, history, k + 1)
  {
    hide Image, WithinLap;
    StartMonotone(history, k + 1, |history|);
    assert EntryLaid(n, image, history, k);
  }

  lemma MessagesAt(history: seq<Entry>, k: nat)
    requires k < |history|
    ensures Messages(history[k..]) == MessageOf(history[k]) + Messages(history[k + 1..])
    ensures Numbered(history[k..]) == NumberedOf(history[k]) + Numbered(history[k + 1..])
  {
    assert history[k..][1..] == history[k + 1..];
  }

  lemma WalkEnd(copy: Bytes, history: seq<Entry>)
    requires copy == [] && history == []
    ensures Walk(copy) == Messages(history) && WalkBySequence(copy) == Numbered(history)
  {}

  lemma {:induction false} WalkSuffix(n: nat, image: Bytes, history: seq<Entry>, k: nat)
    requires n > 0 && Laid(n, image, history) && k <= |history|
    ensures LINE * Start(history, k) <= |image|
    ensures Walk(Tail(image, history, k)) == Messages(history[k..])
    decreases |history| - k
  {
    hide *;
    TailExists(n, image, history, k);
    if k == |history| {
      WalkEnd(Tail(image, history, k), history[k..]);
    } else {
      TailStep(n, image, history, k);
      WalkSuffix(n, image, history, k + 1);
      WalkHead(Tail(image, history, k), history[k]);
      MessagesAt(history, k);
    }
  }

  lemma {:induction false} WalkBySequenceSuffix(n: nat, image: Bytes, history: seq<Entry>, k: nat)
    requires n > 0 && Laid(n, image, history) && k <= |history|
    ensures LINE * Start(history, k) <= |image|
    ensures WalkBySequence(Tail(image, history, k)) == Numbered(history[k..])
    decreases |history| - k
  {
    hide *;
    TailExists(n, image, history, k);
    if k == |history| {
      WalkEnd(Tail(image, history, k), history[k..]);
    } else {
      TailStep(n, image, history, k);
      WalkBySequenceSuffix(n, image, history, k + 1);
      WalkBySequenceHead(Tail(image, history, k), history[k]);
      MessagesAt(history, k);
    }
  }

  /** Walking the committed lines of entries i to j - 1 yields their messages, in order, skips dropped. */
  lemma WalkRoundTrip(n: nat, image: Bytes, history: seq<Entry>, i: nat, j: nat)
    requires n > 0 && Laid(n, image, history) && i <= j <= |history|
    ensures Start(history, i) <= Start(history, j) && LINE * Start(history, j) <= |image|
    ensures Walk(Span(image, history, i, j)) == Messages(history[i..j])
    ensures WalkBySequence(Span(image, history, i, j)) == Numbered(history[i..j])
  {
    StartMonotone(history, i, j);
    LaidPrefix(n, image, history, j);
    hide Laid, Walk, WalkBySequence, Messages, Numbered;
    StartInPrefix(history, j, i);
    var cut := image[..LINE * Start(history, j)];
    WalkSuffix(n, cut, history[..j], i);
    WalkBySequenceSuffix(n, cut, history[..j], i);
    assert Tail(cut, history[..j], i) == Span(image, history, i, j);
    assert history[..j][i..] == history[i..j];
  }

  lemma {:induction false} NumberedIff(history: seq<Entry>)
    ensures |Numbered(history)| <= |Messages(history)|
    ensures Numbered(history) == Messages(history) <==>
            forall e :: e in history && e.Record? ==> e.job.sequence != 0
  {
    if history != [] {
      var head, rest := history[0], history[1..];
      NumberedIff(rest);
      assert forall e :: e in history <==> e == head || e in rest;
      if head.Record? && head.job.sequence == 0 {
        assert Numbered(history) == Numbered(rest) && |Messages(history)| == 1 + |Messages(rest)|;
      } else if head.Record? {
        assert Numbered(history) == [head.job] + Numbered(rest) && Messages(history) == [head.job] + Messages(rest);
        assert Numbered(history)[1..] == Numbered(rest) && Messages(history)[1..] == Messages(rest);
      } else {
        assert Numbered(history) == Numbered(rest) && Messages(history) == Messages(rest);
      }
    }
  }

  /**
   The writer's remark that all valid messages have a nonzero sequence number is
   not enforced: the consumer that relies on it sees every message exactly when
   no message was stamped with zero.
   */
  lemma WalkBySequenceIff(n: nat, image: Bytes, history: seq<Entry>, i: nat, j: nat)
    requires n > 0 && Laid(n, image, history) && i <= j <= |history|
    ensures Start(history, i) <= Start(history, j) && LINE * Start(history, j) <= |image|
    ensures WalkBySequence(Span(image, history, i, j)) == Messages(history[i..j])
            <==> forall e :: e in history[i..j] && e.Record? ==> e.job.sequence != 0
  {
    WalkRoundTrip(n, image, history, i, j);
    NumberedIff(history[i..j]);
  }

  lemma WalkHead(copy: Bytes, e: Entry)
    requires IsEntry(e) && |Image(e)| <= |copy| && copy[..|Image(e)|] == Image(e)
    requires LINE * Lines(e) <= |copy|
    ensures Walk(copy) == MessageOf(e) + Walk(copy[LINE * Lines(e)..])
  {
    hide Image, Decode;
    HeaderFields(copy, e);
  }

  lemma WalkBySequenceHead(copy: Bytes, e: Entry)
    requires IsEntry(e) && |Image(e)| <= |copy| && copy[..|Image(e)|] == Image(e)
    requires LINE * Lines(e) <= |copy|
    ensures WalkBySequence(copy) == NumberedOf(e) + WalkBySequence(copy[LINE * Lines(e)..])
  {
    hide Image, Decode;
    HeaderFields(copy, e);
  }

  lemma HeaderFields(copy: Bytes, e: Entry)
    requires IsEntry(e) && |Image(e)| <= |copy| && copy[..|Image(e)|] == Image(e)
    ensures Decode(copy) == match e
                            case Record(job) => Fields(Lines(e), |job.payload|, job.sequence)
                            case Skip(lines) => Fields(lines, 0, 0)
    ensures 0 < Lines(e)
    ensures e.Record? ==>
      && HEADER + |e.job.payload| <= LINE * Lines(e)
      && HEADER + |e.job.payload| <= |copy|
      && copy[HEADER..HEADER + |e.job.payload|] == e.job.payload
  {
    ImageDecodes(e);
    assert copy[0..2] == copy[..|Image(e)|][0..2];
    assert copy[2..4] == copy[..|Image(e)|][2..4];
    assert copy[4..12] == copy[..|Image(e)|][4..12];
    if e.Record? {
      LinesAreLeast(e.job);
      assert |Image(e)| == HEADER + |e.job.payload|;
      assert copy[HEADER..HEADER + |e.job.payload|] == copy[..|Image(e)|][HEADER..];
    }
  }

  /**
   Safe optimistic reads: in every run, whatever the interleaving, a copy that
   passed the check holds the committed bytes, and a copy between two record
   boundaries decodes to exactly the messages appended between them.
   */
  lemma HeldCopyIsCommitted(states: seq<Shared>, actions: seq<Action>, t: nat)
    requires IsRun(states, actions) && t < |states| && states[t].reader.Holding?
    ensures var log, r := states[t].log, states[t].reader;
            && r.from <= r.to && LINE * r.to <= |log.image|
            && r.copy == log.image[LINE * r.from..LINE * r.to]
            && forall i, j | 0 <= i <= j <= |log.history| &&
                  r.from == Start(log.history, i) && r.to == Start(log.history, j) ::
                  Walk(r.copy) == Messages(log.history[i..j])
  {
    RunKeepsInv(states, actions, t);
    var log, r := states[t].log, states[t].reader;
    forall i, j | 0 <= i <= j <= |log.history| &&
        r.from == Start(log.history, i) && r.to == Start(log.history, j)
      ensures Walk(r.copy) == Messages(log.history[i..j])
    {
      WalkRoundTrip(log.n, log.image, log.history, i, j);
    }
  }

  // ---------- What a run appends ----------

  /** The messages whose append was begun, in order. */
  function Begun(actions: seq<Action>): seq<Job> {
    if actions == [] then [] else
      var last := actions[|actions| - 1];
      Begun(actions[..|actions| - 1]) + if last.Write? && last.step.Begin? then [last.step.job] else []
  }

  /** The message of the append in progress. */
  function InProgress(s: Log): seq<Job> {
    if s.phase.Idle? then [] else [s.job]
  }

  lemma {:induction false} MessagesAppend(history: seq<Entry>, e: Entry)
    ensures Messages(history + [e]) == Messages(history) + MessageOf(e)
  {
    var all := history + [e];
    if history == [] {
      assert all[1..] == [];
    } else {
      assert all[1..] == history[1..] + [e];
      MessagesAppend(history[1..], e);
    }
  }

  lemma {:induction false} MessagesConcat(a: seq<Entry>, b: seq<Entry>)
    ensures Messages(a + b) == Messages(a) + Messages(b)
  {
    if a == [] {
      assert a + b == b;
    } else {
      assert (a + b)[1..] == a[1..] + b;
      MessagesConcat(a[1..], b);
    }
  }

  lemma MessagesPrefix(a: seq<Entry>, all: seq<Entry>)
    requires a <= all
    ensures Messages(a) <= Messages(all)
  {
    hide Messages;
    assert all == a + all[|a|..];
    MessagesConcat(a, all[|a|..]);
  }

  /** The messages between two entries are a slice of all the messages. */
  lemma MessagesSlice(history: seq<Entry>, i: nat, j: nat)
    requires i <= j <= |history|
    ensures |Messages(history[..i])| <= |Messages(history[..j])| <= |Messages(history)|
    ensures Messages(history[i..j]) == Messages(history)[|Messages(history[..i])|..|Messages(history[..j])|]
  {
    hide Messages;
    assert history == history[..j] + history[j..];
    assert history[..j] == history[..i] + history[i..j];
    MessagesConcat(history[..j], history[j..]);
    MessagesConcat(history[..i], history[i..j]);
  }

  lemma NoMessages()
    ensures Messages([]) == []
  {}

  lemma StepAppends(s: Log, step: Step)
    requires IsLog(s) && Enabled(s, step)
    ensures Messages(Apply(s, step).history) + InProgress(Apply(s, step)) ==
            Messages(s.history) + InProgress(s) + if step.Begin? then [step.job] else []
  {
    hide Image, Messages;
    if step.Commit? {
      MessagesAppend(s.history, Pending(s));
    }
  }

  lemma ActAppends(s: Shared, action: Action)
    requires CanAct(s, action)
    ensures Messages(Act(s, action).log.history) + InProgress(Act(s, action).log) ==
            Messages(s.log.history) + InProgress(s.log)
            + if action.Write? && action.step.Begin? then [action.step.job] else []
  {
    hide Messages, InProgress, Apply, Enabled;
    match action
    case Write(step) => StepAppends(s.log, step);
    case _ =>
  }

  /** In every run the log holds the begun messages, in order, less the one in progress. */
  lemma {:induction false} RunAppends(states: seq<Shared>, actions: seq<Action>, i: nat)
    requires IsRun(states, actions) && i < |states|
    ensures Begun(actions[..i]) == Messages(states[i].log.history) + InProgress(states[i].log)
  {
    hide Messages, Act, CanAct;
    if i == 0 {
      NoMessages();
    } else {
      RunAppends(states, actions, i - 1);
      RunStep(states, actions, i - 1);
      ActAppends(states[i - 1], actions[i - 1]);
      assert actions[..i][..i - 1] == actions[..i - 1];
    }
  }
}
