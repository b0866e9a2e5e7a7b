/** The durable run queue as a transition system: what is on disk, what one process remembers, and every step the
    request threads, the workers, the reconciler, a crash and a restart can take.

    A step is what one holder of the service lock (or one unlocked action of a worker) does before another thread can
    interleave. Recovery and reconciliation are cut into one step per run, so that a crash, and for reconciliation a
    worker taking from the queue, can fall between them. */
module RunMachine {
  import opened Common
  import opened RunLog

  // ----- what is on disk

  datatype Meta = Meta(submission: SubmissionId, manual: bool, createdAt: Time)

  /** `Unreadable` is a file that exists but is not read back: torn by a crash or a failed write, or over the size
      limit of the reader. */
  datatype ResultFile = NoResult | Readable(value: nat) | Unreadable

  datatype DiskRun = DiskRun(meta: Option<Meta>, events: seq<Event>, result: ResultFile, ready: bool)
  {
    function Last(): State
      requires events != []
    {
      events[|events| - 1].state
    }

    predicate CanRead() {
      meta.Some? && events != [] && !result.Unreadable?
    }
  }

  type Disk = map<RunId, DiskRun>

  // ----- what a process remembers

  /** A run as it is served to callers. */
  datatype View = View(meta: Meta, number: nat, state: State, updatedAt: Time, code: Option<Code>, attempts: nat,
                       result: Option<nat>)

  /** Where a worker stands between two of its steps; `Handling` is inside the exception handler. */
  datatype Pc = Taken | Prepared | Executing | Finished | Written | Handling(code: Code)

  datatype Job = Job(run: RunId, pc: Pc)

  /** `covered` records that recovery scanned every run, that is, did not stop at a full queue. */
  datatype Phase =
    | Built
    | Recovering(todo: seq<RunId>)
    | Serving(covered: bool)
    | Reconciling(covered: bool, candidates: seq<RunId>, next: nat, requeued: seq<RunId>)

  datatype Latest = Latest(createdAt: Time, run: RunId)

  datatype Memory =
    | Down
    | Up(enabled: bool, phase: Phase, cache: map<RunId, View>, latest: map<SubmissionId, Latest>, queue: seq<RunId>,
         jobs: map<nat, Job>, dead: set<nat>)

  datatype System = System(disk: Disk, mem: Memory)

  // ----- configuration

  datatype Policy = Policy(retryable: set<Code>, manualRetryable: set<Code>, executionFailed: Code,
                           resultInvalid: Code, newestFirst: bool)

  const JOB_LOST: Code := "JOB_LOST"

  const AGENT_POLICY := Policy(
    {JOB_LOST, "MODEL_UNAVAILABLE"}, {"AGENT_EXECUTION_FAILED", "RESULT_INVALID"},
    "AGENT_EXECUTION_FAILED", "RESULT_RECORD_INVALID", true)

  const PLAGIARISM_POLICY := Policy(
    {JOB_LOST, "PLAGIARISM_EXECUTION_FAILED", "SOURCE_BUNDLE_INVALID"}, {},
    "PLAGIARISM_EXECUTION_FAILED", "PLAGIARISM_RESULT_RECORD_INVALID", false)

  datatype Config = Config(workers: nat, maxQueued: nat, maxAttempts: nat, batch: nat, policy: Policy)
  {
    predicate Valid() {
      maxQueued > 0 && maxAttempts > 0 && batch > 0
    }
  }

  predicate RetryableFailure(policy: Policy, v: View) {
    v.code.Some? && (v.code.value in policy.retryable || (v.meta.manual && v.code.value in policy.manualRetryable))
  }

  /** The `will_retry` flag shown to callers. */
  predicate WillRetry(cfg: Config, v: View) {
    v.state.Failed? && v.attempts < cfg.maxAttempts && RetryableFailure(cfg.policy, v)
  }

  // ----- the cached view

  function ReadRun(run: DiskRun): View
    requires run.CanRead()
  {
    var e := run.events[|run.events| - 1];
    View(run.meta.value, e.number, e.state, e.at, e.code, Attempts(run.events),
         if run.result.Readable? then Some(run.result.value) else None)
  }

  /** Laying a new event over the cached view; an earlier error code survives an event that carries none. */
  function Merge(v: View, e: Event, attempts: nat, result: ResultFile): View {
    v.(number := e.number, state := e.state, updatedAt := e.at, code := if e.code.Some? then e.code else v.code,
       attempts := attempts, result := if result.Readable? then Some(result.value) else v.result)
  }

  predicate Newer(a: Latest, b: Latest) {
    a.createdAt > b.createdAt || (a.createdAt == b.createdAt && a.run > b.run)
  }

  function RememberLatest(latest: map<SubmissionId, Latest>, r: RunId, v: View): map<SubmissionId, Latest> {
    var mine := Latest(v.meta.createdAt, r);
    if v.meta.submission in latest && !Newer(mine, latest[v.meta.submission]) then latest
    else latest[v.meta.submission := mine]
  }

  function Remember(m: Memory, r: RunId, v: View): Memory
    requires m.Up?
  {
    m.(cache := m.cache[r := v], latest := RememberLatest(m.latest, r, v))
  }

  /** Remembering the readable runs of a directory scan, in scan order. */
  function Rebuild(disk: Disk, scan: seq<RunId>, m: Memory): (m': Memory)
    requires m.Up? && forall r | r in scan :: r in disk
    ensures m'.Up? && m' == m.(cache := m'.cache, latest := m'.latest)
  {
    if scan == [] then m
    else
      var before := Rebuild(disk, scan[..|scan| - 1], m);
      var r := scan[|scan| - 1];
      if disk[r].CanRead() then Remember(before, r, ReadRun(disk[r])) else before
  }

  // ----- appending an event

  function NextEvent(run: DiskRun, state: State, at: Time, code: Option<Code>): Event {
    Event(|run.events| + 1, state, at, code)
  }

  function AppendToDisk(run: DiskRun, state: State, at: Time, code: Option<Code>): DiskRun {
    run.(events := run.events + [NextEvent(run, state, at, code)])
  }

  /** The event is durable first. Then a cached view is refreshed, unless the result file cannot be read: that
      raises after the event was written and leaves the view as it was. */
  function Append(s: System, r: RunId, state: State, at: Time, code: Option<Code>): (s': System)
    requires s.mem.Up? && r in s.disk
    ensures s'.mem.Up?
  {
    var run := AppendToDisk(s.disk[r], state, at, code);
    var e := NextEvent(s.disk[r], state, at, code);
    var cache :=
      if r in s.mem.cache && !run.result.Unreadable?
      then s.mem.cache[r := Merge(s.mem.cache[r], e, Attempts(run.events), run.result)]
      else s.mem.cache;
    System(s.disk[r := run], s.mem.(cache := cache))
  }

  predicate AppendRaises(s: System, r: RunId)
    requires s.mem.Up? && r in s.disk
  {
    r in s.mem.cache && s.disk[r].result.Unreadable?
  }

  /** Consulting the persisted result before declaring a run lost or queueing it again. */
  function RecoverPersisted(cfg: Config, s: System, r: RunId, at: Time): System
    requires s.mem.Up? && r in s.disk
  {
    match s.disk[r].result
    case NoResult => s
    case Unreadable => Append(s, r, Failed, at, Some(cfg.policy.resultInvalid))
    case Readable(_) => Append(s, r, Completed, at, None)
  }

  function SetPhase(s: System, p: Phase): System
    requires s.mem.Up?
  {
    s.(mem := s.mem.(phase := p))
  }

  function Put(s: System, r: RunId): System
    requires s.mem.Up?
  {
    s.(mem := s.mem.(queue := s.mem.queue + [r]))
  }

  // ----- recovery, one run at a time

  function RecoverOne(cfg: Config, s: System, at: Time): System
    requires s.mem.Up? && s.mem.phase.Recovering? && s.mem.phase.todo != []
    requires s.mem.phase.todo[0] in s.disk && s.disk[s.mem.phase.todo[0]].events != []
  {
    var r := s.mem.phase.todo[0];
    var rest := SetPhase(s, Recovering(s.mem.phase.todo[1..]));
    var run := s.disk[r];
    if run.Last().Finalizing? && !run.result.NoResult? then RecoverPersisted(cfg, rest, r, at)
    else if Active(run.Last()) then Append(rest, r, Failed, at, Some(JOB_LOST))
    else if run.Last().Queued? && s.mem.enabled then
      if |s.mem.queue| < cfg.maxQueued then Put(rest, r) else SetPhase(s, Serving(false))
    else rest
  }

  // ----- reconciliation, one candidate at a time

  predicate Candidate(cfg: Config, m: Memory, r: RunId)
    requires m.Up?
  {
    r in m.cache && m.cache[r].state.Failed? && RetryableFailure(cfg.policy, m.cache[r])
  }

  /** `a` comes before `b` in the order of a reconciliation pass. */
  predicate Precedes(cfg: Config, m: Memory, a: RunId, b: RunId)
    requires m.Up? && a in m.cache && b in m.cache
  {
    var x, y := m.cache[a].updatedAt, m.cache[b].updatedAt;
    if cfg.policy.newestFirst then x > y || (x == y && a > b) else x < y || (x == y && a < b)
  }

  ghost predicate SortedCandidates(cfg: Config, m: Memory, c: seq<RunId>)
    requires m.Up?
  {
    && (forall i | 0 <= i < |c| :: Candidate(cfg, m, c[i]))
    && (forall r | r in m.cache && Candidate(cfg, m, r) :: r in c)
    && (forall i, j | 0 <= i < j < |c| :: Precedes(cfg, m, c[i], c[j]))
  }

  predicate PassOver(cfg: Config, m: Memory)
    requires m.Up? && m.phase.Reconciling?
  {
    m.phase.next >= |m.phase.candidates| || |m.phase.requeued| >= cfg.batch || |m.queue| >= cfg.maxQueued
  }

  function ReconcileOne(cfg: Config, s: System, at: Time): System
    requires s.mem.Up? && s.mem.phase.Reconciling? && s.mem.phase.next < |s.mem.phase.candidates|
    requires s.mem.phase.candidates[s.mem.phase.next] in s.disk
  {
    var p := s.mem.phase;
    var r := p.candidates[p.next];
    var skipped := SetPhase(s, p.(next := p.next + 1));
    if !s.disk[r].result.NoResult? then RecoverPersisted(cfg, skipped, r, at)
    else if Attempts(s.disk[r].events) >= cfg.maxAttempts then skipped
    else Put(Append(SetPhase(s, p.(next := p.next + 1, requeued := p.requeued + [r])), r, Queued, at, None), r)
  }

  // ----- a worker

  function SetJob(s: System, w: nat, j: Job): System
    requires s.mem.Up?
  {
    s.(mem := s.mem.(jobs := s.mem.jobs[w := j]))
  }

  /** Appending a worker's progress event; when the append raises, the worker is in its exception handler. */
  function Progress(cfg: Config, s: System, w: nat, state: State, pc: Pc, at: Time): System
    requires s.mem.Up? && w in s.mem.jobs && s.mem.jobs[w].run in s.disk
  {
    var r := s.mem.jobs[w].run;
    var next := if AppendRaises(s, r) then Handling(cfg.policy.executionFailed) else pc;
    SetJob(Append(s, r, state, at, None), w, Job(r, next))
  }

  function Release(s: System, w: nat, dies: bool): System
    requires s.mem.Up?
  {
    s.(mem := s.mem.(jobs := s.mem.jobs - {w}, dead := if dies then s.mem.dead + {w} else s.mem.dead))
  }

  /** The last locked step of a run that went well. */
  function Complete(cfg: Config, s: System, w: nat, at: Time): System
    requires s.mem.Up? && w in s.mem.jobs && s.mem.jobs[w].run in s.disk
  {
    var r := s.mem.jobs[w].run;
    var appended := Append(s, r, Completed, at, None);
    if AppendRaises(s, r) then SetJob(appended, w, Job(r, Handling(cfg.policy.executionFailed)))
    else Release(appended, w, false)
  }

  /** The exception handler; an append that raises there ends the worker thread. */
  function Handle(s: System, w: nat, at: Time): System
    requires s.mem.Up? && w in s.mem.jobs && s.mem.jobs[w].pc.Handling? && s.mem.jobs[w].run in s.disk
  {
    var r := s.mem.jobs[w].run;
    Release(Append(s, r, Failed, at, Some(s.mem.jobs[w].pc.code)), w, AppendRaises(s, r))
  }

  /** The create-only write of the result: an existing file is never replaced, the open fails instead. */
  function WriteResult(cfg: Config, s: System, w: nat, file: ResultFile): System
    requires s.mem.Up? && w in s.mem.jobs && s.mem.jobs[w].run in s.disk
  {
    var r := s.mem.jobs[w].run;
    if s.disk[r].result.NoResult? then
      SetJob(s.(disk := s.disk[r := s.disk[r].(result := file)]), w, Job(r, Written))
    else SetJob(s, w, Job(r, Handling(cfg.policy.executionFailed)))
  }

  // ----- steps

  /** How far a creation got when the process died. */
  datatype Stage = DirectoryMade | MetadataWritten | QueuedWritten

  datatype Step =
    | Boot(enabled: bool, scan: seq<RunId>)
    | Start(scan: seq<RunId>)
    | Recover(at: Time)
    | Recovered
    | Create(run: RunId, meta: Meta)
    | Get(run: RunId)
    | Take(worker: nat)
    | Prepare(worker: nat, at: Time)
    | Accept(worker: nat, at: Time)
    | Finish(worker: nat, at: Time)
    | Write(worker: nat, file: ResultFile)
    | TearWrite(worker: nat)
    | CompleteRun(worker: nat, at: Time)
    | Raise(worker: nat, code: Code)
    | HandleFailure(worker: nat, at: Time)
    | BeginPass(candidates: seq<RunId>)
    | Reconcile(at: Time)
    | EndPass
    | Crash
    | CrashInCreate(run: RunId, meta: Meta, stage: Stage)

  function NewRun(meta: Meta, at: Time): DiskRun {
    DiskRun(Some(meta), [Event(1, Queued, at, None)], NoResult, true)
  }

  function TornRun(meta: Meta, stage: Stage): DiskRun {
    match stage
    case DirectoryMade => DiskRun(None, [], NoResult, false)
    case MetadataWritten => DiskRun(Some(meta), [], NoResult, false)
    case QueuedWritten => DiskRun(Some(meta), [Event(1, Queued, meta.createdAt, None)], NoResult, false)
  }

  ghost predicate IsScan(disk: Disk, scan: seq<RunId>) {
    NoDuplicates(scan) && forall r :: r in scan <==> r in disk && disk[r].ready
  }

  predicate LockFree(m: Memory) {
    m.Up? && !m.phase.Reconciling? && !m.phase.Recovering?
  }

  predicate Busy(s: System, w: nat) {
    s.mem.Up? && w in s.mem.jobs && s.mem.jobs[w].run in s.disk
  }

  predicate BusyAt(s: System, w: nat, pc: Pc) {
    Busy(s, w) && s.mem.jobs[w].pc == pc
  }

  /** A worker may raise an exception with `code`: an executor chooses any code, everything else maps to the one
      code of an unexpected failure. Appending the first event of an attempt is taken not to fail. */
  predicate MayRaise(cfg: Config, pc: Pc, code: Code) {
    match pc
    case Executing => true
    case Prepared => code == cfg.policy.executionFailed
    case Finished => code == cfg.policy.executionFailed
    case Written => code == cfg.policy.executionFailed
    case _ => false
  }

  ghost predicate Enabled(cfg: Config, s: System, step: Step) {
    match step
    case Boot(_, scan) => s.mem.Down? && IsScan(s.disk, scan)
    case Start(scan) => s.mem.Up? && s.mem.phase.Built? && IsScan(s.disk, scan)
    case Recover(_) =>
      && s.mem.Up? && s.mem.phase.Recovering? && s.mem.phase.todo != []
      && s.mem.phase.todo[0] in s.disk && s.disk[s.mem.phase.todo[0]].events != []
    case Recovered => s.mem.Up? && s.mem.phase.Recovering? && s.mem.phase.todo == []
    case Create(r, _) =>
      s.mem.Up? && s.mem.phase.Serving? && |s.mem.queue| < cfg.maxQueued && r !in s.disk
    case Get(r) => LockFree(s.mem) && r !in s.mem.cache && r in s.disk && s.disk[r].CanRead()
    case Take(w) =>
      && s.mem.Up? && (s.mem.phase.Serving? || s.mem.phase.Reconciling?) && s.mem.enabled
      && w < cfg.workers && w !in s.mem.jobs && w !in s.mem.dead && s.mem.queue != []
    case Prepare(w, _) => LockFree(s.mem) && BusyAt(s, w, Taken)
    case Accept(w, _) => LockFree(s.mem) && BusyAt(s, w, Prepared)
    case Finish(w, _) => LockFree(s.mem) && BusyAt(s, w, Executing)
    case Write(w, file) => BusyAt(s, w, Finished) && !file.NoResult?
    case TearWrite(w) => BusyAt(s, w, Finished) && s.disk[s.mem.jobs[w].run].result.NoResult?
    case CompleteRun(w, _) => LockFree(s.mem) && BusyAt(s, w, Written)
    case Raise(w, code) => Busy(s, w) && MayRaise(cfg, s.mem.jobs[w].pc, code)
    case HandleFailure(w, _) => LockFree(s.mem) && Busy(s, w) && s.mem.jobs[w].pc.Handling?
    case BeginPass(c) => s.mem.Up? && s.mem.phase.Serving? && s.mem.enabled && SortedCandidates(cfg, s.mem, c)
    case Reconcile(_) =>
      && s.mem.Up? && s.mem.phase.Reconciling? && !PassOver(cfg, s.mem)
      && s.mem.phase.candidates[s.mem.phase.next] in s.disk
    case EndPass => s.mem.Up? && s.mem.phase.Reconciling? && PassOver(cfg, s.mem)
    case Crash => s.mem.Up?
    case CrashInCreate(r, _, _) => s.mem.Up? && s.mem.phase.Serving? && r !in s.disk
  }

  ghost function Apply(cfg: Config, s: System, step: Step): System
    requires Enabled(cfg, s, step)
  {
    match step
    case Boot(enabled, scan) => s.(mem := Rebuild(s.disk, scan, Up(enabled, Built, map[], map[], [], map[], {})))
    case Start(scan) => SetPhase(s, Recovering(scan))
    case Recover(at) => RecoverOne(cfg, s, at)
    case Recovered => SetPhase(s, Serving(true))
    case Create(r, meta) => CreateRun(s, r, meta)
    case Get(r) => s.(mem := Remember(s.mem, r, ReadRun(s.disk[r])))
    case Take(w) => SetJob(s.(mem := s.mem.(queue := s.mem.queue[1..])), w, Job(s.mem.queue[0], Taken))
    case Prepare(w, at) => Progress(cfg, s, w, Preparing, Prepared, at)
    case Accept(w, at) => Progress(cfg, s, w, Running, Executing, at)
    case Finish(w, at) => Progress(cfg, s, w, Finalizing, Finished, at)
    case Write(w, file) => WriteResult(cfg, s, w, file)
    case TearWrite(w) =>
      var r := s.mem.jobs[w].run;
      SetJob(s.(disk := s.disk[r := s.disk[r].(result := Unreadable)]), w, Job(r, Handling(cfg.policy.executionFailed)))
    case CompleteRun(w, at) => Complete(cfg, s, w, at)
    case Raise(w, code) => SetJob(s, w, Job(s.mem.jobs[w].run, Handling(code)))
    case HandleFailure(w, at) => Handle(s, w, at)
    case BeginPass(c) => SetPhase(s, Reconciling(s.mem.phase.covered, c, 0, []))
    case Reconcile(at) => ReconcileOne(cfg, s, at)
    case EndPass => SetPhase(s, Serving(s.mem.phase.covered))
    case Crash => s.(mem := Down)
    case CrashInCreate(r, meta, stage) => System(s.disk[r := TornRun(meta, stage)], Down)
  }

  function CreateRun(s: System, r: RunId, meta: Meta): System
    requires s.mem.Up?
  {
    var run := NewRun(meta, meta.createdAt);
    var known := System(s.disk[r := run], Remember(s.mem, r, ReadRun(run)));
    if s.mem.enabled then Put(known, r) else known
  }

  ghost predicate ValidRun(cfg: Config, s: System, steps: seq<Step>)
    decreases |steps|
  {
    steps == [] || (Enabled(cfg, s, steps[0]) && ValidRun(cfg, Apply(cfg, s, steps[0]), steps[1..]))
  }

  ghost function RunAll(cfg: Config, s: System, steps: seq<Step>): System
    requires ValidRun(cfg, s, steps)
    decreases |steps|
  {
    if steps == [] then s else RunAll(cfg, Apply(cfg, s, steps[0]), steps[1..])
  }

  const INITIAL := System(map[], Down)

  /** `s` is reached from an empty directory by some run of the service, its crashes and its restarts. */
  ghost predicate Reachable(cfg: Config, s: System) {
    exists steps :: ValidRun(cfg, INITIAL, steps) && s == RunAll(cfg, INITIAL, steps)
  }
}
