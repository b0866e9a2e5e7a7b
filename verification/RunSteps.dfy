/** Every step keeps the invariant, so every reachable state has it. */
module RunSteps {
  import opened Common
  import opened RunLog
  import opened RunMachine
  import opened RunInvariant

  // ----- the latest-run index

  lemma RememberKeepsLatest(cache: map<RunId, View>, latest: map<SubmissionId, Latest>, r: RunId, v: View)
    requires LatestOk(cache, latest)
    requires r in cache ==> cache[r].meta == v.meta
    ensures LatestOk(cache[r := v], RememberLatest(latest, r, v))
  {
    var cache', latest' := cache[r := v], RememberLatest(latest, r, v);
    forall s | s in latest'
      ensures IsLatest(cache', s, latest'[s])
    {
      if s in latest {
        assert IsLatest(cache, s, latest[s]);
      } else {
        assert forall q | q in cache :: cache[q].meta.submission != s;
      }
    }
  }

  /** Scanning the directory remembers exactly the readable runs it sees, each as it reads now. */
  lemma {:induction false} RebuildRemembers(disk: Disk, scan: seq<RunId>, m: Memory)
    requires m.Up? && m.cache == map[] && m.latest == map[]
    requires forall r | r in scan :: r in disk
    ensures var m' := Rebuild(disk, scan, m);
            && (forall r :: r in m'.cache <==> r in scan && disk[r].CanRead())
            && (forall r | r in m'.cache :: m'.cache[r] == ReadRun(disk[r]))
            && LatestOk(m'.cache, m'.latest)
  {
    if scan != [] {
      var n := |scan| - 1;
      RebuildRemembers(disk, scan[..n], m);
      assert forall r :: r in scan <==> r in scan[..n] || r == scan[n];
      var before, r := Rebuild(disk, scan[..n], m), scan[n];
      if disk[r].CanRead() {
        RememberKeepsLatest(before.cache, before.latest, r, ReadRun(disk[r]));
      }
    }
  }

  // ----- what a change to one run leaves alone

  ghost predicate OnlyChanges(disk: Disk, disk': Disk, r: RunId) {
    forall q | q != r :: (q in disk <==> q in disk') && (q in disk ==> disk'[q] == disk[q])
  }

  lemma QueueFrame(cfg: Config, disk: Disk, disk': Disk, m: Memory, m': Memory, r: RunId)
    requires m.Up? && m'.Up? && QueueOk(cfg, disk, m)
    requires m'.queue == m.queue && r !in m.queue && OnlyChanges(disk, disk', r)
    ensures QueueOk(cfg, disk', m')
  {
    forall q | q in m.queue
      ensures Queueable(disk', q)
    {
      assert Queueable(disk, q);
    }
  }

  lemma OtherJobsFrame(disk: Disk, disk': Disk, m: Memory, w: nat, v: nat)
    requires m.Up? && w in m.jobs && v in m.jobs && v != w
    requires PcOk(disk, m.jobs[v]) && m.jobs[v].run != m.jobs[w].run
    requires OnlyChanges(disk, disk', m.jobs[w].run)
    ensures PcOk(disk', m.jobs[v])
  {
  }

  ghost predicate SameOtherJobs(m: Memory, m': Memory, w: nat)
    requires m.Up? && m'.Up?
  {
    forall v | v in m.jobs && v != w :: v in m'.jobs && m'.jobs[v] == m.jobs[v]
  }

  lemma JobsFrame(cfg: Config, disk: Disk, disk': Disk, m: Memory, m': Memory, w: nat)
    requires m.Up? && m'.Up? && JobsOk(cfg, disk, m) && w in m.jobs
    requires m'.queue == m.queue && m'.enabled == m.enabled && m'.cache.Keys == m.cache.Keys
    requires OnlyChanges(disk, disk', m.jobs[w].run) && SameOtherJobs(m, m', w)
    requires m'.jobs.Keys == m.jobs.Keys && m'.jobs[w].run == m.jobs[w].run && m'.dead == m.dead
    requires PcOk(disk', m'.jobs[w])
    ensures JobsOk(cfg, disk', m')
  {
    forall v | v in m'.jobs && v != w
      ensures PcOk(disk', m'.jobs[v])
    {
      OtherJobsFrame(disk, disk', m, w, v);
    }
    assert forall v | v in m'.jobs :: m'.jobs[v].run == m.jobs[v].run;
  }

  lemma ReleasedJobsFrame(cfg: Config, disk: Disk, disk': Disk, m: Memory, m': Memory, w: nat)
    requires m.Up? && m'.Up? && JobsOk(cfg, disk, m) && w in m.jobs
    requires m'.queue == m.queue && m'.enabled == m.enabled && m'.cache.Keys == m.cache.Keys
    requires OnlyChanges(disk, disk', m.jobs[w].run) && SameOtherJobs(m, m', w)
    requires m'.jobs.Keys == m.jobs.Keys - {w} && m'.dead <= m.dead + {w}
    ensures JobsOk(cfg, disk', m')
  {
    forall v | v in m'.jobs
      ensures PcOk(disk', m'.jobs[v])
    {
      OtherJobsFrame(disk, disk', m, w, v);
    }
    assert forall v | v in m'.jobs :: m'.jobs[v] == m.jobs[v];
  }

  lemma CoversFrame(disk: Disk, disk': Disk, m: Memory, m': Memory, except: seq<RunId>, except': seq<RunId>, r: RunId)
    requires m.Up? && m'.Up? && Covers(disk, m, except) && OnlyChanges(disk, disk', r)
    requires m'.enabled == m.enabled && forall q | q != r :: q in m.queue ==> q in m'.queue
    requires forall q | q != r && HeldByWorker(m.jobs, q) :: HeldByWorker(m'.jobs, q)
    requires forall q | q != r && q in except :: q in except'
    requires IsLive(disk', r) ==>
               || HeldByWorker(m'.jobs, r)
               || (r in m'.queue && !Active(disk'[r].Last()))
               || !((disk'[r].Last().Queued? && m.enabled) || Active(disk'[r].Last()))
    ensures Covers(disk', m', except')
  {
    forall q | IsLive(disk', q) && q !in except' && q != r
      ensures IsLive(disk, q) && disk'[q] == disk[q] && q !in except
    {
    }
  }

  lemma PassFrame(cfg: Config, m: Memory, m': Memory)
    requires m.Up? && m'.Up? && m.phase.Reconciling? && PassOk(cfg, m)
    requires m'.phase == m.phase && m'.enabled == m.enabled && m'.cache == m.cache
    ensures PassOk(cfg, m')
  {
    forall i | m.phase.next <= i < |m.phase.candidates|
      ensures Candidate(cfg, m', m.phase.candidates[i])
    {
      assert Candidate(cfg, m, m.phase.candidates[i]);
    }
  }

  /** A worker's step touches its own run and its own slot, and leaves everything else as it was. */
  ghost predicate WorkerFrame(s: System, s': System, w: nat)
    requires s.mem.Up? && w in s.mem.jobs
  {
    && s'.mem.Up?
    && OnlyChanges(s.disk, s'.disk, s.mem.jobs[w].run)
    && s'.mem.phase == s.mem.phase && s'.mem.enabled == s.mem.enabled && s'.mem.queue == s.mem.queue
    && s'.mem.cache.Keys == s.mem.cache.Keys
    && (s.mem.phase.Reconciling? ==> s'.mem.cache == s.mem.cache)
    && SameOtherJobs(s.mem, s'.mem, w)
  }

  ghost predicate RunAndCacheOk(cfg: Config, s: System) {
    s.mem.Up? && DiskOk(cfg, s.disk) && CacheOk(s.disk, s.mem.cache) && LatestOk(s.mem.cache, s.mem.latest)
  }

  lemma WorkerPhaseFrame(cfg: Config, s: System, s': System, w: nat)
    requires cfg.Valid() && s.mem.Up? && PhaseOk(cfg, s.disk, s.mem) && w in s.mem.jobs && WorkerFrame(s, s', w)
    requires IsLive(s'.disk, s.mem.jobs[w].run)
    requires || (w in s'.mem.jobs && s'.mem.jobs[w].run == s.mem.jobs[w].run)
             || !(s'.disk[s.mem.jobs[w].run].Last().Queued? || Active(s'.disk[s.mem.jobs[w].run].Last()))
    ensures PhaseOk(cfg, s'.disk, s'.mem)
  {
    var r := s.mem.jobs[w].run;
    forall q | q != r && HeldByWorker(s.mem.jobs, q)
      ensures HeldByWorker(s'.mem.jobs, q)
    {
      var v :| v in s.mem.jobs && s.mem.jobs[v].run == q;
      assert v in s'.mem.jobs && s'.mem.jobs[v].run == q;
    }
    if (s.mem.phase.Serving? || s.mem.phase.Reconciling?) && s.mem.phase.covered {
      CoversFrame(s.disk, s'.disk, s.mem, s'.mem, [], [], r);
    }
    if s.mem.phase.Reconciling? {
      PassFrame(cfg, s.mem, s'.mem);
    }
  }

  /** A worker's step that keeps its run. */
  lemma HoldingKeeps(cfg: Config, s: System, s': System, w: nat)
    requires Inv(cfg, s) && s.mem.Up? && w in s.mem.jobs && WorkerFrame(s, s', w) && RunAndCacheOk(cfg, s')
    requires s'.mem.jobs.Keys == s.mem.jobs.Keys && s'.mem.jobs[w].run == s.mem.jobs[w].run
    requires PcOk(s'.disk, s'.mem.jobs[w]) && s'.mem.dead == s.mem.dead
    ensures Inv(cfg, s')
  {
    var r := s.mem.jobs[w].run;
    QueueFrame(cfg, s.disk, s'.disk, s.mem, s'.mem, r);
    JobsFrame(cfg, s.disk, s'.disk, s.mem, s'.mem, w);
    WorkerPhaseFrame(cfg, s, s', w);
  }

  lemma ReleasingKeepsQueueAndJobs(cfg: Config, s: System, s': System, w: nat)
    requires s.mem.Up? && QueueOk(cfg, s.disk, s.mem) && JobsOk(cfg, s.disk, s.mem) && w in s.mem.jobs
    requires WorkerFrame(s, s', w)
    requires s'.mem.jobs.Keys == s.mem.jobs.Keys - {w} && s'.mem.dead <= s.mem.dead + {w}
    ensures QueueOk(cfg, s'.disk, s'.mem) && JobsOk(cfg, s'.disk, s'.mem)
  {
    QueueFrame(cfg, s.disk, s'.disk, s.mem, s'.mem, s.mem.jobs[w].run);
    ReleasedJobsFrame(cfg, s.disk, s'.disk, s.mem, s'.mem, w);
  }

  lemma ReleasingKeepsPhase(cfg: Config, s: System, s': System, w: nat)
    requires cfg.Valid() && s.mem.Up? && PhaseOk(cfg, s.disk, s.mem) && w in s.mem.jobs && WorkerFrame(s, s', w)
    requires IsLive(s'.disk, s.mem.jobs[w].run)
    requires var last := s'.disk[s.mem.jobs[w].run].Last(); last.Completed? || last.Failed?
    ensures PhaseOk(cfg, s'.disk, s'.mem)
  {
    WorkerPhaseFrame(cfg, s, s', w);
  }

  /** A worker's step that lets a run go which is neither queued nor active. */
  lemma ReleasingKeeps(cfg: Config, s: System, s': System, w: nat)
    requires Inv(cfg, s) && s.mem.Up? && w in s.mem.jobs && WorkerFrame(s, s', w) && RunAndCacheOk(cfg, s')
    requires s'.mem.jobs.Keys == s.mem.jobs.Keys - {w} && s'.mem.dead <= s.mem.dead + {w}
    requires IsLive(s'.disk, s.mem.jobs[w].run)
    requires var last := s'.disk[s.mem.jobs[w].run].Last(); last.Completed? || last.Failed?
    ensures Inv(cfg, s')
  {
    ReleasingKeepsQueueAndJobs(cfg, s, s', w);
    ReleasingKeepsPhase(cfg, s, s', w);
  }

  /** The durable and cached side of one append. */
  lemma AppendKeeps(cfg: Config, s: System, r: RunId, state: State, at: Time, code: Option<Code>)
    requires RunAndCacheOk(cfg, s) && r in s.disk && MayAppend(cfg, s.disk[r], state, code)
    ensures var s' := Append(s, r, state, at, code);
            && RunAndCacheOk(cfg, s') && IsLive(s'.disk, r) && s'.disk[r].Last() == state
            && s'.disk[r] == AppendToDisk(s.disk[r], state, at, code)
            && OnlyChanges(s.disk, s'.disk, r)
  {
    AppendKeepsDisk(cfg, s, r, state, at, code);
    AppendKeepsCache(s, r, state, at, code);
    AppendKeepsLatest(s, r, state, at, code);
  }

  // ----- starting up

  lemma RebuildCovers(disk: Disk, scan: seq<RunId>, m: Memory)
    requires m.Up? && m.cache == map[] && m.latest == map[] && IsScan(disk, scan)
    requires forall r | r in disk && disk[r].ready :: disk[r].meta.Some? && disk[r].events != []
    ensures var m' := Rebuild(disk, scan, m); CacheOk(disk, m'.cache) && LatestOk(m'.cache, m'.latest)
  {
    RebuildRemembers(disk, scan, m);
    var m' := Rebuild(disk, scan, m);
    forall r | r in m'.cache
      ensures ViewOk(m'.cache[r], disk[r])
    {
      assert r in scan;
    }
  }

  lemma BootKeeps(cfg: Config, s: System, enabled: bool, scan: seq<RunId>)
    requires Inv(cfg, s) && Enabled(cfg, s, Boot(enabled, scan))
    ensures Inv(cfg, Apply(cfg, s, Boot(enabled, scan)))
  {
    forall r | r in s.disk && s.disk[r].ready
      ensures s.disk[r].meta.Some? && s.disk[r].events != []
    {
      assert RunOk(cfg, s.disk[r]);
    }
    RebuildCovers(s.disk, scan, Up(enabled, Built, map[], map[], [], map[], {}));
  }

  lemma StartKeeps(cfg: Config, s: System, scan: seq<RunId>)
    requires Inv(cfg, s) && Enabled(cfg, s, Start(scan))
    ensures Inv(cfg, Apply(cfg, s, Start(scan)))
  {
    forall r | IsLive(s.disk, r)
      ensures r in scan
    {
      assert s.disk[r].ready;
    }
  }

  /** What recovery does to a run that was active when the process died. */
  function Verdict(cfg: Config, run: DiskRun): (v: (State, Option<Code>))
    requires run.events != []
  {
    if run.Last().Finalizing? && run.result.Readable? then (Completed, None)
    else if run.Last().Finalizing? && run.result.Unreadable? then (Failed, Some(cfg.policy.resultInvalid))
    else (Failed, Some(JOB_LOST))
  }

  lemma RecoverActiveIsAppend(cfg: Config, s: System, at: Time)
    requires Enabled(cfg, s, Recover(at)) && Active(s.disk[s.mem.phase.todo[0]].Last())
    ensures var r := s.mem.phase.todo[0];
            var v := Verdict(cfg, s.disk[r]);
            RecoverOne(cfg, s, at) == SetPhase(Append(s, r, v.0, at, v.1), Recovering(s.mem.phase.todo[1..]))
  {
  }

  lemma TodoShrinks(todo: seq<RunId>)
    requires todo != [] && NoDuplicates(todo)
    ensures NoDuplicates(todo[1..]) && todo[0] !in todo[1..]
    ensures forall q :: q in todo <==> q == todo[0] || q in todo[1..]
  {
  }

  lemma VerdictMayAppend(cfg: Config, run: DiskRun)
    requires RunOk(cfg, run) && run.ready && Active(run.Last())
    ensures var v := Verdict(cfg, run); MayAppend(cfg, run, v.0, v.1) && (v.0.Completed? || v.0.Failed?)
  {
  }

  lemma RecoverActiveKeeps(cfg: Config, s: System, at: Time)
    requires Inv(cfg, s) && Enabled(cfg, s, Recover(at)) && Active(s.disk[s.mem.phase.todo[0]].Last())
    ensures Inv(cfg, RecoverOne(cfg, s, at))
  {
    var todo := s.mem.phase.todo;
    var r := todo[0];
    var v := Verdict(cfg, s.disk[r]);
    assert IsLive(s.disk, r) && RunOk(cfg, s.disk[r]);
    VerdictMayAppend(cfg, s.disk[r]);
    AppendKeeps(cfg, s, r, v.0, at, v.1);
    RecoverActiveIsAppend(cfg, s, at);
    RecoverActiveRest(cfg, s, RecoverOne(cfg, s, at));
  }

  lemma RecoverActiveRest(cfg: Config, s: System, s': System)
    requires Inv(cfg, s) && s.mem.Up? && s.mem.phase.Recovering? && s.mem.phase.todo != [] && RunAndCacheOk(cfg, s')
    requires s'.mem ==
             s.mem.(cache := s'.mem.cache, latest := s'.mem.latest, phase := Recovering(s.mem.phase.todo[1..]))
    requires OnlyChanges(s.disk, s'.disk, s.mem.phase.todo[0]) && IsLive(s'.disk, s.mem.phase.todo[0])
    requires var last := s'.disk[s.mem.phase.todo[0]].Last(); last.Completed? || last.Failed?
    ensures Inv(cfg, s')
  {
    var todo := s.mem.phase.todo;
    TodoShrinks(todo);
    QueueFrame(cfg, s.disk, s'.disk, s.mem, s'.mem, todo[0]);
    CoversFrame(s.disk, s'.disk, s.mem, s'.mem, todo, todo[1..], todo[0]);
  }

  lemma RecoverQueuedKeeps(cfg: Config, s: System, at: Time)
    requires Inv(cfg, s) && Enabled(cfg, s, Recover(at)) && |s.mem.queue| < cfg.maxQueued && s.mem.enabled
    requires s.disk[s.mem.phase.todo[0]].Last().Queued?
    ensures Inv(cfg, RecoverOne(cfg, s, at))
  {
    var todo := s.mem.phase.todo;
    var s' := RecoverOne(cfg, s, at);
    TodoShrinks(todo);
    assert IsLive(s.disk, todo[0]);
    PutFrame(cfg, s.disk, s.disk, s.mem, s'.mem, todo[0]);
    CoversFrame(s.disk, s.disk, s.mem, s'.mem, todo, todo[1..], todo[0]);
  }

  lemma RecoverRestKeeps(cfg: Config, s: System, at: Time)
    requires Inv(cfg, s) && Enabled(cfg, s, Recover(at)) && !Active(s.disk[s.mem.phase.todo[0]].Last())
    requires s.disk[s.mem.phase.todo[0]].Last().Queued? && s.mem.enabled ==> |s.mem.queue| >= cfg.maxQueued
    ensures Inv(cfg, RecoverOne(cfg, s, at))
  {
    var todo := s.mem.phase.todo;
    TodoShrinks(todo);
    if !(s.disk[todo[0]].Last().Queued? && s.mem.enabled) {
      CoversFrame(s.disk, s.disk, s.mem, RecoverOne(cfg, s, at).mem, todo, todo[1..], todo[0]);
    }
  }

  lemma RecoverKeeps(cfg: Config, s: System, at: Time)
    requires Inv(cfg, s) && Enabled(cfg, s, Recover(at))
    ensures Inv(cfg, RecoverOne(cfg, s, at))
  {
    var last := s.disk[s.mem.phase.todo[0]].Last();
    if Active(last) {
      RecoverActiveKeeps(cfg, s, at);
    } else if last.Queued? && s.mem.enabled && |s.mem.queue| < cfg.maxQueued {
      RecoverQueuedKeeps(cfg, s, at);
    } else {
      RecoverRestKeeps(cfg, s, at);
    }
  }

  // ----- requests

  lemma NewRunOk(cfg: Config, meta: Meta, at: Time)
    requires cfg.Valid()
    ensures RunOk(cfg, NewRun(meta, at)) && NewRun(meta, at).Last().Queued?
    ensures ViewOk(ReadRun(NewRun(meta, at)), NewRun(meta, at))
  {
    var run := NewRun(meta, at);
    var none: seq<Event> := [];
    CountAppend(none, run.events[0], Preparing);
    assert none + [run.events[0]] == run.events;
    assert Attempts(run.events) == 0;
    assert LegalLog(run.events);
  }

  lemma CreateKeepsQueue(cfg: Config, s: System, r: RunId, meta: Meta)
    requires Inv(cfg, s) && Enabled(cfg, s, Create(r, meta))
    ensures var s' := CreateRun(s, r, meta); QueueOk(cfg, s'.disk, s'.mem) && JobsOk(cfg, s'.disk, s'.mem)
  {
    var s' := CreateRun(s, r, meta);
    forall q | q in s.mem.queue
      ensures q != r
    {
      assert Queueable(s.disk, q);
    }
    forall w | w in s.mem.jobs
      ensures s.mem.jobs[w].run != r
    {
      assert PcOk(s.disk, s.mem.jobs[w]);
    }
    PutFrame(cfg, s.disk, s'.disk, s.mem, s'.mem, r);
  }

  lemma CreateKeeps(cfg: Config, s: System, r: RunId, meta: Meta)
    requires Inv(cfg, s) && Enabled(cfg, s, Create(r, meta))
    ensures Inv(cfg, CreateRun(s, r, meta))
  {
    NewRunOk(cfg, meta, meta.createdAt);
    CreateKeepsQueue(cfg, s, r, meta);
    RememberKeepsLatest(s.mem.cache, s.mem.latest, r, ReadRun(NewRun(meta, meta.createdAt)));
    var s' := CreateRun(s, r, meta);
    if s.mem.phase.covered {
      CoversFrame(s.disk, s'.disk, s.mem, s'.mem, [], [], r);
    }
  }

  lemma GetKeeps(cfg: Config, s: System, r: RunId)
    requires Inv(cfg, s) && Enabled(cfg, s, Get(r))
    ensures Inv(cfg, Apply(cfg, s, Get(r)))
  {
    RememberKeepsLatest(s.mem.cache, s.mem.latest, r, ReadRun(s.disk[r]));
  }

  // ----- workers

  lemma TakeKeepsQueue(cfg: Config, disk: Disk, m: Memory, w: nat, m': Memory)
    requires m.Up? && QueueOk(cfg, disk, m) && JobsOk(cfg, disk, m) && m.queue != [] && m.enabled
    requires w < cfg.workers && w !in m.jobs && w !in m.dead && m.queue[0] in m.cache
    requires m' == m.(queue := m.queue[1..], jobs := m.jobs[w := Job(m.queue[0], Taken)])
    ensures QueueOk(cfg, disk, m') && JobsOk(cfg, disk, m')
  {
    assert Queueable(disk, m.queue[0]);
    assert forall q | q in m'.queue :: q in m.queue && q != m.queue[0];
  }

  lemma WaitingIsKnown(cfg: Config, s: System, r: RunId)
    requires Inv(cfg, s) && s.mem.Up? && r in s.mem.queue
    ensures r in s.mem.cache
  {
    assert Queueable(s.disk, r) && RunOk(cfg, s.disk[r]);
  }

  lemma TakeKeepsCover(disk: Disk, m: Memory, w: nat, m': Memory)
    requires m.Up? && Covers(disk, m, []) && m.queue != [] && w !in m.jobs
    requires m' == m.(queue := m.queue[1..], jobs := m.jobs[w := Job(m.queue[0], Taken)])
    ensures Covers(disk, m', [])
  {
    assert w in m'.jobs && m'.jobs[w].run == m.queue[0];
    assert forall q | q in m.queue :: q == m.queue[0] || q in m'.queue;
    forall q | HeldByWorker(m.jobs, q)
      ensures HeldByWorker(m'.jobs, q)
    {
      var v :| v in m.jobs && m.jobs[v].run == q;
      assert v in m'.jobs && m'.jobs[v].run == q;
    }
  }

  lemma TakeKeeps(cfg: Config, s: System, w: nat)
    requires Inv(cfg, s) && Enabled(cfg, s, Take(w))
    ensures Inv(cfg, Apply(cfg, s, Take(w)))
  {
    var s' := Apply(cfg, s, Take(w));
    WaitingIsKnown(cfg, s, s.mem.queue[0]);
    TakeKeepsQueue(cfg, s.disk, s.mem, w, s'.mem);
    if s.mem.phase.covered {
      TakeKeepsCover(s.disk, s.mem, w, s'.mem);
    }
    if s.mem.phase.Reconciling? {
      PassFrame(cfg, s.mem, s'.mem);
    }
  }

  /** What the program counter of a worker says about the run it holds. */
  lemma HeldRun(cfg: Config, s: System, w: nat)
    requires Inv(cfg, s) && Busy(s, w)
    ensures PcOk(s.disk, s.mem.jobs[w]) && RunOk(cfg, s.disk[s.mem.jobs[w].run]) && s.disk[s.mem.jobs[w].run].ready
    ensures RunAndCacheOk(cfg, s)
  {
  }

  lemma ProgressFrame(cfg: Config, s: System, w: nat, state: State, pc: Pc, at: Time)
    requires LockFree(s.mem) && Busy(s, w)
    ensures var s', a := Progress(cfg, s, w, state, pc, at), Append(s, s.mem.jobs[w].run, state, at, None);
            && WorkerFrame(s, s', w) && s'.disk == a.disk && s'.mem.cache == a.mem.cache
            && s'.mem.latest == a.mem.latest && s'.mem.dead == s.mem.dead && s'.mem.jobs.Keys == s.mem.jobs.Keys
            && s'.mem.jobs[w].run == s.mem.jobs[w].run
            && (!AppendRaises(s, s.mem.jobs[w].run) || pc == Handling(cfg.policy.executionFailed) ==>
                s'.mem.jobs[w].pc == pc)
  {
  }

  lemma ProgressKeeps(cfg: Config, s: System, w: nat, state: State, pc: Pc, at: Time)
    requires Inv(cfg, s) && LockFree(s.mem) && Busy(s, w)
    requires || (s.mem.jobs[w].pc.Taken? && state.Preparing? && pc.Prepared?)
             || (s.mem.jobs[w].pc.Prepared? && state.Running? && pc.Executing?)
             || (s.mem.jobs[w].pc.Executing? && state.Finalizing? && pc.Finished?)
    ensures Inv(cfg, Progress(cfg, s, w, state, pc, at))
  {
    HeldRun(cfg, s, w);
    ProgressFrame(cfg, s, w, state, pc, at);
    AppendKeeps(cfg, s, s.mem.jobs[w].run, state, at, None);
    HoldingKeeps(cfg, s, Progress(cfg, s, w, state, pc, at), w);
  }

  lemma StoreKeepsRun(cfg: Config, run: DiskRun, file: ResultFile)
    requires RunOk(cfg, run) && run.ready && run.Last().Finalizing? && run.result.NoResult? && !file.NoResult?
    ensures RunOk(cfg, run.(result := file)) && run.(result := file).Last() == run.Last()
    ensures forall v | ViewOk(v, run) :: ViewOk(v, run.(result := file))
  {
    assert run.(result := file).Last() == run.Last();
  }

  lemma StoreKeepsCache(cfg: Config, s: System, r: RunId, file: ResultFile)
    requires RunAndCacheOk(cfg, s) && IsLive(s.disk, r) && s.disk[r].Last().Finalizing?
    requires s.disk[r].result.NoResult? && !file.NoResult?
    ensures RunAndCacheOk(cfg, s.(disk := s.disk[r := s.disk[r].(result := file)]))
  {
    assert RunOk(cfg, s.disk[r]);
    StoreKeepsRun(cfg, s.disk[r], file);
    var disk' := s.disk[r := s.disk[r].(result := file)];
    forall q | q in s.mem.cache
      ensures ViewOk(s.mem.cache[q], disk'[q])
    {
      assert ViewOk(s.mem.cache[q], s.disk[q]);
    }
  }

  lemma StoreFrame(s: System, w: nat, file: ResultFile, pc: Pc)
    requires BusyAt(s, w, Finished) && PcOk(s.disk, s.mem.jobs[w]) && !file.NoResult? && (pc.Written? || pc.Handling?)
    ensures var r := s.mem.jobs[w].run;
            var s' := SetJob(s.(disk := s.disk[r := s.disk[r].(result := file)]), w, Job(r, pc));
            && WorkerFrame(s, s', w) && PcOk(s'.disk, s'.mem.jobs[w])
            && s'.mem.jobs.Keys == s.mem.jobs.Keys && s'.mem.jobs[w].run == r
  {
    var r := s.mem.jobs[w].run;
    assert s.disk[r].(result := file).Last() == s.disk[r].Last();
  }

  /** A file appearing beside a run that is finalizing. */
  lemma StoreKeeps(cfg: Config, s: System, w: nat, file: ResultFile, pc: Pc)
    requires Inv(cfg, s) && BusyAt(s, w, Finished) && !file.NoResult?
    requires pc.Written? || pc.Handling?
    ensures s.disk[s.mem.jobs[w].run].result.NoResult?
    ensures var r := s.mem.jobs[w].run;
            Inv(cfg, SetJob(s.(disk := s.disk[r := s.disk[r].(result := file)]), w, Job(r, pc)))
  {
    var r := s.mem.jobs[w].run;
    HeldRun(cfg, s, w);
    StoreKeepsCache(cfg, s, r, file);
    var stored := s.(disk := s.disk[r := s.disk[r].(result := file)]);
    StoreFrame(s, w, file, pc);
    HoldingKeeps(cfg, s, SetJob(stored, w, Job(r, pc)), w);
  }

  lemma RaiseFrame(s: System, w: nat, code: Code)
    requires Busy(s, w) && PcOk(s.disk, s.mem.jobs[w]) && !s.mem.jobs[w].pc.Taken?
    ensures var s' := SetJob(s, w, Job(s.mem.jobs[w].run, Handling(code)));
            WorkerFrame(s, s', w) && s'.mem.jobs.Keys == s.mem.jobs.Keys && PcOk(s'.disk, s'.mem.jobs[w])
  {
  }

  lemma RaiseKeeps(cfg: Config, s: System, w: nat, code: Code)
    requires Inv(cfg, s) && Enabled(cfg, s, Raise(w, code))
    ensures Inv(cfg, SetJob(s, w, Job(s.mem.jobs[w].run, Handling(code))))
  {
    HeldRun(cfg, s, w);
    RaiseFrame(s, w, code);
    HoldingKeeps(cfg, s, SetJob(s, w, Job(s.mem.jobs[w].run, Handling(code))), w);
  }

  lemma CompleteRaisesKeeps(cfg: Config, s: System, w: nat, at: Time)
    requires Inv(cfg, s) && Enabled(cfg, s, CompleteRun(w, at)) && AppendRaises(s, s.mem.jobs[w].run)
    ensures Inv(cfg, Complete(cfg, s, w, at))
  {
    var failing := Handling(cfg.policy.executionFailed);
    assert Complete(cfg, s, w, at) == Progress(cfg, s, w, Completed, failing, at);
    HeldRun(cfg, s, w);
    AppendKeeps(cfg, s, s.mem.jobs[w].run, Completed, at, None);
    ProgressFrame(cfg, s, w, Completed, failing, at);
    HoldingKeeps(cfg, s, Progress(cfg, s, w, Completed, failing, at), w);
  }

  lemma ReleaseFrame(s: System, w: nat, state: State, at: Time, code: Option<Code>, dies: bool)
    requires LockFree(s.mem) && Busy(s, w)
    ensures var a := Append(s, s.mem.jobs[w].run, state, at, code);
            var s' := Release(a, w, dies);
            && WorkerFrame(s, s', w) && s'.disk == a.disk && s'.mem.cache == a.mem.cache
            && s'.mem.latest == a.mem.latest && s'.mem.jobs.Keys == s.mem.jobs.Keys - {w}
            && s'.mem.dead <= s.mem.dead + {w}
  {
  }

  /** A worker's last append. */
  lemma LastAppendKeeps(cfg: Config, s: System, w: nat, state: State, at: Time, code: Option<Code>, dies: bool)
    requires Inv(cfg, s) && LockFree(s.mem) && Busy(s, w) && (state.Completed? || state.Failed?)
    requires MayAppend(cfg, s.disk[s.mem.jobs[w].run], state, code)
    ensures Inv(cfg, Release(Append(s, s.mem.jobs[w].run, state, at, code), w, dies))
  {
    HeldRun(cfg, s, w);
    AppendKeeps(cfg, s, s.mem.jobs[w].run, state, at, code);
    ReleaseFrame(s, w, state, at, code, dies);
    ReleasingKeeps(cfg, s, Release(Append(s, s.mem.jobs[w].run, state, at, code), w, dies), w);
  }

  lemma CompleteKeeps(cfg: Config, s: System, w: nat, at: Time)
    requires Inv(cfg, s) && Enabled(cfg, s, CompleteRun(w, at)) && !AppendRaises(s, s.mem.jobs[w].run)
    ensures Inv(cfg, Complete(cfg, s, w, at))
  {
    HeldRun(cfg, s, w);
    LastAppendKeeps(cfg, s, w, Completed, at, None, false);
  }

  lemma CompleteRunKeeps(cfg: Config, s: System, w: nat, at: Time)
    requires Inv(cfg, s) && Enabled(cfg, s, CompleteRun(w, at))
    ensures Inv(cfg, Complete(cfg, s, w, at))
  {
    if AppendRaises(s, s.mem.jobs[w].run) {
      CompleteRaisesKeeps(cfg, s, w, at);
    } else {
      CompleteKeeps(cfg, s, w, at);
    }
  }

  lemma HandleKeeps(cfg: Config, s: System, w: nat, at: Time)
    requires Inv(cfg, s) && Enabled(cfg, s, HandleFailure(w, at))
    ensures Inv(cfg, Handle(s, w, at))
  {
    HeldRun(cfg, s, w);
    LastAppendKeeps(cfg, s, w, Failed, at, Some(s.mem.jobs[w].pc.code), AppendRaises(s, s.mem.jobs[w].run));
  }

  // ----- the reconciler

  lemma BeginPassKeeps(cfg: Config, s: System, c: seq<RunId>)
    requires Inv(cfg, s) && Enabled(cfg, s, BeginPass(c))
    ensures Inv(cfg, Apply(cfg, s, BeginPass(c)))
  {
    assert forall i, j | 0 <= i < j < |c| :: Precedes(cfg, s.mem, c[i], c[j]) ==> c[i] != c[j];
  }

  /** A candidate is failed on disk too, and its result file, if there is one, can be read. */
  lemma CandidateIsFailed(cfg: Config, s: System, r: RunId)
    requires Inv(cfg, s) && s.mem.Up? && Candidate(cfg, s.mem, r)
    ensures r in s.disk && s.disk[r].CanRead() && s.disk[r].Last().Failed?
    ensures Agrees(s.mem.cache[r], s.disk[r])
    ensures s.disk[r].ready
  {
    assert ViewOk(s.mem.cache[r], s.disk[r]);
    assert RunOk(cfg, s.disk[r]);
  }

  lemma FailedIsUnheld(cfg: Config, s: System, r: RunId)
    requires Inv(cfg, s) && s.mem.Up? && IsLive(s.disk, r) && s.disk[r].Last().Failed?
    ensures r !in s.mem.queue
    ensures forall w | w in s.mem.jobs :: s.mem.jobs[w].run != r
  {
    forall w | w in s.mem.jobs
      ensures s.mem.jobs[w].run != r
    {
      assert PcOk(s.disk, s.mem.jobs[w]);
    }
    forall q | q in s.mem.queue
      ensures q != r
    {
      assert Queueable(s.disk, q);
    }
  }

  /** A pass that has dealt with its next candidate. */
  lemma AdvanceKeepsPass(cfg: Config, m: Memory, m': Memory)
    requires m.Up? && m'.Up? && m.phase.Reconciling? && m'.phase.Reconciling? && PassOk(cfg, m)
    requires m.phase.next < |m.phase.candidates|
    requires m'.phase.candidates == m.phase.candidates && m'.phase.next == m.phase.next + 1 && m'.enabled == m.enabled
    requires forall q | q != m.phase.candidates[m.phase.next] && q in m.cache ::
               q in m'.cache && m'.cache[q] == m.cache[q]
    ensures PassOk(cfg, m')
  {
    var c := m.phase.candidates;
    forall i | m'.phase.next <= i < |c|
      ensures Candidate(cfg, m', c[i])
    {
      assert Candidate(cfg, m, c[i]) && c[i] != c[m.phase.next];
    }
  }

  lemma QueueableFrame(disk: Disk, disk': Disk, m: Memory, r: RunId)
    requires m.Up? && OnlyChanges(disk, disk', r)
    requires forall w | w in m.jobs :: m.jobs[w].run != r && PcOk(disk, m.jobs[w])
    ensures forall w | w in m.jobs :: PcOk(disk', m.jobs[w])
  {
  }

  lemma PutFrame(cfg: Config, disk: Disk, disk': Disk, m: Memory, m': Memory, r: RunId)
    requires m.Up? && m'.Up? && QueueOk(cfg, disk, m) && JobsOk(cfg, disk, m) && OnlyChanges(disk, disk', r)
    requires r !in m.queue && forall w | w in m.jobs :: m.jobs[w].run != r
    requires m'.jobs == m.jobs && m'.dead == m.dead && m'.enabled == m.enabled && m.cache.Keys <= m'.cache.Keys
    requires || m'.queue == m.queue
             || (m'.queue == m.queue + [r] && |m.queue| < cfg.maxQueued && m.enabled && Queueable(disk', r))
    ensures QueueOk(cfg, disk', m') && JobsOk(cfg, disk', m')
  {
    QueueableFrame(disk, disk', m, r);
    forall q | q in m.queue
      ensures Queueable(disk', q)
    {
      assert Queueable(disk, q);
    }
  }

  /** The pass moves past its next candidate `r`, having appended one event to it. */
  ghost predicate PassAppended(s: System, s': System, r: RunId)
    requires s.mem.Up? && s.mem.phase.Reconciling?
  {
    && s'.mem.Up? && s'.mem.phase.Reconciling?
    && s'.mem.phase.candidates == s.mem.phase.candidates && s'.mem.phase.next == s.mem.phase.next + 1
    && s'.mem.phase.covered == s.mem.phase.covered
    && s'.mem.jobs == s.mem.jobs && s'.mem.dead == s.mem.dead && s'.mem.enabled == s.mem.enabled
    && OnlyChanges(s.disk, s'.disk, r) && IsLive(s'.disk, r)
    && (if s'.disk[r].Last().Queued? then s'.mem.queue == s.mem.queue + [r]
        else s'.mem.queue == s.mem.queue && s'.disk[r].Last().Completed?)
    && s'.mem.cache.Keys == s.mem.cache.Keys
    && (forall q | q != r && q in s.mem.cache :: s'.mem.cache[q] == s.mem.cache[q])
  }

  lemma ReconcileRest(cfg: Config, s: System, s': System, r: RunId)
    requires Inv(cfg, s) && s.mem.Up? && s.mem.phase.Reconciling? && !PassOver(cfg, s.mem)
    requires r == s.mem.phase.candidates[s.mem.phase.next] && IsLive(s.disk, r) && s.disk[r].Last().Failed?
    requires RunAndCacheOk(cfg, s') && PassAppended(s, s', r)
    ensures Inv(cfg, s')
  {
    FailedIsUnheld(cfg, s, r);
    AdvanceKeepsPass(cfg, s.mem, s'.mem);
    PutFrame(cfg, s.disk, s'.disk, s.mem, s'.mem, r);
    if s.mem.phase.covered {
      CoversFrame(s.disk, s'.disk, s.mem, s'.mem, [], [], r);
    }
  }

  lemma SkippedKeepsCache(cfg: Config, s: System, p: Phase)
    requires RunAndCacheOk(cfg, s)
    ensures RunAndCacheOk(cfg, SetPhase(s, p))
  {
  }

  lemma ReconcileSkipKeeps(cfg: Config, s: System, at: Time)
    requires Inv(cfg, s) && Enabled(cfg, s, Reconcile(at))
    requires var run := s.disk[s.mem.phase.candidates[s.mem.phase.next]];
             run.result.NoResult? && Attempts(run.events) >= cfg.maxAttempts
    ensures Inv(cfg, ReconcileOne(cfg, s, at))
  {
    AdvanceKeepsPass(cfg, s.mem, ReconcileOne(cfg, s, at).mem);
  }

  lemma CompletesInPass(cfg: Config, s: System, r: RunId, p: Phase, at: Time)
    requires RunAndCacheOk(cfg, s) && s.mem.phase.Reconciling? && r in s.disk &&
             MayAppend(cfg, s.disk[r], Completed, None)
    requires p == s.mem.phase.(next := s.mem.phase.next + 1)
    ensures var s' := Append(SetPhase(s, p), r, Completed, at, None); RunAndCacheOk(cfg, s') && PassAppended(s, s', r)
  {
    SkippedKeepsCache(cfg, s, p);
    AppendKeeps(cfg, SetPhase(s, p), r, Completed, at, None);
  }

  lemma RequeuesInPass(cfg: Config, s: System, r: RunId, p: Phase, at: Time)
    requires RunAndCacheOk(cfg, s) && s.mem.phase.Reconciling? && r in s.disk && MayAppend(cfg, s.disk[r], Queued, None)
    requires p == s.mem.phase.(next := s.mem.phase.next + 1, requeued := s.mem.phase.requeued + [r])
    ensures var s' := Put(Append(SetPhase(s, p), r, Queued, at, None), r);
            RunAndCacheOk(cfg, s') && PassAppended(s, s', r)
  {
    SkippedKeepsCache(cfg, s, p);
    AppendKeeps(cfg, SetPhase(s, p), r, Queued, at, None);
  }

  lemma ReconcileCompletes(cfg: Config, s: System, at: Time)
    requires RunAndCacheOk(cfg, s) && Enabled(cfg, s, Reconcile(at))
    requires var run := s.disk[s.mem.phase.candidates[s.mem.phase.next]];
             run.result.Readable? && MayAppend(cfg, run, Completed, None)
    ensures var s', r := ReconcileOne(cfg, s, at), s.mem.phase.candidates[s.mem.phase.next];
            RunAndCacheOk(cfg, s') && PassAppended(s, s', r)
  {
    var p := s.mem.phase;
    CompletesInPass(cfg, s, p.candidates[p.next], p.(next := p.next + 1), at);
  }

  lemma ReconcileRequeues(cfg: Config, s: System, at: Time)
    requires RunAndCacheOk(cfg, s) && Enabled(cfg, s, Reconcile(at))
    requires MayAppend(cfg, s.disk[s.mem.phase.candidates[s.mem.phase.next]], Queued, None)
    ensures var s', r := ReconcileOne(cfg, s, at), s.mem.phase.candidates[s.mem.phase.next];
            RunAndCacheOk(cfg, s') && PassAppended(s, s', r)
  {
    var p := s.mem.phase;
    var r := p.candidates[p.next];
    RequeuesInPass(cfg, s, r, p.(next := p.next + 1, requeued := p.requeued + [r]), at);
  }

  lemma ReconcileAppendKeeps(cfg: Config, s: System, at: Time)
    requires Inv(cfg, s) && Enabled(cfg, s, Reconcile(at))
    requires var run := s.disk[s.mem.phase.candidates[s.mem.phase.next]];
             run.result.Readable? || (run.result.NoResult? && Attempts(run.events) < cfg.maxAttempts)
    ensures Inv(cfg, ReconcileOne(cfg, s, at))
  {
    var p := s.mem.phase;
    CandidateIsFailed(cfg, s, p.candidates[p.next]);
    assert RunOk(cfg, s.disk[p.candidates[p.next]]);
    if s.disk[p.candidates[p.next]].result.Readable? {
      ReconcileCompletes(cfg, s, at);
    } else {
      ReconcileRequeues(cfg, s, at);
    }
    ReconcileRest(cfg, s, ReconcileOne(cfg, s, at), p.candidates[p.next]);
  }

  lemma ReconcileKeeps(cfg: Config, s: System, at: Time)
    requires Inv(cfg, s) && Enabled(cfg, s, Reconcile(at))
    ensures Inv(cfg, ReconcileOne(cfg, s, at))
  {
    var r := s.mem.phase.candidates[s.mem.phase.next];
    CandidateIsFailed(cfg, s, r);
    if s.disk[r].result.NoResult? && Attempts(s.disk[r].events) >= cfg.maxAttempts {
      ReconcileSkipKeeps(cfg, s, at);
    } else {
      ReconcileAppendKeeps(cfg, s, at);
    }
  }

  // ----- everything together

  predicate AppendsProgress(step: Step) {
    step.Prepare? || step.Accept? || step.Finish?
  }

  lemma ProgressStepKeepsInv(cfg: Config, s: System, step: Step)
    requires Inv(cfg, s) && Enabled(cfg, s, step) && AppendsProgress(step)
    ensures Inv(cfg, Apply(cfg, s, step))
  {
    match step {
      case Prepare(w, at) => ProgressKeeps(cfg, s, w, Preparing, Prepared, at);
      case Accept(w, at) => ProgressKeeps(cfg, s, w, Running, Executing, at);
      case Finish(w, at) => ProgressKeeps(cfg, s, w, Finalizing, Finished, at);
    }
  }

  predicate UnlockedStep(step: Step) {
    step.Take? || step.Write? || step.TearWrite? || step.Raise?
  }

  lemma UnlockedStepKeepsInv(cfg: Config, s: System, step: Step)
    requires Inv(cfg, s) && Enabled(cfg, s, step) && UnlockedStep(step)
    ensures Inv(cfg, Apply(cfg, s, step))
  {
    match step {
      case Take(w) => TakeKeeps(cfg, s, w);
      case Write(w, file) => StoreKeeps(cfg, s, w, file, Written);
      case TearWrite(w) => StoreKeeps(cfg, s, w, Unreadable, Handling(cfg.policy.executionFailed));
      case Raise(w, code) => RaiseKeeps(cfg, s, w, code);
    }
  }

  lemma CrashKeeps(cfg: Config, s: System)
    requires Inv(cfg, s)
    ensures Inv(cfg, s.(mem := Down))
  {
  }

  lemma RestKeeps(cfg: Config, s: System, step: Step)
    requires Inv(cfg, s) && Enabled(cfg, s, step) && (step.Recovered? || step.EndPass?)
    ensures Inv(cfg, Apply(cfg, s, step))
  {
  }

  lemma StepKeepsInv(cfg: Config, s: System, step: Step)
    requires Inv(cfg, s) && Enabled(cfg, s, step)
    ensures Inv(cfg, Apply(cfg, s, step))
  {
    if AppendsProgress(step) {
      ProgressStepKeepsInv(cfg, s, step);
    } else if UnlockedStep(step) {
      UnlockedStepKeepsInv(cfg, s, step);
    } else if step.Recovered? || step.EndPass? {
      RestKeeps(cfg, s, step);
    } else {
      match step {
        case Boot(enabled, scan) => BootKeeps(cfg, s, enabled, scan);
        case Start(scan) => StartKeeps(cfg, s, scan);
        case Recover(at) => RecoverKeeps(cfg, s, at);
        case CompleteRun(w, at) => CompleteRunKeeps(cfg, s, w, at);
        case HandleFailure(w, at) => HandleKeeps(cfg, s, w, at);
        case Create(r, meta) => CreateKeeps(cfg, s, r, meta);
        case Get(r) => GetKeeps(cfg, s, r);
        case BeginPass(c) => BeginPassKeeps(cfg, s, c);
        case Reconcile(at) => ReconcileKeeps(cfg, s, at);
        case Crash => CrashKeeps(cfg, s);
        case CrashInCreate(r, meta, stage) => CrashInCreateKeeps(cfg, s, r, meta, stage);
      }
    }
  }

  lemma CrashInCreateKeeps(cfg: Config, s: System, r: RunId, meta: Meta, stage: Stage)
    requires Inv(cfg, s) && Enabled(cfg, s, CrashInCreate(r, meta, stage))
    ensures Inv(cfg, Apply(cfg, s, CrashInCreate(r, meta, stage)))
  {
    assert RunOk(cfg, TornRun(meta, stage));
  }

  lemma {:induction false} RunKeepsInv(cfg: Config, s: System, steps: seq<Step>)
    requires Inv(cfg, s) && ValidRun(cfg, s, steps)
    ensures Inv(cfg, RunAll(cfg, s, steps))
    decreases |steps|
  {
    if steps != [] {
      StepKeepsInv(cfg, s, steps[0]);
      RunKeepsInv(cfg, Apply(cfg, s, steps[0]), steps[1..]);
    }
  }

  lemma ReachableInv(cfg: Config, s: System)
    requires cfg.Valid() && Reachable(cfg, s)
    ensures Inv(cfg, s)
  {
    var steps :| ValidRun(cfg, INITIAL, steps) && s == RunAll(cfg, INITIAL, steps);
    RunKeepsInv(cfg, INITIAL, steps);
  }

  lemma {:induction false} RunStepLast(cfg: Config, s: System, steps: seq<Step>, step: Step)
    requires ValidRun(cfg, s, steps) && Enabled(cfg, RunAll(cfg, s, steps), step)
    ensures ValidRun(cfg, s, steps + [step])
    ensures RunAll(cfg, s, steps + [step]) == Apply(cfg, RunAll(cfg, s, steps), step)
    decreases |steps|
  {
    if steps == [] {
      assert steps + [step] == [step];
    } else {
      RunStepLast(cfg, Apply(cfg, s, steps[0]), steps[1..], step);
      assert (steps + [step])[1..] == steps[1..] + [step];
    }
  }

  lemma StepIsReachable(cfg: Config, s: System, step: Step)
    requires Reachable(cfg, s) && Enabled(cfg, s, step)
    ensures Reachable(cfg, Apply(cfg, s, step))
  {
    var steps :| ValidRun(cfg, INITIAL, steps) && s == RunAll(cfg, INITIAL, steps);
    RunStepLast(cfg, INITIAL, steps, step);
  }
}
