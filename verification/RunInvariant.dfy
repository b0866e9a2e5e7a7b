/** What every reachable state of the run queue satisfies, and what one append preserves of it. */
module RunInvariant {
  import opened Common
  import opened RunLog
  import opened RunMachine

  // ----- disk

  ghost predicate ResultAgrees(run: DiskRun)
    requires run.events != []
  {
    var last := run.Last();
    && (last.Queued? || last.Preparing? || last.Running? ==> run.result.NoResult?)
    && (last.Completed? ==> !run.result.NoResult?)
    && (forall i | 0 <= i < |run.events| - 1 && run.events[i].state.Completed? ::
          i == |run.events| - 2 && last.Failed? && run.result.Unreadable?)
  }

  ghost predicate RunOk(cfg: Config, run: DiskRun) {
    if run.ready then
      && run.meta.Some?
      && LegalLog(run.events)
      && Attempts(run.events) <= cfg.maxAttempts
      && (run.Last().Queued? ==> Attempts(run.events) < cfg.maxAttempts)
      && ResultAgrees(run)
    else
      && run.result.NoResult?
      && (run.events == [] || (run.meta.Some? && LegalLog(run.events) && |run.events| == 1))
  }

  ghost predicate DiskOk(cfg: Config, disk: Disk) {
    forall r | r in disk :: RunOk(cfg, disk[r])
  }

  // ----- queue and workers

  predicate IsLive(disk: Disk, r: RunId) {
    r in disk && disk[r].ready && disk[r].events != []
  }

  ghost predicate Queueable(disk: Disk, r: RunId) {
    IsLive(disk, r) && disk[r].Last().Queued?
  }

  ghost predicate PcOk(disk: Disk, j: Job) {
    && IsLive(disk, j.run)
    && var run, last := disk[j.run], disk[j.run].Last();
       match j.pc
       case Taken => last.Queued?
       case Prepared => last.Preparing?
       case Executing => last.Running?
       case Finished => last.Finalizing? && run.result.NoResult?
       case Written => last.Finalizing? && !run.result.NoResult?
       case Handling(_) =>
         last.Preparing? || last.Running? || last.Finalizing? || (last.Completed? && run.result.Unreadable?)
  }

  ghost predicate HeldByWorker(jobs: map<nat, Job>, r: RunId) {
    exists w :: w in jobs && jobs[w].run == r
  }

  ghost predicate QueueOk(cfg: Config, disk: Disk, m: Memory)
    requires m.Up?
  {
    && NoDuplicates(m.queue)
    && |m.queue| <= cfg.maxQueued
    && (forall r | r in m.queue :: Queueable(disk, r))
  }

  ghost predicate JobsOk(cfg: Config, disk: Disk, m: Memory)
    requires m.Up?
  {
    && (forall w | w in m.jobs :: PcOk(disk, m.jobs[w]) && w < cfg.workers && w !in m.dead)
    && (forall w | w in m.jobs :: m.jobs[w].run !in m.queue && m.jobs[w].run in m.cache)
    && (forall w, v | w in m.jobs && v in m.jobs && w != v :: m.jobs[w].run != m.jobs[v].run)
    && (!m.enabled ==> m.queue == [] && m.jobs == map[])
  }

  // ----- cache

  /** What a cached view promises about the log: everything a fresh read would say, except an error code left over
      from an earlier failure, and except a result written since the last event. */
  ghost predicate Agrees(v: View, run: DiskRun) {
    && run.CanRead()
    && var read := ReadRun(run);
    && v.(code := read.code, result := read.result) == read
    && (v.state.Failed? ==> v.code == read.code)
    && (v.result == read.result || (v.state.Finalizing? && v.result.None?))
  }

  ghost predicate ViewOk(v: View, run: DiskRun) {
    && run.meta == Some(v.meta)
    && run.events != []
    && (if run.result.Unreadable? then v.state.Finalizing? && v.result.None? else Agrees(v, run))
  }

  ghost predicate CacheOk(disk: Disk, cache: map<RunId, View>) {
    && (forall r | r in cache :: r in disk && ViewOk(cache[r], disk[r]))
    && (forall r | r in disk && disk[r].ready && disk[r].CanRead() :: r in cache)
  }

  ghost predicate IsLatest(cache: map<RunId, View>, s: SubmissionId, l: Latest) {
    && l.run in cache && cache[l.run].meta.submission == s && cache[l.run].meta.createdAt == l.createdAt
    && forall r | r in cache && cache[r].meta.submission == s ::
         r == l.run || Newer(l, Latest(cache[r].meta.createdAt, r))
  }

  ghost predicate LatestOk(cache: map<RunId, View>, latest: map<SubmissionId, Latest>) {
    && (forall r | r in cache :: cache[r].meta.submission in latest)
    && (forall s | s in latest :: IsLatest(cache, s, latest[s]))
  }

  // ----- phase

  /** No work is lost among the runs outside `except`: queued ones wait in the queue or are held by a worker, active
      ones are held by a worker. */
  ghost predicate Covers(disk: Disk, m: Memory, except: seq<RunId>)
    requires m.Up?
  {
    forall r | IsLive(disk, r) && r !in except ::
      && (disk[r].Last().Queued? && m.enabled ==> r in m.queue || HeldByWorker(m.jobs, r))
      && (Active(disk[r].Last()) ==> HeldByWorker(m.jobs, r))
  }

  ghost predicate PassOk(cfg: Config, m: Memory)
    requires m.Up? && m.phase.Reconciling?
  {
    var p := m.phase;
    && m.enabled
    && p.next <= |p.candidates|
    && NoDuplicates(p.candidates)
    && (forall i | p.next <= i < |p.candidates| :: Candidate(cfg, m, p.candidates[i]))
  }

  ghost predicate PhaseOk(cfg: Config, disk: Disk, m: Memory)
    requires m.Up?
  {
    match m.phase
    case Built => m.queue == [] && m.jobs == map[]
    case Recovering(todo) =>
      && m.jobs == map[] && NoDuplicates(todo)
      && (forall r | r in todo :: IsLive(disk, r) && r !in m.queue)
      && Covers(disk, m, todo)
    case Serving(covered) => covered ==> Covers(disk, m, [])
    case Reconciling(covered, _, _, _) => (covered ==> Covers(disk, m, [])) && PassOk(cfg, m)
  }

  ghost predicate MemoryOk(cfg: Config, disk: Disk, m: Memory) {
    m.Up? ==>
      && QueueOk(cfg, disk, m)
      && JobsOk(cfg, disk, m)
      && CacheOk(disk, m.cache)
      && LatestOk(m.cache, m.latest)
      && PhaseOk(cfg, disk, m)
  }

  ghost predicate Inv(cfg: Config, s: System) {
    cfg.Valid() && DiskOk(cfg, s.disk) && MemoryOk(cfg, s.disk, s.mem)
  }

  // ----- one append

  /** When an append extends the log of a sound run to the log of a sound run. */
  ghost predicate MayAppend(cfg: Config, run: DiskRun, state: State, code: Option<Code>) {
    && RunOk(cfg, run) && run.ready && Edge(run.Last(), state)
    && (state.Failed? <==> code.Some?)
    && (state.Queued? ==> run.result.NoResult? && Attempts(run.events) < cfg.maxAttempts)
    && (state.Completed? ==> !run.result.NoResult?)
    && (run.Last().Completed? || (run.Last().Failed? && run.result.Unreadable?) ==>
        state.Failed? && run.result.Unreadable?)
  }

  lemma AppendKeepsRun(cfg: Config, run: DiskRun, state: State, at: Time, code: Option<Code>)
    requires MayAppend(cfg, run, state, code)
    ensures RunOk(cfg, AppendToDisk(run, state, at, code))
  {
    var e := NextEvent(run, state, at, code);
    CountAppend(run.events, e, Preparing);
    var after := AppendToDisk(run, state, at, code);
    assert after.events[..|run.events|] == run.events;
    assert after.Last() == state;
    assert LegalLog(after.events);
  }

  lemma AppendKeepsDisk(cfg: Config, s: System, r: RunId, state: State, at: Time, code: Option<Code>)
    requires s.mem.Up? && DiskOk(cfg, s.disk) && r in s.disk && MayAppend(cfg, s.disk[r], state, code)
    ensures DiskOk(cfg, Append(s, r, state, at, code).disk)
  {
    AppendKeepsRun(cfg, s.disk[r], state, at, code);
  }

  /** The refreshed view is what a fresh read would give, up to a leftover error code. */
  lemma MergeAgrees(v: View, run: DiskRun, state: State, at: Time, code: Option<Code>)
    requires ViewOk(v, run) && (state.Failed? <==> code.Some?)
    requires v.result.Some? ==> run.result.Readable?
    ensures var after := AppendToDisk(run, state, at, code);
            var merged := Merge(v, NextEvent(run, state, at, code), Attempts(after.events), after.result);
            && merged.meta == v.meta
            && (!run.result.Unreadable? ==> ViewOk(merged, after))
  {
    var after := AppendToDisk(run, state, at, code);
    assert after.events[|after.events| - 1] == NextEvent(run, state, at, code);
  }

  lemma AppendKeepsCache(s: System, r: RunId, state: State, at: Time, code: Option<Code>)
    requires s.mem.Up? && r in s.disk && CacheOk(s.disk, s.mem.cache) && s.disk[r].events != []
    requires state.Failed? <==> code.Some?
    ensures var s' := Append(s, r, state, at, code); CacheOk(s'.disk, s'.mem.cache)
  {
    var s' := Append(s, r, state, at, code);
    if r in s.mem.cache {
      MergeAgrees(s.mem.cache[r], s.disk[r], state, at, code);
    }
    assert s'.mem.cache.Keys == s.mem.cache.Keys;
  }

  lemma AppendKeepsLatest(s: System, r: RunId, state: State, at: Time, code: Option<Code>)
    requires s.mem.Up? && r in s.disk && LatestOk(s.mem.cache, s.mem.latest)
    ensures var s' := Append(s, r, state, at, code); LatestOk(s'.mem.cache, s'.mem.latest)
  {
    var s' := Append(s, r, state, at, code);
    assert s'.mem.cache.Keys == s.mem.cache.Keys;
    assert forall q | q in s.mem.cache :: s'.mem.cache[q].meta == s.mem.cache[q].meta;
    forall u | u in s'.mem.latest
      ensures IsLatest(s'.mem.cache, u, s'.mem.latest[u])
    {
      assert IsLatest(s.mem.cache, u, s.mem.latest[u]);
    }
  }
}
