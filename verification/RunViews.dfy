/** What callers are shown: cached views against the log, the latest run per submission, and which failed runs a
    reconciliation pass queues again. */
module RunViews {
  import opened Common
  import opened RunLog
  import opened RunMachine
  import opened RunInvariant
  import opened RunSteps

  // ----- cached views

  /** A cached view says what a fresh read of the log would say. Two leftovers are allowed: the error code of an
      earlier failure while the run is not failed, and a result stored after the last event. Behind a result file that
      cannot be read there is no fresh read; there the view is the one of before the result was stored. */
  lemma CacheRefinesLog(cfg: Config, s: System, r: RunId)
    requires cfg.Valid() && Reachable(cfg, s) && s.mem.Up? && r in s.mem.cache
    ensures r in s.disk && s.disk[r].meta == Some(s.mem.cache[r].meta)
    ensures s.disk[r].CanRead() <==> !s.disk[r].result.Unreadable?
    ensures s.disk[r].CanRead() ==>
              var v, run := s.mem.cache[r], s.disk[r];
              var last := run.events[|run.events| - 1];
              && v.number == last.number == |run.events| && v.state == last.state && v.updatedAt == last.at
              && v.attempts == Count(run.events, Preparing)
              && (v.state == Failed ==> v.code == last.code)
              && (v.state != Finalizing ==> v.result == if run.result.Readable? then Some(run.result.value) else None)
    ensures !s.disk[r].CanRead() ==> s.mem.cache[r].state.Finalizing? && s.mem.cache[r].result.None?
  {
    ReachableInv(cfg, s);
    assert ViewOk(s.mem.cache[r], s.disk[r]) && RunOk(cfg, s.disk[r]);
  }

  /** The cache follows the log except behind a result that cannot be read: there it stays at `finalizing`, whatever
      the log goes on to say. */
  lemma CacheFollowsLogIffReadable(cfg: Config, s: System, r: RunId)
    requires cfg.Valid() && Reachable(cfg, s) && s.mem.Up? && r in s.mem.cache
    ensures r in s.disk && s.disk[r].events != []
    ensures s.mem.cache[r].state == s.disk[r].Last() <==>
              !s.disk[r].result.Unreadable? || s.disk[r].Last().Finalizing?
  {
    ReachableInv(cfg, s);
    assert ViewOk(s.mem.cache[r], s.disk[r]);
  }

  // ----- the latest run of a submission

  /** The index holds, for exactly the submissions of known runs, the greatest (creation time, run id). */
  lemma LatestIsGreatest(cfg: Config, s: System, u: SubmissionId)
    requires cfg.Valid() && Reachable(cfg, s) && s.mem.Up?
    ensures u in s.mem.latest <==> exists r :: r in s.mem.cache && s.mem.cache[r].meta.submission == u
    ensures u in s.mem.latest ==>
              var l := s.mem.latest[u];
              && l.run in s.mem.cache && s.mem.cache[l.run].meta.submission == u
              && l.createdAt == s.mem.cache[l.run].meta.createdAt
              && forall r | r in s.mem.cache && s.mem.cache[r].meta.submission == u ::
                   var at := s.mem.cache[r].meta.createdAt; at < l.createdAt || (at == l.createdAt && r <= l.run)
  {
    ReachableInv(cfg, s);
    if u in s.mem.latest {
      assert IsLatest(s.mem.cache, u, s.mem.latest[u]);
      assert s.mem.latest[u].run in s.mem.cache;
    }
  }

  lemma LatestIsUnique(cache: map<RunId, View>, a: map<SubmissionId, Latest>, b: map<SubmissionId, Latest>)
    requires LatestOk(cache, a) && LatestOk(cache, b)
    ensures a == b
  {
    assert forall u | u in a :: IsLatest(cache, u, a[u]);
    assert forall u | u in b :: IsLatest(cache, u, b[u]);
    forall u
      ensures u in a <==> u in b
    {
    }
    forall u | u in a
      ensures a[u] == b[u]
    {
      assert IsLatest(cache, u, a[u]) && IsLatest(cache, u, b[u]);
    }
  }

  /** Scanning the directory in any order builds the same memory. */
  lemma RebuildIgnoresScanOrder(disk: Disk, scan: seq<RunId>, scan': seq<RunId>, m: Memory)
    requires m.Up? && m.cache == map[] && m.latest == map[] && IsScan(disk, scan) && IsScan(disk, scan')
    ensures Rebuild(disk, scan, m) == Rebuild(disk, scan', m)
  {
    RebuildRemembers(disk, scan, m);
    RebuildRemembers(disk, scan', m);
    SameMemory(disk, scan, scan', Rebuild(disk, scan, m), Rebuild(disk, scan', m));
  }

  lemma SameMemory(disk: Disk, scan: seq<RunId>, scan': seq<RunId>, a: Memory, b: Memory)
    requires a.Up? && b.Up? && a == b.(cache := a.cache, latest := a.latest)
    requires forall r :: r in scan <==> r in scan'
    requires forall r :: (r in a.cache <==> r in scan && r in disk && disk[r].CanRead())
    requires forall r :: (r in b.cache <==> r in scan' && r in disk && disk[r].CanRead())
    requires forall r | r in a.cache :: a.cache[r] == ReadRun(disk[r])
    requires forall r | r in b.cache :: b.cache[r] == ReadRun(disk[r])
    requires LatestOk(a.cache, a.latest) && LatestOk(b.cache, b.latest)
    ensures a == b
  {
    assert a.cache == b.cache;
    LatestIsUnique(a.cache, a.latest, b.latest);
  }

  /** The runs the index points at are published and can be read. */
  ghost predicate LatestAreOnDisk(s: System)
    requires s.mem.Up?
  {
    forall u | u in s.mem.latest :: var r := s.mem.latest[u].run; r in s.disk && s.disk[r].ready && s.disk[r].CanRead()
  }

  ghost function Fresh(enabled: bool): (m: Memory)
    ensures m.Up?
  {
    Up(enabled, Built, map[], map[], [], map[], {})
  }

  lemma RebuiltIsKnown(cfg: Config, s: System, scan: seq<RunId>, r: RunId)
    requires Inv(cfg, s) && s.mem.Up? && IsScan(s.disk, scan)
    ensures var rebuilt := Rebuild(s.disk, scan, Fresh(s.mem.enabled));
            && (r in rebuilt.cache <==> r in s.disk && s.disk[r].ready && s.disk[r].CanRead())
            && (r in rebuilt.cache ==> r in s.mem.cache && rebuilt.cache[r].meta == s.mem.cache[r].meta)
  {
    RebuildRemembers(s.disk, scan, Fresh(s.mem.enabled));
    if r in scan && s.disk[r].CanRead() {
      assert r in s.mem.cache;
      assert ViewOk(s.mem.cache[r], s.disk[r]);
    }
  }

  lemma StillLatest(cache: map<RunId, View>, less: map<RunId, View>, u: SubmissionId, l: Latest)
    requires forall r | r in less :: r in cache && less[r].meta == cache[r].meta
    requires IsLatest(cache, u, l) && l.run in less
    ensures IsLatest(less, u, l)
  {
  }

  lemma SmallerIndex(cache: map<RunId, View>, less: map<RunId, View>, latest: map<SubmissionId, Latest>)
    requires LatestOk(cache, latest) && forall r | r in less :: r in cache && less[r].meta == cache[r].meta
    requires forall u | u in latest :: latest[u].run in less
    ensures LatestOk(less, latest)
  {
    forall u | u in latest
      ensures IsLatest(less, u, latest[u])
    {
      StillLatest(cache, less, u, latest[u]);
    }
  }

  lemma IndexPointsIntoCache(cache: map<RunId, View>, latest: map<SubmissionId, Latest>, u: SubmissionId)
    requires LatestOk(cache, latest) && u in latest
    ensures latest[u].run in cache
  {
    assert IsLatest(cache, u, latest[u]);
  }

  /** The index kept up to date step by step is the one a restart would build exactly as long as every run it points at
      is published and can be read. */
  lemma IncrementalLatestIsRebuiltIff(cfg: Config, s: System, scan: seq<RunId>)
    requires cfg.Valid() && Reachable(cfg, s) && s.mem.Up? && IsScan(s.disk, scan)
    ensures Rebuild(s.disk, scan, Fresh(s.mem.enabled)).latest == s.mem.latest <==> LatestAreOnDisk(s)
  {
    ReachableInv(cfg, s);
    RebuildRemembers(s.disk, scan, Fresh(s.mem.enabled));
    var rebuilt := Rebuild(s.disk, scan, Fresh(s.mem.enabled));
    forall r
      ensures r in rebuilt.cache <==> r in s.disk && s.disk[r].ready && s.disk[r].CanRead()
      ensures r in rebuilt.cache ==> r in s.mem.cache && rebuilt.cache[r].meta == s.mem.cache[r].meta
    {
      RebuiltIsKnown(cfg, s, scan, r);
    }
    if LatestAreOnDisk(s) {
      SmallerIndex(s.mem.cache, rebuilt.cache, s.mem.latest);
      LatestIsUnique(rebuilt.cache, rebuilt.latest, s.mem.latest);
    }
    if rebuilt.latest == s.mem.latest {
      forall u | u in s.mem.latest
        ensures s.mem.latest[u].run in rebuilt.cache
      {
        IndexPointsIntoCache(rebuilt.cache, rebuilt.latest, u);
      }
    }
  }

  // ----- reconciliation

  /** A failed run that a pass may queue again: no persisted result and attempts left. */
  predicate Eligible(cfg: Config, disk: Disk, r: RunId) {
    r in disk && disk[r].result.NoResult? && Attempts(disk[r].events) < cfg.maxAttempts
  }

  function EligibleOf(cfg: Config, disk: Disk, c: seq<RunId>): seq<RunId> {
    if c == [] then []
    else EligibleOf(cfg, disk, c[..|c| - 1]) + if Eligible(cfg, disk, c[|c| - 1]) then [c[|c| - 1]] else []
  }

  /** The steps that other threads can take while the reconciler holds the lock, and those of the pass itself. */
  predicate DuringPass(step: Step) {
    step.Take? || step.Write? || step.TearWrite? || step.Raise? || step.Reconcile?
  }

  /** A pass that began in `start` and has gone through `next` of its candidates. */
  ghost predicate PassProgress(cfg: Config, start: System, s: System)
    requires start.mem.Up? && start.mem.phase.Reconciling?
  {
    && s.mem.Up? && s.mem.phase.Reconciling?
    && s.mem.phase.candidates == start.mem.phase.candidates
    && s.mem.phase.next <= |s.mem.phase.candidates|
    && s.mem.phase.requeued == EligibleOf(cfg, start.disk, s.mem.phase.candidates[..s.mem.phase.next])
    && |s.mem.phase.requeued| <= cfg.batch
    && (forall i | s.mem.phase.next <= i < |s.mem.phase.candidates| ::
          s.mem.phase.candidates[i] in s.disk && s.mem.phase.candidates[i] in start.disk
          && s.disk[s.mem.phase.candidates[i]] == start.disk[s.mem.phase.candidates[i]])
  }

  lemma WriteSparesCandidates(cfg: Config, s: System, w: nat, i: nat)
    requires Inv(cfg, s) && BusyAt(s, w, Finished) && s.mem.phase.Reconciling?
    requires s.mem.phase.next <= i < |s.mem.phase.candidates|
    ensures s.mem.phase.candidates[i] != s.mem.jobs[w].run
  {
    CandidateIsFailed(cfg, s, s.mem.phase.candidates[i]);
    assert PcOk(s.disk, s.mem.jobs[w]);
  }

  lemma OtherStepKeepsProgress(cfg: Config, start: System, s: System, step: Step)
    requires start.mem.Up? && start.mem.phase.Reconciling? && Inv(cfg, s) && PassProgress(cfg, start, s)
    requires Enabled(cfg, s, step) && DuringPass(step) && !step.Reconcile?
    ensures PassProgress(cfg, start, Apply(cfg, s, step))
  {
    if step.Write? || step.TearWrite? {
      HeldRun(cfg, s, step.worker);
      forall i | s.mem.phase.next <= i < |s.mem.phase.candidates|
        ensures s.mem.phase.candidates[i] != s.mem.jobs[step.worker].run
      {
        WriteSparesCandidates(cfg, s, step.worker, i);
      }
    }
  }

  lemma ReconcileStepMoves(cfg: Config, s: System, at: Time)
    requires Enabled(cfg, s, Reconcile(at))
    requires !s.disk[s.mem.phase.candidates[s.mem.phase.next]].result.Unreadable?
    ensures var s', p := ReconcileOne(cfg, s, at), s.mem.phase;
            var r := p.candidates[p.next];
            && s'.mem.Up? && s'.mem.phase == Reconciling(p.covered, p.candidates, p.next + 1,
                 p.requeued + if Eligible(cfg, s.disk, r) then [r] else [])
            && OnlyChanges(s.disk, s'.disk, r)
  {
  }

  lemma EligibleOfNext(cfg: Config, disk: Disk, c: seq<RunId>, n: nat)
    requires n < |c|
    ensures EligibleOf(cfg, disk, c[..n + 1]) ==
            EligibleOf(cfg, disk, c[..n]) + if Eligible(cfg, disk, c[n]) then [c[n]] else []
  {
    assert c[..n + 1][..n] == c[..n];
  }

  lemma ProgressAdvances(cfg: Config, start: System, s: System, s': System)
    requires start.mem.Up? && start.mem.phase.Reconciling? && PassProgress(cfg, start, s) && !PassOver(cfg, s.mem)
    requires NoDuplicates(s.mem.phase.candidates)
    requires var p := s.mem.phase;
             var r := p.candidates[p.next];
             && s'.mem.Up? && s'.mem.phase == Reconciling(p.covered, p.candidates, p.next + 1,
                  p.requeued + if Eligible(cfg, s.disk, r) then [r] else [])
             && OnlyChanges(s.disk, s'.disk, r)
    ensures PassProgress(cfg, start, s')
  {
    var c, n := s.mem.phase.candidates, s.mem.phase.next;
    EligibleOfNext(cfg, start.disk, c, n);
    assert s.disk[c[n]] == start.disk[c[n]];
    forall i | n + 1 <= i < |c|
      ensures c[i] in s'.disk && s'.disk[c[i]] == start.disk[c[i]]
    {
      assert c[i] != c[n];
      assert s.disk[c[i]] == start.disk[c[i]];
    }
  }

  lemma ReconcileStepKeepsProgress(cfg: Config, start: System, s: System, at: Time)
    requires start.mem.Up? && start.mem.phase.Reconciling? && Inv(cfg, s) && PassProgress(cfg, start, s)
    requires Enabled(cfg, s, Reconcile(at))
    ensures PassProgress(cfg, start, ReconcileOne(cfg, s, at))
  {
    CandidateIsFailed(cfg, s, s.mem.phase.candidates[s.mem.phase.next]);
    ReconcileStepMoves(cfg, s, at);
    ProgressAdvances(cfg, start, s, ReconcileOne(cfg, s, at));
  }

  lemma StepKeepsProgress(cfg: Config, start: System, s: System, step: Step)
    requires start.mem.Up? && start.mem.phase.Reconciling? && Inv(cfg, s) && PassProgress(cfg, start, s)
    requires Enabled(cfg, s, step) && DuringPass(step)
    ensures PassProgress(cfg, start, Apply(cfg, s, step))
  {
    if step.Reconcile? {
      ReconcileStepKeepsProgress(cfg, start, s, step.at);
    } else {
      OtherStepKeepsProgress(cfg, start, s, step);
    }
  }

  lemma {:induction false} PassProgresses(cfg: Config, start: System, s: System, steps: seq<Step>)
    requires start.mem.Up? && start.mem.phase.Reconciling? && Inv(cfg, s) && PassProgress(cfg, start, s)
    requires ValidRun(cfg, s, steps) && forall i | 0 <= i < |steps| :: DuringPass(steps[i])
    ensures Inv(cfg, RunAll(cfg, s, steps)) && PassProgress(cfg, start, RunAll(cfg, s, steps))
    decreases |steps|
  {
    if steps != [] {
      StepKeepsInv(cfg, s, steps[0]);
      StepKeepsProgress(cfg, start, s, steps[0]);
      PassProgresses(cfg, start, Apply(cfg, s, steps[0]), steps[1..]);
    }
  }

  lemma {:induction false} EligibleOfPrefix(cfg: Config, disk: Disk, c: seq<RunId>, n: nat)
    requires n <= |c|
    ensures EligibleOf(cfg, disk, c[..n]) <= EligibleOf(cfg, disk, c)
    decreases |c|
  {
    if n == |c| {
      assert c[..n] == c;
    } else {
      EligibleOfPrefix(cfg, disk, c[..|c| - 1], n);
      assert c[..|c| - 1][..n] == c[..n];
    }
  }

  lemma PassBegins(cfg: Config, s: System, c: seq<RunId>)
    requires Inv(cfg, s) && Enabled(cfg, s, BeginPass(c))
    ensures var start := Apply(cfg, s, BeginPass(c));
            start.mem.Up? && start.mem.phase.Reconciling? && start.disk == s.disk && PassProgress(cfg, start, start)
  {
    assert c[..0] == [];
    forall i | 0 <= i < |c|
      ensures c[i] in s.disk
    {
      CandidateIsFailed(cfg, s, c[i]);
    }
  }

  lemma PassEnds(cfg: Config, start: System, end: System)
    requires start.mem.Up? && start.mem.phase.Reconciling? && PassProgress(cfg, start, end)
    requires PassOver(cfg, end.mem) && |end.mem.queue| <= cfg.maxQueued
    ensures var all, requeued := EligibleOf(cfg, start.disk, start.mem.phase.candidates), end.mem.phase.requeued;
            && requeued <= all && |requeued| <= cfg.batch
            && (requeued == all || |requeued| == cfg.batch || |end.mem.queue| == cfg.maxQueued)
  {
    var c := start.mem.phase.candidates;
    EligibleOfPrefix(cfg, start.disk, c, end.mem.phase.next);
    assert c[..|c|] == c;
  }

  /** One pass queues again, in candidate order, a prefix of the runs that were eligible when it began. It stops short
      of all of them only after a full batch or at a full queue. This holds with workers taking from the queue and
      storing results while the pass runs. */
  lemma PassRequeuesEligiblePrefix(cfg: Config, s: System, c: seq<RunId>, start: System, steps: seq<Step>, end: System)
    requires cfg.Valid() && Reachable(cfg, s)
    requires Enabled(cfg, s, BeginPass(c)) && start == Apply(cfg, s, BeginPass(c))
    requires ValidRun(cfg, start, steps) && end == RunAll(cfg, start, steps)
    requires forall i | 0 <= i < |steps| :: DuringPass(steps[i])
    requires end.mem.Up? && end.mem.phase.Reconciling? && PassOver(cfg, end.mem)
    ensures var all, requeued := EligibleOf(cfg, s.disk, c), end.mem.phase.requeued;
            && requeued <= all && |requeued| <= cfg.batch
            && (requeued == all || |requeued| == cfg.batch || |end.mem.queue| == cfg.maxQueued)
  {
    ReachableInv(cfg, s);
    BeginPassKeeps(cfg, s, c);
    PassBegins(cfg, s, c);
    PassProgresses(cfg, start, start, steps);
    PassEnds(cfg, start, end);
  }

  /** Callers are told `will_retry` for every run that a pass may queue again, and for no other run without a result. */
  lemma EligibleWereAnnounced(cfg: Config, s: System, r: RunId)
    requires cfg.Valid() && Reachable(cfg, s) && s.mem.Up? && r in s.mem.cache
    ensures r in s.disk
    ensures Candidate(cfg, s.mem, r) && Eligible(cfg, s.disk, r) <==>
              WillRetry(cfg, s.mem.cache[r]) && s.disk[r].result.NoResult?
  {
    ReachableInv(cfg, s);
    assert ViewOk(s.mem.cache[r], s.disk[r]);
  }

  ghost predicate Ordered(cfg: Config, m: Memory, c: seq<RunId>)
    requires m.Up?
  {
    && (forall i | 0 <= i < |c| :: c[i] in m.cache)
    && (forall i, j | 0 <= i < j < |c| :: Precedes(cfg, m, c[i], c[j]))
  }

  lemma {:induction false} OrderedIsUnique(cfg: Config, m: Memory, a: seq<RunId>, b: seq<RunId>)
    requires m.Up? && Ordered(cfg, m, a) && Ordered(cfg, m, b) && forall r :: r in a <==> r in b
    ensures a == b
  {
    SameEmptiness(a, b);
    if a != [] {
      assert a[0] in b;
      assert b[0] in a;
      assert a[0] == b[0];
      forall r
        ensures r in a[1..] <==> r in b[1..]
      {
        assert r in a[1..] ==> r in a && r != a[0];
        assert r in b[1..] ==> r in b && r != b[0];
      }
      OrderedIsUnique(cfg, m, a[1..], b[1..]);
    }
  }

  /** The order of a pass leaves no choice: its candidates are one definite sequence. */
  lemma CandidatesAreUnique(cfg: Config, m: Memory, a: seq<RunId>, b: seq<RunId>)
    requires m.Up? && SortedCandidates(cfg, m, a) && SortedCandidates(cfg, m, b)
    ensures a == b
  {
    forall r
      ensures r in a <==> r in b
    {
    }
    OrderedIsUnique(cfg, m, a, b);
  }

  lemma {:induction false} EligibleOfKeepsOrder(cfg: Config, m: Memory, disk: Disk, c: seq<RunId>)
    requires m.Up? && Ordered(cfg, m, c)
    ensures Ordered(cfg, m, EligibleOf(cfg, disk, c))
    ensures forall r :: r in EligibleOf(cfg, disk, c) <==> r in c && Eligible(cfg, disk, r)
  {
    if c != [] {
      var rest, last := c[..|c| - 1], c[|c| - 1];
      EligibleOfKeepsOrder(cfg, m, disk, rest);
      assert c == rest + [last];
      forall r | r in EligibleOf(cfg, disk, rest)
        ensures Precedes(cfg, m, r, last)
      {
        var i :| 0 <= i < |rest| && rest[i] == r;
        assert c[i] == r && c[|c| - 1] == last;
      }
    }
  }

  lemma PrefixComesFirst(cfg: Config, m: Memory, all: seq<RunId>, taken: seq<RunId>, a: RunId, b: RunId)
    requires m.Up? && Ordered(cfg, m, all) && taken <= all && a in taken && b in all && b !in taken
    ensures a in m.cache && b in m.cache && Precedes(cfg, m, a, b)
  {
    var i :| 0 <= i < |taken| && taken[i] == a;
    var j :| 0 <= j < |all| && all[j] == b;
    assert forall k | 0 <= k < |taken| :: all[k] == taken[k] && taken[k] in taken;
  }

  /** A pass takes the first of what it may take. No eligible run it leaves behind failed later than one it queues
      again, for agent runs, and none failed earlier, for plagiarism runs; ties go to the greater and to the smaller run
      id. */
  lemma PassTakesFirst(cfg: Config, s: System, c: seq<RunId>, start: System, steps: seq<Step>, end: System,
                       taken: RunId, left: RunId)
    requires cfg.Valid() && Reachable(cfg, s)
    requires Enabled(cfg, s, BeginPass(c)) && start == Apply(cfg, s, BeginPass(c))
    requires ValidRun(cfg, start, steps) && end == RunAll(cfg, start, steps)
    requires forall i | 0 <= i < |steps| :: DuringPass(steps[i])
    requires end.mem.Up? && end.mem.phase.Reconciling? && PassOver(cfg, end.mem)
    requires taken in end.mem.phase.requeued
    requires left in s.mem.cache && Candidate(cfg, s.mem, left) && Eligible(cfg, s.disk, left)
    requires left !in end.mem.phase.requeued
    ensures taken in s.mem.cache
    ensures var x, y := s.mem.cache[taken].updatedAt, s.mem.cache[left].updatedAt;
            && (cfg.policy == AGENT_POLICY ==> x > y || (x == y && taken > left))
            && (cfg.policy == PLAGIARISM_POLICY ==> x < y || (x == y && taken < left))
  {
    PassRequeuesEligiblePrefix(cfg, s, c, start, steps, end);
    EligibleOfKeepsOrder(cfg, s.mem, s.disk, c);
    PrefixComesFirst(cfg, s.mem, EligibleOf(cfg, s.disk, c), end.mem.phase.requeued, taken, left);
  }
}
