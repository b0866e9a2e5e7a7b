/** What becomes of each run: which failures are tried again, and the events that a recovery and a pass add. */
module RunFates {
  import opened Common
  import opened RunLog
  import opened RunMachine
  import opened RunInvariant
  import opened RunSteps
  import opened RunTheorems
  import opened RunViews

  // ----- which failures are tried again

  /** The last event is a failure with one of these codes, and the result file can be read if there is one. */
  predicate FailedWith(run: DiskRun, codes: set<Code>) {
    && run.events != [] && !run.result.Unreadable?
    && var last := run.events[|run.events| - 1]; last.state == Failed && last.code.Some? && last.code.value in codes
  }

  /** Lost and unavailable models are tried again for every agent run; two more codes for those started by hand. */
  predicate AgentTriesAgain(run: DiskRun) {
    || FailedWith(run, {"JOB_LOST", "MODEL_UNAVAILABLE"})
    || (run.meta.Some? && run.meta.value.manual && FailedWith(run, {"AGENT_EXECUTION_FAILED", "RESULT_INVALID"}))
  }

  predicate PlagiarismTriesAgain(run: DiskRun) {
    FailedWith(run, {"JOB_LOST", "PLAGIARISM_EXECUTION_FAILED", "SOURCE_BUNDLE_INVALID"})
  }

  predicate TriesAgain(policy: Policy, run: DiskRun) {
    (policy == AGENT_POLICY && AgentTriesAgain(run)) || (policy == PLAGIARISM_POLICY && PlagiarismTriesAgain(run))
  }

  lemma CandidateIffCode(cfg: Config, s: System, r: RunId)
    requires Inv(cfg, s) && s.mem.Up? && r in s.mem.cache
    ensures r in s.disk && s.disk[r].meta.Some? && s.disk[r].events != []
    ensures var run := s.disk[r]; var last := run.events[|run.events| - 1];
            Candidate(cfg, s.mem, r) <==>
              && !run.result.Unreadable? && last.state == Failed
              && RetryableCode(cfg.policy, run.meta.value, last.code)
  {
    assert ViewOk(s.mem.cache[r], s.disk[r]);
  }

  /** The candidates of a pass are exactly the known runs whose last event is a failure with one of the codes of the
      policy, and whose result file can be read if there is one. */
  lemma CandidatesAreTriedAgain(cfg: Config, s: System, r: RunId)
    requires cfg.Valid() && Reachable(cfg, s) && s.mem.Up? && r in s.mem.cache
    ensures r in s.disk
    ensures cfg.policy == AGENT_POLICY ==> (Candidate(cfg, s.mem, r) <==> AgentTriesAgain(s.disk[r]))
    ensures cfg.policy == PLAGIARISM_POLICY ==> (Candidate(cfg, s.mem, r) <==> PlagiarismTriesAgain(s.disk[r]))
  {
    ReachableInv(cfg, s);
    CandidateIffCode(cfg, s, r);
  }

  /** A published run that is to be tried again, without a result and with attempts left. */
  predicate DueAgain(cfg: Config, run: DiskRun) {
    run.ready && TriesAgain(cfg.policy, run) && run.result.NoResult? && Attempts(run.events) < cfg.maxAttempts
  }

  lemma DueIsEligible(cfg: Config, s: System, c: seq<RunId>, r: RunId)
    requires cfg.Valid() && Reachable(cfg, s) && s.mem.Up? && SortedCandidates(cfg, s.mem, c)
    requires r in s.disk && DueAgain(cfg, s.disk[r])
    ensures r in c && r in EligibleOf(cfg, s.disk, c)
  {
    ReachableInv(cfg, s);
    assert RunOk(cfg, s.disk[r]);
    CandidatesAreTriedAgain(cfg, s, r);
    EligibleOfKeepsOrder(cfg, s.mem, s.disk, c);
  }

  lemma EligibleIsDue(cfg: Config, s: System, c: seq<RunId>, r: RunId)
    requires cfg.Valid() && Reachable(cfg, s) && s.mem.Up? && SortedCandidates(cfg, s.mem, c)
    requires cfg.policy == AGENT_POLICY || cfg.policy == PLAGIARISM_POLICY
    requires r in EligibleOf(cfg, s.disk, c)
    ensures r in s.disk && DueAgain(cfg, s.disk[r])
  {
    ReachableInv(cfg, s);
    EligibleOfKeepsOrder(cfg, s.mem, s.disk, c);
    CandidateIsFailed(cfg, s, r);
    CandidatesAreTriedAgain(cfg, s, r);
  }

  /** A pass queues again only runs that are due, and all of them unless it fills a batch or the queue. This holds with
      workers taking from the queue and storing results meanwhile. */
  lemma PassQueuesDueRuns(cfg: Config, s: System, c: seq<RunId>, start: System, steps: seq<Step>, end: System, r: RunId)
    requires cfg.Valid() && Reachable(cfg, s)
    requires cfg.policy == AGENT_POLICY || cfg.policy == PLAGIARISM_POLICY
    requires Enabled(cfg, s, BeginPass(c)) && start == Apply(cfg, s, BeginPass(c))
    requires ValidRun(cfg, start, steps) && end == RunAll(cfg, start, steps)
    requires forall i | 0 <= i < |steps| :: DuringPass(steps[i])
    requires end.mem.Up? && end.mem.phase.Reconciling? && PassOver(cfg, end.mem)
    ensures r in end.mem.phase.requeued ==> r in s.disk && DueAgain(cfg, s.disk[r])
    ensures |end.mem.phase.requeued| < cfg.batch && |end.mem.queue| < cfg.maxQueued ==>
              r in s.disk && DueAgain(cfg, s.disk[r]) ==> r in end.mem.phase.requeued
  {
    PassRequeuesEligiblePrefix(cfg, s, c, start, steps, end);
    var all, requeued := EligibleOf(cfg, s.disk, c), end.mem.phase.requeued;
    if r in requeued {
      var i :| 0 <= i < |requeued| && requeued[i] == r;
      assert all[i] == r;
      EligibleIsDue(cfg, s, c, r);
    }
    if r in s.disk && DueAgain(cfg, s.disk[r]) {
      DueIsEligible(cfg, s, c, r);
    }
  }

  // ----- the events of a pass

  /** A pass from its current point to its end. */
  ghost function ReconcileAll(cfg: Config, s: System, clock: RunId -> Time): System
    requires cfg.Valid() && Reachable(cfg, s) && s.mem.Up? && s.mem.phase.Reconciling?
    decreases |s.mem.phase.candidates| - s.mem.phase.next
  {
    if PassOver(cfg, s.mem) then SetPhase(s, Serving(s.mem.phase.covered))
    else
      var r := s.mem.phase.candidates[s.mem.phase.next];
      NextCandidate(cfg, s, clock(r));
      ReconcileAll(cfg, ReconcileOne(cfg, s, clock(r)), clock)
  }

  lemma NextCandidate(cfg: Config, s: System, at: Time)
    requires cfg.Valid() && Reachable(cfg, s) && s.mem.Up? && s.mem.phase.Reconciling? && !PassOver(cfg, s.mem)
    ensures Enabled(cfg, s, Reconcile(at)) && Reachable(cfg, ReconcileOne(cfg, s, at))
    ensures var p := s.mem.phase;
            var r := p.candidates[p.next];
            ReconcileOne(cfg, s, at).mem.phase == Reconciling(p.covered, p.candidates, p.next + 1,
              p.requeued + if Eligible(cfg, s.disk, r) then [r] else [])
  {
    ReachableInv(cfg, s);
    CandidateIsFailed(cfg, s, s.mem.phase.candidates[s.mem.phase.next]);
    StepIsReachable(cfg, s, Reconcile(at));
    ReconcileStepMoves(cfg, s, at);
  }

  /** A candidate after its turn: completed from its result, queued again, or out of attempts. */
  function Reconciled(cfg: Config, run: DiskRun, at: Time): DiskRun {
    var n := |run.events| + 1;
    if run.result.Readable? then run.(events := run.events + [Event(n, Completed, at, None)])
    else if Attempts(run.events) < cfg.maxAttempts then run.(events := run.events + [Event(n, Queued, at, None)])
    else run
  }

  lemma ReconcileOneFate(cfg: Config, s: System, at: Time)
    requires Enabled(cfg, s, Reconcile(at))
    requires !s.disk[s.mem.phase.candidates[s.mem.phase.next]].result.Unreadable?
    ensures var p, s' := s.mem.phase, ReconcileOne(cfg, s, at);
            && p.candidates[p.next] in s'.disk && OnlyChanges(s.disk, s'.disk, p.candidates[p.next])
            && s'.disk[p.candidates[p.next]] == Reconciled(cfg, s.disk[p.candidates[p.next]], at)
  {
  }

  lemma NextIsReadable(cfg: Config, s: System)
    requires cfg.Valid() && Reachable(cfg, s) && s.mem.Up? && s.mem.phase.Reconciling? && !PassOver(cfg, s.mem)
    ensures var r := s.mem.phase.candidates[s.mem.phase.next]; r in s.disk && !s.disk[r].result.Unreadable?
  {
    ReachableInv(cfg, s);
    CandidateIsFailed(cfg, s, s.mem.phase.candidates[s.mem.phase.next]);
  }

  /** The first `n` of these runs have had their turn, and no other run has changed. */
  ghost predicate Treated(disk: Disk, disk': Disk, c: seq<RunId>, n: nat, fate: (RunId, DiskRun) -> DiskRun) {
    && n <= |c| && disk'.Keys == disk.Keys
    && (forall i | 0 <= i < n :: c[i] in disk && disk'[c[i]] == fate(c[i], disk[c[i]]))
    && (forall r | r in disk && r !in c[..n] :: disk'[r] == disk[r])
  }

  lemma TreatedStep(disk: Disk, middle: Disk, disk': Disk, c: seq<RunId>, n: nat, fate: (RunId, DiskRun) -> DiskRun)
    requires c != [] && NoDuplicates(c) && c[0] in disk && c[0] in middle && OnlyChanges(disk, middle, c[0])
    requires middle[c[0]] == fate(c[0], disk[c[0]]) && Treated(middle, disk', c[1..], n, fate)
    ensures Treated(disk, disk', c, n + 1, fate)
  {
    assert c[..n + 1] == [c[0]] + c[1..][..n];
    assert c[0] !in c[1..];
    forall i | 0 <= i < n + 1
      ensures c[i] in disk && disk'[c[i]] == fate(c[i], disk[c[i]])
    {
      if i > 0 {
        assert c[i] == c[1..][i - 1];
      }
    }
    forall r | r in disk && r !in c[..n + 1]
      ensures disk'[r] == disk[r]
    {
      assert r != c[0] && r !in c[1..][..n];
    }
  }

  lemma PassFacts(cfg: Config, s: System)
    requires cfg.Valid() && Reachable(cfg, s) && s.mem.Up? && s.mem.phase.Reconciling?
    ensures s.mem.phase.next <= |s.mem.phase.candidates| && NoDuplicates(s.mem.phase.candidates)
  {
    ReachableInv(cfg, s);
  }

  /** A pass gives the candidates their turn in order, each with its own clock reading, until it is over. */
  lemma {:induction false} PassTreats(cfg: Config, s: System, clock: RunId -> Time) returns (n: nat)
    requires cfg.Valid() && Reachable(cfg, s) && s.mem.Up? && s.mem.phase.Reconciling?
    ensures s.mem.phase.next <= |s.mem.phase.candidates| && ReconcileAll(cfg, s, clock).mem.Up?
    ensures Treated(s.disk, ReconcileAll(cfg, s, clock).disk, s.mem.phase.candidates[s.mem.phase.next..], n,
                    (r: RunId, run: DiskRun) => Reconciled(cfg, run, clock(r)))
    decreases |s.mem.phase.candidates| - s.mem.phase.next
  {
    PassFacts(cfg, s);
    n := 0;
    var p := s.mem.phase;
    if !PassOver(cfg, s.mem) {
      var r := p.candidates[p.next];
      NextCandidate(cfg, s, clock(r));
      NextIsReadable(cfg, s);
      ReconcileOneFate(cfg, s, clock(r));
      var s' := ReconcileOne(cfg, s, clock(r));
      n := PassTreats(cfg, s', clock);
      assert p.candidates[p.next..][1..] == p.candidates[p.next + 1..];
      TreatedStep(s.disk, s'.disk, ReconcileAll(cfg, s, clock).disk, p.candidates[p.next..], n,
                  (q: RunId, run: DiskRun) => Reconciled(cfg, run, clock(q)));
      n := n + 1;
    }
  }

  // ----- the events of a recovery

  /** A run after its turn in a recovery: concluded from its result if it was being finished, lost if it was being
      worked on, untouched otherwise. */
  function Recovered(cfg: Config, run: DiskRun, at: Time): DiskRun {
    if run.events == [] then run
    else
      var n, last := |run.events| + 1, run.events[|run.events| - 1].state;
      if last == Finalizing && run.result.Readable? then run.(events := run.events + [Event(n, Completed, at, None)])
      else if last == Finalizing && run.result.Unreadable? then
        run.(events := run.events + [Event(n, Failed, at, Some(cfg.policy.resultInvalid))])
      else if last == Preparing || last == Running || last == Finalizing then
        run.(events := run.events + [Event(n, Failed, at, Some("JOB_LOST"))])
      else run
  }

  /** The code under which a result that cannot be read back is recorded. */
  lemma UnreadableResultIsRecorded(cfg: Config, run: DiskRun, at: Time)
    requires run.events != [] && run.Last() == Finalizing && run.result.Unreadable?
    ensures var after := Recovered(cfg, run, at);
            && |after.events| == |run.events| + 1
            && (cfg.policy == AGENT_POLICY ==> after.events[|run.events|].code == Some("RESULT_RECORD_INVALID"))
            && (cfg.policy == PLAGIARISM_POLICY ==>
                  after.events[|run.events|].code == Some("PLAGIARISM_RESULT_RECORD_INVALID"))
  {
  }

  predicate IsWaiting(disk: Disk, r: RunId) {
    r in disk && disk[r].events != [] && disk[r].events[|disk[r].events| - 1].state == Queued
  }

  /** The waiting runs of a scan, in its order. */
  function WaitingIn(disk: Disk, scan: seq<RunId>): seq<RunId> {
    if scan == [] then [] else (if IsWaiting(disk, scan[0]) then [scan[0]] else []) + WaitingIn(disk, scan[1..])
  }

  lemma {:induction false} WaitingInFrame(disk: Disk, disk': Disk, r: RunId, scan: seq<RunId>)
    requires OnlyChanges(disk, disk', r) && r !in scan
    ensures WaitingIn(disk', scan) == WaitingIn(disk, scan)
  {
    if scan != [] {
      WaitingInFrame(disk, disk', r, scan[1..]);
    }
  }

  lemma RecoverOneFate(cfg: Config, s: System, at: Time)
    requires Enabled(cfg, s, Recover(at))
    ensures var r, s' := s.mem.phase.todo[0], RecoverOne(cfg, s, at);
            var waits := s.mem.enabled && IsWaiting(s.disk, r);
            && s'.mem.Up? && s'.mem.enabled == s.mem.enabled
            && if waits && |s.mem.queue| >= cfg.maxQueued then s' == SetPhase(s, Serving(false))
               else
                 && s'.mem.phase == Recovering(s.mem.phase.todo[1..])
                 && s'.mem.queue == s.mem.queue + (if waits then [r] else [])
                 && r in s'.disk && OnlyChanges(s.disk, s'.disk, r) && s'.disk[r] == Recovered(cfg, s.disk[r], at)
  {
  }

  lemma NothingTreated(disk: Disk, c: seq<RunId>, fate: (RunId, DiskRun) -> DiskRun)
    ensures Treated(disk, disk, c, 0, fate)
  {
  }

  /** What a recovery of the scan `todo` has done when it ends after `n` runs. */
  ghost predicate RecoveredUpTo(cfg: Config, s: System, end: System, todo: seq<RunId>, n: nat, clock: RunId -> Time)
    requires s.mem.Up?
  {
    && end.mem.Up?
    && Treated(s.disk, end.disk, todo, n, (r: RunId, run: DiskRun) => Recovered(cfg, run, clock(r)))
    && end.mem.phase == Serving(n == |todo|)
    && end.mem.queue == s.mem.queue + (if s.mem.enabled then WaitingIn(s.disk, todo[..n]) else [])
    && (n < |todo| ==> s.mem.enabled && IsWaiting(s.disk, todo[n]) && |end.mem.queue| >= cfg.maxQueued)
  }

  lemma RecoveryStopsAtOnce(cfg: Config, s: System, todo: seq<RunId>, covered: bool, clock: RunId -> Time)
    requires s.mem.Up? && (todo == [] <==> covered)
    requires !covered ==> s.mem.enabled && IsWaiting(s.disk, todo[0]) && |s.mem.queue| >= cfg.maxQueued
    ensures RecoveredUpTo(cfg, s, SetPhase(s, Serving(covered)), todo, 0, clock)
  {
    NothingTreated(s.disk, todo, (r: RunId, run: DiskRun) => Recovered(cfg, run, clock(r)));
    assert todo[..0] == [];
  }

  lemma WaitingInStep(disk: Disk, disk': Disk, todo: seq<RunId>, n: nat)
    requires todo != [] && n < |todo| && OnlyChanges(disk, disk', todo[0]) && todo[0] !in todo[1..]
    ensures WaitingIn(disk, todo[..n + 1]) ==
            (if IsWaiting(disk, todo[0]) then [todo[0]] else []) + WaitingIn(disk', todo[1..][..n])
    ensures n + 1 < |todo| ==> (IsWaiting(disk', todo[1..][n]) <==> IsWaiting(disk, todo[n + 1]))
  {
    assert todo[..n + 1][1..] == todo[1..][..n];
    WaitingInFrame(disk, disk', todo[0], todo[1..][..n]);
    if n + 1 < |todo| {
      assert todo[1..][n] == todo[n + 1] && todo[n + 1] in todo[1..];
    }
  }

  lemma QueueGrows(queue: seq<RunId>, first: seq<RunId>, rest: seq<RunId>)
    ensures queue + first + rest == queue + (first + rest)
  {
  }

  lemma RecoveryGoesOn(cfg: Config, s: System, s': System, end: System, todo: seq<RunId>, n: nat, clock: RunId -> Time)
    requires s.mem.Up? && s'.mem.Up? && s'.mem.enabled == s.mem.enabled && todo != [] && NoDuplicates(todo)
    requires var r := todo[0];
             && r in s.disk && r in s'.disk && OnlyChanges(s.disk, s'.disk, r)
             && s'.disk[r] == Recovered(cfg, s.disk[r], clock(r))
             && s'.mem.queue == s.mem.queue + (if s.mem.enabled && IsWaiting(s.disk, r) then [r] else [])
    requires RecoveredUpTo(cfg, s', end, todo[1..], n, clock)
    ensures RecoveredUpTo(cfg, s, end, todo, n + 1, clock)
  {
    TreatedStep(s.disk, s'.disk, end.disk, todo, n, (r: RunId, run: DiskRun) => Recovered(cfg, run, clock(r)));
    assert todo[0] !in todo[1..];
    WaitingInStep(s.disk, s'.disk, todo, n);
    if s.mem.enabled {
      QueueGrows(s.mem.queue, if IsWaiting(s.disk, todo[0]) then [todo[0]] else [], WaitingIn(s'.disk, todo[1..][..n]));
    }
  }

  /** A recovery gives the runs of its scan their turn in order, each with its own clock reading, and queues the waiting
      ones in that order. It ends early only at a waiting run that finds the queue full. */
  lemma {:induction false} RecoveryTreats(cfg: Config, s: System, clock: RunId -> Time) returns (n: nat)
    requires cfg.Valid() && Reachable(cfg, s) && s.mem.Up? && s.mem.phase.Recovering?
    ensures RecoveredUpTo(cfg, s, RecoverAll(cfg, s, clock), s.mem.phase.todo, n, clock)
    decreases |s.mem.phase.todo|
  {
    var todo := s.mem.phase.todo;
    if todo == [] {
      n := 0;
      RecoveryStopsAtOnce(cfg, s, todo, true, clock);
    } else {
      RecoveringFacts(cfg, s);
      NextIsLive(cfg, s);
      var at := clock(todo[0]);
      RecoverOneFate(cfg, s, at);
      var s' := RecoverOne(cfg, s, at);
      StepIsReachable(cfg, s, Recover(at));
      if s'.mem.phase.Recovering? {
        n := RecoveryTreats(cfg, s', clock);
        RecoveryGoesOn(cfg, s, s', RecoverAll(cfg, s', clock), todo, n, clock);
        n := n + 1;
      } else {
        n := 0;
        RecoveryStopsAtOnce(cfg, s, todo, false, clock);
      }
    }
  }
}
