/** What the run queue guarantees in every reachable state and over every continuation of a run. */
module RunTheorems {
  import opened Common
  import EventNames
  import opened RunLog
  import opened RunMachine
  import opened RunInvariant
  import opened RunSteps

  // ----- attempts and ownership

  ghost function Holders(m: Memory, r: RunId): set<nat>
    requires m.Up?
  {
    set w | w in m.jobs && m.jobs[w].run == r
  }

  /** How often a run occurs across the queue and all workers. */
  ghost function Occurrences(m: Memory, r: RunId): nat
    requires m.Up?
  {
    multiset(m.queue)[r] + |Holders(m, r)|
  }

  lemma {:induction false} MultiplicityOfDistinct(q: seq<RunId>, r: RunId)
    requires NoDuplicates(q)
    ensures multiset(q)[r] == if r in q then 1 else 0
  {
    if q != [] {
      var n := |q| - 1;
      assert q == q[..n] + [q[n]];
      MultiplicityOfDistinct(q[..n], r);
    }
  }

  lemma OneHolder(cfg: Config, s: System, r: RunId)
    requires Inv(cfg, s) && s.mem.Up?
    ensures |Holders(s.mem, r)| == if HeldByWorker(s.mem.jobs, r) then 1 else 0
    ensures !(r in s.mem.queue && HeldByWorker(s.mem.jobs, r))
  {
    if HeldByWorker(s.mem.jobs, r) {
      var w :| w in s.mem.jobs && s.mem.jobs[w].run == r;
      assert Holders(s.mem, r) == {w};
    } else {
      assert Holders(s.mem, r) == {};
    }
  }

  /** Whatever the interleaving of requests, workers, reconciliation, crashes and restarts, a run is attempted, and
      its executor called, at most `maxAttempts` times, and it is never in two places at once. */
  lemma BoundedAttempts(cfg: Config, s: System, r: RunId)
    requires cfg.Valid() && Reachable(cfg, s) && r in s.disk
    ensures Count(s.disk[r].events, Preparing) <= cfg.maxAttempts
    ensures Count(s.disk[r].events, Running) <= cfg.maxAttempts
    ensures s.disk[r].events != [] && s.disk[r].Last().Queued? ==> Attempts(s.disk[r].events) < cfg.maxAttempts
    ensures s.mem.Up? ==> Occurrences(s.mem, r) <= 1
  {
    ReachableInv(cfg, s);
    var run := s.disk[r];
    assert RunOk(cfg, run);
    if run.events != [] {
      LegalLogCounts(run.events);
    }
    if !run.ready && run.events != [] {
      assert run.events[..0] == [];
    }
    if s.mem.Up? {
      MultiplicityOfDistinct(s.mem.queue, r);
      OneHolder(cfg, s, r);
    }
  }

  /** Every published log follows the legal edges from `queued`, is numbered 1..n, and has as many attempts as
      queueings, but for a queueing still waiting to be taken. */
  lemma LogsAreLegalPaths(cfg: Config, s: System, r: RunId)
    requires cfg.Valid() && Reachable(cfg, s) && r in s.disk && s.disk[r].ready
    ensures LegalLog(s.disk[r].events)
    ensures var log := s.disk[r].events;
            forall i | 0 < i < |log| ::
              var (a, b) := (log[i - 1].state, log[i].state);
              || (a == Queued && b == Preparing) || (a == Preparing && b == Running)
              || (a == Running && b == Finalizing) || (a == Finalizing && b == Completed)
              || (a == Failed && (b == Queued || b == Completed))
              || (b == Failed && a != Queued && a != Failed)
    ensures Count(s.disk[r].events, Queued) - Count(s.disk[r].events, Preparing) ==
            if s.disk[r].Last().Queued? then 1 else 0
  {
    ReachableInv(cfg, s);
    assert RunOk(cfg, s.disk[r]);
    LegalLogCounts(s.disk[r].events);
  }

  lemma CompletedOnce(cfg: Config, run: DiskRun)
    requires RunOk(cfg, run) && run.ready
    ensures Count(run.events, Completed) <= 1
  {
    var log := run.events;
    var n := |log|;
    if n >= 2 {
      var rest := log[..n - 2];
      assert forall i | 0 <= i < |rest| :: rest[i] == log[i];
      CountNone(rest, Completed);
      assert log[..n - 1][..n - 2] == rest;
      assert Count(log[..n - 1], Completed) == if log[n - 2].state.Completed? then 1 else 0;
    } else {
      assert log[..n - 1] == [];
    }
  }

  /** No published log ever grows beyond a fixed length. */
  lemma LogsAreShort(cfg: Config, s: System, r: RunId)
    requires cfg.Valid() && Reachable(cfg, s) && r in s.disk && s.disk[r].ready
    ensures |s.disk[r].events| <= 5 * cfg.maxAttempts + 2
  {
    ReachableInv(cfg, s);
    var run := s.disk[r];
    assert RunOk(cfg, run);
    EventCountIsLength(run.events);
    LegalLogCounts(run.events);
    LegalLogAnswersFailures(run.events);
    CompletedOnce(cfg, run);
  }

  /** Reading the event file with the greatest name reads the newest event of every published run in every reachable
      state, for every attempt limit below twenty million. */
  lemma NewestNameIsNewestEvent(cfg: Config, s: System, r: RunId)
    requires cfg.Valid() && Reachable(cfg, s) && r in s.disk && s.disk[r].ready && cfg.maxAttempts < 20_000_000
    ensures EventNames.LastNameSortsLast(s.disk[r].events, EventNames.NAME_WIDTH)
  {
    LogsAreShort(cfg, s, r);
    LogsAreLegalPaths(cfg, s, r);
    EventNames.NewestByNameIffFewerThanLimit(s.disk[r].events);
  }

  /** No `put` ever overflows the queue, and what waits in it is published and due: each entry is a run whose last
      event is `queued` and that has attempts left. */
  lemma QueueHoldsDueRuns(cfg: Config, s: System)
    requires cfg.Valid() && Reachable(cfg, s) && s.mem.Up?
    ensures |s.mem.queue| <= cfg.maxQueued && NoDuplicates(s.mem.queue)
    ensures forall r | r in s.mem.queue ::
              && Queueable(s.disk, r) && s.disk[r].result.NoResult? && Attempts(s.disk[r].events) < cfg.maxAttempts
  {
    ReachableInv(cfg, s);
    forall r | r in s.mem.queue
      ensures Queueable(s.disk, r) && s.disk[r].result.NoResult? && Attempts(s.disk[r].events) < cfg.maxAttempts
    {
      assert RunOk(cfg, s.disk[r]);
    }
  }

  // ----- results

  /** A run that is waiting or being worked on has no result file, so a worker that is about to store its result
      finds the place free: the create-only write never collides. */
  lemma ResultWriteNeverCollides(cfg: Config, s: System)
    requires cfg.Valid() && Reachable(cfg, s)
    ensures forall r | r in s.disk && s.disk[r].events != [] ::
              (var last := s.disk[r].Last(); last.Queued? || last.Preparing? || last.Running?) ==>
                s.disk[r].result.NoResult?
    ensures forall w, file | BusyAt(s, w, Finished) ::
              var r := s.mem.jobs[w].run;
              WriteResult(cfg, s, w, file) ==
                SetJob(s.(disk := s.disk[r := s.disk[r].(result := file)]), w, Job(r, Written))
  {
    ReachableInv(cfg, s);
    forall r | r in s.disk && s.disk[r].events != []
      ensures (var last := s.disk[r].Last(); last.Queued? || last.Preparing? || last.Running?) ==>
              s.disk[r].result.NoResult?
    {
      assert RunOk(cfg, s.disk[r]);
    }
    forall w | BusyAt(s, w, Finished)
      ensures s.disk[s.mem.jobs[w].run].result.NoResult?
    {
      assert PcOk(s.disk, s.mem.jobs[w]);
    }
  }

  /** What is durable only grows: metadata, published flags and results stay, logs are extended. */
  ghost predicate Grows(before: DiskRun, after: DiskRun) {
    && before.events <= after.events
    && (before.ready ==> after.ready)
    && (before.meta.Some? ==> after.meta == before.meta)
    && (!before.result.NoResult? ==> after.result == before.result)
  }

  ghost predicate DiskGrows(before: Disk, after: Disk) {
    forall r | r in before :: r in after && Grows(before[r], after[r])
  }

  lemma WriteGrows(cfg: Config, s: System, w: nat, file: ResultFile)
    requires BusyAt(s, w, Finished) && PcOk(s.disk, s.mem.jobs[w])
    ensures var r := s.mem.jobs[w].run; DiskGrows(s.disk, s.disk[r := s.disk[r].(result := file)])
  {
  }

  lemma AppendStepGrows(s: System, r: RunId, state: State, at: Time, code: Option<Code>)
    requires s.mem.Up? && r in s.disk
    ensures DiskGrows(s.disk, Append(s, r, state, at, code).disk)
  {
  }

  lemma RecoverPersistedGrows(cfg: Config, s: System, r: RunId, at: Time)
    requires s.mem.Up? && r in s.disk
    ensures DiskGrows(s.disk, RecoverPersisted(cfg, s, r, at).disk)
  {
  }

  lemma RecoverGrows(cfg: Config, s: System, at: Time)
    requires Enabled(cfg, s, Recover(at))
    ensures DiskGrows(s.disk, RecoverOne(cfg, s, at).disk)
  {
    var r := s.mem.phase.todo[0];
    var rest := SetPhase(s, Recovering(s.mem.phase.todo[1..]));
    RecoverPersistedGrows(cfg, rest, r, at);
    AppendStepGrows(rest, r, Failed, at, Some(JOB_LOST));
  }

  lemma ReconcileGrows(cfg: Config, s: System, at: Time)
    requires Enabled(cfg, s, Reconcile(at))
    ensures DiskGrows(s.disk, ReconcileOne(cfg, s, at).disk)
  {
    var p := s.mem.phase;
    var r := p.candidates[p.next];
    RecoverPersistedGrows(cfg, SetPhase(s, p.(next := p.next + 1)), r, at);
    AppendStepGrows(SetPhase(s, p.(next := p.next + 1, requeued := p.requeued + [r])), r, Queued, at, None);
  }

  lemma WorkerAppendGrows(cfg: Config, s: System, step: Step)
    requires Enabled(cfg, s, step)
    requires step.Prepare? || step.Accept? || step.Finish? || step.CompleteRun? || step.HandleFailure?
    ensures DiskGrows(s.disk, Apply(cfg, s, step).disk)
  {
    var r := s.mem.jobs[step.worker].run;
    match step {
      case Prepare(_, at) => AppendStepGrows(s, r, Preparing, at, None);
      case Accept(_, at) => AppendStepGrows(s, r, Running, at, None);
      case Finish(_, at) => AppendStepGrows(s, r, Finalizing, at, None);
      case CompleteRun(_, at) => AppendStepGrows(s, r, Completed, at, None);
      case HandleFailure(w, at) => AppendStepGrows(s, r, Failed, at, Some(s.mem.jobs[w].pc.code));
    }
  }

  lemma StepGrows(cfg: Config, s: System, step: Step)
    requires Inv(cfg, s) && Enabled(cfg, s, step)
    ensures DiskGrows(s.disk, Apply(cfg, s, step).disk)
  {
    if step.Prepare? || step.Accept? || step.Finish? || step.CompleteRun? || step.HandleFailure? {
      WorkerAppendGrows(cfg, s, step);
    } else if step.Recover? {
      RecoverGrows(cfg, s, step.at);
    } else if step.Reconcile? {
      ReconcileGrows(cfg, s, step.at);
    } else if step.Write? || step.TearWrite? {
      HeldRun(cfg, s, step.worker);
      WriteGrows(cfg, s, step.worker, if step.Write? then step.file else Unreadable);
    } else {
      MemoryStepGrows(cfg, s, step);
    }
  }

  lemma MemoryStepGrows(cfg: Config, s: System, step: Step)
    requires Enabled(cfg, s, step) && !step.Recover? && !step.Reconcile? && !step.Write? && !step.TearWrite?
    requires !(step.Prepare? || step.Accept? || step.Finish? || step.CompleteRun? || step.HandleFailure?)
    ensures DiskGrows(s.disk, Apply(cfg, s, step).disk)
  {
  }

  lemma {:induction false} RunGrows(cfg: Config, s: System, steps: seq<Step>)
    requires Inv(cfg, s) && ValidRun(cfg, s, steps)
    ensures DiskGrows(s.disk, RunAll(cfg, s, steps).disk)
    decreases |steps|
  {
    if steps != [] {
      var s1 := Apply(cfg, s, steps[0]);
      StepGrows(cfg, s, steps[0]);
      StepKeepsInv(cfg, s, steps[0]);
      RunGrows(cfg, s1, steps[1..]);
      var s2 := RunAll(cfg, s, steps);
      forall r | r in s.disk
        ensures r in s2.disk && Grows(s.disk[r], s2.disk[r])
      {
        assert Grows(s.disk[r], s1.disk[r]) && Grows(s1.disk[r], s2.disk[r]);
      }
    }
  }

  /** Once a run is completed with a result that can be read, nothing the service, a crash or a restart does ever
      appends to its log or changes its result. */
  lemma CompletionIsFinal(cfg: Config, s: System, steps: seq<Step>, r: RunId)
    requires cfg.Valid() && Reachable(cfg, s) && ValidRun(cfg, s, steps)
    requires r in s.disk && s.disk[r].events != [] && s.disk[r].Last().Completed? && s.disk[r].result.Readable?
    ensures var s' := RunAll(cfg, s, steps);
            r in s'.disk && s'.disk[r].events == s.disk[r].events && s'.disk[r].result == s.disk[r].result
  {
    ReachableInv(cfg, s);
    RunKeepsInv(cfg, s, steps);
    RunGrows(cfg, s, steps);
    var run, after := s.disk[r], RunAll(cfg, s, steps).disk[r];
    assert Grows(run, after) && RunOk(cfg, run) && RunOk(cfg, after);
    assert after.events[|run.events| - 1] == run.events[|run.events| - 1];
  }

  /** A `completed` event is only ever appended over an existing result file, and a run is only shown as completed
      with the very result that is stored. */
  lemma CompletionIsHonest(cfg: Config, s: System, r: RunId)
    requires cfg.Valid() && Reachable(cfg, s) && r in s.disk
    ensures (exists e :: e in s.disk[r].events && e.state.Completed?) ==> !s.disk[r].result.NoResult?
    ensures s.mem.Up? && r in s.mem.cache && s.mem.cache[r].state.Completed? ==>
              && s.disk[r].events != [] && s.disk[r].Last().Completed?
              && s.mem.cache[r].result.Some? && s.disk[r].result == Readable(s.mem.cache[r].result.value)
  {
    ReachableInv(cfg, s);
    CompletedHasResult(cfg, s.disk[r]);
    if s.mem.Up? && r in s.mem.cache {
      assert ViewOk(s.mem.cache[r], s.disk[r]);
    }
  }

  lemma CompletedHasResult(cfg: Config, run: DiskRun)
    requires cfg.Valid() && RunOk(cfg, run)
    ensures (exists e :: e in run.events && e.state.Completed?) ==> !run.result.NoResult?
  {
    forall i | 0 <= i < |run.events| && run.events[i].state.Completed?
      ensures !run.result.NoResult?
    {
    }
  }

  /** The last steps of a worker that has stored its result. */
  ghost function Conclude(cfg: Config, s: System, w: nat, completedAt: Time, handledAt: Time): System
    requires s.mem.Up? && w in s.mem.jobs && s.mem.jobs[w].run in s.disk
  {
    var s' := Complete(cfg, s, w, completedAt);
    if w in s'.mem.jobs then Handle(s', w, handledAt) else s'
  }

  /** Without the read limit the service would keep its promise; with it, a stored result that cannot be read back is
      announced and then withdrawn: `completed` is followed by `failed`, and the worker thread is gone. Completion
      is final exactly when the result is readable. */
  lemma ConclusionIsFinalIffReadable(cfg: Config, s: System, w: nat, completedAt: Time, handledAt: Time)
    requires cfg.Valid() && Reachable(cfg, s) && Enabled(cfg, s, CompleteRun(w, completedAt))
    ensures var r := s.mem.jobs[w].run;
            var log, s' := s.disk[r].events, Conclude(cfg, s, w, completedAt, handledAt);
            var after := s'.disk[r];
            && |after.events| > |log| && after.events[|log|].state.Completed?
            && (after.Last().Completed? <==> s.disk[r].result.Readable?)
            && (after.Last().Completed? <==> |after.events| == |log| + 1)
            && (w in s'.mem.dead <==> !s.disk[r].result.Readable?)
  {
    ReachableInv(cfg, s);
    HeldRun(cfg, s, w);
    ConclusionCases(cfg, s, w, completedAt, handledAt);
  }

  lemma ConclusionCases(cfg: Config, s: System, w: nat, completedAt: Time, handledAt: Time)
    requires BusyAt(s, w, Written) && PcOk(s.disk, s.mem.jobs[w]) && w !in s.mem.dead
    requires s.mem.jobs[w].run in s.mem.cache
    ensures var r := s.mem.jobs[w].run;
            var log, s' := s.disk[r].events, Conclude(cfg, s, w, completedAt, handledAt);
            var completed := log + [Event(|log| + 1, Completed, completedAt, None)];
            && s'.disk[r].events == (if s.disk[r].result.Readable? then completed
                 else completed + [Event(|log| + 2, Failed, handledAt, Some(cfg.policy.executionFailed))])
            && s'.mem.dead == (if s.disk[r].result.Readable? then s.mem.dead else s.mem.dead + {w})
  {
  }

  // ----- failures

  predicate RetryableCode(policy: Policy, meta: Meta, code: Option<Code>) {
    code.Some? && (code.value in policy.retryable || (meta.manual && code.value in policy.manualRetryable))
  }

  /** A failed run that nothing will try again: its result file cannot be read, its code is not retryable, or its
      attempts are used up and there is no result to complete it with. */
  ghost predicate Settled(cfg: Config, run: DiskRun) {
    && run.ready && run.meta.Some? && run.events != [] && run.Last().Failed?
    && (run.result.Unreadable?
        || !RetryableCode(cfg.policy, run.meta.value, run.events[|run.events| - 1].code)
        || (run.result.NoResult? && Attempts(run.events) >= cfg.maxAttempts))
  }

  predicate WorkerWrites(step: Step) {
    step.Prepare? || step.Accept? || step.Finish? || step.Write? || step.TearWrite? || step.CompleteRun?
    || step.HandleFailure?
  }

  lemma WorkerTouchesItsRun(cfg: Config, s: System, step: Step, r: RunId)
    requires Enabled(cfg, s, step) && WorkerWrites(step) && r in s.disk && s.mem.jobs[step.worker].run != r
    ensures var s' := Apply(cfg, s, step); r in s'.disk && s'.disk[r] == s.disk[r]
  {
  }

  lemma RecoverySparesFailed(cfg: Config, s: System, at: Time, r: RunId)
    requires Enabled(cfg, s, Recover(at)) && r in s.disk && s.disk[r].events != [] && s.disk[r].Last().Failed?
    ensures var s' := RecoverOne(cfg, s, at); r in s'.disk && s'.disk[r] == s.disk[r]
  {
  }

  lemma ReconcilerSparesSpent(cfg: Config, s: System, at: Time, r: RunId)
    requires Enabled(cfg, s, Reconcile(at)) && r in s.disk
    requires s.mem.phase.candidates[s.mem.phase.next] == r ==>
               s.disk[r].result.NoResult? && Attempts(s.disk[r].events) >= cfg.maxAttempts
    ensures var s' := ReconcileOne(cfg, s, at); r in s'.disk && s'.disk[r] == s.disk[r]
  {
  }

  lemma SettledCandidateIsSpent(cfg: Config, s: System, at: Time)
    requires Inv(cfg, s) && Enabled(cfg, s, Reconcile(at))
    ensures var r := s.mem.phase.candidates[s.mem.phase.next];
            Settled(cfg, s.disk[r]) ==> s.disk[r].result.NoResult? && Attempts(s.disk[r].events) >= cfg.maxAttempts
  {
    var r := s.mem.phase.candidates[s.mem.phase.next];
    CandidateIsFailed(cfg, s, r);
  }

  lemma ReconcileOutcome(cfg: Config, s: System, at: Time)
    requires Enabled(cfg, s, Reconcile(at))
    ensures var r := s.mem.phase.candidates[s.mem.phase.next];
            var (run, after) := (s.disk[r], ReconcileOne(cfg, s, at).disk[r]);
            if run.result.NoResult? && Attempts(run.events) >= cfg.maxAttempts then after == run
            else
              && |after.events| == |run.events| + 1 && after.result == run.result
              && after.Last() ==
                 (if run.result.NoResult? then Queued else if run.result.Readable? then Completed else Failed)
  {
  }

  /** A pass that reaches a failed run leaves it alone exactly when it is settled; otherwise the run is completed from
      its stored result or queued again. */
  lemma PassContinuesUnlessSettled(cfg: Config, s: System, at: Time)
    requires cfg.Valid() && Reachable(cfg, s) && Enabled(cfg, s, Reconcile(at))
    ensures var r := s.mem.phase.candidates[s.mem.phase.next];
            var (run, after) := (s.disk[r], ReconcileOne(cfg, s, at).disk[r]);
            && (after == run <==> Settled(cfg, run))
            && (after != run ==> after.Last() == if run.result.Readable? then Completed else Queued)
  {
    ReachableInv(cfg, s);
    var r := s.mem.phase.candidates[s.mem.phase.next];
    CandidateIsFailed(cfg, s, r);
    SettledCandidateIsSpent(cfg, s, at);
    ReconcileOutcome(cfg, s, at);
  }

  lemma StepSparesSettled(cfg: Config, s: System, step: Step, r: RunId)
    requires Inv(cfg, s) && Enabled(cfg, s, step) && r in s.disk && Settled(cfg, s.disk[r])
    ensures var s' := Apply(cfg, s, step); r in s'.disk && s'.disk[r] == s.disk[r]
  {
    if step.Reconcile? {
      SettledCandidateIsSpent(cfg, s, step.at);
      ReconcilerSparesSpent(cfg, s, step.at, r);
    } else if step.Recover? {
      RecoverySparesFailed(cfg, s, step.at, r);
    } else if WorkerWrites(step) {
      FailedIsUnheld(cfg, s, r);
      WorkerTouchesItsRun(cfg, s, step, r);
    } else {
      MemoryStepSpares(cfg, s, step, r);
    }
  }

  lemma MemoryStepSpares(cfg: Config, s: System, step: Step, r: RunId)
    requires Enabled(cfg, s, step) && !step.Recover? && !step.Reconcile? && !WorkerWrites(step) && r in s.disk
    ensures var s' := Apply(cfg, s, step); r in s'.disk && s'.disk[r] == s.disk[r]
  {
  }

  /** A failure is final if it is not retryable, if it comes without a result after the last attempt, or if the result
      file cannot be read: nothing the service, a crash or a restart does ever changes the run again. */
  lemma {:induction false} FailureIsFinal(cfg: Config, s: System, steps: seq<Step>, r: RunId)
    requires cfg.Valid() && Reachable(cfg, s) && ValidRun(cfg, s, steps)
    requires r in s.disk && Settled(cfg, s.disk[r])
    ensures var s' := RunAll(cfg, s, steps); r in s'.disk && s'.disk[r] == s.disk[r]
    decreases |steps|
  {
    if steps != [] {
      ReachableInv(cfg, s);
      StepSparesSettled(cfg, s, steps[0], r);
      StepIsReachable(cfg, s, steps[0]);
      FailureIsFinal(cfg, Apply(cfg, s, steps[0]), steps[1..], r);
    }
  }

  /** A worker that concludes over a result file that cannot be read leaves a run that is final, with attempts left and
      even where the code of that failure is a retryable one, as it is for plagiarism runs. */
  lemma UnreadableConclusionIsFinal(cfg: Config, s: System, w: nat, completedAt: Time, handledAt: Time,
                                    steps: seq<Step>)
    requires cfg.Valid() && Reachable(cfg, s) && Enabled(cfg, s, CompleteRun(w, completedAt))
    requires s.disk[s.mem.jobs[w].run].result.Unreadable?
    requires ValidRun(cfg, Conclude(cfg, s, w, completedAt, handledAt), steps)
    ensures var r := s.mem.jobs[w].run;
            var s' := Conclude(cfg, s, w, completedAt, handledAt);
            && r in s'.disk && s'.disk[r].meta.Some? && s'.disk[r].events != [] && s'.disk[r].Last().Failed?
            && (cfg.policy == PLAGIARISM_POLICY ==>
                  RetryableCode(cfg.policy, s'.disk[r].meta.value, s'.disk[r].events[|s'.disk[r].events| - 1].code))
            && var end := RunAll(cfg, s', steps); r in end.disk && end.disk[r] == s'.disk[r]
  {
    var r := s.mem.jobs[w].run;
    ReachableInv(cfg, s);
    HeldRun(cfg, s, w);
    assert RunOk(cfg, s.disk[r]) && IsLive(s.disk, r);
    ConclusionIsReachable(cfg, s, w, completedAt, handledAt);
    ConclusionCases(cfg, s, w, completedAt, handledAt);
    var s' := Conclude(cfg, s, w, completedAt, handledAt);
    ConclusionGrows(cfg, s, w, completedAt, handledAt);
    assert Settled(cfg, s'.disk[r]);
    FailureIsFinal(cfg, s', steps, r);
  }

  lemma ConclusionIsReachable(cfg: Config, s: System, w: nat, completedAt: Time, handledAt: Time)
    requires cfg.Valid() && Reachable(cfg, s) && Enabled(cfg, s, CompleteRun(w, completedAt))
    ensures Reachable(cfg, Conclude(cfg, s, w, completedAt, handledAt))
  {
    StepIsReachable(cfg, s, CompleteRun(w, completedAt));
    var s' := Complete(cfg, s, w, completedAt);
    if w in s'.mem.jobs {
      StepIsReachable(cfg, s', HandleFailure(w, handledAt));
    }
  }

  lemma ConclusionGrows(cfg: Config, s: System, w: nat, completedAt: Time, handledAt: Time)
    requires BusyAt(s, w, Written)
    ensures var r := s.mem.jobs[w].run;
            var run, after := s.disk[r], Conclude(cfg, s, w, completedAt, handledAt).disk[r];
            after.ready == run.ready && after.meta == run.meta && after.result == run.result
  {
  }

  // ----- runs torn before they were published

  /** A run whose creation was cut off stays as it is for ever: it is never queued, worked on, recovered or retried. */
  lemma {:induction false} TornRunIsStuck(cfg: Config, s: System, steps: seq<Step>, r: RunId)
    requires cfg.Valid() && Reachable(cfg, s) && ValidRun(cfg, s, steps)
    requires r in s.disk && !s.disk[r].ready
    ensures var s' := RunAll(cfg, s, steps); r in s'.disk && s'.disk[r] == s.disk[r]
    decreases |steps|
  {
    if steps != [] {
      ReachableInv(cfg, s);
      StepSparesTorn(cfg, s, steps[0], r);
      StepIsReachable(cfg, s, steps[0]);
      TornRunIsStuck(cfg, Apply(cfg, s, steps[0]), steps[1..], r);
    }
  }

  lemma TornIsUnheld(cfg: Config, s: System, w: nat, r: RunId)
    requires Inv(cfg, s) && s.mem.Up? && w in s.mem.jobs && r in s.disk && !s.disk[r].ready
    ensures s.mem.jobs[w].run != r
  {
    assert PcOk(s.disk, s.mem.jobs[w]);
  }

  lemma RecoveryTouchesOne(cfg: Config, s: System, at: Time, r: RunId)
    requires Enabled(cfg, s, Recover(at)) && r in s.disk && s.mem.phase.todo[0] != r
    ensures var s' := RecoverOne(cfg, s, at); r in s'.disk && s'.disk[r] == s.disk[r]
  {
  }

  lemma StepSparesTorn(cfg: Config, s: System, step: Step, r: RunId)
    requires Inv(cfg, s) && Enabled(cfg, s, step) && r in s.disk && !s.disk[r].ready
    ensures var s' := Apply(cfg, s, step); r in s'.disk && s'.disk[r] == s.disk[r]
  {
    if step.Reconcile? {
      CandidateIsFailed(cfg, s, s.mem.phase.candidates[s.mem.phase.next]);
      ReconcilerSparesSpent(cfg, s, step.at, r);
    } else if step.Recover? {
      assert s.mem.phase.todo[0] in s.mem.phase.todo;
      RecoveryTouchesOne(cfg, s, step.at, r);
    } else if WorkerWrites(step) {
      TornIsUnheld(cfg, s, step.worker, r);
      WorkerTouchesItsRun(cfg, s, step, r);
    } else {
      MemoryStepSpares(cfg, s, step, r);
    }
  }

  /** While a process serves whose recovery scanned every run, a run that callers are shown as queued waits in exactly
      one place if it is published, and nowhere if its creation was cut off. */
  lemma QueuedViewIsDueIffPublished(cfg: Config, s: System, r: RunId)
    requires cfg.Valid() && Reachable(cfg, s) && s.mem.Up? && s.mem.enabled
    requires (s.mem.phase.Serving? || s.mem.phase.Reconciling?) && s.mem.phase.covered
    requires r in s.mem.cache && s.mem.cache[r].state.Queued?
    ensures r in s.disk && Occurrences(s.mem, r) == if s.disk[r].ready then 1 else 0
  {
    ReachableInv(cfg, s);
    assert ViewOk(s.mem.cache[r], s.disk[r]);
    if s.disk[r].ready {
      NoLostWork(cfg, s, r);
    } else {
      MultiplicityOfDistinct(s.mem.queue, r);
      OneHolder(cfg, s, r);
      forall w | w in s.mem.jobs
        ensures s.mem.jobs[w].run != r
      {
        TornIsUnheld(cfg, s, w, r);
      }
    }
  }

  // ----- no lost work

  /** While a process serves whose recovery scanned every run, each published run that waits is in exactly one place,
      and each that is being worked on is held by exactly one worker. */
  lemma NoLostWork(cfg: Config, s: System, r: RunId)
    requires cfg.Valid() && Reachable(cfg, s) && s.mem.Up? && s.mem.enabled
    requires (s.mem.phase.Serving? || s.mem.phase.Reconciling?) && s.mem.phase.covered
    requires r in s.disk && s.disk[r].ready
    ensures s.disk[r].events != []
    ensures s.disk[r].Last().Queued? ==> Occurrences(s.mem, r) == 1
    ensures Active(s.disk[r].Last()) ==> |Holders(s.mem, r)| == 1
  {
    ReachableInv(cfg, s);
    assert RunOk(cfg, s.disk[r]) && IsLive(s.disk, r);
    MultiplicityOfDistinct(s.mem.queue, r);
    OneHolder(cfg, s, r);
  }

  /** The waiting runs of a scan. */
  function QueuedIn(disk: Disk, scan: seq<RunId>): nat {
    if scan == [] then 0
    else QueuedIn(disk, scan[1..]) + if IsLive(disk, scan[0]) && disk[scan[0]].Last().Queued? then 1 else 0
  }

  /** Recovery from its current point to its end, with the clock readings it takes on the way. */
  ghost function RecoverAll(cfg: Config, s: System, clock: RunId -> Time): System
    requires cfg.Valid() && Reachable(cfg, s) && s.mem.Up? && s.mem.phase.Recovering?
    decreases |s.mem.phase.todo|
  {
    if s.mem.phase.todo == [] then SetPhase(s, Serving(true))
    else
      NextIsLive(cfg, s);
      var at := clock(s.mem.phase.todo[0]);
      var s' := RecoverOne(cfg, s, at);
      StepIsReachable(cfg, s, Recover(at));
      RecoverOneShrinks(cfg, s, at);
      if s'.mem.phase.Recovering? then RecoverAll(cfg, s', clock) else s'
  }

  lemma NextIsLive(cfg: Config, s: System)
    requires cfg.Valid() && Reachable(cfg, s) && s.mem.Up? && s.mem.phase.Recovering? && s.mem.phase.todo != []
    ensures IsLive(s.disk, s.mem.phase.todo[0]) && Enabled(cfg, s, Recover(0))
  {
    ReachableInv(cfg, s);
    assert s.mem.phase.todo[0] in s.mem.phase.todo;
  }

  lemma RecoverOneShrinks(cfg: Config, s: System, at: Time)
    requires Enabled(cfg, s, Recover(at))
    ensures var s' := RecoverOne(cfg, s, at); s'.mem.phase.Recovering? ==> s'.mem.phase.todo == s.mem.phase.todo[1..]
  {
  }

  lemma {:induction false} QueuedInFrame(disk: Disk, disk': Disk, scan: seq<RunId>)
    requires forall r | r in scan :: IsLive(disk, r) && IsLive(disk', r) && disk'[r].Last() == disk[r].Last()
    ensures QueuedIn(disk, scan) == QueuedIn(disk', scan)
  {
    if scan != [] {
      QueuedInFrame(disk, disk', scan[1..]);
    }
  }

  lemma RecoverOneLeavesTodo(cfg: Config, s: System, at: Time)
    requires Enabled(cfg, s, Recover(at)) && s.mem.enabled && NoDuplicates(s.mem.phase.todo)
    ensures var todo, s' := s.mem.phase.todo, RecoverOne(cfg, s, at);
            var waiting := s.disk[todo[0]].Last().Queued?;
            && OnlyChanges(s.disk, s'.disk, todo[0]) && todo[0] !in todo[1..]
            && (s'.mem.phase ==
                if waiting && |s.mem.queue| >= cfg.maxQueued then Serving(false) else Recovering(todo[1..]))
            && |s'.mem.queue| == |s.mem.queue| + (if waiting && |s.mem.queue| < cfg.maxQueued then 1 else 0)
            && s'.mem.enabled && (s'.mem.phase.Serving? ==> s' == SetPhase(s, Serving(false)))
  {
  }

  lemma RestIsUntouched(disk: Disk, disk': Disk, todo: seq<RunId>)
    requires todo != [] && OnlyChanges(disk, disk', todo[0]) && todo[0] !in todo[1..]
    requires forall r | r in todo :: IsLive(disk, r)
    ensures QueuedIn(disk', todo[1..]) == QueuedIn(disk, todo[1..])
  {
    forall r | r in todo[1..]
      ensures IsLive(disk, r) && IsLive(disk', r) && disk'[r] == disk[r]
    {
      assert r in todo;
    }
    QueuedInFrame(disk, disk', todo[1..]);
  }

  lemma RecoveringFacts(cfg: Config, s: System)
    requires cfg.Valid() && Reachable(cfg, s) && s.mem.Up? && s.mem.phase.Recovering?
    ensures |s.mem.queue| <= cfg.maxQueued && NoDuplicates(s.mem.phase.todo)
    ensures forall r | r in s.mem.phase.todo :: IsLive(s.disk, r)
    ensures s.mem.phase.todo == [] ==> Covers(s.disk, SetPhase(s, Serving(true)).mem, [])
  {
    ReachableInv(cfg, s);
  }

  lemma StoppedRecoveryLoses(cfg: Config, s: System)
    requires cfg.Valid() && Reachable(cfg, s) && s.mem.Up? && s.mem.enabled
    requires s.mem.phase.Recovering? && s.mem.phase.todo != []
    requires IsLive(s.disk, s.mem.phase.todo[0]) && s.disk[s.mem.phase.todo[0]].Last().Queued?
    ensures !Covers(s.disk, SetPhase(s, Serving(false)).mem, [])
  {
    ReachableInv(cfg, s);
    var r := s.mem.phase.todo[0];
    assert r in s.mem.phase.todo;
    assert r !in s.mem.queue && !HeldByWorker(s.mem.jobs, r);
  }

  /** A recovery loses no work exactly when the waiting runs it finds fit in the queue: then every published run that
      waits is queued and none stays active; otherwise some waiting run is left out. */
  lemma {:induction false} RecoveryCoversIffQueueFits(cfg: Config, s: System, clock: RunId -> Time)
    requires cfg.Valid() && Reachable(cfg, s) && s.mem.Up? && s.mem.phase.Recovering? && s.mem.enabled
    ensures var s' := RecoverAll(cfg, s, clock);
            var fits := |s.mem.queue| + QueuedIn(s.disk, s.mem.phase.todo) <= cfg.maxQueued;
            && s'.mem.Up? && s'.mem.phase == Serving(fits)
            && (Covers(s'.disk, s'.mem, []) <==> fits)
    decreases |s.mem.phase.todo|
  {
    RecoveringFacts(cfg, s);
    var todo := s.mem.phase.todo;
    if todo != [] {
      NextIsLive(cfg, s);
      var at := clock(todo[0]);
      var s' := RecoverOne(cfg, s, at);
      StepIsReachable(cfg, s, Recover(at));
      RecoverOneLeavesTodo(cfg, s, at);
      RestIsUntouched(s.disk, s'.disk, todo);
      if s'.mem.phase.Recovering? {
        RecoveryCoversIffQueueFits(cfg, s', clock);
      } else {
        StoppedRecoveryLoses(cfg, s);
      }
    }
  }

  ghost function Waiting(disk: Disk, scan: seq<RunId>): set<RunId> {
    set r | r in scan && Queueable(disk, r)
  }

  lemma {:induction false} QueuedInCountsWaiting(disk: Disk, scan: seq<RunId>)
    requires NoDuplicates(scan)
    ensures QueuedIn(disk, scan) == |Waiting(disk, scan)|
  {
    if scan != [] {
      QueuedInCountsWaiting(disk, scan[1..]);
      assert scan == [scan[0]] + scan[1..];
      var rest := Waiting(disk, scan[1..]);
      assert Waiting(disk, scan) == if Queueable(disk, scan[0]) then rest + {scan[0]} else rest;
      assert scan[0] !in rest;
    } else {
      assert Waiting(disk, scan) == {};
    }
  }

  /** The condition of `RecoveryCoversIffQueueFits` as a caller can check it before `start`: the number of published
      runs on disk whose last event is `queued`. */
  lemma StartCoversIffWaitingRunsFit(cfg: Config, s: System, scan: seq<RunId>, clock: RunId -> Time)
    requires cfg.Valid() && Reachable(cfg, s) && Enabled(cfg, s, Start(scan)) && s.mem.enabled
    ensures var started := SetPhase(s, Recovering(scan));
            var waiting := set r | r in s.disk && s.disk[r].ready && Queueable(s.disk, r);
            && Reachable(cfg, started)
            && var s' := RecoverAll(cfg, started, clock);
               && s'.mem.Up? && s'.mem.phase == Serving(|waiting| <= cfg.maxQueued)
               && (Covers(s'.disk, s'.mem, []) <==> |waiting| <= cfg.maxQueued)
  {
    ReachableInv(cfg, s);
    StepIsReachable(cfg, s, Start(scan));
    QueuedInCountsWaiting(s.disk, scan);
    assert Waiting(s.disk, scan) == set r | r in s.disk && s.disk[r].ready && Queueable(s.disk, r);
    RecoveryCoversIffQueueFits(cfg, SetPhase(s, Recovering(scan)), clock);
  }

  /** Recovery to its end is made of steps of the machine. */
  lemma {:induction false} RecoverAllIsReachable(cfg: Config, s: System, clock: RunId -> Time)
    requires cfg.Valid() && Reachable(cfg, s) && s.mem.Up? && s.mem.phase.Recovering?
    ensures Reachable(cfg, RecoverAll(cfg, s, clock))
    decreases |s.mem.phase.todo|
  {
    if s.mem.phase.todo == [] {
      StepIsReachable(cfg, s, Recovered);
    } else {
      NextIsLive(cfg, s);
      var at := clock(s.mem.phase.todo[0]);
      StepIsReachable(cfg, s, Recover(at));
      RecoverOneShrinks(cfg, s, at);
      var s' := RecoverOne(cfg, s, at);
      if s'.mem.phase.Recovering? {
        RecoverAllIsReachable(cfg, s', clock);
      }
    }
  }

  /** A creation before `start` would be queued a second time by the recovery that `start` runs. */
  lemma CreateBeforeStartQueuesTwice(cfg: Config, s: System, r: RunId, meta: Meta, at: Time)
    requires cfg.Valid() && Reachable(cfg, s) && s.mem.Up? && s.mem.phase.Built? && s.mem.enabled
    requires r !in s.disk && cfg.maxQueued > 1
    ensures var created := CreateRun(s, r, meta);
            RecoverOne(cfg, SetPhase(created, Recovering([r])), at).mem.queue == [r, r]
  {
    ReachableInv(cfg, s);
    assert NewRun(meta, meta.createdAt).Last().Queued?;
  }
}
