/** Reachable states in which the run queue does not do what one might expect of it. */
module RunWitnesses {
  import opened Common
  import opened RunLog
  import opened RunMachine
  import opened RunInvariant
  import opened RunSteps
  import opened RunTheorems
  import opened RunViews

  lemma InitialIsReachable(cfg: Config)
    ensures Reachable(cfg, INITIAL)
  {
    assert ValidRun(cfg, INITIAL, []) && RunAll(cfg, INITIAL, []) == INITIAL;
  }

  /** A process that has started on a directory without published runs. */
  ghost function Started(disk: Disk, enabled: bool): System {
    System(disk, Up(enabled, Serving(true), map[], map[], [], map[], {}))
  }

  /** A process that has started on an empty directory. */
  ghost function Empty(enabled: bool): System {
    Started(map[], enabled)
  }

  lemma EmptyIsReachable(cfg: Config, enabled: bool)
    requires cfg.Valid()
    ensures Reachable(cfg, Empty(enabled))
  {
    InitialIsReachable(cfg);
    StepIsReachable(cfg, INITIAL, Boot(enabled, []));
    var built := System(map[], Fresh(enabled));
    StepIsReachable(cfg, built, Start([]));
    var recovering := SetPhase(built, Recovering([]));
    StepIsReachable(cfg, recovering, Recovered);
    assert SetPhase(recovering, Serving(true)) == Empty(enabled);
  }

  // ----- a creation that was cut off

  ghost function Torn(r: RunId, meta: Meta): Disk {
    map[r := TornRun(meta, QueuedWritten)]
  }

  lemma TornServingIsReachable(cfg: Config, r: RunId, meta: Meta)
    requires cfg.Valid()
    ensures Reachable(cfg, Started(Torn(r, meta), true))
  {
    EmptyIsReachable(cfg, true);
    StepIsReachable(cfg, Empty(true), CrashInCreate(r, meta, QueuedWritten));
    var down := System(Torn(r, meta), Down);
    assert Apply(cfg, Empty(true), CrashInCreate(r, meta, QueuedWritten)) == down;
    StepIsReachable(cfg, down, Boot(true, []));
    var built := System(Torn(r, meta), Fresh(true));
    StepIsReachable(cfg, built, Start([]));
    var recovering := SetPhase(built, Recovering([]));
    StepIsReachable(cfg, recovering, Recovered);
    assert SetPhase(recovering, Serving(true)) == Started(Torn(r, meta), true);
  }

  /** After a crash in a creation and a restart, looking the run up shows it as queued although it waits nowhere, and
      makes it the latest run of its submission, which no rebuild from disk would. */
  lemma TornRunIsShownAsQueued(cfg: Config, r: RunId, meta: Meta) returns (s: System)
    requires cfg.Valid()
    ensures Reachable(cfg, s) && s.mem.Up? && s.mem.enabled && s.mem.phase == Serving(true) && IsScan(s.disk, [])
    ensures r in s.mem.cache && s.mem.cache[r].state.Queued? && Occurrences(s.mem, r) == 0
    ensures Rebuild(s.disk, [], Fresh(true)).latest != s.mem.latest
  {
    TornServingIsReachable(cfg, r, meta);
    var before := Started(Torn(r, meta), true);
    StepIsReachable(cfg, before, Get(r));
    s := Apply(cfg, before, Get(r));
    assert Holders(s.mem, r) == {};
    assert meta.submission in s.mem.latest;
  }

  // ----- a result that cannot be read back

  lemma TakenIsReachable(cfg: Config, r: RunId, meta: Meta) returns (s: System)
    requires cfg.Valid() && cfg.workers > 0
    ensures Reachable(cfg, s) && LockFree(s.mem) && BusyAt(s, 0, Taken) && s.mem.jobs[0].run == r &&
            s.mem.phase == Serving(true)
    ensures s.disk == map[r := NewRun(meta, meta.createdAt)]
  {
    EmptyIsReachable(cfg, true);
    StepIsReachable(cfg, Empty(true), Create(r, meta));
    var created := CreateRun(Empty(true), r, meta);
    assert created.mem.queue == [r];
    StepIsReachable(cfg, created, Take(0));
    s := Apply(cfg, created, Take(0));
  }

  lemma AdvanceIsReachable(cfg: Config, s: System, step: Step, state: State, pc: Pc) returns (s': System)
    requires cfg.Valid() && Reachable(cfg, s) && LockFree(s.mem) && Enabled(cfg, s, step) &&
             s.mem.phase == Serving(true)
    requires || (step == Prepare(0, 0) && state.Preparing? && pc.Prepared?)
             || (step == Accept(0, 0) && state.Running? && pc.Executing?)
             || (step == Finish(0, 0) && state.Finalizing? && pc.Finished?)
    requires s.disk[s.mem.jobs[0].run].result.NoResult?
    ensures Reachable(cfg, s') && LockFree(s'.mem) && BusyAt(s', 0, pc) && s'.mem.jobs[0].run == s.mem.jobs[0].run
    ensures s'.mem.phase == Serving(true) && s'.disk[s.mem.jobs[0].run].result.NoResult?
  {
    StepIsReachable(cfg, s, step);
    s' := Apply(cfg, s, step);
  }

  /** A worker can come to conclude a run whose stored result cannot be read back. */
  lemma UnreadableResultIsReachable(cfg: Config, r: RunId, meta: Meta) returns (s: System)
    requires cfg.Valid() && cfg.workers > 0
    ensures Reachable(cfg, s) && Enabled(cfg, s, CompleteRun(0, 0)) && s.mem.jobs[0].run == r &&
            s.disk[r].result.Unreadable?
  {
    var taken := TakenIsReachable(cfg, r, meta);
    var prepared := AdvanceIsReachable(cfg, taken, Prepare(0, 0), Preparing, Prepared);
    var executing := AdvanceIsReachable(cfg, prepared, Accept(0, 0), Running, Executing);
    var finished := AdvanceIsReachable(cfg, executing, Finish(0, 0), Finalizing, Finished);
    StepIsReachable(cfg, finished, Write(0, Unreadable));
    s := Apply(cfg, finished, Write(0, Unreadable));
  }

  // ----- more waiting runs than the queue holds

  const META: Meta := Meta(0, false, 0)

  ghost predicate HoldsNew(disk: Disk, n: nat) {
    forall r: RunId :: (r in disk <==> r < n) && (r in disk ==> disk[r] == NewRun(META, 0))
  }

  /** A process without workers accepts any number of runs, because it queues none. */
  lemma {:induction false} ManyRunsAreReachable(cfg: Config, n: nat) returns (s: System)
    requires cfg.Valid()
    ensures Reachable(cfg, s) && HoldsNew(s.disk, n)
    ensures s.mem.Up? && !s.mem.enabled && s.mem.phase == Serving(true) && s.mem.queue == []
  {
    if n == 0 {
      EmptyIsReachable(cfg, false);
      s := Empty(false);
    } else {
      var before := ManyRunsAreReachable(cfg, n - 1);
      StepIsReachable(cfg, before, Create(n - 1, META));
      s := CreateRun(before, n - 1, META);
      assert s.disk == before.disk[n - 1 := NewRun(META, 0)];
      forall r: RunId
        ensures (r in s.disk <==> r < n) && (r in s.disk ==> s.disk[r] == NewRun(META, 0))
      {
        assert r in before.disk <==> r < n - 1;
      }
    }
  }

  lemma {:induction false} WaitingAreAll(disk: Disk, n: nat, k: nat)
    requires HoldsNew(disk, n) && k <= n
    ensures |set r | r in disk && r < k && disk[r].ready && Queueable(disk, r)| == k
  {
    if k > 0 {
      WaitingAreAll(disk, n, k - 1);
      assert NewRun(META, 0).Last().Queued?;
      var less := set r | r in disk && r < k - 1 && disk[r].ready && Queueable(disk, r);
      assert (set r | r in disk && r < k && disk[r].ready && Queueable(disk, r)) == less + {k - 1};
    }
  }

  lemma AllAreWaiting(disk: Disk, n: nat)
    requires HoldsNew(disk, n)
    ensures |set r | r in disk && disk[r].ready && Queueable(disk, r)| == n
  {
    WaitingAreAll(disk, n, n);
    assert (set r | r in disk && disk[r].ready && Queueable(disk, r))
        == set r | r in disk && r < n && disk[r].ready && Queueable(disk, r);
  }

  function Numbers(n: nat): (scan: seq<RunId>)
    ensures |scan| == n && forall i | 0 <= i < n :: scan[i] == i
  {
    if n == 0 then [] else Numbers(n - 1) + [n - 1]
  }

  lemma NumbersAreScan(disk: Disk, n: nat)
    requires HoldsNew(disk, n)
    ensures IsScan(disk, Numbers(n))
  {
    forall r: RunId
      ensures r in Numbers(n) <==> r in disk && disk[r].ready
    {
      assert r < n ==> Numbers(n)[r] == r;
    }
  }

  /** For every configuration, a start that finds more waiting runs than the queue holds can come about, and then some
      waiting run is left out of the recovery. */
  lemma RecoveryCanLoseWork(cfg: Config, clock: RunId -> Time) returns (s: System, scan: seq<RunId>)
    requires cfg.Valid()
    ensures Reachable(cfg, s) && Enabled(cfg, s, Start(scan)) && s.mem.enabled
    ensures Reachable(cfg, SetPhase(s, Recovering(scan)))
    ensures var s' := RecoverAll(cfg, SetPhase(s, Recovering(scan)), clock); s'.mem.Up? && !Covers(s'.disk, s'.mem, [])
  {
    var n := cfg.maxQueued + 1;
    var many := ManyRunsAreReachable(cfg, n);
    StepIsReachable(cfg, many, Crash);
    scan := Numbers(n);
    NumbersAreScan(many.disk, n);
    var down := System(many.disk, Down);
    StepIsReachable(cfg, down, Boot(true, scan));
    s := Apply(cfg, down, Boot(true, scan));
    AllAreWaiting(s.disk, n);
    StartCoversIffWaitingRunsFit(cfg, s, scan, clock);
  }
}
