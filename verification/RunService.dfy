/** The run service as the program is written: an object whose locked methods update the cache, the index, the queue
    and the run directory in place. Each method is proved to be the corresponding run of the transition system, so what
    holds of every reachable state of that system holds between any two calls. */
module RunService {
  import opened Common
  import opened RunLog
  import opened RunMachine
  import opened RunInvariant
  import opened RunSteps
  import opened RunTheorems
  import opened RunViews
  import opened RunFates

  /** The run directory. It outlives the service objects that are opened on it. */
  class RunStore {
    var runs: Disk

    constructor ()
      ensures runs == map[]
    {
      runs := map[];
    }
  }

  datatype RequestError = QueueFull | NotFound | RecordInvalid

  /** What the world does to one attempt of a run. */
  datatype Outcome =
    | Rejected
    | ExecutorFailed(code: Code)
    | Unserializable
    | Produced(file: ResultFile)

  /** A sequence of candidates in the order of a pass, together with the ones still to be sorted in. */
  ghost predicate SortedSoFar(cfg: Config, m: Memory, c: seq<RunId>, left: set<RunId>)
    requires m.Up?
  {
    && (forall i | 0 <= i < |c| :: Candidate(cfg, m, c[i]) && c[i] !in left)
    && (forall r | r in m.cache && Candidate(cfg, m, r) :: r in left || r in c)
    && (forall i, j | 0 <= i < j < |c| :: Precedes(cfg, m, c[i], c[j]))
  }

  lemma RecoveryOfScan(cfg: Config, s: System, scan: seq<RunId>, clock: RunId -> Time) returns (n: nat)
    requires cfg.Valid() && Reachable(cfg, s) && Enabled(cfg, s, Start(scan))
    ensures Reachable(cfg, SetPhase(s, Recovering(scan)))
    ensures RecoveredUpTo(cfg, s, RecoverAll(cfg, SetPhase(s, Recovering(scan)), clock), scan, n, clock)
  {
    StepIsReachable(cfg, s, Start(scan));
    n := RecoveryTreats(cfg, SetPhase(s, Recovering(scan)), clock);
  }

  /** One iteration of recovery, as the loop of `StartService` needs it. */
  lemma RecoverIteration(cfg: Config, s: System, clock: RunId -> Time)
    requires cfg.Valid() && Reachable(cfg, s) && s.mem.Up? && s.mem.phase.Recovering? && s.mem.phase.todo != []
    ensures IsLive(s.disk, s.mem.phase.todo[0])
    ensures var s' := RecoverOne(cfg, s, clock(s.mem.phase.todo[0]));
            && Reachable(cfg, s') && (s'.mem.phase.Recovering? ==> s'.mem.phase.todo == s.mem.phase.todo[1..])
            && (s'.mem.phase.Recovering? || s'.mem.phase.Serving?)
            && RecoverAll(cfg, s, clock) == if s'.mem.phase.Recovering? then RecoverAll(cfg, s', clock) else s'
  {
    NextIsLive(cfg, s);
    StepIsReachable(cfg, s, Recover(clock(s.mem.phase.todo[0])));
    RecoverOneShrinks(cfg, s, clock(s.mem.phase.todo[0]));
  }

  /** One iteration of a pass that began in `start`, as the loop of `ReconcileFailed` needs it. */
  lemma ReconcileIteration(cfg: Config, start: System, s: System, clock: RunId -> Time)
    requires cfg.Valid() && Reachable(cfg, s)
    requires start.mem.Up? && start.mem.phase.Reconciling? && PassProgress(cfg, start, s) && !PassOver(cfg, s.mem)
    ensures s.mem.phase.candidates[s.mem.phase.next] in s.disk
    ensures var p := s.mem.phase;
            var r := p.candidates[p.next];
            var s' := ReconcileOne(cfg, s, clock(r));
            && Reachable(cfg, s') && PassProgress(cfg, start, s')
            && s'.mem.phase == Reconciling(p.covered, p.candidates, p.next + 1,
                 p.requeued + if Eligible(cfg, s.disk, r) then [r] else [])
            && ReconcileAll(cfg, s, clock) == ReconcileAll(cfg, s', clock)
  {
    var r := s.mem.phase.candidates[s.mem.phase.next];
    NextCandidate(cfg, s, clock(r));
    ReachableInv(cfg, s);
    ReconcileStepKeepsProgress(cfg, start, s, clock(r));
  }

  ghost function Begun(cfg: Config, s: System, c: seq<RunId>): System
    requires s.mem.Up? && s.mem.phase.Serving?
  {
    SetPhase(s, Reconciling(s.mem.phase.covered, c, 0, []))
  }

  lemma PassCanBegin(cfg: Config, s: System, c: seq<RunId>)
    requires cfg.Valid() && Reachable(cfg, s) && Enabled(cfg, s, BeginPass(c))
    ensures Reachable(cfg, Begun(cfg, s, c)) && PassProgress(cfg, Begun(cfg, s, c), Begun(cfg, s, c))
  {
    ReachableInv(cfg, s);
    StepIsReachable(cfg, s, BeginPass(c));
    PassBegins(cfg, s, c);
  }

  lemma SortedAreTriedAgain(cfg: Config, s: System, c: seq<RunId>)
    requires cfg.Valid() && Reachable(cfg, s) && s.mem.Up? && SortedCandidates(cfg, s.mem, c)
    requires cfg.policy == AGENT_POLICY || cfg.policy == PLAGIARISM_POLICY
    ensures forall r | r in s.mem.cache :: r in s.disk && (r in c <==> TriesAgain(cfg.policy, s.disk[r]))
  {
    forall r | r in s.mem.cache
      ensures r in s.disk && (r in c <==> TriesAgain(cfg.policy, s.disk[r]))
    {
      CandidatesAreTriedAgain(cfg, s, r);
    }
  }

  lemma DueAreEligible(cfg: Config, s: System, c: seq<RunId>)
    requires cfg.Valid() && Reachable(cfg, s) && s.mem.Up? && SortedCandidates(cfg, s.mem, c)
    ensures forall r | r in s.disk && DueAgain(cfg, s.disk[r]) :: r in EligibleOf(cfg, s.disk, c)
  {
    forall r | r in s.disk && DueAgain(cfg, s.disk[r])
      ensures r in EligibleOf(cfg, s.disk, c)
    {
      DueIsEligible(cfg, s, c, r);
    }
  }

  lemma PassConcludes(cfg: Config, start: System, end: System)
    requires cfg.Valid() && Reachable(cfg, end) && start.mem.Up? && start.mem.phase.Reconciling?
    requires PassProgress(cfg, start, end) && PassOver(cfg, end.mem)
    ensures Reachable(cfg, SetPhase(end, Serving(end.mem.phase.covered)))
    ensures var all, requeued := EligibleOf(cfg, start.disk, start.mem.phase.candidates), end.mem.phase.requeued;
            && requeued <= all
            && (requeued == all || |requeued| == cfg.batch || |end.mem.queue| == cfg.maxQueued)
  {
    ReachableInv(cfg, end);
    PassEnds(cfg, start, end);
    StepIsReachable(cfg, end, EndPass);
  }

  lemma InsertKeepsMembers(cfg: Config, m: Memory, c: seq<RunId>, r: RunId, k: nat, left: set<RunId>)
    requires m.Up? && Candidate(cfg, m, r) && r !in left && SortedSoFar(cfg, m, c, left + {r}) && k <= |c|
    ensures var c' := c[..k] + [r] + c[k..];
            && (forall i | 0 <= i < |c'| :: Candidate(cfg, m, c'[i]) && c'[i] !in left)
            && (forall q | q in m.cache && Candidate(cfg, m, q) :: q in left || q in c')
  {
    var c' := c[..k] + [r] + c[k..];
    assert c'[k] == r;
    forall i | 0 <= i < |c'|
      ensures Candidate(cfg, m, c'[i]) && c'[i] !in left
    {
      assert i != k ==> c'[i] == c[if i < k then i else i - 1];
    }
    forall q | q in c
      ensures q in c'
    {
      var i :| 0 <= i < |c| && c[i] == q;
      assert c'[if i < k then i else i + 1] == q;
    }
  }

  lemma PrecedesIsTotal(cfg: Config, m: Memory, a: RunId, b: RunId)
    requires m.Up? && a in m.cache && b in m.cache && a != b
    ensures Precedes(cfg, m, a, b) <==> !Precedes(cfg, m, b, a)
  {
  }

  lemma PrecedesChains(cfg: Config, m: Memory, a: RunId, b: RunId, c: RunId)
    requires m.Up? && a in m.cache && b in m.cache && c in m.cache && Precedes(cfg, m, a, b) && Precedes(cfg, m, b, c)
    ensures Precedes(cfg, m, a, c)
  {
  }

  lemma InsertKeepsOrder(cfg: Config, m: Memory, c: seq<RunId>, r: RunId, k: nat)
    requires m.Up? && r in m.cache && k <= |c| && forall i | 0 <= i < |c| :: c[i] in m.cache && c[i] != r
    requires forall i, j | 0 <= i < j < |c| :: Precedes(cfg, m, c[i], c[j])
    requires forall i | 0 <= i < k :: Precedes(cfg, m, c[i], r)
    requires k < |c| ==> !Precedes(cfg, m, c[k], r)
    ensures var c' := c[..k] + [r] + c[k..];
            && (forall i | 0 <= i < |c'| :: c'[i] in m.cache)
            && (forall i, j | 0 <= i < j < |c'| :: Precedes(cfg, m, c'[i], c'[j]))
  {
    var c' := c[..k] + [r] + c[k..];
    assert forall i | 0 <= i < |c'| :: c'[i] == if i < k then c[i] else if i == k then r else c[i - 1];
    forall i | k <= i < |c|
      ensures Precedes(cfg, m, r, c[i])
    {
      PrecedesIsTotal(cfg, m, r, c[k]);
      if i > k {
        PrecedesChains(cfg, m, r, c[k], c[i]);
      }
    }
  }

  lemma UnknownIsUncached(cfg: Config, s: System, r: RunId)
    requires cfg.Valid() && Reachable(cfg, s) && s.mem.Up? && r !in s.disk
    ensures r !in s.mem.cache
  {
    ReachableInv(cfg, s);
  }

  class RunService {
    const cfg: Config
    const store: RunStore
    const enabled: bool
    var started: bool
    var cache: map<RunId, View>
    var latest: map<SubmissionId, Latest>
    var queue: seq<RunId>
    ghost var phase: Phase
    ghost var jobs: map<nat, Job>
    ghost var dead: set<nat>

    ghost function Memory(): (m: Memory)
      reads this
      ensures m.Up?
    {
      Up(enabled, phase, cache, latest, queue, jobs, dead)
    }

    ghost function State(): (s: System)
      reads this, store
      ensures s.mem.Up?
    {
      System(store.runs, Memory())
    }

    ghost predicate Valid()
      reads this, store
    {
      cfg.Valid() && Reachable(cfg, State()) && (started <==> !phase.Built?)
    }

    /** Opening the service on a directory: the index is rebuilt from a scan, in whatever order it comes. */
    constructor (cfg: Config, store: RunStore, enabled: bool, scan: seq<RunId>)
      requires cfg.Valid() && Reachable(cfg, System(store.runs, Down)) && IsScan(store.runs, scan)
      ensures Valid() && this.cfg == cfg && this.store == store && this.enabled == enabled && !started
      ensures State() == Apply(cfg, System(store.runs, Down), Boot(enabled, scan))
    {
      this.cfg, this.store, this.enabled := cfg, store, enabled;
      started, cache, latest, queue := false, map[], map[], [];
      phase, jobs, dead := Built, map[], {};
      new;
      ghost var blank := Memory();
      for i := 0 to |scan|
        invariant Memory() == Rebuild(store.runs, scan[..i], blank) && !started
        invariant store.runs == old(store.runs)
      {
        var run := store.runs[scan[i]];
        assert scan[..i + 1][..i] == scan[..i];
        if run.CanRead() {
          RememberRun(scan[i], ReadRun(run));
        }
      }
      assert scan[..|scan|] == scan;
      StepIsReachable(cfg, System(store.runs, Down), Boot(enabled, scan));
    }

    method RememberRun(r: RunId, v: View)
      modifies `cache, `latest
      ensures Memory() == Remember(old(Memory()), r, v)
    {
      cache := cache[r := v];
      var mine := Latest(v.meta.createdAt, r);
      if v.meta.submission !in latest || Newer(mine, latest[v.meta.submission]) {
        latest := latest[v.meta.submission := mine];
      }
    }

    /** Writes the event file, then refreshes the cached view; `raised` tells that the refresh failed. */
    method AppendEvent(r: RunId, state: State, at: Time, code: Option<Code>) returns (raised: bool)
      requires r in store.runs
      modifies `cache, store
      ensures State() == Append(old(State()), r, state, at, code)
      ensures raised == AppendRaises(old(State()), r)
    {
      var run := store.runs[r];
      var event := Event(|run.events| + 1, state, at, code);
      run := run.(events := run.events + [event]);
      store.runs := store.runs[r := run];
      raised := r in cache && run.result.Unreadable?;
      if r in cache && !raised {
        var updated :=
          cache[r].(number := event.number, state := state, updatedAt := at, attempts := Attempts(run.events));
        if code.Some? {
          updated := updated.(code := code);
        }
        if run.result.Readable? {
          updated := updated.(result := Some(run.result.value));
        }
        cache := cache[r := updated];
      }
    }

    /** The files of a new run, the last of which publishes it. */
    method StoreNewRun(r: RunId, meta: Meta)
      requires r !in store.runs && r !in cache
      modifies `cache, store
      ensures store.runs == old(store.runs)[r := NewRun(meta, meta.createdAt)] && cache == old(cache)
    {
      store.runs := store.runs[r := DiskRun(None, [], NoResult, false)];
      store.runs := store.runs[r := store.runs[r].(meta := Some(meta))];
      var raised := AppendEvent(r, Queued, meta.createdAt, None);
      store.runs := store.runs[r := store.runs[r].(ready := true)];
      assert store.runs[r].events == NewRun(meta, meta.createdAt).events;
    }

    /** A new run is stored, published, remembered and queued. A full queue is refused first; a run that is already
        there is only looked up, and answered from the cache, from disk or with an error. */
    method CreateRun(r: RunId, meta: Meta) returns (answer: Result<View, RequestError>)
      requires Valid() && phase.Serving?
      modifies this, store
      ensures Valid() && phase == old(phase)
      ensures old(|queue|) >= cfg.maxQueued ==> answer == Err(QueueFull) && State() == old(State())
      ensures old(|queue|) < cfg.maxQueued && r !in old(store.runs) ==>
                && State() == Apply(cfg, old(State()), Create(r, meta))
                && store.runs == old(store.runs)[r := DiskRun(Some(meta), [Event(1, Queued, meta.createdAt, None)],
                                                              NoResult, true)]
                && answer == Ok(View(meta, 1, Queued, meta.createdAt, None, 0, None))
                && queue == old(queue) + if enabled then [r] else []
      ensures old(|queue|) < cfg.maxQueued && r in old(store.runs) ==>
                && store.runs == old(store.runs) && queue == old(queue) && jobs == old(jobs)
                && (r in old(cache) ==> answer == Ok(old(cache)[r]) && State() == old(State()))
                && (r !in old(cache) && store.runs[r].CanRead() ==>
                      answer == Ok(ReadRun(store.runs[r])) && State() == Apply(cfg, old(State()), Get(r)))
                && (r !in old(cache) && !store.runs[r].CanRead() ==>
                      answer == Err(RecordInvalid) && State() == old(State()))
    {
      if |queue| >= cfg.maxQueued {
        return Err(QueueFull);
      }
      if r in store.runs {
        answer := GetRun(r);
        return;
      }
      ghost var before := State();
      UnknownIsUncached(cfg, before, r);
      StepIsReachable(cfg, before, Create(r, meta));
      NewRunHasNoAttempt(meta, meta.createdAt);
      StoreNewRun(r, meta);
      RememberRun(r, ReadRun(store.runs[r]));
      if enabled {
        queue := queue + [r];
      }
      assert State() == RunMachine.CreateRun(before, r, meta);
      answer := Ok(cache[r]);
    }

    lemma NewRunHasNoAttempt(meta: Meta, at: Time)
      ensures Attempts(NewRun(meta, at).events) == 0
    {
      var none: seq<Event> := [];
      CountAppend(none, Event(1, Queued, at, None), Preparing);
      assert none + [Event(1, Queued, at, None)] == NewRun(meta, at).events;
    }

    /** A run by its id: from the cache, or read from disk and remembered. */
    method GetRun(r: RunId) returns (answer: Result<View, RequestError>)
      requires Valid() && LockFree(Memory())
      modifies `cache, `latest
      ensures Valid()
      ensures r in old(cache) ==> answer == Ok(old(cache)[r]) && State() == old(State())
      ensures r !in old(cache) && r in store.runs && store.runs[r].CanRead() ==>
                answer == Ok(ReadRun(store.runs[r])) && State() == Apply(cfg, old(State()), Get(r))
      ensures r !in old(cache) && !(r in store.runs && store.runs[r].CanRead()) ==>
                answer == Err(if r in store.runs then RecordInvalid else NotFound) && State() == old(State())
    {
      if r in cache {
        return Ok(cache[r]);
      }
      if r !in store.runs {
        return Err(NotFound);
      }
      if !store.runs[r].CanRead() {
        return Err(RecordInvalid);
      }
      StepIsReachable(cfg, State(), Get(r));
      RememberRun(r, ReadRun(store.runs[r]));
      answer := Ok(cache[r]);
    }

    /** Completes or fails a run whose result file exists; tells whether there was one. */
    method RecoverPersistedResult(r: RunId, at: Time) returns (found: bool)
      requires r in store.runs
      modifies `cache, store
      ensures found == !old(store.runs)[r].result.NoResult?
      ensures State() == RecoverPersisted(cfg, old(State()), r, at)
    {
      if store.runs[r].result.NoResult? {
        return false;
      }
      var raised;
      if store.runs[r].result.Unreadable? {
        raised := AppendEvent(r, Failed, at, Some(cfg.policy.resultInvalid));
      } else {
        raised := AppendEvent(r, Completed, at, None);
      }
      found := true;
    }

    /** Starting: every published run is looked at once, in scan order, until a waiting run finds the queue full. */
    method StartService(scan: seq<RunId>, clock: RunId -> Time) returns (ghost n: nat)
      requires Valid() && phase.Built? && IsScan(store.runs, scan)
      modifies this, store
      ensures Valid() && started && phase.Serving?
      ensures Reachable(cfg, SetPhase(old(State()), Recovering(scan)))
      ensures State() == RecoverAll(cfg, SetPhase(old(State()), Recovering(scan)), clock)
      ensures RecoveredUpTo(cfg, old(State()), State(), scan, n, clock)
    {
      n := RecoveryOfScan(cfg, State(), scan, clock);
      StepIsReachable(cfg, State(), Start(scan));
      started := true;
      phase := Recovering(scan);
      RecoverRuns(scan, clock);
    }

    method RecoverRuns(scan: seq<RunId>, clock: RunId -> Time)
      requires cfg.Valid() && Reachable(cfg, State()) && phase == Recovering(scan)
      modifies this, store
      ensures State() == RecoverAll(cfg, old(State()), clock)
      ensures Reachable(cfg, State()) && phase.Serving? && started == old(started)
    {
      var i := 0;
      while i < |scan|
        invariant i <= |scan| && phase == Recovering(scan[i..]) && Reachable(cfg, State()) && started == old(started)
        invariant RecoverAll(cfg, State(), clock) == RecoverAll(cfg, old(State()), clock)
      {
        var r := scan[i];
        RecoverIteration(cfg, State(), clock);
        assert scan[i..] == [r] + scan[i + 1..];
        var full := RecoverRun(r, clock(r), scan[i + 1..]);
        if full {
          return;
        }
        i := i + 1;
      }
      StepIsReachable(cfg, State(), Recovered);
      phase := Serving(true);
    }

    method RecoverRun(r: RunId, at: Time, ghost rest: seq<RunId>) returns (full: bool)
      requires phase == Recovering([r] + rest) && r in store.runs && store.runs[r].events != []
      modifies this, store
      ensures State() == RecoverOne(cfg, old(State()), at) && started == old(started)
      ensures full <==> !phase.Recovering?
    {
      assert ([r] + rest)[1..] == rest;
      phase := Recovering(rest);
      var state := store.runs[r].Last();
      if state.Finalizing? {
        var found := RecoverPersistedResult(r, at);
        if found {
          return false;
        }
      }
      if Active(state) {
        var raised := AppendEvent(r, Failed, at, Some(JOB_LOST));
      } else if state.Queued? && enabled {
        if |queue| >= cfg.maxQueued {
          phase := Serving(false);
          return true;
        }
        queue := queue + [r];
      }
      full := false;
    }

    /** The failed runs worth another attempt, sorted into the order of a pass. */
    method SortCandidates() returns (c: seq<RunId>)
      requires Valid()
      ensures SortedCandidates(cfg, Memory(), c)
      ensures cfg.policy == AGENT_POLICY || cfg.policy == PLAGIARISM_POLICY ==>
                forall r | r in cache :: r in store.runs && (r in c <==> TriesAgain(cfg.policy, store.runs[r]))
    {
      c := [];
      var left := cache.Keys;
      while left != {}
        invariant left <= cache.Keys && SortedSoFar(cfg, Memory(), c, left)
        decreases left
      {
        var r :| r in left;
        left := left - {r};
        if cache[r].state.Failed? && RetryableFailure(cfg.policy, cache[r]) {
          c := InsertCandidate(c, r, left);
        }
      }
      if cfg.policy == AGENT_POLICY || cfg.policy == PLAGIARISM_POLICY {
        SortedAreTriedAgain(cfg, State(), c);
      }
    }

    method InsertCandidate(c: seq<RunId>, r: RunId, ghost left: set<RunId>) returns (c': seq<RunId>)
      requires Candidate(cfg, Memory(), r) && r !in left && SortedSoFar(cfg, Memory(), c, left + {r})
      ensures SortedSoFar(cfg, Memory(), c', left)
    {
      var k := 0;
      while k < |c| && Before(c[k], r)
        invariant k <= |c| && forall i | 0 <= i < k :: Precedes(cfg, Memory(), c[i], r)
      {
        k := k + 1;
      }
      InsertKeepsMembers(cfg, Memory(), c, r, k, left);
      InsertKeepsOrder(cfg, Memory(), c, r, k);
      c' := c[..k] + [r] + c[k..];
    }

    predicate Before(a: RunId, b: RunId)
      requires a in cache && b in cache
      reads this
      ensures Before(a, b) <==> Precedes(cfg, Memory(), a, b)
    {
      var x, y := cache[a].updatedAt, cache[b].updatedAt;
      if cfg.policy.newestFirst then x > y || (x == y && a > b) else x < y || (x == y && a < b)
    }

    /** One reconciliation pass: over the failed runs worth another attempt, in order, until a full batch has been
        queued again or the queue is full. */
    method ReconcileFailed(clock: RunId -> Time) returns (reconciled: nat, ghost c: seq<RunId>, ghost n: nat)
      requires Valid() && LockFree(Memory())
      modifies this, store
      ensures Valid() && started == old(started) && phase == old(phase)
      ensures !old(started) || !enabled ==> reconciled == 0 && State() == old(State())
      ensures old(started) && enabled ==>
                && SortedCandidates(cfg, old(Memory()), c)
                && Reachable(cfg, Begun(cfg, old(State()), c))
                && State() == ReconcileAll(cfg, Begun(cfg, old(State()), c), clock)
      ensures old(started) && enabled ==>
                var all := EligibleOf(cfg, old(store.runs), c);
                && reconciled <= |all| && queue == old(queue) + all[..reconciled]
                && (reconciled == |all| || reconciled == cfg.batch || |queue| == cfg.maxQueued)
      ensures old(started) && enabled ==>
                Treated(old(store.runs), store.runs, c, n, (r: RunId, run: DiskRun) => Reconciled(cfg, run, clock(r)))
      ensures old(started) && enabled && reconciled < cfg.batch && |queue| < cfg.maxQueued ==>
                forall r | r in old(store.runs) && DueAgain(cfg, old(store.runs)[r]) :: r in queue
    {
      if !started || !enabled {
        return 0, [], 0;
      }
      var candidates := SortCandidates();
      c := candidates;
      PassCanBegin(cfg, State(), c);
      n := PassTreats(cfg, Begun(cfg, State(), c), clock);
      DueAreEligible(cfg, State(), c);
      reconciled := RunPass(candidates, clock);
    }

    method RunPass(c: seq<RunId>, clock: RunId -> Time) returns (reconciled: nat)
      requires cfg.Valid() && phase.Serving? && started && Reachable(cfg, Begun(cfg, State(), c))
      requires PassProgress(cfg, Begun(cfg, State(), c), Begun(cfg, State(), c))
      modifies this, store
      ensures Reachable(cfg, State()) && started && phase == old(phase)
      ensures State() == ReconcileAll(cfg, Begun(cfg, old(State()), c), clock)
      ensures var all := EligibleOf(cfg, old(store.runs), c);
              && reconciled <= |all| && queue == old(queue) + all[..reconciled]
              && (reconciled == |all| || reconciled == cfg.batch || |queue| == cfg.maxQueued)
    {
      ghost var covered := phase.covered;
      phase := Reconciling(covered, c, 0, []);
      ghost var beginning := State();
      reconciled := RequeueCandidates(beginning, c, clock);
      PassConcludes(cfg, beginning, State());
      phase := Serving(covered);
    }

    method RequeueCandidates(ghost beginning: System, c: seq<RunId>, clock: RunId -> Time) returns (reconciled: nat)
      requires InPass(beginning, c, 0, 0)
      modifies this, store
      ensures phase.Reconciling? && InPass(beginning, c, phase.next, reconciled) && started == old(started)
      ensures PassOver(cfg, Memory())
      ensures ReconcileAll(cfg, State(), clock) == ReconcileAll(cfg, old(State()), clock)
    {
      reconciled := 0;
      var i := 0;
      while i < |c| && reconciled < cfg.batch && |queue| < cfg.maxQueued
        invariant InPass(beginning, c, i, reconciled) && started == old(started)
        invariant ReconcileAll(cfg, State(), clock) == ReconcileAll(cfg, old(State()), clock)
      {
        var requeued := PassStep(beginning, c, i, reconciled, clock);
        reconciled := if requeued then reconciled + 1 else reconciled;
        i := i + 1;
      }
    }

    ghost predicate InPass(beginning: System, c: seq<RunId>, i: nat, reconciled: nat)
      reads this, store
    {
      && cfg.Valid() && Reachable(cfg, State()) && beginning.mem.Up? && beginning.mem.phase.Reconciling?
      && phase.Reconciling? && phase == Reconciling(beginning.mem.phase.covered, c, i, phase.requeued) && i <= |c|
      && PassProgress(cfg, beginning, State())
      && reconciled == |phase.requeued| && queue == beginning.mem.queue + phase.requeued
    }

    method PassStep(ghost beginning: System, c: seq<RunId>, i: nat, reconciled: nat, clock: RunId -> Time)
      returns (requeued: bool)
      requires InPass(beginning, c, i, reconciled) && i < |c| && reconciled < cfg.batch && |queue| < cfg.maxQueued
      modifies this, store
      ensures InPass(beginning, c, i + 1, reconciled + if requeued then 1 else 0) && started == old(started)
      ensures ReconcileAll(cfg, State(), clock) == ReconcileAll(cfg, old(State()), clock)
    {
      ReconcileIteration(cfg, beginning, State(), clock);
      requeued := ReconcileRun(c[i], clock(c[i]));
    }

    method ReconcileRun(r: RunId, at: Time) returns (requeued: bool)
      requires phase.Reconciling? && phase.next < |phase.candidates| && phase.candidates[phase.next] == r
      requires r in store.runs
      modifies this, store
      ensures State() == ReconcileOne(cfg, old(State()), at) && started == old(started)
      ensures requeued <==> Eligible(cfg, old(store.runs), r)
      ensures queue == old(queue) + if requeued then [r] else []
    {
      ghost var p := phase;
      phase := p.(next := p.next + 1);
      var found := RecoverPersistedResult(r, at);
      if found {
        return false;
      }
      if Attempts(store.runs[r].events) >= cfg.maxAttempts {
        return false;
      }
      phase := p.(next := p.next + 1, requeued := p.requeued + [r]);
      var raised := AppendEvent(r, Queued, at, None);
      queue := queue + [r];
      requeued := true;
    }

    // ----- a worker

    /** A free worker takes the oldest waiting run; it need not wait for a pass that holds the lock. */
    method TakeRun(w: nat) returns (r: RunId)
      requires Valid() && (phase.Serving? || phase.Reconciling?) && enabled && w < cfg.workers && w !in jobs &&
               w !in dead && queue != []
      modifies `queue, `jobs
      ensures Valid() && State() == Apply(cfg, old(State()), Take(w))
      ensures r == old(queue)[0] && jobs[w] == Job(r, Taken)
    {
      StepIsReachable(cfg, State(), Take(w));
      r := queue[0];
      queue := queue[1..];
      jobs := jobs[w := Job(r, Taken)];
    }

    /** Appends a progress event for a worker whose run has no result yet. */
    method AdvanceRun(w: nat, r: RunId, ghost step: Step, state: State, ghost pc: Pc, at: Time)
      requires Valid() && phase.Serving? && w in jobs && jobs[w].run == r
      requires Enabled(cfg, State(), step)
      requires || (step == Prepare(w, at) && state.Preparing? && pc.Prepared?)
               || (step == Accept(w, at) && state.Running? && pc.Executing?)
               || (step == Finish(w, at) && state.Finalizing? && pc.Finished?)
      modifies `cache, `jobs, store
      ensures Valid() && State() == Apply(cfg, old(State()), step)
      ensures r in store.runs && jobs == old(jobs)[w := Job(r, pc)]
      ensures r in old(store.runs) &&
              store.runs == old(store.runs)[r := AppendToDisk(old(store.runs)[r], state, at, None)]
    {
      WorkerIsEarly(cfg, State(), w);
      StepIsReachable(cfg, State(), step);
      var raised := AppendEvent(r, state, at, None);
      jobs := jobs[w := Job(r, pc)];
    }

    /** The body of an attempt up to its first exception, whose code is handed to the caller. */
    method AttemptRun(w: nat, r: RunId, outcome: Outcome, clock: nat -> Time) returns (failure: Option<Code>)
      requires Valid() && phase.Serving? && w in jobs && jobs[w] == Job(r, Taken) && r in store.runs
      requires outcome.Produced? ==> !outcome.file.NoResult?
      modifies `cache, `jobs, store
      ensures Valid() && r in store.runs
      ensures store.runs == old(store.runs)[r := Attempted(old(store.runs)[r], outcome, clock)]
      ensures failure == FailureOf(cfg, outcome) && jobs == JobsAfter(old(jobs), w, r, failure)
    {
      AdvanceRun(w, r, Prepare(w, clock(0)), Preparing, Prepared, clock(0));
      if outcome.Rejected? {
        failure := RaiseFailure(w, r, cfg.policy.executionFailed);
      } else {
        failure := AttemptAccepted(w, r, outcome, clock);
      }
    }

    method AttemptAccepted(w: nat, r: RunId, outcome: Outcome, clock: nat -> Time) returns (failure: Option<Code>)
      requires Valid() && phase.Serving? && w in jobs && jobs[w] == Job(r, Prepared) && r in store.runs
      requires !outcome.Rejected? && (outcome.Produced? ==> !outcome.file.NoResult?)
      modifies `cache, `jobs, store
      ensures Valid() && r in store.runs
      ensures store.runs == old(store.runs)[r := Accepted(old(store.runs)[r], outcome, clock)]
      ensures failure == FailureOf(cfg, outcome) && jobs == JobsAfter(old(jobs), w, r, failure)
    {
      AdvanceRun(w, r, Accept(w, clock(1)), Running, Executing, clock(1));
      if outcome.ExecutorFailed? {
        failure := RaiseFailure(w, r, outcome.code);
      } else {
        failure := AttemptFinished(w, r, outcome, clock);
      }
    }

    method AttemptFinished(w: nat, r: RunId, outcome: Outcome, clock: nat -> Time) returns (failure: Option<Code>)
      requires Valid() && phase.Serving? && w in jobs && jobs[w] == Job(r, Executing) && r in store.runs
      requires outcome.Unserializable? || (outcome.Produced? && !outcome.file.NoResult?)
      modifies `cache, `jobs, store
      ensures Valid() && r in store.runs
      ensures store.runs == old(store.runs)[r := Finalized(old(store.runs)[r], outcome, clock)]
      ensures failure == FailureOf(cfg, outcome) && jobs == JobsAfter(old(jobs), w, r, failure)
    {
      AdvanceRun(w, r, Finish(w, clock(2)), Finalizing, Finished, clock(2));
      if outcome.Unserializable? {
        failure := RaiseFailure(w, r, cfg.policy.executionFailed);
      } else {
        StoreResult(w, r, outcome.file);
        failure := ConcludeRun(w, r, clock(3));
      }
    }

    method RaiseFailure(w: nat, r: RunId, code: Code) returns (failure: Option<Code>)
      requires Valid() && phase.Serving? && w in jobs && jobs[w].run == r && r in store.runs
      requires MayRaise(cfg, jobs[w].pc, code)
      modifies `jobs
      ensures Valid() && failure == Some(code) && jobs == JobsAfter(old(jobs), w, r, failure)
    {
      StepIsReachable(cfg, State(), Raise(w, code));
      jobs := jobs[w := Job(r, Handling(code))];
      failure := Some(code);
    }

    /** The create-only write of the result: the place is always free. It is made without the lock. */
    method StoreResult(w: nat, r: RunId, file: ResultFile)
      requires Valid() && w in jobs && jobs[w] == Job(r, Finished) && r in store.runs && !file.NoResult?
      modifies `jobs, store
      ensures Valid() && old(store.runs)[r].result.NoResult?
      ensures store.runs == old(store.runs)[r := old(store.runs)[r].(result := file)]
      ensures jobs == old(jobs)[w := Job(r, Written)]
    {
      WriteFindsNoFile(cfg, State(), w);
      StepIsReachable(cfg, State(), Write(w, file));
      store.runs := store.runs[r := store.runs[r].(result := file)];
      jobs := jobs[w := Job(r, Written)];
    }

    method ConcludeRun(w: nat, r: RunId, at: Time) returns (failure: Option<Code>)
      requires Valid() && phase.Serving? && w in jobs && jobs[w] == Job(r, Written) && r in store.runs
      modifies `cache, `jobs, store
      ensures Valid() && store.runs == old(store.runs)[r := AppendToDisk(old(store.runs)[r], Completed, at, None)]
      ensures failure == if old(store.runs)[r].result.Unreadable? then Some(cfg.policy.executionFailed) else None
      ensures jobs == JobsAfter(old(jobs), w, r, failure)
    {
      HeldIsKnown(cfg, State(), w);
      StepIsReachable(cfg, State(), CompleteRun(w, at));
      var raised := AppendEvent(r, Completed, at, None);
      failure := if raised then Some(cfg.policy.executionFailed) else None;
      jobs := if raised then jobs[w := Job(r, Handling(cfg.policy.executionFailed))] else jobs - {w};
    }

    /** One attempt of a run, the exception handler included. When nothing interleaves, the log grows by exactly the
        states of the outcome, and the worker survives unless the result it stored cannot be read back. */
    method ExecuteRun(w: nat, r: RunId, outcome: Outcome, clock: nat -> Time) returns (dies: bool)
      requires Valid() && phase.Serving? && w in jobs && jobs[w] == Job(r, Taken) && r in store.runs
      requires outcome.Produced? ==> !outcome.file.NoResult?
      modifies `cache, `jobs, `dead, store
      ensures Valid() && r in store.runs && jobs == old(jobs) - {w}
      ensures forall q | q != r :: (q in store.runs <==> q in old(store.runs)) &&
                                   (q in store.runs ==> store.runs[q] == old(store.runs)[q])
      ensures var run, n, failed := old(store.runs)[r], |old(store.runs)[r].events|, cfg.policy.executionFailed;
              match outcome
              case Rejected =>
                store.runs[r] == run.(events := run.events + [
                  Event(n + 1, Preparing, clock(0), None), Event(n + 2, Failed, clock(4), Some(failed))])
              case ExecutorFailed(code) =>
                store.runs[r] == run.(events := run.events + [
                  Event(n + 1, Preparing, clock(0), None), Event(n + 2, Running, clock(1), None),
                  Event(n + 3, Failed, clock(4), Some(code))])
              case Unserializable =>
                store.runs[r] == run.(events := run.events + [
                  Event(n + 1, Preparing, clock(0), None), Event(n + 2, Running, clock(1), None),
                  Event(n + 3, Finalizing, clock(2), None), Event(n + 4, Failed, clock(4), Some(failed))])
              case Produced(file) =>
                store.runs[r] == run.(result := file, events := run.events + [
                  Event(n + 1, Preparing, clock(0), None), Event(n + 2, Running, clock(1), None),
                  Event(n + 3, Finalizing, clock(2), None), Event(n + 4, Completed, clock(3), None)] +
                  if file.Unreadable? then [Event(n + 5, Failed, clock(4), Some(failed))] else [])
      ensures dies <==> outcome.Produced? && outcome.file.Unreadable?
      ensures dead == if dies then old(dead) + {w} else old(dead)
    {
      HeldIsKnown(cfg, State(), w);
      AttemptIsLogged(cfg, store.runs[r], outcome, clock);
      dies := false;
      var failure := AttemptRun(w, r, outcome, clock);
      if failure.Some? {
        dies := HandleException(w, r, failure.value, clock(4));
      }
    }

    /** The exception handler; when its own append raises, the worker thread ends. */
    method HandleException(w: nat, r: RunId, code: Code, at: Time) returns (dies: bool)
      requires Valid() && phase.Serving? && w in jobs && jobs[w] == Job(r, Handling(code)) && r in store.runs
      modifies `cache, `jobs, `dead, store
      ensures Valid() && jobs == old(jobs) - {w}
      ensures store.runs == old(store.runs)[r := AppendToDisk(old(store.runs)[r], Failed, at, Some(code))]
      ensures dies <==> old(store.runs)[r].result.Unreadable?
      ensures dead == if dies then old(dead) + {w} else old(dead)
    {
      HeldIsKnown(cfg, State(), w);
      StepIsReachable(cfg, State(), HandleFailure(w, at));
      dies := AppendEvent(r, Failed, at, Some(code));
      jobs := jobs - {w};
      dead := if dies then dead + {w} else dead;
    }
  }

  function FailureOf(cfg: Config, outcome: Outcome): Option<Code> {
    match outcome
    case Rejected => Some(cfg.policy.executionFailed)
    case ExecutorFailed(code) => Some(code)
    case Unserializable => Some(cfg.policy.executionFailed)
    case Produced(file) => if file.Unreadable? then Some(cfg.policy.executionFailed) else None
  }

  /** A worker is in its exception handler, or free again. */
  function JobsAfter(jobs: map<nat, Job>, w: nat, r: RunId, failure: Option<Code>): map<nat, Job> {
    if failure.Some? then jobs[w := Job(r, Handling(failure.value))] else jobs - {w}
  }

  function Finalized(run: DiskRun, outcome: Outcome, clock: nat -> Time): DiskRun {
    var finalizing := AppendToDisk(run, Finalizing, clock(2), None);
    if outcome.Produced?
    then AppendToDisk(finalizing.(result := outcome.file), Completed, clock(3), None) else finalizing
  }

  function Accepted(run: DiskRun, outcome: Outcome, clock: nat -> Time): DiskRun {
    var running := AppendToDisk(run, Running, clock(1), None);
    if outcome.ExecutorFailed? then running else Finalized(running, outcome, clock)
  }

  /** The run after the body of an attempt. */
  function Attempted(run: DiskRun, outcome: Outcome, clock: nat -> Time): DiskRun {
    var preparing := AppendToDisk(run, Preparing, clock(0), None);
    if outcome.Rejected? then preparing else Accepted(preparing, outcome, clock)
  }

  /** The run after an attempt and its exception handler. */
  function Executed(cfg: Config, run: DiskRun, outcome: Outcome, clock: nat -> Time): DiskRun {
    var attempted := Attempted(run, outcome, clock);
    var failure := FailureOf(cfg, outcome);
    if failure.Some? then AppendToDisk(attempted, Failed, clock(4), failure) else attempted
  }

  /** The events of an attempt by its outcome, written out. */
  lemma AttemptIsLogged(cfg: Config, run: DiskRun, outcome: Outcome, clock: nat -> Time)
    ensures var n, failed := |run.events|, cfg.policy.executionFailed;
            Executed(cfg, run, outcome, clock) ==
            match outcome
            case Rejected =>
              run.(events := run.events + [
                Event(n + 1, Preparing, clock(0), None), Event(n + 2, Failed, clock(4), Some(failed))])
            case ExecutorFailed(code) =>
              run.(events := run.events + [
                Event(n + 1, Preparing, clock(0), None), Event(n + 2, Running, clock(1), None),
                Event(n + 3, Failed, clock(4), Some(code))])
            case Unserializable =>
              run.(events := run.events + [
                Event(n + 1, Preparing, clock(0), None), Event(n + 2, Running, clock(1), None),
                Event(n + 3, Finalizing, clock(2), None), Event(n + 4, Failed, clock(4), Some(failed))])
            case Produced(file) =>
              run.(result := file, events := run.events + [
                Event(n + 1, Preparing, clock(0), None), Event(n + 2, Running, clock(1), None),
                Event(n + 3, Finalizing, clock(2), None), Event(n + 4, Completed, clock(3), None)] +
                if file.Unreadable? then [Event(n + 5, Failed, clock(4), Some(failed))] else [])
  {
  }

  /** Which attempts are followed by another: of agent runs, those whose executor reports a lost or unavailable model,
      and by hand also the unexpected failures; of plagiarism runs, the unexpected failures and two reported ones. */
  lemma AttemptIsTriedAgainIff(cfg: Config, run: DiskRun, outcome: Outcome, clock: nat -> Time)
    requires run.meta.Some? && run.result.NoResult?
    ensures cfg.policy == AGENT_POLICY ==>
              (AgentTriesAgain(Executed(cfg, run, outcome, clock)) <==>
                 match outcome
                 case ExecutorFailed(code) =>
                   || code == "JOB_LOST" || code == "MODEL_UNAVAILABLE"
                   || (run.meta.value.manual && (code == "AGENT_EXECUTION_FAILED" || code == "RESULT_INVALID"))
                 case Produced(_) => false
                 case _ => run.meta.value.manual)
    ensures cfg.policy == PLAGIARISM_POLICY ==>
              (PlagiarismTriesAgain(Executed(cfg, run, outcome, clock)) <==>
                 match outcome
                 case ExecutorFailed(code) =>
                   code == "JOB_LOST" || code == "PLAGIARISM_EXECUTION_FAILED" || code == "SOURCE_BUNDLE_INVALID"
                 case Produced(_) => false
                 case _ => true)
  {
    AttemptIsLogged(cfg, run, outcome, clock);
    var after := Executed(cfg, run, outcome, clock);
    assert after.events[|after.events| - 1].state == if outcome == Produced(after.result) && after.result != Unreadable
                                                     then Completed else Failed;
  }

  /** A worker that has not stored a result holds a run without one. */
  lemma WorkerIsEarly(cfg: Config, s: System, w: nat)
    requires cfg.Valid() && Reachable(cfg, s) && Busy(s, w)
    requires var pc := s.mem.jobs[w].pc; pc.Taken? || pc.Prepared? || pc.Executing?
    ensures s.disk[s.mem.jobs[w].run].result.NoResult?
  {
    ReachableInv(cfg, s);
    HeldRun(cfg, s, w);
  }

  lemma WriteFindsNoFile(cfg: Config, s: System, w: nat)
    requires cfg.Valid() && Reachable(cfg, s) && BusyAt(s, w, Finished)
    ensures s.disk[s.mem.jobs[w].run].result.NoResult?
  {
    ReachableInv(cfg, s);
    HeldRun(cfg, s, w);
  }

  lemma HeldIsKnown(cfg: Config, s: System, w: nat)
    requires cfg.Valid() && Reachable(cfg, s) && Busy(s, w)
    ensures s.mem.jobs[w].run in s.mem.cache && w !in s.mem.dead
    ensures s.mem.jobs[w].pc.Taken? ==> s.disk[s.mem.jobs[w].run].result.NoResult?
  {
    ReachableInv(cfg, s);
    HeldRun(cfg, s, w);
  }
}
