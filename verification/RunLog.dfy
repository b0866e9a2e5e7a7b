/** The append-only event log of one run: states, legal edges and the counting facts that bound attempts. */
module RunLog {
  import opened Common

  type RunId = nat
  type SubmissionId = nat
  type Time = int
  type Code = string

  // "cancelled" is a known state name, but no code path ever appends it.
  datatype State = Queued | Preparing | Running | Finalizing | Completed | Failed

  datatype Event = Event(number: nat, state: State, at: Time, code: Option<Code>)

  predicate Active(s: State) {
    s.Preparing? || s.Running? || s.Finalizing?
  }

  /** The edges the service ever takes. `Completed -> Failed` is the one edge out of a final state: it is taken
      exactly when the result that was just written cannot be read back. */
  predicate Edge(a: State, b: State) {
    match a
    case Queued => b.Preparing?
    case Preparing => b.Running? || b.Failed?
    case Running => b.Finalizing? || b.Failed?
    case Finalizing => b.Completed? || b.Failed?
    case Failed => b.Queued? || b.Completed?
    case Completed => b.Failed?
  }

  function Count(log: seq<Event>, s: State): nat {
    if log == [] then 0
    else Count(log[..|log| - 1], s) + if log[|log| - 1].state == s then 1 else 0
  }

  function Attempts(log: seq<Event>): nat {
    Count(log, Preparing)
  }

  /** A log numbered 1..n whose consecutive states are legal edges, with an error code on exactly the failures. */
  ghost predicate LegalLog(log: seq<Event>) {
    && |log| > 0
    && log[0].state == Queued
    && (forall i | 0 <= i < |log| :: log[i].number == i + 1 && (log[i].state.Failed? <==> log[i].code.Some?))
    && (forall i | 0 < i < |log| :: Edge(log[i - 1].state, log[i].state))
  }

  lemma CountAppend(log: seq<Event>, e: Event, s: State)
    ensures Count(log + [e], s) == Count(log, s) + if e.state == s then 1 else 0
  {
    assert (log + [e])[..|log|] == log;
  }

  lemma LegalPrefix(log: seq<Event>, n: nat)
    requires LegalLog(log) && 0 < n <= |log|
    ensures LegalLog(log[..n])
  {
  }

  /** Every queued event but a trailing one has been answered by exactly one preparing event, and every running
      event, hence every executor call, belongs to its own preparing event. */
  lemma {:induction false} LegalLogCounts(log: seq<Event>)
    requires LegalLog(log)
    ensures Count(log, Queued) - Count(log, Preparing) == if log[|log| - 1].state.Queued? then 1 else 0
    ensures Count(log, Running) <= Count(log, Preparing) - if log[|log| - 1].state.Preparing? then 1 else 0
  {
    var n := |log| - 1;
    if n == 0 {
      assert log[..0] == [];
    } else {
      LegalPrefix(log, n);
      LegalLogCounts(log[..n]);
      assert Edge(log[n - 1].state, log[n].state);
    }
  }

  function EventCount(log: seq<Event>): nat {
    Count(log, Queued) + Count(log, Preparing) + Count(log, Running) + Count(log, Finalizing) + Count(log, Completed)
    + Count(log, Failed)
  }

  lemma {:induction false} EventCountIsLength(log: seq<Event>)
    ensures EventCount(log) == |log|
  {
    if log != [] {
      EventCountIsLength(log[..|log| - 1]);
    }
  }

  /** Every finalizing event follows its own running event, and every failure but a trailing one is answered by a queued
      or a completed event. */
  lemma {:induction false} LegalLogAnswersFailures(log: seq<Event>)
    requires LegalLog(log)
    ensures Count(log, Finalizing) <= Count(log, Running) - if log[|log| - 1].state.Running? then 1 else 0
    ensures Count(log, Failed) <=
            Count(log, Queued) + Count(log, Completed) - if log[|log| - 1].state.Failed? then 0 else 1
  {
    var n := |log| - 1;
    if n == 0 {
      assert log[..0] == [];
    } else {
      LegalPrefix(log, n);
      LegalLogAnswersFailures(log[..n]);
      assert Edge(log[n - 1].state, log[n].state);
    }
  }

  lemma {:induction false} CountNone(log: seq<Event>, s: State)
    requires forall i | 0 <= i < |log| :: log[i].state != s
    ensures Count(log, s) == 0
  {
    if log != [] {
      CountNone(log[..|log| - 1], s);
    }
  }
}
