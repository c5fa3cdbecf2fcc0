/** Which job state changes are legal: app/domain/enums.py and app/domain/lifecycle.py. */
module Lifecycle {
  import opened Base

  datatype JobStatus = Queued | Claimed | Running | Finished | Cancelled

  datatype RunOutcome = Completed | TimedOut | CrashedOnLaunch | NoActivityObserved | EvasionSuspected

  datatype IllegalTransition =
    | NotAnEdge(current: JobStatus, target: JobStatus)
    | LeavesTerminal(current: JobStatus, target: JobStatus)
    | FinishNeedsOutcome(current: JobStatus)
    | OutcomeOnlyWhenFinishing(current: JobStatus, target: JobStatus)

  /** The transition table, keyed by the state being left. */
  function AllowedTransitions(current: JobStatus): set<JobStatus> {
    match current
    case Queued => {Claimed, Cancelled}
    case Claimed => {Running, Queued, Cancelled}
    case Running => {Finished, Queued, Cancelled}
    case Finished => {}
    case Cancelled => {}
  }

  predicate IsTerminal(status: JobStatus) {
    status in {Finished, Cancelled}
  }

  /** `None` when the move is allowed, otherwise the error that is raised. */
  function ValidateTransition(current: JobStatus, target: JobStatus, outcome: Option<RunOutcome>):
    (refusal: Option<IllegalTransition>)
  {
    if target !in AllowedTransitions(current) then
      if IsTerminal(current) then Some(LeavesTerminal(current, target)) else Some(NotAnEdge(current, target))
    else if target == Finished && outcome.None? then
      Some(FinishNeedsOutcome(current))
    else if target != Finished && outcome.Some? then
      Some(OutcomeOnlyWhenFinishing(current, target))
    else
      None
  }

  /**
   * A move is let through exactly along an edge and with an outcome exactly when finishing; each error
   * has its own cause.
   */
  lemma RefusalsSayWhy(current: JobStatus, target: JobStatus, outcome: Option<RunOutcome>)
    ensures var refusal, edge := ValidateTransition(current, target, outcome), target in AllowedTransitions(current);
      && (refusal == None <==> edge && (outcome.Some? <==> target == Finished))
      && (refusal == Some(LeavesTerminal(current, target)) <==> AllowedTransitions(current) == {})
      && (refusal == Some(NotAnEdge(current, target)) <==> !edge && AllowedTransitions(current) != {})
      && (refusal == Some(FinishNeedsOutcome(current)) <==> edge && target == Finished && outcome == None)
      && (refusal == Some(OutcomeOnlyWhenFinishing(current, target)) <==> edge && target != Finished && outcome != None)
  {
    assert current in {Queued, Claimed} ==> Cancelled in AllowedTransitions(current);
    assert current == Running ==> Finished in AllowedTransitions(current);
  }

  /** The table, read by the state entered: what has to be left to get there, and what has no way out. */
  lemma EntriesOfTheTable(current: JobStatus, target: JobStatus)
    ensures var edge := target in AllowedTransitions(current);
      && (target == Cancelled ==> (edge <==> current != Finished && current != Cancelled))
      && (target == Finished ==> (edge <==> current == Running))
      && (target == Running ==> (edge <==> current == Claimed))
      && (target == Claimed ==> (edge <==> current == Queued))
      && (target == Queued ==> (edge <==> current == Claimed || current == Running))
    ensures IsTerminal(current) <==> forall t :: t !in AllowedTransitions(current)
  {
    assert current in {Queued, Claimed} ==> Cancelled in AllowedTransitions(current);
    assert current == Running ==> Finished in AllowedTransitions(current);
  }

  /** A walk through the table. */
  predicate Walk(path: seq<JobStatus>) {
    forall i :: 0 < i < |path| ==> path[i] in AllowedTransitions(path[i - 1])
  }

  /** Every walk from the queue to `Finished` ends `Claimed, Running, Finished`: nothing finishes without running. */
  lemma FinishingMeansHavingRun(path: seq<JobStatus>)
    requires |path| > 0 && Walk(path) && path[0] == Queued && path[|path| - 1] == Finished
    ensures |path| >= 4 && path[|path| - 4..] == [Queued, Claimed, Running, Finished]
  {
    var n := |path|;
    assert n >= 2 && path[n - 2] == Running;
    assert n >= 3 && path[n - 3] == Claimed;
    assert n >= 4 && path[n - 4] == Queued;
  }
}
