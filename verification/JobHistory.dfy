/**
 * The life of one job as the sequence of accepted changes to its row.
 *
 * Both queues, and every interleaving of database sessions, are shown elsewhere to change a row
 * only by `Step`; what is proved here about all histories therefore holds of all of them.
 */
module JobHistory {
  import opened Base
  import opened Lifecycle
  import opened Jobs

  /** What a worker asks for about a job it believes it holds. */
  datatype Action =
    | Start
    | Heartbeat(leaseSeconds: int)
    | Complete(outcome: RunOutcome)
    | Fail(reason: string)

  datatype Refusal =
    | UnknownJob
    | LeaseLost(holder: Option<WorkerId>)
    | Illegal(why: IllegalTransition)

  function Target(action: Action): JobStatus
    requires !action.Heartbeat?
  {
    match action
    case Start => Running
    case Complete(_) => Finished
    case Fail(_) => Queued
  }

  /** Check the holder, then act: the common shape of start, heartbeat, complete and fail. */
  function Act(row: JobRow, worker: WorkerId, action: Action, now: Time): Result<JobRow, Refusal> {
    if row.claimedBy != Some(worker) then
      Err(LeaseLost(row.claimedBy))
    else if action.Heartbeat? then
      Ok(Granted(row, worker, action.leaseSeconds, now))
    else
      var outcome := if action.Complete? then Some(action.outcome) else None;
      var reason := if action.Fail? then Some(Reported(action.reason)) else None;
      match ValidateTransition(row.status, Target(action), outcome)
      case Some(why) => Err(Illegal(why))
      case None => Ok(Moved(row, Target(action), outcome, reason, now))
  }

  /** Handing a queued job to a worker: count the attempt, transition, grant. */
  function Leased(row: JobRow, worker: WorkerId, leaseSeconds: int, now: Time): JobRow {
    Granted(Moved(row.(attempts := row.attempts + 1), Claimed, None, None, now), worker, leaseSeconds, now)
  }

  predicate Expired(row: JobRow, now: Time) {
    Held(row) && Lapsed(row, now)
  }

  /** What a sweep does to an expired row. */
  function Swept(row: JobRow, maxAttempts: int, now: Time): JobRow {
    if row.attempts < maxAttempts then
      Moved(row, Queued, None, Some(LeaseExpired), now)
    else
      Moved(row, Cancelled, None, Some(AbandonedAfter(maxAttempts)), now)
  }

  datatype Event =
    | Lease(worker: WorkerId, leaseSeconds: int, at: Time)
    | Did(worker: WorkerId, action: Action, at: Time)
    | Sweep(maxAttempts: int, at: Time)

  /** The row after one accepted change, or `None` when the change is not open to this row. */
  function Step(row: JobRow, e: Event): Option<JobRow> {
    match e
    case Lease(worker, secs, now) =>
      if row.status == Queued then Some(Leased(row, worker, secs, now)) else None
    case Did(worker, action, now) =>
      var r := Act(row, worker, action, now);
      if r.Ok? then Some(r.value) else None
    case Sweep(max, now) =>
      if Expired(row, now) then Some(Swept(row, max, now)) else None
  }

  type History = seq<Event>

  /** The row of a job after its whole history, `None` when some change was not open to it. */
  function Replay(row: JobRow, h: History): Option<JobRow> {
    if h == [] then Some(row)
    else
      var before := Replay(row, h[..|h| - 1]);
      if before.Some? then Step(before.value, h[|h| - 1]) else None
  }

  /** `row` is where a new job with this creation time and sample stands after `h`. */
  predicate Reached(h: History, row: JobRow) {
    Replay(NewJob(row.createdAt, row.sampleSha256), h) == Some(row)
  }

  lemma ReachedNew(createdAt: Time, sample: string)
    ensures Reached([], NewJob(createdAt, sample))
  {}

  lemma ReachedSnoc(h: History, row: JobRow, e: Event)
    requires Reached(h, row) && Step(row, e).Some?
    ensures Reached(h + [e], Step(row, e).value)
  {
    assert (h + [e])[..|h|] == h;
  }

  lemma ReachedPrefix(h: History, row: JobRow) returns (before: JobRow)
    requires Reached(h, row) && h != []
    ensures Reached(h[..|h| - 1], before) && Step(before, h[|h| - 1]) == Some(row)
  {
    before := Replay(NewJob(row.createdAt, row.sampleSha256), h[..|h| - 1]).value;
  }

  // ------------------------------------------------------------------------------------------
  // Which columns a status implies.

  lemma {:induction false} HistoriesAreCoherent(h: History, row: JobRow)
    requires Reached(h, row)
    ensures Coherent(row)
  {
    if h == [] {
    } else {
      var before := ReachedPrefix(h, row);
      HistoriesAreCoherent(h[..|h| - 1], before);
    }
  }

  // ------------------------------------------------------------------------------------------
  // Counting.

  predicate IsFail(e: Event) {
    e.Did? && e.action.Fail?
  }

  predicate IsComplete(e: Event) {
    e.Did? && e.action.Complete?
  }

  predicate IsStart(e: Event, worker: WorkerId) {
    e.Did? && e.action.Start? && e.worker == worker
  }

  predicate IsRenewal(e: Event) {
    e.Did? && e.action.Heartbeat?
  }

  function Leases(h: History): nat {
    if h == [] then 0 else Leases(h[..|h| - 1]) + if h[|h| - 1].Lease? then 1 else 0
  }

  function Fails(h: History): nat {
    if h == [] then 0 else Fails(h[..|h| - 1]) + if IsFail(h[|h| - 1]) then 1 else 0
  }

  function Completions(h: History): nat {
    if h == [] then 0 else Completions(h[..|h| - 1]) + if IsComplete(h[|h| - 1]) then 1 else 0
  }

  /** Every accepted change except a heartbeat. */
  function Moves(h: History): nat {
    if h == [] then 0 else Moves(h[..|h| - 1]) + if IsRenewal(h[|h| - 1]) then 0 else 1
  }

  predicate SweptWith(h: History, maxAttempts: int) {
    forall i :: 0 <= i < |h| && h[i].Sweep? ==> h[i].maxAttempts == maxAttempts
  }

  /** `attempts` is exactly the number of leases handed out. */
  lemma {:induction false} AttemptsCountLeases(h: History, row: JobRow)
    requires Reached(h, row)
    ensures row.attempts == Leases(h)
  {
    if h == [] {
    } else {
      var before := ReachedPrefix(h, row);
      AttemptsCountLeases(h[..|h| - 1], before);
    }
  }

  /** Attempts stay within the limit plus the number of times a worker gave the job back by itself. */
  lemma {:induction false} AttemptsAreBounded(h: History, row: JobRow, maxAttempts: int)
    requires Reached(h, row) && maxAttempts >= 1 && SweptWith(h, maxAttempts)
    ensures row.attempts <= maxAttempts + Fails(h)
    ensures row.status == Queued ==> row.attempts < maxAttempts + Fails(h)
  {
    if h == [] {
    } else {
      var before := ReachedPrefix(h, row);
      AttemptsAreBounded(h[..|h| - 1], before, maxAttempts);
      HistoriesAreCoherent(h[..|h| - 1], before);
    }
  }

  /** How far a status is from the end of the current attempt. */
  function StatusRank(status: JobStatus): nat {
    match status
    case Claimed => 2
    case Running => 1
    case _ => 0
  }

  /** The work a row can still cause when at most `leases` leases will ever be handed out for it. */
  function Remaining(row: JobRow, leases: int): int {
    3 * (leases - row.attempts) + StatusRank(row.status)
  }

  /** Every accepted change except a heartbeat strictly lowers the measure, whatever the bound. */
  lemma EveryMoveMakesProgress(row: JobRow, e: Event, leases: int)
    requires Step(row, e).Some?
    ensures IsRenewal(e) ==> Remaining(Step(row, e).value, leases) == Remaining(row, leases)
    ensures !IsRenewal(e) ==> Remaining(Step(row, e).value, leases) < Remaining(row, leases)
  {}

  lemma {:induction false} MovesArePaidByLeases(h: History, row: JobRow)
    requires Reached(h, row)
    ensures Moves(h) <= Remaining(NewJob(row.createdAt, row.sampleSha256), row.attempts) - Remaining(row, row.attempts)
  {
    if h == [] {
    } else {
      var before := ReachedPrefix(h, row);
      MovesArePaidByLeases(h[..|h| - 1], before);
      EveryMoveMakesProgress(before, h[|h| - 1], row.attempts);
    }
  }

  /** Termination: a job given back F times by its workers takes at most 3 x (limit + F) changes. */
  lemma JobsTerminate(h: History, row: JobRow, maxAttempts: int)
    requires Reached(h, row) && maxAttempts >= 1 && SweptWith(h, maxAttempts)
    ensures Moves(h) <= 3 * (maxAttempts + Fails(h))
  {
    MovesArePaidByLeases(h, row);
    AttemptsAreBounded(h, row, maxAttempts);
  }

  // ------------------------------------------------------------------------------------------
  // Fencing.

  /** Changes after which the holder no longer holds the job. */
  predicate EndsTenure(e: Event) {
    e.Lease? || IsFail(e) || IsComplete(e) || e.Sweep?
  }

  /** The lease issued at position `c` went to `worker`, and nothing since has ended it. */
  predicate HoldsSince(h: History, worker: WorkerId, c: nat) {
    && c < |h| && h[c].Lease? && h[c].worker == worker
    && forall i :: c < i < |h| ==> !EndsTenure(h[i])
  }

  predicate StartedSince(h: History, worker: WorkerId, c: nat) {
    exists k: nat :: c < k < |h| && IsStart(h[k], worker)
  }

  ghost predicate Holds(h: History, worker: WorkerId) {
    exists c: nat :: HoldsSince(h, worker, c)
  }

  ghost predicate HasStarted(h: History, worker: WorkerId) {
    exists c: nat :: HoldsSince(h, worker, c) && StartedSince(h, worker, c)
  }

  lemma HoldsSnoc(h: History, e: Event, worker: WorkerId)
    ensures Holds(h + [e], worker) <==>
      (e.Lease? && e.worker == worker) || (!EndsTenure(e) && Holds(h, worker))
  {
    var g := h + [e];
    if e.Lease? && e.worker == worker {
      assert HoldsSince(g, worker, |h|);
    }
    if !EndsTenure(e) && Holds(h, worker) {
      var c: nat :| HoldsSince(h, worker, c);
      assert HoldsSince(g, worker, c);
    }
    if Holds(g, worker) {
      var c: nat :| HoldsSince(g, worker, c);
      if c < |h| {
        assert !EndsTenure(g[|h|]);
        assert forall i :: c < i < |h| ==> g[i] == h[i];
        assert HoldsSince(h, worker, c);
      }
    }
  }

  lemma HasStartedSnoc(h: History, e: Event, worker: WorkerId)
    ensures HasStarted(h + [e], worker) <==>
      !EndsTenure(e) && Holds(h, worker) && (HasStarted(h, worker) || IsStart(e, worker))
  {
    var g := h + [e];
    if !EndsTenure(e) && HasStarted(h, worker) {
      var c: nat :| HoldsSince(h, worker, c) && StartedSince(h, worker, c);
      var k: nat :| c < k < |h| && IsStart(h[k], worker);
      assert HoldsSince(g, worker, c) && IsStart(g[k], worker);
    }
    if Holds(h, worker) && IsStart(e, worker) {
      var c: nat :| HoldsSince(h, worker, c);
      assert HoldsSince(g, worker, c) && IsStart(g[|h|], worker);
    }
    if HasStarted(g, worker) {
      var c: nat :| HoldsSince(g, worker, c) && StartedSince(g, worker, c);
      var k: nat :| c < k < |g| && IsStart(g[k], worker);
      assert !EndsTenure(g[|h|]);
      assert forall i :: c < i < |h| ==> g[i] == h[i];
      assert HoldsSince(h, worker, c);
      if k < |h| {
        assert IsStart(h[k], worker);
      }
    }
  }

  /** The owner column names exactly the worker whose lease nothing has ended, running iff it started. */
  lemma {:induction false} OwnerIsTheLatestLessee(h: History, row: JobRow, worker: WorkerId)
    requires Reached(h, row)
    ensures row.claimedBy == Some(worker) <==> Holds(h, worker)
    ensures row.claimedBy == Some(worker) && row.status == Running <==> HasStarted(h, worker)
  {
    if h == [] {
    } else {
      var before := ReachedPrefix(h, row);
      var init, e := h[..|h| - 1], h[|h| - 1];
      assert h == init + [e];
      OwnerIsTheLatestLessee(init, before, worker);
      HistoriesAreCoherent(init, before);
      HoldsSnoc(init, e, worker);
      HasStartedSnoc(init, e, worker);
    }
  }

  /**
   * `complete` is accepted exactly when the latest lease went to this worker, this worker has
   * started the job since, and no fail, sweep or completion has come in between.
   */
  lemma CompletionIsFenced(h: History, row: JobRow, worker: WorkerId, outcome: RunOutcome, now: Time)
    requires Reached(h, row)
    ensures Act(row, worker, Complete(outcome), now).Ok? <==>
      exists c: nat, k: nat :: HoldsSince(h, worker, c) && c < k < |h| && IsStart(h[k], worker)
  {
    OwnerIsTheLatestLessee(h, row, worker);
    if HasStarted(h, worker) {
      var c: nat :| HoldsSince(h, worker, c) && StartedSince(h, worker, c);
      var k: nat :| c < k < |h| && IsStart(h[k], worker);
    }
    if c: nat, k: nat :| HoldsSince(h, worker, c) && c < k < |h| && IsStart(h[k], worker) {
      assert StartedSince(h, worker, c);
    }
  }

  /** The other calls a holder can make, with the same reading of who holds the job. */
  lemma OtherActionsAreFenced(h: History, row: JobRow, worker: WorkerId, now: Time)
    requires Reached(h, row)
    ensures Act(row, worker, Start, now).Ok? <==> Holds(h, worker) && !HasStarted(h, worker)
    ensures forall secs :: Act(row, worker, Heartbeat(secs), now).Ok? <==> Holds(h, worker)
    ensures forall reason :: Act(row, worker, Fail(reason), now).Ok? <==> Holds(h, worker)
  {
    OwnerIsTheLatestLessee(h, row, worker);
    HistoriesAreCoherent(h, row);
  }

  /** A terminal row has no future. */
  lemma TerminalRowsAreFinal(h: History, row: JobRow, e: Event)
    requires Reached(h, row) && IsTerminal(row.status)
    ensures Step(row, e).None?
  {
    HistoriesAreCoherent(h, row);
  }

  /** At most one outcome is ever written, it is the last change, and it is the one the row shows. */
  lemma {:induction false} OneOutcomePerJob(h: History, row: JobRow)
    requires Reached(h, row)
    ensures Completions(h) <= 1
    ensures forall i :: 0 <= i < |h| && IsComplete(h[i]) ==> i == |h| - 1 && row.runOutcome == Some(h[i].action.outcome)
    ensures Completions(h) == 1 <==> row.status == Finished
  {
    if h == [] {
    } else {
      var before := ReachedPrefix(h, row);
      var init, e := h[..|h| - 1], h[|h| - 1];
      OneOutcomePerJob(init, before);
      if IsTerminal(before.status) {
        TerminalRowsAreFinal(init, before, e);
      }
      forall i | 0 <= i < |h| && IsComplete(h[i])
        ensures i == |h| - 1 && row.runOutcome == Some(h[i].action.outcome)
      {
        if i < |init| {
          assert IsComplete(init[i]);
          HistoriesAreCoherent(init, before);
          assert false;
        }
      }
    }
  }

  // ------------------------------------------------------------------------------------------
  // Leases are unique.

  lemma {:induction false} LeasesGrow(h: History, n: nat)
    requires n <= |h|
    ensures Leases(h[..n]) <= Leases(h)
  {
    if n == |h| {
      assert h[..n] == h;
    } else {
      LeasesGrow(h[..|h| - 1], n);
      assert h[..|h| - 1][..n] == h[..n];
    }
  }

  predicate PutsBack(e: Event) {
    IsFail(e) || e.Sweep?
  }

  lemma {:induction false} NotQueuedUntilPutBack(h: History, row: JobRow, a: nat)
    requires Reached(h, row) && a < |h| && h[a].Lease?
    requires forall i :: a < i < |h| ==> !PutsBack(h[i])
    ensures row.status != Queued
  {
    var before := ReachedPrefix(h, row);
    if a < |h| - 1 {
      NotQueuedUntilPutBack(h[..|h| - 1], before, a);
      assert !PutsBack(h[|h| - 1]);
    }
  }

  lemma PutBackBeforeLease(h: History, row: JobRow, a: nat)
    requires Reached(h, row) && a < |h| - 1 && h[a].Lease? && h[|h| - 1].Lease?
    ensures exists i :: a < i < |h| - 1 && PutsBack(h[i])
  {
    var before := ReachedPrefix(h, row);
    var init := h[..|h| - 1];
    if forall i :: a < i < |init| ==> !PutsBack(init[i]) {
      NotQueuedUntilPutBack(init, before, a);
    } else {
      var i :| a < i < |init| && PutsBack(init[i]);
      assert PutsBack(h[i]);
    }
  }

  /**
   * Two leases of one job carry different attempt numbers, and between them a worker's `fail`
   * or a sweep that found the lease expired put the job back.
   */
  lemma {:induction false} LeasesAreSeparated(h: History, row: JobRow, a: nat, b: nat)
    requires Reached(h, row) && a < b < |h| && h[a].Lease? && h[b].Lease?
    ensures Leases(h[..a + 1]) < Leases(h[..b + 1])
    ensures exists i :: a < i < b && PutsBack(h[i])
  {
    var before := ReachedPrefix(h, row);
    var init := h[..|h| - 1];
    assert init[..a + 1] == h[..a + 1];
    if b < |init| {
      LeasesAreSeparated(init, before, a, b);
      assert init[..b + 1] == h[..b + 1];
    } else {
      assert h[..b + 1] == h;
      LeasesGrow(init, a + 1);
      PutBackBeforeLease(h, row, a);
    }
  }
}
