/** The stub worker, which claims and starts jobs but never completes them: worker/runner.py. */
module Worker {
  import opened Base
  import opened Lifecycle
  import opened Jobs
  import opened JobHistory
  import opened MemoryQueue

  datatype Processed =
    | Idle
    | HandedOff(lease: Grant)
    | WorkerError(why: Refusal)

  const WORKER_ERROR := "worker error: "

  /** The store after one successful `process_one`: the first waiting job is leased and running. */
  function AfterProcessing(s: Store, worker: WorkerId, leaseSeconds: int, now: Time): Store {
    match FirstQueued(s.rows, s.order)
    case None => s
    case Some(id) =>
      s.(rows := s.rows[id := Moved(Leased(s.rows[id], worker, leaseSeconds, now), Running, None, None, now)])
  }

  /** What that `process_one` returns. */
  function ProcessedFirst(s: Store, worker: WorkerId, leaseSeconds: int, now: Time): Processed {
    match FirstQueued(s.rows, s.order)
    case None => Idle
    case Some(id) => HandedOff(Grant(id, worker, now + leaseSeconds, s.rows[id].attempts + 1))
  }

  lemma ClaimThenStart(s: Store, worker: WorkerId, leaseSeconds: int, now: Time)
    requires FirstQueued(s.rows, s.order).Some?
    ensures var id, claimed := FirstQueued(s.rows, s.order).value, AfterClaim(s, worker, leaseSeconds, now);
      Answer(claimed, id, worker, Start, now).Ok?
      && AfterAction(claimed, id, worker, Start, now) == AfterProcessing(s, worker, leaseSeconds, now)
  {
    var p := FirstQueuedPosition(s.rows, s.order);
    var row := Leased(s.rows[s.order[p]], worker, leaseSeconds, now);
    assert Act(row, worker, Start, now) == Ok(Moved(row, Running, None, None, now));
  }

  /** What is returned is what the row shows: the waiting job that arrived first, leased, started and counted. */
  lemma ProcessedShowsInRows(s: Store, worker: WorkerId, leaseSeconds: int, now: Time)
    ensures var r, after := ProcessedFirst(s, worker, leaseSeconds, now), AfterProcessing(s, worker, leaseSeconds, now);
      match r
      case Idle => after == s && FirstQueued(s.rows, s.order) == None
      case WorkerError(_) => false
      case HandedOff(g) =>
        && FirstQueued(s.rows, s.order) == Some(g.jobId) && g.jobId in after.rows && after.order == s.order
        && g.workerId == worker && g.expiresAt == now + leaseSeconds && g.attempt == s.rows[g.jobId].attempts + 1
        && after.rows == s.rows[g.jobId := after.rows[g.jobId]]
        && var row := after.rows[g.jobId];
           && row.status == Running && row.claimedBy == Some(worker) && row.claimedAt == Some(now)
           && row.leaseExpiresAt == Some(g.expiresAt) && row.startedAt == Some(now) && row.attempts == g.attempt
  {}

  class StubWorker {
    const queue: InMemoryJobQueue
    const workerId: WorkerId
    const leaseSeconds: int
    /** The text of an error. */
    const text: Refusal -> string

    constructor (queue: InMemoryJobQueue, workerId: WorkerId, leaseSeconds: int, text: Refusal -> string)
      ensures this.queue == queue && this.workerId == workerId && this.leaseSeconds == leaseSeconds && this.text == text
    {
      this.queue, this.workerId, this.leaseSeconds, this.text := queue, workerId, leaseSeconds, text;
    }

    /** Start a job just claimed; when that is refused, give it straight back. */
    method HandOff(lease: Grant, now: Time) returns (result: Processed)
      requires queue.Valid()
      modifies queue.jobs.Values
      ensures queue.Valid()
      ensures var s, id := old(queue.View()), lease.jobId;
        var started := Answer(s, id, workerId, Start, now);
        if started.Ok? then
          queue.View() == AfterAction(s, id, workerId, Start, now) && result == HandedOff(lease)
        else
          var fail := Fail("worker error: " + text(started.error));
          var returned := Answer(s, id, workerId, fail, now);
          queue.View() == AfterAction(s, id, workerId, fail, now)
          && result == WorkerError(if returned.Ok? then started.error else returned.error)
    {
      var refusal := queue.Start(lease.jobId, workerId, now);
      if refusal.Some? {
        var again := queue.Fail(lease.jobId, workerId, WORKER_ERROR + text(refusal.value), now);
        return WorkerError(if again.Some? then again.value else refusal.value);
      }
      result := HandedOff(lease);
    }

    /** With nobody else calling between the claim and the start, the start is never refused. */
    method ProcessOne(now: Time) returns (result: Processed)
      requires queue.Valid()
      modifies queue.jobs.Values
      ensures queue.Valid() && queue.View() == AfterProcessing(old(queue.View()), workerId, leaseSeconds, now)
      ensures result == ProcessedFirst(old(queue.View()), workerId, leaseSeconds, now)
    {
      ghost var was := queue.View();
      var lease := queue.Claim(workerId, leaseSeconds, now);
      if lease.None? {
        return Idle;
      }
      ghost var claimed := queue.View();
      assert HandedOff(lease.value) == ProcessedFirst(was, workerId, leaseSeconds, now);
      ClaimThenStart(was, workerId, leaseSeconds, now);
      assert claimed == AfterClaim(was, workerId, leaseSeconds, now);
      result := HandOff(lease.value, now);
      assert queue.View() == AfterAction(claimed, lease.value.jobId, workerId, Start, now);
    }
  }

  function Waiting(s: Store): set<JobId> {
    set id | id in s.rows && s.rows[id].status == Queued
  }

  lemma ProcessingShrinksWaiting(s: Store, worker: WorkerId, leaseSeconds: int, now: Time)
    requires FirstQueued(s.rows, s.order).Some?
    ensures |Waiting(AfterProcessing(s, worker, leaseSeconds, now))| < |Waiting(s)|
  {
    var p := FirstQueuedPosition(s.rows, s.order);
    var s' := AfterProcessing(s, worker, leaseSeconds, now);
    assert Waiting(s') == Waiting(s) - {s.order[p]};
  }

  /** Calling `process_one` until it finds nothing; `clock(i)` is the reading of the i-th call. */
  ghost function ProcessAll(s: Store, worker: WorkerId, leaseSeconds: int, clock: nat -> Time, i: nat): Store
    decreases |Waiting(s)|
  {
    if FirstQueued(s.rows, s.order).None? then s
    else
      ProcessingShrinksWaiting(s, worker, leaseSeconds, clock(i));
      ProcessAll(AfterProcessing(s, worker, leaseSeconds, clock(i)), worker, leaseSeconds, clock, i + 1)
  }

  /** One round: process everything, let the leases lapse, sweep. */
  datatype Plan = Plan(worker: WorkerId, leaseSeconds: int, clock: nat -> Time, sweepAt: Time)

  ghost predicate LeasesLapse(p: Plan) {
    forall i: nat :: p.clock(i) + p.leaseSeconds <= p.sweepAt
  }

  ghost function Rounds(s: Store, plans: seq<Plan>, maxAttempts: int): Store {
    if plans == [] then s
    else
      var p := plans[|plans| - 1];
      var before := Rounds(s, plans[..|plans| - 1], maxAttempts);
      AfterReap(ProcessAll(before, p.worker, p.leaseSeconds, p.clock, 0), maxAttempts, p.sweepAt)
  }

  predicate WaitingWith(row: JobRow, attempts: nat) {
    row.status == Queued && row.attempts == attempts && Coherent(row)
  }

  predicate RunningUntil(row: JobRow, attempts: nat, deadline: Time) {
    row.status == Running && row.attempts == attempts && Coherent(row) && Lapsed(row, deadline)
  }

  predicate GivenUp(row: JobRow, attempts: nat) {
    row.status == Cancelled && row.attempts == attempts && Coherent(row)
  }

  lemma OneRowProcessed(row: JobRow, attempts: nat, worker: WorkerId, leaseSeconds: int, now: Time, deadline: Time)
    requires WaitingWith(row, attempts) && now + leaseSeconds <= deadline
    ensures var started := Moved(Leased(row, worker, leaseSeconds, now), Running, None, None, now);
      RunningUntil(started, attempts + 1, deadline)
  {}

  lemma {:induction false} EverythingGetsProcessed(s: Store, attempts: nat, p: Plan, i: nat)
    requires WellFormed(s) && LeasesLapse(p)
    requires forall id | id in s.rows ::
      WaitingWith(s.rows[id], attempts) || RunningUntil(s.rows[id], attempts + 1, p.sweepAt)
    ensures var t := ProcessAll(s, p.worker, p.leaseSeconds, p.clock, i);
      t.order == s.order && t.rows.Keys == s.rows.Keys && WellFormed(t)
      && forall id :: id in t.rows ==> RunningUntil(t.rows[id], attempts + 1, p.sweepAt)
    decreases |Waiting(s)|
  {
    if FirstQueued(s.rows, s.order).None? {
      forall id | id in s.rows
        ensures s.rows[id].status != Queued
      {
        if s.rows[id].status == Queued {
          assert id in s.order;
          SomebodyWaits(s, id);
        }
      }
    } else {
      var q := FirstQueuedPosition(s.rows, s.order);
      var id, now := s.order[q], p.clock(i);
      OneRowProcessed(s.rows[id], attempts, p.worker, p.leaseSeconds, now, p.sweepAt);
      ProcessingShrinksWaiting(s, p.worker, p.leaseSeconds, now);
      var s' := AfterProcessing(s, p.worker, p.leaseSeconds, now);
      assert s'.rows.Keys == s.rows.Keys;
      assert forall k :: k in s'.rows <==> k in s.rows;
      EverythingGetsProcessed(s', attempts, p, i + 1);
    }
  }

  lemma {:induction false} SomebodyWaitsFrom(rows: map<JobId, JobRow>, order: seq<JobId>, id: JobId)
    requires id in order && id in rows && rows[id].status == Queued
    ensures FirstQueued(rows, order).Some?
  {
    if !(order[0] in rows && rows[order[0]].status == Queued) {
      SomebodyWaitsFrom(rows, order[1..], id);
    }
  }

  lemma SomebodyWaits(s: Store, id: JobId)
    requires id in s.order && id in s.rows && s.rows[id].status == Queued
    ensures FirstQueued(s.rows, s.order).Some?
  {
    SomebodyWaitsFrom(s.rows, s.order, id);
  }

  /** How every job stands after `n` rounds. */
  ghost predicate StandsAfter(s: Store, n: nat, maxAttempts: nat) {
    forall id :: id in s.rows ==>
      if n < maxAttempts then WaitingWith(s.rows[id], n) else GivenUp(s.rows[id], maxAttempts)
  }

  lemma IdleWhenNobodyWaits(s: Store, p: Plan)
    requires WellFormed(s) && forall id :: id in s.rows ==> s.rows[id].status != Queued
    ensures ProcessAll(s, p.worker, p.leaseSeconds, p.clock, 0) == s
  {
    assert forall i :: 0 <= i < |s.order| ==> s.order[i] in s.order;
    NoneQueued(s.rows, s.order);
  }

  lemma SweepEndsTheRound(s: Store, n: nat, maxAttempts: nat, now: Time)
    requires WellFormed(s) && n < maxAttempts
    requires forall id :: id in s.rows ==> RunningUntil(s.rows[id], n + 1, now)
    ensures var t := AfterReap(s, maxAttempts, now);
      t.rows.Keys == s.rows.Keys && WellFormed(t) && StandsAfter(t, n + 1, maxAttempts)
  {
    var t := AfterReap(s, maxAttempts, now);
    assert t.rows.Keys == s.rows.Keys;
    assert forall id :: id in t.rows <==> id in s.rows;
    forall id | id in s.rows
      ensures if n + 1 < maxAttempts then WaitingWith(t.rows[id], n + 1) else GivenUp(t.rows[id], maxAttempts)
    {
      OneRowSwept(s.rows[id], n, maxAttempts, now);
    }
  }

  lemma OneRowSwept(row: JobRow, n: nat, maxAttempts: nat, now: Time)
    requires RunningUntil(row, n + 1, now) && n < maxAttempts
    ensures var swept := SweptRow(row, maxAttempts, now);
      if n + 1 < maxAttempts then WaitingWith(swept, n + 1) else GivenUp(swept, maxAttempts)
  {}

  lemma SweepSparesTheFinished(s: Store, maxAttempts: nat, now: Time)
    requires forall id :: id in s.rows ==> GivenUp(s.rows[id], maxAttempts)
    ensures AfterReap(s, maxAttempts, now) == s
  {
    assert AfterReap(s, maxAttempts, now).rows == s.rows;
  }

  /**
   * Draining: workers that take jobs and never report leave every job queued with one more attempt
   * per round, and cancelled without outcome or lease once the limit is reached. No job is lost.
   */
  lemma {:induction false} AbandonedWorkDrains(s: Store, plans: seq<Plan>, maxAttempts: nat)
    requires WellFormed(s) && maxAttempts >= 1
    requires forall id :: id in s.rows ==> WaitingWith(s.rows[id], 0)
    requires forall i :: 0 <= i < |plans| ==> LeasesLapse(plans[i])
    ensures var t := Rounds(s, plans, maxAttempts);
      t.order == s.order && t.rows.Keys == s.rows.Keys && WellFormed(t) && StandsAfter(t, |plans|, maxAttempts)
  {
    if plans == [] {
    } else {
      var n := |plans| - 1;
      AbandonedWorkDrains(s, plans[..n], maxAttempts);
      var before, p := Rounds(s, plans[..n], maxAttempts), plans[n];
      var t := Rounds(s, plans, maxAttempts);
      if n < maxAttempts {
        EverythingGetsProcessed(before, n, p, 0);
        SweepEndsTheRound(ProcessAll(before, p.worker, p.leaseSeconds, p.clock, 0), n, maxAttempts, p.sweepAt);
      } else {
        IdleWhenNobodyWaits(before, p);
        SweepSparesTheFinished(before, maxAttempts, p.sweepAt);
      }
    }
  }
}
