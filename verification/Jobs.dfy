/** The job record and the three methods that change it: app/domain/models.py. */
module Jobs {
  import opened Base
  import opened Lifecycle

  type JobId = nat
  type WorkerId = string
  type Time = int

  datatype FailureReason = Reported(text: string) | LeaseExpired | AbandonedAfter(maxAttempts: int)

  /** The value of a job's columns at one moment. */
  datatype JobRow = JobRow(
    createdAt: Time,
    sampleSha256: string,
    status: JobStatus,
    runOutcome: Option<RunOutcome>,
    claimedBy: Option<WorkerId>,
    claimedAt: Option<Time>,
    leaseExpiresAt: Option<Time>,
    attempts: nat,
    startedAt: Option<Time>,
    finishedAt: Option<Time>,
    failureReason: Option<FailureReason>)

  /** A job as the intake constructs it, with the column defaults filled in. */
  function NewJob(createdAt: Time, sampleSha256: string): JobRow {
    JobRow(createdAt, sampleSha256, Queued, None, None, None, None, 0, None, None, None)
  }

  function Released(row: JobRow): JobRow {
    row.(claimedBy := None, claimedAt := None, leaseExpiresAt := None)
  }

  function Granted(row: JobRow, worker: WorkerId, leaseSeconds: int, now: Time): JobRow {
    row.(claimedBy := Some(worker), claimedAt := Some(now), leaseExpiresAt := Some(now + leaseSeconds))
  }

  /** The columns after a transition that validation has let through. */
  function Moved(row: JobRow, target: JobStatus, outcome: Option<RunOutcome>,
                 reason: Option<FailureReason>, now: Time): JobRow
  {
    var stamped := match target
      case Running => row.(startedAt := Some(now))
      case Finished => Released(row.(finishedAt := Some(now), runOutcome := outcome))
      case Cancelled => Released(row.(finishedAt := Some(now)))
      case Queued => Released(row).(startedAt := None)
      case Claimed => row;
    var explained := if reason.Some? then stamped.(failureReason := reason) else stamped;
    explained.(status := target)
  }

  predicate Held(row: JobRow) {
    row.status in {Claimed, Running}
  }

  /** The lease exists and its last moment is not after `now`. */
  predicate Lapsed(row: JobRow, now: Time) {
    row.leaseExpiresAt.Some? && row.leaseExpiresAt.value <= now
  }

  /** What every stored row satisfies: which columns are filled in is decided by the status. */
  predicate Coherent(row: JobRow) {
    && (row.claimedBy.Some? <==> Held(row))
    && (row.claimedAt.Some? <==> Held(row))
    && (row.leaseExpiresAt.Some? <==> Held(row))
    && (row.runOutcome.Some? <==> row.status == Finished)
    && (row.finishedAt.Some? <==> IsTerminal(row.status))
    && (row.status in {Queued, Claimed} ==> row.startedAt.None?)
    && (row.status in {Running, Finished} ==> row.startedAt.Some?)
  }

  /** The mutable job object. */
  class Job {
    const id: JobId
    const createdAt: Time
    const sampleSha256: string
    var status: JobStatus
    var runOutcome: Option<RunOutcome>
    var claimedBy: Option<WorkerId>
    var claimedAt: Option<Time>
    var leaseExpiresAt: Option<Time>
    var attempts: nat
    var startedAt: Option<Time>
    var finishedAt: Option<Time>
    var failureReason: Option<FailureReason>

    constructor (id: JobId, createdAt: Time, sampleSha256: string)
      ensures this.id == id && Row() == NewJob(createdAt, sampleSha256)
    {
      this.id, this.createdAt, this.sampleSha256 := id, createdAt, sampleSha256;
      status, runOutcome, attempts := Queued, None, 0;
      claimedBy, claimedAt, leaseExpiresAt := None, None, None;
      startedAt, finishedAt, failureReason := None, None, None;
    }

    function Row(): JobRow
      reads this
    {
      JobRow(createdAt, sampleSha256, status, runOutcome, claimedBy, claimedAt, leaseExpiresAt,
             attempts, startedAt, finishedAt, failureReason)
    }

    predicate LeaseExpired(now: Time)
      reads this
    {
      leaseExpiresAt.Some? && leaseExpiresAt.value <= now
    }

    /** Validation first, mutation second: a refused transition leaves every field as it was. */
    method TransitionTo(target: JobStatus, outcome: Option<RunOutcome>, reason: Option<FailureReason>, now: Time)
      returns (refusal: Option<IllegalTransition>)
      modifies this
      ensures refusal == ValidateTransition(old(status), target, outcome)
      ensures Row() == if refusal.Some? then old(Row()) else Moved(old(Row()), target, outcome, reason, now)
    {
      refusal := ValidateTransition(status, target, outcome);
      if refusal.Some? {
        return;
      }
      match target {
        case Running =>
          startedAt := Some(now);
        case Finished =>
          finishedAt := Some(now);
          runOutcome := outcome;
          ReleaseLease();
        case Cancelled =>
          finishedAt := Some(now);
          ReleaseLease();
        case Queued =>
          ReleaseLease();
          startedAt := None;
        case Claimed =>
      }
      if reason.Some? {
        failureReason := reason;
      }
      status := target;
    }

    method GrantLease(worker: WorkerId, leaseSeconds: int, now: Time)
      modifies this
      ensures Row() == Granted(old(Row()), worker, leaseSeconds, now)
    {
      claimedBy := Some(worker);
      claimedAt := Some(now);
      leaseExpiresAt := Some(now + leaseSeconds);
    }

    method ReleaseLease()
      modifies this
      ensures Row() == Released(old(Row()))
    {
      claimedBy := None;
      claimedAt := None;
      leaseExpiresAt := None;
    }
  }

  /**
   * A transition that is let through keeps a coherent row coherent, except that claiming
   * leaves the row for `GrantLease` to complete; a grant completes it.
   */
  lemma TransitionsKeepCoherence(row: JobRow, target: JobStatus, outcome: Option<RunOutcome>,
                                 reason: Option<FailureReason>, now: Time)
    requires Coherent(row) && ValidateTransition(row.status, target, outcome).None?
    ensures target != Claimed ==> Coherent(Moved(row, target, outcome, reason, now))
    ensures target == Claimed ==>
      forall w, secs :: Coherent(Granted(Moved(row, target, outcome, reason, now), w, secs, now))
  {
    if target == Claimed {
      assert row.status == Queued;
    }
  }
}
