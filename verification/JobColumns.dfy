/** What the columns of a job say about its history: every value, not only which are filled in. */
module JobColumns {
  import opened Base
  import opened Lifecycle
  import opened Jobs
  import opened JobHistory

  /** A claim or a heartbeat, which gives a lease from `at` on. */
  predicate IsGrant(e: Event) {
    e.Lease? || (e.Did? && e.action.Heartbeat?)
  }

  function Seconds(e: Event): int
    requires IsGrant(e)
  {
    if e.Lease? then e.leaseSeconds else e.action.leaseSeconds
  }

  /** The latest of a job's grants is its event number `c`, for `seconds` seconds from `at` on. */
  predicate LatestGrant(h: History, c: nat, at: Time, seconds: int) {
    && c < |h| && (forall i | c < i < |h| :: !IsGrant(h[i]))
    && match h[c]
       case Lease(_, secs, t) => t == at && secs == seconds
       case Did(_, Heartbeat(secs), t) => t == at && secs == seconds
       case _ => false
  }

  lemma LatestGrantSnoc(h: History, e: Event, c: nat, at: Time, seconds: int)
    requires !IsGrant(e)
    ensures LatestGrant(h, c, at, seconds) ==> LatestGrant(h + [e], c, at, seconds)
  {}

  /** A held job's claim time and expiry are those of its latest claim or heartbeat; other jobs have neither. */
  lemma {:induction false} LeaseColumns(h: History, row: JobRow) returns (c: nat, at: Time, seconds: int)
    requires Reached(h, row)
    ensures row.status !in {Claimed, Running} ==> row.claimedAt == None && row.leaseExpiresAt == None
    ensures row.status in {Claimed, Running} ==>
      LatestGrant(h, c, at, seconds) && row.claimedAt == Some(at) && row.leaseExpiresAt == Some(at + seconds)
  {
    c, at, seconds := 0, 0, 0;
    if h == [] {
    } else {
      var init, e := h[..|h| - 1], h[|h| - 1];
      var before := ReachedPrefix(h, row);
      assert h == init + [e];
      HistoriesAreCoherent(h, row);
      HistoriesAreCoherent(init, before);
      c, at, seconds := LeaseColumns(init, before);
      if IsGrant(e) {
        c, at, seconds := |init|, e.at, Seconds(e);
      } else {
        LatestGrantSnoc(init, e, c, at, seconds);
      }
    }
  }

  /**
   * Event number `c` started the job at `at`, and it was not given back since: at most given up, with
   * its last event.
   */
  predicate StartedAt(h: History, status: JobStatus, c: nat, at: Time) {
    && c < |h| && h[c].Did? && h[c].action == Start && h[c].at == at
    && forall i | c < i < |h| :: !h[i].Lease? && !IsFail(h[i]) && (h[i].Sweep? ==> i == |h| - 1 && status == Cancelled)
  }

  /** The start time is that of the latest start, as long as the job has not been given back. */
  lemma {:induction false} StartColumn(h: History, row: JobRow, at: Time)
    requires Reached(h, row)
    ensures row.startedAt == Some(at) <==> exists c: nat :: StartedAt(h, row.status, c, at)
  {
    if h == [] {
    } else {
      var n := |h| - 1;
      var init, e := h[..n], h[n];
      var before := ReachedPrefix(h, row);
      assert h == init + [e];
      StartColumn(init, before, at);
      HistoriesAreCoherent(init, before);
      if row.startedAt == Some(at) {
        if e.Did? && e.action == Start {
          assert StartedAt(h, row.status, n, at);
        } else {
          var c: nat :| StartedAt(init, before.status, c, at);
          assert StartedAt(h, row.status, c, at);
        }
      }
      if c: nat :| StartedAt(h, row.status, c, at) {
        StartedBefore(init, e, row, before, c, at);
      }
    }
  }

  lemma StartedBefore(init: History, e: Event, row: JobRow, before: JobRow, c: nat, at: Time)
    requires Reached(init, before) && Step(before, e) == Some(row) && StartedAt(init + [e], row.status, c, at)
    requires before.startedAt == Some(at) <==> exists k: nat :: StartedAt(init, before.status, k, at)
    ensures row.startedAt == Some(at)
  {
    var h := init + [e];
    HistoriesAreCoherent(init, before);
    if c < |init| {
      assert forall i | 0 <= i < |init| :: h[i] == init[i];
      assert StartedAt(init, before.status, c, at);
      assert h[|init|] == e;
    }
  }

  /**
   * The finish time is that of the completion or of the sweep that gave the job up, which are the last
   * thing to happen.
   */
  lemma FinishColumn(h: History, row: JobRow)
    requires Reached(h, row)
    ensures row.status == Finished ==> h != [] && IsComplete(h[|h| - 1]) && row.finishedAt == Some(h[|h| - 1].at)
    ensures row.status == Cancelled ==> h != [] && h[|h| - 1].Sweep? && row.finishedAt == Some(h[|h| - 1].at)
    ensures !IsTerminal(row.status) ==> row.finishedAt == None
  {
    HistoriesAreCoherent(h, row);
    if h == [] {
    } else {
      var before := ReachedPrefix(h, row);
      HistoriesAreCoherent(h[..|h| - 1], before);
    }
  }

  predicate LatestSetback(h: History, c: nat) {
    c < |h| && PutsBack(h[c]) && forall i | c < i < |h| :: !PutsBack(h[i])
  }

  lemma ReasonOfOneChange(row: JobRow, e: Event)
    requires Coherent(row) && Step(row, e).Some?
    ensures var after := Step(row, e).value;
      if !PutsBack(e) then after.failureReason == row.failureReason && after.status != Cancelled
      else
        after.failureReason == Some(
          if IsFail(e) then Reported(e.action.reason)
          else if after.status == Cancelled then AbandonedAfter(e.maxAttempts)
          else LeaseExpired)
    ensures row.status != Cancelled
  {}

  /**
   * The failure reason is that of the latest fail or sweep: the worker's text, the expiry, or the limit
   * it ran into.
   */
  lemma {:induction false} ReasonColumn(h: History, row: JobRow) returns (c: nat)
    requires Reached(h, row)
    ensures row.failureReason == None <==> forall i | 0 <= i < |h| :: !PutsBack(h[i])
    ensures row.failureReason.Some? ==>
      && LatestSetback(h, c)
      && row.failureReason.value ==
         if IsFail(h[c]) then Reported(h[c].action.reason)
         else if row.status == Cancelled then AbandonedAfter(h[c].maxAttempts)
         else LeaseExpired
  {
    c := 0;
    if h == [] {
    } else {
      var n := |h| - 1;
      var init, e := h[..n], h[n];
      var before := ReachedPrefix(h, row);
      HistoriesAreCoherent(init, before);
      ReasonOfOneChange(before, e);
      c := ReasonColumn(init, before);
      assert forall i | 0 <= i < n :: init[i] == h[i];
      if PutsBack(e) {
        c := n;
      }
    }
  }

  /** So a held job is due for a sweep exactly from the end of its latest claim or heartbeat on. */
  lemma SweptExactlyWhenDue(h: History, row: JobRow, maxAttempts: int, now: Time)
    requires Reached(h, row)
    ensures Step(row, Sweep(maxAttempts, now)).Some? <==>
      && row.status in {Claimed, Running}
      && exists c: nat, at, seconds :: LatestGrant(h, c, at, seconds) && at + seconds <= now
  {
    var c, at, seconds := LeaseColumns(h, row);
    if k: nat, t, secs :| LatestGrant(h, k, t, secs) && t + secs <= now && row.status in {Claimed, Running} {
      assert !(k < c) && !(c < k);
    }
  }

  // ------------------------------------------------------------------------------------------
  // Rows and refusals, column by column.

  /** A new job, in full. */
  lemma NewJobColumns(createdAt: Time, sample: string)
    ensures var row := NewJob(createdAt, sample);
      && row.createdAt == createdAt && row.sampleSha256 == sample && row.status == Queued && row.attempts == 0
      && row.runOutcome == None && row.claimedBy == None && row.claimedAt == None && row.leaseExpiresAt == None
      && row.startedAt == None && row.finishedAt == None && row.failureReason == None
  {}

  /** A transition that is let through, in full, for every row and target. */
  lemma TransitionColumns(row: JobRow, target: JobStatus, outcome: Option<RunOutcome>, reason: Option<FailureReason>,
                          now: Time)
    ensures var after, ends := Moved(row, target, outcome, reason, now), target == Finished || target == Cancelled;
      && after.status == target
      && after.runOutcome == (if target == Finished then outcome else row.runOutcome)
      && after.startedAt == (if target == Running then Some(now) else if target == Queued then None else row.startedAt)
      && after.finishedAt == (if ends then Some(now) else row.finishedAt)
      && after.failureReason == (if reason == None then row.failureReason else reason)
      && (if ends || target == Queued then
            after.claimedBy == None && after.claimedAt == None && after.leaseExpiresAt == None
          else
            (after.claimedBy, after.claimedAt, after.leaseExpiresAt)
            == (row.claimedBy, row.claimedAt, row.leaseExpiresAt))
      && after.attempts == row.attempts && after.createdAt == row.createdAt && after.sampleSha256 == row.sampleSha256
  {}

  /** So for a grant and a release, which write the lease and nothing else. */
  lemma LeaseIsWritten(row: JobRow, worker: WorkerId, leaseSeconds: int, now: Time)
    ensures Granted(row, worker, leaseSeconds, now) ==
      row.(claimedBy := Some(worker), claimedAt := Some(now), leaseExpiresAt := Some(now + leaseSeconds))
    ensures Released(row) == row.(claimedBy := None, claimedAt := None, leaseExpiresAt := None)
  {}

  predicate Permitted(status: JobStatus, action: Action) {
    match action
    case Start => status == Claimed
    case Heartbeat(_) => true
    case Complete(_) => status == Running
    case Fail(_) => status in {Claimed, Running}
  }

  /** The holder is refused only what the state forbids, everybody else everything, and each is told the cause. */
  lemma RefusalsNameTheCause(row: JobRow, worker: WorkerId, action: Action, now: Time)
    ensures var r := Act(row, worker, action, now);
      && (r.Err? && r.error.LeaseLost? <==> row.claimedBy != Some(worker))
      && (r.Err? && r.error.Illegal? <==> row.claimedBy == Some(worker) && !Permitted(row.status, action))
      && (r.Err? && r.error.LeaseLost? ==> r.error.holder == row.claimedBy)
      && (r.Err? && r.error.Illegal? ==>
            var target := if action.Start? then Running else if action.Fail? then Queued else Finished;
            r.error.why in {NotAnEdge(row.status, target), LeavesTerminal(row.status, target)})
      && !(r.Err? && r.error.UnknownJob?)
  {}

  /** What every accepted change leaves alone, and what only a claim counts. */
  lemma ChangesKeepIdentity(row: JobRow, e: Event)
    requires Step(row, e).Some?
    ensures var after := Step(row, e).value;
      && after.createdAt == row.createdAt && after.sampleSha256 == row.sampleSha256
      && after.attempts == row.attempts + if e.Lease? then 1 else 0
  {}
}
