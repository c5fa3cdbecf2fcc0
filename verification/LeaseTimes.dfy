/** How long a lease protects a job, and what callers are told about it, in every run of both queues. */
module LeaseTimes {
  import opened Base
  import opened Lifecycle
  import opened Jobs
  import opened JobHistory
  import opened JobColumns
  import opened MemoryQueue
  import opened MemoryRuns
  import opened SqlQueue
  import opened SqlSessions

  /** Held, with a latest claim or heartbeat whose time has run out. */
  ghost predicate Due(h: History, row: JobRow, now: Time) {
    && row.status in {Claimed, Running}
    && exists c: nat, at, seconds :: LatestGrant(h, c, at, seconds) && at + seconds <= now
  }

  /** Column by column, the row shows the lease that a caller was given at `now`. */
  predicate Shows(row: JobRow, g: Grant, now: Time) {
    && row.status in {Claimed, Running} && row.claimedBy == Some(g.workerId) && row.claimedAt == Some(now)
    && row.leaseExpiresAt == Some(g.expiresAt) && row.attempts == g.attempt
  }

  /** The lease that a claim returns is the one in the row: the caller's, for that long, with that attempt. */
  lemma ClaimsShowInRows(s: Store, worker: WorkerId, seconds: int, now: Time)
    requires WellFormed(s)
    ensures var r, after := ReplyTo(s, Call.Claim(worker, seconds), now), Apply(s, Call.Claim(worker, seconds), now);
      && r.Handed?
      && match r.lease
         case None => after == s && forall id :: id in s.rows ==> s.rows[id].status != Queued
         case Some(g) =>
           && g.jobId in s.rows && s.rows[g.jobId].status == Queued && g.jobId in after.rows
           && g.workerId == worker && g.expiresAt == now + seconds && g.attempt == s.rows[g.jobId].attempts + 1
           && Shows(after.rows[g.jobId], g, now) && after.rows[g.jobId].status == Claimed
           && after == s.(rows := s.rows[g.jobId := after.rows[g.jobId]])
  {
    if FirstQueued(s.rows, s.order).Some? {
      var p := FirstQueuedPosition(s.rows, s.order);
    } else {
      forall id | id in s.rows
        ensures s.rows[id].status != Queued
      {
        if s.rows[id].status == Queued {
          NobodyMissesAQueuedJob(s.rows, s.order, id);
        }
      }
    }
  }

  lemma {:induction false} NobodyMissesAQueuedJob(rows: map<JobId, JobRow>, order: seq<JobId>, id: JobId)
    requires id in order && id in rows && rows[id].status == Queued
    ensures FirstQueued(rows, order).Some?
  {
    if !(order[0] in rows && rows[order[0]].status == Queued) {
      NobodyMissesAQueuedJob(rows, order[1..], id);
    }
  }

  lemma RenewedRow(row: JobRow, id: JobId, worker: WorkerId, seconds: int, now: Time)
    requires Coherent(row)
    ensures var r := Act(row, worker, Heartbeat(seconds), now);
      && (r.Ok? <==> row.claimedBy == Some(worker))
      && (r.Ok? ==>
            && Shows(r.value, Grant(id, worker, now + seconds, row.attempts), now)
            && r.value.status == row.status && r.value.startedAt == row.startedAt && r.value.attempts == row.attempts)
  {}

  lemma RenewalsInStore(s: Store, id: JobId, worker: WorkerId, seconds: int, now: Time)
    requires id in s.rows
    ensures var r := Act(s.rows[id], worker, Heartbeat(seconds), now);
      && (r.Ok? ==>
            && ReplyTo(s, Ask(id, worker, Heartbeat(seconds)), now)
               == Renewed(Grant(id, worker, now + seconds, r.value.attempts))
            && Apply(s, Ask(id, worker, Heartbeat(seconds)), now) == s.(rows := s.rows[id := r.value]))
      && (r.Err? ==> ReplyTo(s, Ask(id, worker, Heartbeat(seconds)), now) == Refused(r.error))
  {}

  /** So is the one that a heartbeat returns. */
  lemma RenewalsShowInRows(calls: seq<TimedCall>, id: JobId, worker: WorkerId, seconds: int, now: Time)
    requires Legal(calls)
    ensures var s, c := Run(calls).store, Ask(id, worker, Heartbeat(seconds));
      var r, after := ReplyTo(s, c, now), Apply(s, c, now);
      && (r.Renewed? <==> id in s.rows && s.rows[id].claimedBy == Some(worker))
      && (r.Renewed? ==>
            && r.renewal == Grant(id, worker, now + seconds, s.rows[id].attempts) && id in after.rows
            && Shows(after.rows[id], r.renewal, now) && after.rows[id].status == s.rows[id].status
            && after.rows[id].startedAt == s.rows[id].startedAt && after == s.(rows := s.rows[id := after.rows[id]]))
  {
    RunsAreFaithful(calls);
    if id in Run(calls).store.rows {
      HistoriesAreCoherent(Run(calls).log[id], Run(calls).store.rows[id]);
      RenewedRow(Run(calls).store.rows[id], id, worker, seconds, now);
      RenewalsInStore(Run(calls).store, id, worker, seconds, now);
    }
  }

  /** What an asker is told: an unknown job, a lost lease, an illegal move, or what was asked for. */
  lemma AskersAreTold(s: Store, id: JobId, worker: WorkerId, action: Action, now: Time)
    ensures var r := ReplyTo(s, Ask(id, worker, action), now);
      && (r == Refused(UnknownJob) <==> id !in s.rows)
      && (r.Refused? && r.why.LeaseLost? <==> id in s.rows && s.rows[id].claimedBy != Some(worker))
      && (r.Refused? && r.why.Illegal? <==>
            id in s.rows && s.rows[id].claimedBy == Some(worker) && !Permitted(s.rows[id].status, action))
      && (r.Renewed? || r.Acted? <==>
            id in s.rows && s.rows[id].claimedBy == Some(worker) && Permitted(s.rows[id].status, action))
      && (r.Renewed? ==> action.Heartbeat?) && (r.Acted? ==> !action.Heartbeat?)
  {
    if id in s.rows {
      RefusalsNameTheCause(s.rows[id], worker, action, now);
    }
  }

  predicate Ended(row: JobRow, now: Time) {
    row.status in {Claimed, Running} && row.leaseExpiresAt.Some? && row.leaseExpiresAt.value <= now
  }

  /** What a sweep does to one row, and which of its lists names it. */
  lemma SweepsOfOneRow(s: Store, id: JobId, maxAttempts: int, now: Time)
    requires WellFormed(s) && id in s.rows
    ensures var row, reaped := s.rows[id], ReplyTo(s, Reap(maxAttempts), now);
      && reaped.Reaped? && id in Apply(s, Reap(maxAttempts), now).rows
      && (id in reaped.requeued <==> Ended(row, now) && row.attempts < maxAttempts)
      && (id in reaped.abandoned <==> Ended(row, now) && row.attempts >= maxAttempts)
  {
    ReapedIdsAreExact(s.rows, s.order, maxAttempts, now, id);
  }

  lemma RowsAfterASweep(s: Store, id: JobId, maxAttempts: int, now: Time)
    requires id in s.rows
    ensures var row, after := s.rows[id], AfterReap(s, maxAttempts, now).rows;
      && id in after
      && (if !Ended(row, now) then after[id] == row
          else if row.attempts < maxAttempts then after[id].status == Queued
          else after[id].status == Cancelled && after[id].finishedAt == Some(now))
  {}

  /**
   * In every run a sweep takes back exactly the jobs that are due: none before the end of its latest
   * claim or heartbeat.
   */
  lemma SweepsTakeExactlyTheDue(calls: seq<TimedCall>, id: JobId, maxAttempts: int, now: Time)
    requires Legal(calls) && id in Run(calls).store.rows
    ensures id in Run(calls).log
    ensures var s, row := Run(calls).store, Run(calls).store.rows[id];
      var due, reaped := Due(Run(calls).log[id], row, now), ReplyTo(s, Reap(maxAttempts), now);
      && reaped.Reaped?
      && (id in reaped.requeued <==> due && row.attempts < maxAttempts)
      && (id in reaped.abandoned <==> due && row.attempts >= maxAttempts)
  {
    RunsAreFaithful(calls);
    DueMeansEnded(Run(calls).log[id], Run(calls).store.rows[id], now);
    SweepsOfOneRow(Run(calls).store, id, maxAttempts, now);
  }

  lemma DueMeansEnded(h: History, row: JobRow, now: Time)
    requires Reached(h, row)
    ensures Due(h, row, now) <==> Ended(row, now)
  {
    SweptExactlyWhenDue(h, row, 0, now);
    var c, at, seconds := LeaseColumns(h, row);
  }

  /** What a heartbeat is worth: renewed at `t` for so many seconds, the job is swept at `now` iff they are over. */
  lemma RenewedJobsAreLeftAlone(calls: seq<TimedCall>, id: JobId, worker: WorkerId, seconds: int, t: Time,
                                maxAttempts: int, now: Time)
    requires Legal(calls) && ReplyTo(Run(calls).store, Ask(id, worker, Heartbeat(seconds)), t).Renewed?
    ensures var s := Apply(Run(calls).store, Ask(id, worker, Heartbeat(seconds)), t);
      var reaped := ReplyTo(s, Reap(maxAttempts), now);
      reaped.Reaped? && (id in reaped.requeued + reaped.abandoned <==> t + seconds <= now)
  {
    var c := Ask(id, worker, Heartbeat(seconds));
    RenewalsShowInRows(calls, id, worker, seconds, t);
    RunsAreFaithful(calls);
    OnlyEnqueueAddsJobs(Run(calls).store, c, t);
    SweepsOfOneRow(Apply(Run(calls).store, c, t), id, maxAttempts, now);
  }

  // ------------------------------------------------------------------------------------------
  // Any interleaving of sessions.

  /** The statements of a sweep find exactly the jobs that are due by the committed history. */
  lemma StatementsFindExactlyTheDue(dbs: seq<Db>, moves: seq<Move>, id: JobId, maxAttempts: int, now: Time)
    requires FromEmpty(dbs, moves) && id in dbs[|moves|].rows
    ensures id in dbs[|moves|].log
    ensures var db := dbs[|moves|];
      && (id in Found(db.rows, map[], false, maxAttempts, now) <==>
            Due(db.log[id], db.rows[id], now) && db.rows[id].attempts < maxAttempts)
      && (id in Found(db.rows, map[], true, maxAttempts, now) <==>
            Due(db.log[id], db.rows[id], now) && db.rows[id].attempts >= maxAttempts)
  {
    TracesAreSound(dbs, moves);
    SweptExactlyWhenDue(dbs[|moves|].log[id], dbs[|moves|].rows[id], maxAttempts, now);
  }

  /** Whatever a sweep is about to commit is due at that moment, though others have moved since the sweep began. */
  lemma CommittedSweepsAreOfTheDue(dbs: seq<Db>, moves: seq<Move>, s: SessionId, id: JobId)
    requires FromEmpty(dbs, moves) && PhaseOf(dbs[|moves|], s).Ready? && PhaseOf(dbs[|moves|], s).event.Sweep?
    requires id in PhaseOf(dbs[|moves|], s).writes
    ensures id in dbs[|moves|].rows && id in dbs[|moves|].log
    ensures Due(dbs[|moves|].log[id], dbs[|moves|].rows[id], PhaseOf(dbs[|moves|], s).event.at)
  {
    var db := dbs[|moves|];
    var p := PhaseOf(db, s);
    TracesAreSound(dbs, moves);
    assert PhaseSound(db.rows, db.locks, s, p);
    SweptExactlyWhenDue(db.log[id], db.rows[id], p.event.maxAttempts, p.event.at);
  }

  /** A claim's commit returns one lease, and the committed row shows it. */
  lemma ClaimsReturnWhatTheyCommit(db: Db, s: SessionId)
    requires Inv(db) && PhaseOf(db, s).Ready? && PhaseOf(db, s).event.Lease?
    ensures var after, e := Fire(db, Commit(s)), PhaseOf(db, s).event;
      && |after.issued| == |db.issued| + 1 && after.issued[..|db.issued|] == db.issued
      && var g := after.issued[|db.issued|];
         && g.workerId == e.worker && g.expiresAt == e.at + e.leaseSeconds
         && g.jobId in db.rows && db.rows[g.jobId].status == Queued && g.attempt == db.rows[g.jobId].attempts + 1
         && g.jobId in after.rows && after.rows[g.jobId].status == Claimed && Shows(after.rows[g.jobId], g, e.at)
  {
    var p := PhaseOf(db, s);
    assert PhaseSound(db.rows, db.locks, s, p);
    var g := p.lease.value;
    assert Step(db.rows[g.jobId], p.event) == Some(p.writes[g.jobId]);
  }
}
