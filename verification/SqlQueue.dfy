/**
 * The PostgreSQL queue used by one session at a time: app/queue/database.py.
 *
 * Claims and sweeps are bulk updates that never call `transition_to`; everything else locks one
 * row and acts on it. Run one call at a time, this is the dictionary-backed queue.
 */
module SqlQueue {
  import opened Base
  import opened Lifecycle
  import opened Jobs
  import opened JobHistory
  import opened MemoryQueue
  import opened MemoryRuns

  type Table = map<JobId, JobRow>

  // ------------------------------------------------------------------------------------------
  // The statements.

  predicate IsQueued(t: Table, id: JobId) {
    id in t && t[id].status == Queued
  }

  /** What `ORDER BY created_at LIMIT 1` may return when no row is locked. */
  predicate OldestQueued(t: Table, id: JobId) {
    IsQueued(t, id) && forall k :: k in t && t[k].status == Queued ==> t[id].createdAt <= t[k].createdAt
  }

  /** The column list of the claiming UPDATE. */
  function ClaimValues(row: JobRow, worker: WorkerId, now: Time, expiresAt: Time): JobRow {
    row.(status := Claimed, claimedBy := Some(worker), claimedAt := Some(now),
         leaseExpiresAt := Some(expiresAt), attempts := row.attempts + 1)
  }

  /** The `held` condition shared by both statements of a sweep. */
  predicate HeldPast(row: JobRow, now: Time) {
    row.status in {Claimed, Running} && row.leaseExpiresAt.Some? && row.leaseExpiresAt.value <= now
  }

  predicate MustRequeue(row: JobRow, maxAttempts: int, now: Time) {
    HeldPast(row, now) && row.attempts < maxAttempts
  }

  predicate MustAbandon(row: JobRow, maxAttempts: int, now: Time) {
    HeldPast(row, now) && row.attempts >= maxAttempts
  }

  function RequeueValues(row: JobRow): JobRow {
    row.(status := Queued, claimedBy := None, claimedAt := None, leaseExpiresAt := None,
         startedAt := None, failureReason := Some(LeaseExpired))
  }

  function AbandonValues(row: JobRow, maxAttempts: int, now: Time): JobRow {
    row.(status := Cancelled, claimedBy := None, claimedAt := None, leaseExpiresAt := None,
         finishedAt := Some(now), failureReason := Some(AbandonedAfter(maxAttempts)))
  }

  function RequeueUpdate(t: Table, maxAttempts: int, now: Time): Table {
    map id | id in t :: if MustRequeue(t[id], maxAttempts, now) then RequeueValues(t[id]) else t[id]
  }

  function AbandonUpdate(t: Table, maxAttempts: int, now: Time): Table {
    map id | id in t :: if MustAbandon(t[id], maxAttempts, now) then AbandonValues(t[id], maxAttempts, now) else t[id]
  }

  /** The bulk updates write what the transition methods would have written. */
  lemma BulkUpdatesAreTransitions(row: JobRow, worker: WorkerId, leaseSeconds: int, maxAttempts: int, now: Time)
    ensures ClaimValues(row, worker, now, now + leaseSeconds) == Leased(row, worker, leaseSeconds, now)
    ensures HeldPast(row, now) <==> Expired(row, now)
    ensures MustRequeue(row, maxAttempts, now) ==> RequeueValues(row) == Swept(row, maxAttempts, now)
    ensures MustAbandon(row, maxAttempts, now) ==> AbandonValues(row, maxAttempts, now) == Swept(row, maxAttempts, now)
  {}

  /** The two statements of a sweep, one after the other, treat every row as one pass would. */
  lemma TwoStatementsAreOneSweep(t: Table, maxAttempts: int, now: Time)
    ensures AbandonUpdate(RequeueUpdate(t, maxAttempts, now), maxAttempts, now) ==
      map id | id in t :: SweptRow(t[id], maxAttempts, now)
  {
    forall id | id in t
      ensures AbandonUpdate(RequeueUpdate(t, maxAttempts, now), maxAttempts, now)[id] ==
        SweptRow(t[id], maxAttempts, now)
    {
      BulkUpdatesAreTransitions(t[id], "", 0, maxAttempts, now);
    }
  }

  // ------------------------------------------------------------------------------------------
  // One call, start to commit.

  predicate HandsOut(t: Table, id: JobId, worker: WorkerId, secs: int, now: Time, after: Table, reply: Reply) {
    && id in t
    && after == t[id := ClaimValues(t[id], worker, now, now + secs)]
    && reply == Handed(Some(Grant(id, worker, now + secs, t[id].attempts + 1)))
  }

  /** Calling `c` alone on the table `t` may leave `after` committed and return `reply`. */
  ghost predicate Commits(t: Table, c: Call, now: Time, after: Table, reply: Reply) {
    match c
    case Enqueue(id, createdAt, sample) => after == t[id := NewJob(createdAt, sample)] && reply == Enqueued
    case Claim(worker, secs) =>
      if forall id :: !IsQueued(t, id) then after == t && reply == Handed(None)
      else exists id :: OldestQueued(t, id) && HandsOut(t, id, worker, secs, now, after, reply)
    case Ask(id, worker, action) =>
      var r := if id in t then Act(t[id], worker, action, now) else Err(UnknownJob);
      after == (if r.Ok? then t[id := r.value] else t) && reply == AnswerReply(id, worker, action, r, now)
    case Reap(max) =>
      var requeued := RequeueUpdate(t, max, now);
      after == AbandonUpdate(requeued, max, now)
      && reply == Reaped(set id | id in t && MustRequeue(t[id], max, now),
                         set id | id in requeued && MustAbandon(requeued[id], max, now))
  }

  lemma {:induction false} OldestExists(t: Table, ids: set<JobId>) returns (oldest: JobId)
    requires ids != {} && ids <= t.Keys
    ensures oldest in ids && forall k :: k in ids ==> t[oldest].createdAt <= t[k].createdAt
    decreases |ids|
  {
    oldest :| oldest in ids;
    if ids != {oldest} {
      var rest := OldestExists(t, ids - {oldest});
      if t[rest].createdAt < t[oldest].createdAt {
        oldest := rest;
      }
    }
  }

  lemma OldestQueuedExists(t: Table) returns (oldest: JobId)
    requires exists id :: IsQueued(t, id)
    ensures OldestQueued(t, oldest)
  {
    var ids := set id | id in t && t[id].status == Queued;
    var some :| IsQueued(t, some);
    assert some in ids;
    oldest := OldestExists(t, ids);
  }

  /** The committed rows, the rows as this session sees them, and the rows it has locked. */
  class Session {
    var committed: Table
    var working: Table
    var locked: set<JobId>

    predicate Clean()
      reads this
    {
      working == committed
    }

    method Commit()
      modifies this
      ensures committed == working == old(working) && locked == {}
    {
      committed, locked := working, {};
    }

    method Rollback()
      modifies this
      ensures working == committed == old(committed) && locked == {}
    {
      working, locked := committed, {};
    }
  }

  class DatabaseJobQueue {
    const session: Session

    constructor (session: Session)
      ensures this.session == session
    {
      this.session := session;
    }

    /** Joins the caller's transaction: nothing is committed until the caller commits. */
    method Enqueue(id: JobId, job: JobRow)
      modifies session
      ensures session.committed == old(session.committed) && session.locked == old(session.locked)
      ensures session.working == old(session.working)[id := job.(status := Queued)]
    {
      session.working := session.working[id := job.(status := Queued)];
    }

    method Claim(worker: WorkerId, leaseSeconds: int, now: Time) returns (lease: Option<Grant>)
      requires session.Clean()
      modifies session
      ensures session.Clean() && session.locked == {}
      ensures Commits(old(session.committed), Call.Claim(worker, leaseSeconds), now, session.committed, Handed(lease))
    {
      var expiresAt := now + leaseSeconds;
      var queued := set id | id in session.working && session.working[id].status == Queued;
      if queued == {} {
        assert forall id :: IsQueued(session.working, id) ==> id in queued;
        session.Rollback();
        return None;
      }
      ghost var witness' :| witness' in queued;
      assert IsQueued(session.working, witness');
      ghost var oldest := OldestQueuedExists(session.working);
      var id :| id in queued && OldestQueued(session.working, id);
      var row := ClaimValues(session.working[id], worker, now, expiresAt);
      session.locked := session.locked + {id};
      session.working := session.working[id := row];
      session.Commit();
      assert HandsOut(old(session.committed), id, worker, leaseSeconds, now, session.committed,
                      Handed(Some(Grant(id, worker, expiresAt, row.attempts))));
      lease := Some(Grant(id, worker, expiresAt, row.attempts));
    }

    /** SELECT ... FOR UPDATE and the ownership check; a refusal ends the transaction. */
    method Lock(id: JobId, worker: WorkerId) returns (found: Result<JobRow, Refusal>)
      requires session.Clean()
      modifies session
      ensures session.Clean() && session.committed == old(session.committed)
      ensures found.Ok? <==> id in session.committed && session.committed[id].claimedBy == Some(worker)
      ensures found.Ok? ==> found.value == session.committed[id] && session.locked == old(session.locked) + {id}
      ensures found.Err? ==> session.locked == {}
      ensures found.Err? ==>
        found.error == if id in session.committed then LeaseLost(session.committed[id].claimedBy) else UnknownJob
    {
      if id !in session.working {
        session.Rollback();
        return Err(UnknownJob);
      }
      session.locked := session.locked + {id};
      var job := session.working[id];
      if job.claimedBy != Some(worker) {
        var holder := job.claimedBy;
        session.Rollback();
        return Err(LeaseLost(holder));
      }
      found := Ok(job);
    }

    /**
     * Start, heartbeat, complete and fail. When the transition is illegal the error leaves the
     * method with the row still locked: neither a commit nor a rollback has run.
     */
    method Perform(id: JobId, worker: WorkerId, action: Action, now: Time) returns (reply: Reply)
      requires session.Clean()
      modifies session
      ensures session.Clean()
      ensures Commits(old(session.committed), Ask(id, worker, action), now, session.committed, reply)
      ensures session.locked == if reply.Refused? && reply.why.Illegal? then old(session.locked) + {id} else {}
    {
      var found := Lock(id, worker);
      if found.Err? {
        return Refused(found.error);
      }
      var r := Act(found.value, worker, action, now);
      if r.Ok? {
        session.working := session.working[id := r.value];
        session.Commit();
      }
      reply := AnswerReply(id, worker, action, r, now);
    }

    method ReapExpired(maxAttempts: int, now: Time) returns (requeued: set<JobId>, abandoned: set<JobId>)
      requires session.Clean()
      modifies session
      ensures session.Clean() && session.locked == {}
      ensures Commits(old(session.committed), Reap(maxAttempts), now, session.committed, Reaped(requeued, abandoned))
    {
      requeued := set id | id in session.working && MustRequeue(session.working[id], maxAttempts, now);
      session.working := RequeueUpdate(session.working, maxAttempts, now);
      session.locked := session.locked + requeued;
      abandoned := set id | id in session.working && MustAbandon(session.working[id], maxAttempts, now);
      session.working := AbandonUpdate(session.working, maxAttempts, now);
      session.locked := session.locked + abandoned;
      session.Commit();
    }
  }

  // ------------------------------------------------------------------------------------------
  // Refinement.

  /** Same rows, and arrival order is strict creation order. */
  ghost predicate Agree(s: Store, t: Table) {
    && WellFormed(s) && s.rows == t
    && forall i, j | 0 <= i < j < |s.order| && s.order[i] in t && s.order[j] in t ::
      t[s.order[i]].createdAt < t[s.order[j]].createdAt
  }

  predicate NewestSoFar(t: Table, c: Call) {
    c.Enqueue? ==> forall id :: id in t ==> t[id].createdAt < c.createdAt
  }

  lemma OldestIsFirst(s: Store, t: Table, id: JobId)
    requires Agree(s, t) && OldestQueued(t, id)
    ensures FirstQueued(s.rows, s.order) == Some(id)
  {
    assert id in s.order;
    var p :| 0 <= p < |s.order| && s.order[p] == id;
    forall i | 0 <= i < p
      ensures s.order[i] in s.rows && s.rows[s.order[i]].status != Queued
    {
      assert s.order[i] in s.order;
    }
    FirstQueuedIsFirst(s.rows, s.order, p);
  }

  lemma NobodyIsFirst(s: Store, t: Table)
    requires Agree(s, t) && forall id :: !IsQueued(t, id)
    ensures FirstQueued(s.rows, s.order) == None
  {
    forall i | 0 <= i < |s.order|
      ensures s.order[i] in s.rows && s.rows[s.order[i]].status != Queued
    {
      assert s.order[i] in s.order;
      assert !IsQueued(t, s.order[i]);
    }
    NoneQueued(s.rows, s.order);
  }

  lemma ReapedSetsAgree(s: Store, maxAttempts: int, now: Time, id: JobId)
    requires WellFormed(s)
    ensures id in RequeuedIds(s.rows, s.order, maxAttempts, now) <==>
      id in s.rows && MustRequeue(s.rows[id], maxAttempts, now)
    ensures id in AbandonedIds(s.rows, s.order, maxAttempts, now) <==>
      id in s.rows && MustAbandon(RequeueUpdate(s.rows, maxAttempts, now)[id], maxAttempts, now)
  {
    ReapedIdsAreExact(s.rows, s.order, maxAttempts, now, id);
  }

  lemma ReapsAgree(s: Store, t: Table, maxAttempts: int, now: Time, after: Table, reply: Reply)
    requires Agree(s, t) && Commits(t, Reap(maxAttempts), now, after, reply)
    ensures after == AfterReap(s, maxAttempts, now).rows
    ensures reply == ReplyTo(s, Reap(maxAttempts), now)
  {
    TwoStatementsAreOneSweep(t, maxAttempts, now);
    forall id: JobId {
      ReapedSetsAgree(s, maxAttempts, now, id);
    }
  }

  lemma CreationTimesAreKept(s: Store, c: Call, now: Time, id: JobId)
    requires WellFormed(s) && Fresh(s, c) && id in s.rows
    ensures id in Apply(s, c, now).rows && Apply(s, c, now).rows[id].createdAt == s.rows[id].createdAt
  {}

  lemma HandsOutTheFirst(s: Store, id: JobId, worker: WorkerId, secs: int, now: Time, after: Table, reply: Reply)
    requires FirstQueued(s.rows, s.order) == Some(id) && HandsOut(s.rows, id, worker, secs, now, after, reply)
    ensures after == AfterClaim(s, worker, secs, now).rows && reply == ReplyTo(s, Call.Claim(worker, secs), now)
  {
    BulkUpdatesAreTransitions(s.rows[id], worker, secs, 0, now);
  }

  lemma ClaimsAgree(s: Store, t: Table, worker: WorkerId, secs: int, now: Time, after: Table, reply: Reply)
    requires Agree(s, t) && Commits(t, Call.Claim(worker, secs), now, after, reply)
    ensures after == AfterClaim(s, worker, secs, now).rows && reply == ReplyTo(s, Call.Claim(worker, secs), now)
  {
    if forall id :: !IsQueued(t, id) {
      NobodyIsFirst(s, t);
    } else {
      var id :| OldestQueued(t, id) && HandsOut(t, id, worker, secs, now, after, reply);
      OldestIsFirst(s, t, id);
      HandsOutTheFirst(s, id, worker, secs, now, after, reply);
    }
  }

  lemma CreationOrderIsKept(s: Store, t: Table, c: Call, now: Time)
    requires Agree(s, t) && Fresh(s, c) && NewestSoFar(t, c)
    ensures Agree(Apply(s, c, now), Apply(s, c, now).rows)
  {
    var s' := Apply(s, c, now);
    OnlyEnqueueAddsJobs(s, c, now);
    forall i, j | 0 <= i < j < |s'.order| && s'.order[i] in s'.rows && s'.order[j] in s'.rows
      ensures s'.rows[s'.order[i]].createdAt < s'.rows[s'.order[j]].createdAt
    {
      assert s.order <= s'.order && s.order[i] in s.order;
      CreationTimesAreKept(s, c, now, s.order[i]);
      if j < |s.order| {
        assert s.order[j] in s.order;
        CreationTimesAreKept(s, c, now, s.order[j]);
      }
    }
  }

  /** Whatever the SQL queue commits and answers is what the dictionary-backed queue does. */
  lemma CallsAgree(s: Store, t: Table, c: Call, now: Time, after: Table, reply: Reply)
    requires Agree(s, t) && Fresh(s, c) && NewestSoFar(t, c) && Commits(t, c, now, after, reply)
    ensures Agree(Apply(s, c, now), after) && reply == ReplyTo(s, c, now)
  {
    CreationOrderIsKept(s, t, c, now);
    match c {
      case Enqueue(_, _, _) =>
      case Claim(worker, secs) => ClaimsAgree(s, t, worker, secs, now, after, reply);
      case Ask(_, _, _) =>
      case Reap(max) => ReapsAgree(s, t, max, now, after, reply);
    }
  }

  /** The SQL queue always has a way to answer, so agreement is not vacuous. */
  lemma SomeCommitExists(t: Table, c: Call, now: Time) returns (after: Table, reply: Reply)
    ensures Commits(t, c, now, after, reply)
  {
    match c
    case Enqueue(id, createdAt, sample) =>
      after, reply := t[id := NewJob(createdAt, sample)], Enqueued;
    case Claim(worker, secs) =>
      if forall id :: !IsQueued(t, id) {
        after, reply := t, Handed(None);
      } else {
        var id := OldestQueuedExists(t);
        after := t[id := ClaimValues(t[id], worker, now, now + secs)];
        reply := Handed(Some(Grant(id, worker, now + secs, t[id].attempts + 1)));
        assert HandsOut(t, id, worker, secs, now, after, reply);
      }
    case Ask(id, worker, action) =>
      var r := if id in t then Act(t[id], worker, action, now) else Err(UnknownJob);
      after := if r.Ok? then t[id := r.value] else t;
      reply := AnswerReply(id, worker, action, r, now);
    case Reap(max) =>
      var requeued := RequeueUpdate(t, max, now);
      after := AbandonUpdate(requeued, max, now);
      reply := Reaped(set id | id in t && MustRequeue(t[id], max, now),
                      set id | id in requeued && MustAbandon(requeued[id], max, now));
  }

  /** A run of the SQL queue: the table before each call and after the last, and every reply. */
  ghost predicate SqlRun(calls: seq<TimedCall>, tables: seq<Table>, replies: seq<Reply>) {
    && |tables| == |calls| + 1 && |replies| == |calls| && tables[0] == map[]
    && forall i :: 0 <= i < |calls| ==> Commits(tables[i], calls[i].call, calls[i].now, tables[i + 1], replies[i])
  }

  /** Every enqueue brings a new id and a creation time later than all before. */
  predicate InCreationOrder(calls: seq<TimedCall>) {
    Legal(calls) && forall i :: 0 <= i < |calls| ==> NewestSoFar(Run(calls[..i]).store.rows, calls[i].call)
  }

  lemma {:induction false} StoredAsEnqueued(calls: seq<TimedCall>, i: nat)
    requires Legal(calls) && i < |calls| && calls[i].call.Enqueue?
    ensures calls[i].call.id in Run(calls).store.rows
    ensures Run(calls).store.rows[calls[i].call.id].createdAt == calls[i].call.createdAt
  {
    var n := |calls| - 1;
    var init, id := calls[..n], calls[i].call.id;
    RunsAreFaithful(init);
    if i == n {
    } else {
      StoredAsEnqueued(init, i);
      CreationTimesAreKept(Run(init).store, calls[n].call, calls[n].now, id);
    }
  }

  predicate LaterThan(calls: seq<TimedCall>, j: nat, n: nat) {
    j < n < |calls| && calls[j].call.Enqueue? && calls[n].call.Enqueue? ==>
      calls[j].call.createdAt < calls[n].call.createdAt
  }

  lemma NewestExactlyWhen(calls: seq<TimedCall>, n: nat)
    requires Legal(calls) && n < |calls|
    ensures NewestSoFar(Run(calls[..n]).store.rows, calls[n].call) <==> forall j: nat | j < n :: LaterThan(calls, j, n)
  {
    var init, c := calls[..n], calls[n].call;
    LegalAt(calls, n);
    if c.Enqueue? {
      forall j: nat | j < n && calls[j].call.Enqueue?
        ensures calls[j].call.id in Run(init).store.rows
        ensures Run(init).store.rows[calls[j].call.id].createdAt == calls[j].call.createdAt
      {
        assert init[j] == calls[j];
        StoredAsEnqueued(init, j);
      }
      forall id | id in Run(init).store.rows && forall j: nat | j < n :: LaterThan(calls, j, n)
        ensures Run(init).store.rows[id].createdAt < c.createdAt
      {
        StoredWereEnqueued(init, id);
        var j :| 0 <= j < n && Enqueues(init[j].call, id);
        assert LaterThan(calls, j, n);
      }
      if j: nat :| j < n && !LaterThan(calls, j, n) {
        assert calls[j].call.id in Run(init).store.rows;
      }
    }
  }

  /** The runs compared are exactly those that enqueue no id twice and give every job a later creation time. */
  lemma InCreationOrderExactlyWhen(calls: seq<TimedCall>)
    ensures InCreationOrder(calls) <==>
      && (forall i, j | 0 <= i < j < |calls| && calls[i].call.Enqueue? :: !Enqueues(calls[j].call, calls[i].call.id))
      && forall n: nat, j: nat | j < n < |calls| :: LaterThan(calls, j, n)
  {
    LegalExactlyWhen(calls);
    if Legal(calls) {
      forall n: nat | n < |calls|
        ensures NewestSoFar(Run(calls[..n]).store.rows, calls[n].call) <==>
          forall j: nat | j < n :: LaterThan(calls, j, n)
      {
        NewestExactlyWhen(calls, n);
      }
    }
  }

  /** In creation order, each call meets the conditions under which single calls agree. */
  lemma CallsInOrder(calls: seq<TimedCall>, n: nat)
    requires InCreationOrder(calls) && n < |calls|
    ensures Fresh(Run(calls[..n]).store, calls[n].call)
    ensures NewestSoFar(Run(calls[..n]).store.rows, calls[n].call)
    ensures Run(calls[..n + 1]).store == Apply(Run(calls[..n]).store, calls[n].call, calls[n].now)
  {
    LegalAt(calls, n);
    assert calls[..n + 1][..n] == calls[..n];
  }

  lemma {:induction false} TablesAgree(calls: seq<TimedCall>, tables: seq<Table>, replies: seq<Reply>, n: nat)
    requires InCreationOrder(calls) && SqlRun(calls, tables, replies) && n <= |calls|
    ensures Agree(Run(calls[..n]).store, tables[n])
  {
    if n == 0 {
    } else {
      TablesAgree(calls, tables, replies, n - 1);
      CallsInOrder(calls, n - 1);
      var m := n - 1;
      CallsAgree(Run(calls[..m]).store, tables[m], calls[m].call, calls[m].now, tables[n], replies[m]);
    }
  }

  /** Refinement over whole runs: all fields of all jobs, all leases, errors and sweep results agree. */
  lemma RunsAgree(calls: seq<TimedCall>, tables: seq<Table>, replies: seq<Reply>)
    requires InCreationOrder(calls) && SqlRun(calls, tables, replies)
    ensures Agree(Run(calls).store, tables[|calls|])
    ensures forall i :: 0 <= i < |calls| ==> replies[i] == ReplyTo(Run(calls[..i]).store, calls[i].call, calls[i].now)
  {
    TablesAgree(calls, tables, replies, |calls|);
    assert calls[..|calls|] == calls;
    forall i | 0 <= i < |calls|
      ensures replies[i] == ReplyTo(Run(calls[..i]).store, calls[i].call, calls[i].now)
    {
      TablesAgree(calls, tables, replies, i);
      CallsInOrder(calls, i);
      CallsAgree(Run(calls[..i]).store, tables[i], calls[i].call, calls[i].now, tables[i + 1], replies[i]);
    }
  }

  /** For claims the creation times matter exactly so: the first waiting job must be the only oldest one. */
  lemma ClaimsAgreeExactlyWhen(s: Store, worker: WorkerId, leaseSeconds: int, now: Time)
    requires WellFormed(s) && FirstQueued(s.rows, s.order).Some?
    ensures (forall after, reply :: Commits(s.rows, Call.Claim(worker, leaseSeconds), now, after, reply) ==>
        && after == AfterClaim(s, worker, leaseSeconds, now).rows
        && reply == ReplyTo(s, Call.Claim(worker, leaseSeconds), now))
      <==> forall k :: IsQueued(s.rows, k) && k != FirstQueued(s.rows, s.order).value ==>
        s.rows[FirstQueued(s.rows, s.order).value].createdAt < s.rows[k].createdAt
  {
    var t, c := s.rows, Call.Claim(worker, leaseSeconds);
    var p := FirstQueuedPosition(s.rows, s.order);
    var first := s.order[p];
    assert IsQueued(t, first);
    if forall k :: IsQueued(t, k) && k != first ==> t[first].createdAt < t[k].createdAt {
      forall after, reply | Commits(t, c, now, after, reply)
        ensures after == AfterClaim(s, worker, leaseSeconds, now).rows && reply == ReplyTo(s, c, now)
      {
        var id :| OldestQueued(t, id) && HandsOut(t, id, worker, leaseSeconds, now, after, reply);
        assert id == first;
        BulkUpdatesAreTransitions(t[id], worker, leaseSeconds, 0, now);
      }
    } else {
      var k :| IsQueued(t, k) && k != first && t[k].createdAt <= t[first].createdAt;
      var id := OldestQueuedExists(t);
      if id == first {
        id := k;
      }
      var after := t[id := ClaimValues(t[id], worker, now, now + leaseSeconds)];
      var reply := Handed(Some(Grant(id, worker, now + leaseSeconds, t[id].attempts + 1)));
      assert OldestQueued(t, id) && HandsOut(t, id, worker, leaseSeconds, now, after, reply);
      assert Commits(t, c, now, after, reply);
      assert reply != ReplyTo(s, c, now);
    }
  }
}
