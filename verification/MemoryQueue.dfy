/** The dictionary-backed queue: app/queue/memory.py. */
module MemoryQueue {
  import opened Base
  import opened Lifecycle
  import opened Jobs
  import opened JobHistory

  /** The stored rows and the order in which the jobs arrived. */
  datatype Store = Store(rows: map<JobId, JobRow>, order: seq<JobId>)

  ghost predicate WellFormed(s: Store) {
    && (forall id :: id in s.rows <==> id in s.order)
    && (forall i, j :: 0 <= i < j < |s.order| ==> s.order[i] != s.order[j])
  }

  /** Proof that one worker holds one job until a stated moment. */
  datatype Grant = Grant(jobId: JobId, workerId: WorkerId, expiresAt: Time, attempt: nat)

  datatype ReapResult = ReapResult(requeued: seq<JobId>, abandoned: seq<JobId>)

  /** The first job of `order` that is waiting. */
  function FirstQueued(rows: map<JobId, JobRow>, order: seq<JobId>): (found: Option<JobId>)
    ensures found.Some? ==> found.value in order && found.value in rows
  {
    if order == [] then None
    else if order[0] in rows && rows[order[0]].status == Queued then Some(order[0])
    else FirstQueued(rows, order[1..])
  }

  /** `FirstQueued` finds the waiting job with the smallest position, whenever there is one. */
  lemma {:induction false} FirstQueuedIsFirst(rows: map<JobId, JobRow>, order: seq<JobId>, p: nat)
    requires p < |order| && (forall i :: 0 <= i < p ==> order[i] in rows && rows[order[i]].status != Queued)
    requires order[p] in rows && rows[order[p]].status == Queued
    ensures FirstQueued(rows, order) == Some(order[p])
  {
    if p == 0 {
    } else {
      assert order[0] in rows && rows[order[0]].status != Queued;
      FirstQueuedIsFirst(rows, order[1..], p - 1);
    }
  }

  lemma {:induction false} NoneQueued(rows: map<JobId, JobRow>, order: seq<JobId>)
    requires forall i :: 0 <= i < |order| ==> order[i] in rows && rows[order[i]].status != Queued
    ensures FirstQueued(rows, order) == None
  {
    if order == [] {
    } else {
      assert order[0] in rows && rows[order[0]].status != Queued;
      NoneQueued(rows, order[1..]);
    }
  }

  lemma {:induction false} FirstQueuedPosition(rows: map<JobId, JobRow>, order: seq<JobId>) returns (p: nat)
    requires FirstQueued(rows, order).Some?
    ensures p < |order| && order[p] in rows && FirstQueued(rows, order) == Some(order[p])
    ensures rows[order[p]].status == Queued
    ensures forall i :: 0 <= i < p && order[i] in rows ==> rows[order[i]].status != Queued
  {
    if order[0] in rows && rows[order[0]].status == Queued {
      p := 0;
    } else {
      var q := FirstQueuedPosition(rows, order[1..]);
      p := q + 1;
    }
  }

  function AfterClaim(s: Store, worker: WorkerId, leaseSeconds: int, now: Time): Store {
    match FirstQueued(s.rows, s.order)
    case None => s
    case Some(id) => s.(rows := s.rows[id := Leased(s.rows[id], worker, leaseSeconds, now)])
  }

  /** The reply to start, heartbeat, complete and fail: the new row, or why not. */
  function Answer(s: Store, id: JobId, worker: WorkerId, action: Action, now: Time): Result<JobRow, Refusal> {
    if id in s.rows then Act(s.rows[id], worker, action, now) else Err(UnknownJob)
  }

  function AfterAction(s: Store, id: JobId, worker: WorkerId, action: Action, now: Time): Store {
    var r := Answer(s, id, worker, action, now);
    if r.Ok? then s.(rows := s.rows[id := r.value]) else s
  }

  function SweptRow(row: JobRow, maxAttempts: int, now: Time): JobRow {
    if Expired(row, now) then Swept(row, maxAttempts, now) else row
  }

  function AfterReap(s: Store, maxAttempts: int, now: Time): Store {
    s.(rows := map id | id in s.rows :: SweptRow(s.rows[id], maxAttempts, now))
  }

  /** The rows when a sweep has dealt with the first `n` jobs. */
  function SweptUpTo(s: Store, n: nat, maxAttempts: int, now: Time): map<JobId, JobRow>
    requires n <= |s.order|
  {
    map id | id in s.rows :: if id in s.order[..n] then SweptRow(s.rows[id], maxAttempts, now) else s.rows[id]
  }

  lemma SweptUpToNone(s: Store, maxAttempts: int, now: Time)
    ensures SweptUpTo(s, 0, maxAttempts, now) == s.rows
  {}

  lemma SweptUpToAll(s: Store, maxAttempts: int, now: Time)
    requires WellFormed(s)
    ensures SweptUpTo(s, |s.order|, maxAttempts, now) == AfterReap(s, maxAttempts, now).rows
  {
    assert s.order[..|s.order|] == s.order;
    assert forall id :: id in s.rows ==> id in s.order;
  }

  lemma SweptUpToNext(s: Store, n: nat, maxAttempts: int, now: Time)
    requires WellFormed(s) && n < |s.order|
    ensures SweptUpTo(s, n, maxAttempts, now)[s.order[n]] == s.rows[s.order[n]]
    ensures SweptUpTo(s, n + 1, maxAttempts, now) ==
      SweptUpTo(s, n, maxAttempts, now)[s.order[n] := SweptRow(s.rows[s.order[n]], maxAttempts, now)]
  {
    assert s.order[..n + 1] == s.order[..n] + [s.order[n]];
    assert s.order[n] in s.order && s.order[n] !in s.order[..n];
  }

  predicate Requeues(row: JobRow, maxAttempts: int, now: Time) {
    Expired(row, now) && row.attempts < maxAttempts
  }

  predicate Abandons(row: JobRow, maxAttempts: int, now: Time) {
    Expired(row, now) && row.attempts >= maxAttempts
  }

  /** The jobs a sweep puts back, in arrival order. */
  function RequeuedIds(rows: map<JobId, JobRow>, order: seq<JobId>, maxAttempts: int, now: Time): seq<JobId> {
    if order == [] then []
    else
      var n := |order| - 1;
      RequeuedIds(rows, order[..n], maxAttempts, now)
      + if order[n] in rows && Requeues(rows[order[n]], maxAttempts, now) then [order[n]] else []
  }

  /** The jobs a sweep gives up on, in arrival order. */
  function AbandonedIds(rows: map<JobId, JobRow>, order: seq<JobId>, maxAttempts: int, now: Time): seq<JobId> {
    if order == [] then []
    else
      var n := |order| - 1;
      AbandonedIds(rows, order[..n], maxAttempts, now)
      + if order[n] in rows && Abandons(rows[order[n]], maxAttempts, now) then [order[n]] else []
  }

  lemma {:induction false} ReapedIdsAreExact(rows: map<JobId, JobRow>, order: seq<JobId>, maxAttempts: int,
                                             now: Time, id: JobId)
    ensures id in RequeuedIds(rows, order, maxAttempts, now) <==>
      id in order && id in rows && Requeues(rows[id], maxAttempts, now)
    ensures id in AbandonedIds(rows, order, maxAttempts, now) <==>
      id in order && id in rows && Abandons(rows[id], maxAttempts, now)
  {
    if order == [] {
    } else {
      ReapedIdsAreExact(rows, order[..|order| - 1], maxAttempts, now, id);
    }
  }

  lemma ReapedIdsSnoc(rows: map<JobId, JobRow>, order: seq<JobId>, n: nat, maxAttempts: int, now: Time)
    requires n < |order| && order[n] in rows
    ensures RequeuedIds(rows, order[..n + 1], maxAttempts, now) ==
      RequeuedIds(rows, order[..n], maxAttempts, now)
      + if Requeues(rows[order[n]], maxAttempts, now) then [order[n]] else []
    ensures AbandonedIds(rows, order[..n + 1], maxAttempts, now) ==
      AbandonedIds(rows, order[..n], maxAttempts, now)
      + if Abandons(rows[order[n]], maxAttempts, now) then [order[n]] else []
  {
    assert order[..n + 1][..n] == order[..n];
  }

  function AfterEnqueue(s: Store, id: JobId, row: JobRow): Store {
    Store(s.rows[id := row.(status := Queued)], if id in s.rows then s.order else s.order + [id])
  }

  lemma EnqueueKeepsOrder(s: Store, id: JobId, row: JobRow)
    requires WellFormed(s)
    ensures WellFormed(AfterEnqueue(s, id, row))
  {
    var t := AfterEnqueue(s, id, row);
    if id !in s.rows {
      assert forall k :: 0 <= k < |s.order| ==> s.order[k] in s.order && s.order[k] != id;
      assert forall k :: k in t.order <==> k in s.order || k == id;
    }
  }

  /** A new id goes behind all others, a known one keeps its place; the row is the one given, waiting. */
  lemma EnqueuePlaces(s: Store, id: JobId, row: JobRow)
    ensures var after := AfterEnqueue(s, id, row);
      && after.order == (if id in s.rows then s.order else s.order + [id])
      && after.rows.Keys == s.rows.Keys + {id} && after.rows[id] == row.(status := Queued)
      && forall other | other in s.rows && other != id :: after.rows[other] == s.rows[other]
  {}

  /** `a` stands before `b`. */
  predicate Before(ids: seq<JobId>, a: JobId, b: JobId) {
    exists i, j :: 0 <= i < j < |ids| && ids[i] == a && ids[j] == b
  }

  lemma BeforeSnoc(ids: seq<JobId>, last: JobId, a: JobId, b: JobId)
    ensures Before(ids + [last], a, b) <==> Before(ids, a, b) || (a in ids && b == last)
  {
    var longer := ids + [last];
    assert forall i | 0 <= i < |ids| :: longer[i] == ids[i];
    assert longer[|ids|] == last;
    if Before(longer, a, b) {
      var i, j :| 0 <= i < j < |longer| && longer[i] == a && longer[j] == b;
      if j < |ids| {
        assert ids[i] == a && ids[j] == b;
      }
    }
    if Before(ids, a, b) {
      var i, j :| 0 <= i < j < |ids| && ids[i] == a && ids[j] == b;
      assert longer[i] == a && longer[j] == b;
    }
    if a in ids && b == last {
      var i :| 0 <= i < |ids| && ids[i] == a;
      assert longer[i] == a && longer[|ids|] == b;
    }
  }

  /** Both lists of a sweep name jobs in arrival order. */
  lemma {:induction false} ReapedIdsAreInOrder(rows: map<JobId, JobRow>, order: seq<JobId>, maxAttempts: int, now: Time,
                                               a: JobId, b: JobId)
    ensures Before(RequeuedIds(rows, order, maxAttempts, now), a, b) ==> Before(order, a, b)
    ensures Before(AbandonedIds(rows, order, maxAttempts, now), a, b) ==> Before(order, a, b)
  {
    if order == [] {
    } else {
      var n := |order| - 1;
      var init, last := order[..n], order[n];
      ReapedIdsAreInOrder(rows, init, maxAttempts, now, a, b);
      ReapedIdsAreExact(rows, init, maxAttempts, now, a);
      BeforeSnoc(RequeuedIds(rows, init, maxAttempts, now), last, a, b);
      BeforeSnoc(AbandonedIds(rows, init, maxAttempts, now), last, a, b);
      BeforeSnoc(init, last, a, b);
      assert order == init + [last];
    }
  }

  class InMemoryJobQueue {
    var jobs: map<JobId, Job>
    var order: seq<JobId>

    ghost predicate Valid()
      reads this, jobs.Values
    {
      && (forall id :: id in jobs ==> jobs[id].id == id)
      && WellFormed(View())
    }

    ghost function View(): Store
      reads this, jobs.Values
    {
      Store(map id | id in jobs :: jobs[id].Row(), order)
    }

    twostate lemma OneJobChanged(id: JobId)
      requires old(Valid()) && jobs == old(jobs) && order == old(order) && id in jobs
      requires forall k :: k in jobs && k != id ==> jobs[k].Row() == old(jobs[k].Row())
      ensures Valid() && View() == old(View()).(rows := old(View()).rows[id := jobs[id].Row()])
    {
      assert View().rows == old(View()).rows[id := jobs[id].Row()];
    }

    twostate lemma OneJobAdded(job: Job)
      requires old(Valid()) && jobs == old(jobs)[job.id := job]
      requires order == old(order) + if job.id in old(jobs) then [] else [job.id]
      requires forall k :: k in old(jobs) && k != job.id ==> jobs[k].Row() == old(jobs[k].Row())
      requires job.Row() == old(job.Row()).(status := Queued)
      ensures Valid() && View() == AfterEnqueue(old(View()), job.id, old(job.Row()))
    {
      EnqueueKeepsOrder(old(View()), job.id, old(job.Row()));
      assert View().rows == AfterEnqueue(old(View()), job.id, old(job.Row())).rows;
    }

    constructor ()
      ensures Valid() && View() == Store(map[], [])
    {
      jobs, order := map[], [];
    }

    /** Re-enqueueing a known id keeps its place and replaces the job; the status is overwritten either way. */
    method Enqueue(job: Job)
      requires Valid()
      modifies this, job
      ensures Valid() && jobs == old(jobs)[job.id := job]
      ensures View() == AfterEnqueue(old(View()), job.id, old(job.Row()))
    {
      assert forall k :: k in jobs && k != job.id ==> jobs[k] != job;
      job.status := Queued;
      if job.id !in jobs {
        order := order + [job.id];
      }
      jobs := jobs[job.id := job];
      OneJobAdded(job);
    }

    /** What a claim does to the job it found. */
    static method HandOut(job: Job, worker: WorkerId, leaseSeconds: int, now: Time)
      requires job.status == Queued
      modifies job
      ensures job.Row() == Leased(old(job.Row()), worker, leaseSeconds, now)
    {
      job.attempts := job.attempts + 1;
      var refusal := job.TransitionTo(Claimed, None, None, now);
      job.GrantLease(worker, leaseSeconds, now);
    }

    /** What a sweep does to one job: `put` when it goes back, `dropped` when it is given up. */
    static method SweepJob(job: Job, maxAttempts: int, now: Time) returns (put: bool, dropped: bool)
      modifies job
      ensures job.Row() == SweptRow(old(job.Row()), maxAttempts, now)
      ensures put == Requeues(old(job.Row()), maxAttempts, now)
      ensures dropped == Abandons(old(job.Row()), maxAttempts, now)
    {
      put, dropped := false, false;
      if job.status !in {Claimed, Running} {
        return;
      }
      if job.leaseExpiresAt.None? || job.leaseExpiresAt.value > now {
        return;
      }
      if job.attempts < maxAttempts {
        var refusal := job.TransitionTo(Queued, None, Some(FailureReason.LeaseExpired), now);
        put := true;
      } else {
        var refusal := job.TransitionTo(Cancelled, None, Some(AbandonedAfter(maxAttempts)), now);
        dropped := true;
      }
    }

    method Claim(worker: WorkerId, leaseSeconds: int, now: Time) returns (lease: Option<Grant>)
      requires Valid()
      modifies jobs.Values
      ensures Valid() && View() == AfterClaim(old(View()), worker, leaseSeconds, now)
      ensures lease == match FirstQueued(old(View()).rows, order)
        case None => None
        case Some(id) => Some(Grant(id, worker, now + leaseSeconds, old(View()).rows[id].attempts + 1))
    {
      ghost var was := View();
      for i := 0 to |order|
        invariant View() == was
        invariant forall k :: 0 <= k < i ==> order[k] in was.rows && was.rows[order[k]].status != Queued
      {
        var id := order[i];
        assert id in was.rows;
        var job := jobs[id];
        assert job.Row() == was.rows[id];
        if job.status == Queued {
          FirstQueuedIsFirst(was.rows, order, i);
          HandOut(job, worker, leaseSeconds, now);
          OneJobChanged(id);
          lease := Some(Grant(id, worker, job.leaseExpiresAt.value, job.attempts));
          return;
        }
      }
      NoneQueued(was.rows, order);
      lease := None;
    }

    /** The job, or the refusal when it is missing or held by somebody else. */
    method Owned(id: JobId, worker: WorkerId) returns (found: Result<Job, Refusal>)
      requires Valid()
      ensures found.Ok? <==> id in jobs && jobs[id].claimedBy == Some(worker)
      ensures found.Ok? ==> found.value == jobs[id]
      ensures found.Err? ==> found.error == if id in jobs then LeaseLost(jobs[id].claimedBy) else UnknownJob
    {
      if id !in jobs {
        return Err(UnknownJob);
      }
      var job := jobs[id];
      if job.claimedBy != Some(worker) {
        return Err(LeaseLost(job.claimedBy));
      }
      found := Ok(job);
    }

    /** The transition an owner asks for. */
    static method Transition(job: Job, worker: WorkerId, action: Action, now: Time) returns (refusal: Option<Refusal>)
      requires job.claimedBy == Some(worker) && !action.Heartbeat?
      modifies job
      ensures refusal == RefusalOf(Act(old(job.Row()), worker, action, now))
      ensures job.Row() == if refusal.Some? then old(job.Row()) else Act(old(job.Row()), worker, action, now).value
    {
      var illegal;
      match action {
        case Start => illegal := job.TransitionTo(Running, None, None, now);
        case Complete(outcome) => illegal := job.TransitionTo(Finished, Some(outcome), None, now);
        case Fail(reason) => illegal := job.TransitionTo(Queued, None, Some(Reported(reason)), now);
      }
      refusal := if illegal.Some? then Some(Illegal(illegal.value)) else None;
    }

    method Start(id: JobId, worker: WorkerId, now: Time) returns (refusal: Option<Refusal>)
      requires Valid()
      modifies jobs.Values
      ensures Valid() && View() == AfterAction(old(View()), id, worker, JobHistory.Start, now)
      ensures refusal == RefusalOf(Answer(old(View()), id, worker, JobHistory.Start, now))
    {
      var found := Owned(id, worker);
      if found.Err? {
        return Some(found.error);
      }
      refusal := Transition(found.value, worker, JobHistory.Start, now);
      OneJobChanged(id);
    }

    method Heartbeat(id: JobId, worker: WorkerId, leaseSeconds: int, now: Time) returns (reply: Result<Grant, Refusal>)
      requires Valid()
      modifies jobs.Values
      ensures Valid() && View() == AfterAction(old(View()), id, worker, JobHistory.Heartbeat(leaseSeconds), now)
      ensures reply == match Answer(old(View()), id, worker, JobHistory.Heartbeat(leaseSeconds), now)
        case Ok(row) => Ok(Grant(id, worker, now + leaseSeconds, row.attempts))
        case Err(refusal) => Err(refusal)
    {
      var found := Owned(id, worker);
      if found.Err? {
        return Err(found.error);
      }
      found.value.GrantLease(worker, leaseSeconds, now);
      OneJobChanged(id);
      reply := Ok(Grant(id, worker, found.value.leaseExpiresAt.value, found.value.attempts));
    }

    method Complete(id: JobId, worker: WorkerId, outcome: RunOutcome, now: Time) returns (refusal: Option<Refusal>)
      requires Valid()
      modifies jobs.Values
      ensures Valid() && View() == AfterAction(old(View()), id, worker, JobHistory.Complete(outcome), now)
      ensures refusal == RefusalOf(Answer(old(View()), id, worker, JobHistory.Complete(outcome), now))
    {
      var found := Owned(id, worker);
      if found.Err? {
        return Some(found.error);
      }
      refusal := Transition(found.value, worker, JobHistory.Complete(outcome), now);
      OneJobChanged(id);
    }

    method Fail(id: JobId, worker: WorkerId, reason: string, now: Time) returns (refusal: Option<Refusal>)
      requires Valid()
      modifies jobs.Values
      ensures Valid() && View() == AfterAction(old(View()), id, worker, JobHistory.Fail(reason), now)
      ensures refusal == RefusalOf(Answer(old(View()), id, worker, JobHistory.Fail(reason), now))
    {
      var found := Owned(id, worker);
      if found.Err? {
        return Some(found.error);
      }
      refusal := Transition(found.value, worker, JobHistory.Fail(reason), now);
      OneJobChanged(id);
    }

    method ReapExpired(maxAttempts: int, now: Time) returns (result: ReapResult)
      requires Valid()
      modifies jobs.Values
      ensures Valid() && View() == AfterReap(old(View()), maxAttempts, now)
      ensures result.requeued == RequeuedIds(old(View()).rows, order, maxAttempts, now)
      ensures result.abandoned == AbandonedIds(old(View()).rows, order, maxAttempts, now)
    {
      ghost var was := View();
      result := ReapResult([], []);
      SweptUpToNone(was, maxAttempts, now);
      for i := 0 to |order|
        invariant Valid() && View() == Store(SweptUpTo(was, i, maxAttempts, now), was.order)
        invariant result.requeued == RequeuedIds(was.rows, was.order[..i], maxAttempts, now)
        invariant result.abandoned == AbandonedIds(was.rows, was.order[..i], maxAttempts, now)
      {
        SweptUpToNext(was, i, maxAttempts, now);
        ReapedIdsSnoc(was.rows, was.order, i, maxAttempts, now);
        var put, dropped := SweepStored(order[i], maxAttempts, now);
        result := ReapResult(result.requeued + if put then [order[i]] else [],
                             result.abandoned + if dropped then [order[i]] else []);
      }
      assert was.order[..|order|] == was.order;
      SweptUpToAll(was, maxAttempts, now);
    }

    /** The body of the sweep's loop, for the job stored under `id`. */
    method SweepStored(id: JobId, maxAttempts: int, now: Time) returns (put: bool, dropped: bool)
      requires Valid() && id in View().rows
      modifies jobs.Values
      ensures Valid()
      ensures View() == old(View()).(rows := old(View().rows[id := SweptRow(View().rows[id], maxAttempts, now)]))
      ensures put == old(Requeues(View().rows[id], maxAttempts, now))
      ensures dropped == old(Abandons(View().rows[id], maxAttempts, now))
    {
      var job := jobs[id];
      assert View().rows[id] == job.Row();
      put, dropped := SweepJob(job, maxAttempts, now);
      OneJobChanged(id);
    }
  }

  function RefusalOf(r: Result<JobRow, Refusal>): Option<Refusal> {
    match r
    case Ok(_) => None
    case Err(refusal) => Some(refusal)
  }
}
