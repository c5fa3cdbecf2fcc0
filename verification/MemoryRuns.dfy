/**
 * Whole runs of the dictionary-backed queue, as sequences of calls with one clock reading each.
 *
 * A ledger keeps, beside the store, the accepted changes of every job. The store is always the
 * replay of the ledger, so the theorems of JobHistory hold in every reachable state.
 */
module MemoryRuns {
  import opened Base
  import opened Lifecycle
  import opened Jobs
  import opened JobHistory
  import opened MemoryQueue

  datatype Call =
    | Enqueue(id: JobId, createdAt: Time, sampleSha256: string)
    | Claim(worker: WorkerId, leaseSeconds: int)
    | Ask(id: JobId, worker: WorkerId, action: Action)
    | Reap(maxAttempts: int)

  datatype TimedCall = TimedCall(call: Call, now: Time)

  datatype Reply =
    | Enqueued
    | Handed(lease: Option<Grant>)
    | Acted
    | Renewed(renewal: Grant)
    | Refused(why: Refusal)
    | Reaped(requeued: set<JobId>, abandoned: set<JobId>)

  function Apply(s: Store, c: Call, now: Time): Store {
    match c
    case Enqueue(id, createdAt, sample) => AfterEnqueue(s, id, NewJob(createdAt, sample))
    case Claim(worker, secs) => AfterClaim(s, worker, secs, now)
    case Ask(id, worker, action) => AfterAction(s, id, worker, action, now)
    case Reap(max) => AfterReap(s, max, now)
  }

  function AnswerReply(id: JobId, worker: WorkerId, action: Action, r: Result<JobRow, Refusal>, now: Time): Reply {
    match r
    case Err(why) => Refused(why)
    case Ok(row) =>
      if action.Heartbeat? then Renewed(Grant(id, worker, now + action.leaseSeconds, row.attempts)) else Acted
  }

  /** What the caller of each method is told; the contracts of InMemoryJobQueue give the same answers. */
  function ReplyTo(s: Store, c: Call, now: Time): Reply {
    match c
    case Enqueue(_, _, _) => Enqueued
    case Claim(worker, secs) =>
      (match FirstQueued(s.rows, s.order)
       case None => Handed(None)
       case Some(id) => Handed(Some(Grant(id, worker, now + secs, s.rows[id].attempts + 1))))
    case Ask(id, worker, action) => AnswerReply(id, worker, action, Answer(s, id, worker, action, now), now)
    case Reap(max) =>
      Reaped(set id | id in RequeuedIds(s.rows, s.order, max, now),
             set id | id in AbandonedIds(s.rows, s.order, max, now))
  }

  /** A call that turns the caller away changes no field of any job. */
  lemma RefusedCallsChangeNothing(s: Store, c: Call, now: Time)
    ensures ReplyTo(s, c, now).Refused? || ReplyTo(s, c, now) == Handed(None) ==> Apply(s, c, now) == s
  {}

  /** The intake enqueues every job once, under an id nobody used before. */
  predicate Fresh(s: Store, c: Call) {
    c.Enqueue? ==> c.id !in s.rows
  }

  /** The jobs whose rows a call changes. */
  function Touched(s: Store, c: Call, now: Time): set<JobId> {
    match c
    case Enqueue(_, _, _) => {}
    case Claim(_, _) =>
      (match FirstQueued(s.rows, s.order)
       case None => {}
       case Some(id) => {id})
    case Ask(id, worker, action) => if Answer(s, id, worker, action, now).Ok? then {id} else {}
    case Reap(_) => set id | id in s.rows && Expired(s.rows[id], now)
  }

  function EventOf(c: Call, now: Time): Event
    requires !c.Enqueue?
  {
    match c
    case Claim(worker, secs) => Lease(worker, secs, now)
    case Ask(_, worker, action) => Did(worker, action, now)
    case Reap(max) => Sweep(max, now)
  }

  /** Every call changes a row, if at all, by one accepted event. */
  lemma ChangesAreEvents(s: Store, c: Call, now: Time, id: JobId)
    requires WellFormed(s) && id in s.rows && Fresh(s, c)
    ensures id in Apply(s, c, now).rows
    ensures id !in Touched(s, c, now) ==> Apply(s, c, now).rows[id] == s.rows[id]
    ensures id in Touched(s, c, now) ==> !c.Enqueue?
    ensures id in Touched(s, c, now) ==> Step(s.rows[id], EventOf(c, now)) == Some(Apply(s, c, now).rows[id])
  {
    if c.Claim? && FirstQueued(s.rows, s.order).Some? {
      var p := FirstQueuedPosition(s.rows, s.order);
    }
  }

  datatype Ledger = Ledger(store: Store, log: map<JobId, History>)

  function Record(l: Ledger, c: Call, now: Time): Ledger {
    var log :=
      if c.Enqueue? then l.log[c.id := []]
      else map id | id in l.log :: l.log[id] + if id in Touched(l.store, c, now) then [EventOf(c, now)] else [];
    Ledger(Apply(l.store, c, now), log)
  }

  function Run(calls: seq<TimedCall>): Ledger {
    if calls == [] then Ledger(Store(map[], []), map[])
    else Record(Run(calls[..|calls| - 1]), calls[|calls| - 1].call, calls[|calls| - 1].now)
  }

  predicate Legal(calls: seq<TimedCall>) {
    calls == [] || (Legal(calls[..|calls| - 1]) && Fresh(Run(calls[..|calls| - 1]).store, calls[|calls| - 1].call))
  }

  lemma {:induction false} LegalAt(calls: seq<TimedCall>, n: nat)
    requires Legal(calls) && n < |calls|
    ensures Legal(calls[..n]) && Fresh(Run(calls[..n]).store, calls[n].call)
  {
    var init := calls[..|calls| - 1];
    if n < |init| {
      LegalAt(init, n);
      assert init[..n] == calls[..n];
    }
  }

  predicate Enqueues(c: Call, id: JobId) {
    c.Enqueue? && c.id == id
  }

  lemma {:induction false} StoredWereEnqueued(calls: seq<TimedCall>, id: JobId)
    ensures id in Run(calls).store.rows <==> exists i :: 0 <= i < |calls| && Enqueues(calls[i].call, id)
  {
    if calls == [] {
    } else {
      var n := |calls| - 1;
      var init := calls[..n];
      StoredWereEnqueued(init, id);
      assert id in Run(calls).store.rows <==> id in Run(init).store.rows || Enqueues(calls[n].call, id);
      assert forall i | 0 <= i < n :: init[i] == calls[i];
    }
  }

  /** The runs considered are exactly those that enqueue no id twice, with nothing else excluded. */
  lemma {:induction false} LegalExactlyWhen(calls: seq<TimedCall>)
    ensures Legal(calls) <==>
      forall i, j | 0 <= i < j < |calls| && calls[i].call.Enqueue? :: !Enqueues(calls[j].call, calls[i].call.id)
  {
    if calls == [] {
    } else {
      var n := |calls| - 1;
      var init, last := calls[..n], calls[n].call;
      LegalExactlyWhen(init);
      assert forall i | 0 <= i < n :: init[i] == calls[i];
      if last.Enqueue? {
        StoredWereEnqueued(init, last.id);
        if i :| 0 <= i < n && Enqueues(init[i].call, last.id) {
          assert calls[i].call.Enqueue? && Enqueues(calls[n].call, calls[i].call.id);
        }
        if forall i | 0 <= i < n && calls[i].call.Enqueue? :: !Enqueues(calls[n].call, calls[i].call.id) {
          assert forall i | 0 <= i < n :: Enqueues(init[i].call, last.id) ==> calls[i].call.Enqueue?;
        }
      }
    }
  }

  ghost predicate Faithful(l: Ledger) {
    && WellFormed(l.store)
    && l.log.Keys == l.store.rows.Keys
    && forall id :: id in l.log ==> Reached(l.log[id], l.store.rows[id])
  }

  lemma OnlyEnqueueAddsJobs(s: Store, c: Call, now: Time)
    requires WellFormed(s)
    ensures !c.Enqueue? ==> Apply(s, c, now).order == s.order && Apply(s, c, now).rows.Keys == s.rows.Keys
    ensures WellFormed(Apply(s, c, now))
  {
    if c.Enqueue? {
      EnqueueKeepsOrder(s, c.id, NewJob(c.createdAt, c.sampleSha256));
    } else {
      assert Apply(s, c, now).rows.Keys == s.rows.Keys;
      assert forall id :: id in s.rows <==> id in Apply(s, c, now).rows;
    }
  }

  lemma RecordedHistoryIsReached(l: Ledger, c: Call, now: Time, id: JobId)
    requires Faithful(l) && Fresh(l.store, c) && id in l.log
    ensures id in Record(l, c, now).log && id in Record(l, c, now).store.rows
    ensures Reached(Record(l, c, now).log[id], Record(l, c, now).store.rows[id])
  {
    ChangesAreEvents(l.store, c, now, id);
    if id in Touched(l.store, c, now) {
      ReachedSnoc(l.log[id], l.store.rows[id], EventOf(c, now));
    } else {
      assert Record(l, c, now).log[id] == l.log[id];
    }
  }

  lemma RecordKeepsFaith(l: Ledger, c: Call, now: Time)
    requires Faithful(l) && Fresh(l.store, c)
    ensures Faithful(Record(l, c, now))
  {
    var l' := Record(l, c, now);
    OnlyEnqueueAddsJobs(l.store, c, now);
    assert l'.log.Keys == l'.store.rows.Keys;
    forall id | id in l'.log
      ensures Reached(l'.log[id], l'.store.rows[id])
    {
      if id in l.log {
        RecordedHistoryIsReached(l, c, now, id);
      } else {
        ReachedNew(c.createdAt, c.sampleSha256);
      }
    }
  }

  /** In every reachable state each row is what its job's accepted changes make of a new job. */
  lemma {:induction false} RunsAreFaithful(calls: seq<TimedCall>)
    requires Legal(calls)
    ensures Faithful(Run(calls))
  {
    if calls == [] {
    } else {
      var n := |calls| - 1;
      RunsAreFaithful(calls[..n]);
      RecordKeepsFaith(Run(calls[..n]), calls[n].call, calls[n].now);
    }
  }

  /** Row by row coherence in every reachable state. */
  lemma ReachableRowsAreCoherent(calls: seq<TimedCall>, id: JobId)
    requires Legal(calls) && id in Run(calls).store.rows
    ensures Coherent(Run(calls).store.rows[id])
  {
    RunsAreFaithful(calls);
    HistoriesAreCoherent(Run(calls).log[id], Run(calls).store.rows[id]);
  }

  /** Enqueueing an arbitrary row keeps coherence exactly when nothing but the status is filled in. */
  lemma EnqueueNeedsABlankRow(s: Store, id: JobId, row: JobRow)
    ensures Coherent(AfterEnqueue(s, id, row).rows[id]) <==>
      row.claimedBy.None? && row.claimedAt.None? && row.leaseExpiresAt.None? && row.runOutcome.None?
      && row.startedAt.None? && row.finishedAt.None?
  {}

  /** `complete` succeeds in a run exactly when the job's log entitles the worker to it. */
  lemma RunsAreFenced(calls: seq<TimedCall>, id: JobId, worker: WorkerId, outcome: RunOutcome, now: Time)
    requires Legal(calls)
    ensures ReplyTo(Run(calls).store, Ask(id, worker, Complete(outcome)), now) == Acted <==>
      id in Run(calls).log && exists c: nat, k: nat ::
        && HoldsSince(Run(calls).log[id], worker, c)
        && c < k < |Run(calls).log[id]| && IsStart(Run(calls).log[id][k], worker)
  {
    RunsAreFaithful(calls);
    if id in Run(calls).log {
      CompletionIsFenced(Run(calls).log[id], Run(calls).store.rows[id], worker, outcome, now);
    }
  }

  // ------------------------------------------------------------------------------------------
  // Waiting.

  predicate ReapsWith(calls: seq<TimedCall>, maxAttempts: int) {
    forall i :: 0 <= i < |calls| && calls[i].call.Reap? ==> calls[i].call.maxAttempts == maxAttempts
  }

  /** The number of leases handed out in a run. */
  function Grants(calls: seq<TimedCall>): nat {
    if calls == [] then 0
    else
      var n := |calls| - 1;
      var reply := ReplyTo(Run(calls[..n]).store, calls[n].call, calls[n].now);
      Grants(calls[..n]) + if reply.Handed? && reply.lease.Some? then 1 else 0
  }

  function SumAttempts(rows: map<JobId, JobRow>, ids: seq<JobId>): nat {
    if ids == [] then 0
    else
      var last := ids[|ids| - 1];
      SumAttempts(rows, ids[..|ids| - 1]) + if last in rows then rows[last].attempts else 0
  }

  function SumFails(log: map<JobId, History>, ids: seq<JobId>): nat {
    if ids == [] then 0
    else
      var last := ids[|ids| - 1];
      SumFails(log, ids[..|ids| - 1]) + if last in log then Fails(log[last]) else 0
  }

  lemma {:induction false} SumAttemptsSame(rows: map<JobId, JobRow>, rows': map<JobId, JobRow>, ids: seq<JobId>)
    requires forall id :: id in ids ==> id in rows && id in rows' && rows[id].attempts == rows'[id].attempts
    ensures SumAttempts(rows, ids) == SumAttempts(rows', ids)
  {
    if ids == [] {
    } else {
      SumAttemptsSame(rows, rows', ids[..|ids| - 1]);
    }
  }

  lemma {:induction false} SumAttemptsBump(rows: map<JobId, JobRow>, rows': map<JobId, JobRow>, ids: seq<JobId>, p: nat)
    requires p < |ids| && forall i, j :: 0 <= i < j < |ids| ==> ids[i] != ids[j]
    requires forall id :: id in ids ==> id in rows && id in rows'
    requires forall id :: id in ids && id != ids[p] ==> rows[id].attempts == rows'[id].attempts
    requires rows'[ids[p]].attempts == rows[ids[p]].attempts + 1
    ensures SumAttempts(rows', ids) == SumAttempts(rows, ids) + 1
  {
    var n := |ids| - 1;
    if p == n {
      SumAttemptsSame(rows, rows', ids[..n]);
    } else {
      SumAttemptsBump(rows, rows', ids[..n], p);
      assert ids[n] != ids[p];
    }
  }

  lemma OnlyClaimsCount(s: Store, c: Call, now: Time)
    requires WellFormed(s) && Fresh(s, c)
    ensures var reply := ReplyTo(s, c, now);
      SumAttempts(Apply(s, c, now).rows, Apply(s, c, now).order) ==
      SumAttempts(s.rows, s.order) + if reply.Handed? && reply.lease.Some? then 1 else 0
  {
    var s' := Apply(s, c, now);
    if c.Enqueue? {
      assert s'.order[..|s.order|] == s.order;
      SumAttemptsSame(s.rows, s'.rows, s.order);
    } else if c.Claim? && FirstQueued(s.rows, s.order).Some? {
      var p := FirstQueuedPosition(s.rows, s.order);
      SumAttemptsBump(s.rows, s'.rows, s.order, p);
    } else {
      SumAttemptsSame(s.rows, s'.rows, s.order);
    }
  }

  /** Conservation: the attempts recorded on the jobs are the leases handed out. */
  lemma {:induction false} AttemptsAreGrants(calls: seq<TimedCall>)
    requires Legal(calls)
    ensures SumAttempts(Run(calls).store.rows, Run(calls).store.order) == Grants(calls)
  {
    if calls == [] {
    } else {
      var n := |calls| - 1;
      AttemptsAreGrants(calls[..n]);
      RunsAreFaithful(calls[..n]);
      OnlyClaimsCount(Run(calls[..n]).store, calls[n].call, calls[n].now);
    }
  }

  lemma {:induction false} NeverLeasedIsQueued(h: History, row: JobRow)
    requires Reached(h, row) && row.attempts == 0
    ensures row.status == Queued
  {
    if h == [] {
    } else {
      var before := ReachedPrefix(h, row);
      NeverLeasedIsQueued(h[..|h| - 1], before);
      HistoriesAreCoherent(h[..|h| - 1], before);
    }
  }

  /** First leases are issued in the order of arrival. */
  ghost predicate ServedInOrder(s: Store) {
    forall i, j | 0 <= i < j < |s.order| && s.order[i] in s.rows && s.order[j] in s.rows ::
      s.rows[s.order[i]].attempts == 0 ==> s.rows[s.order[j]].attempts == 0
  }

  lemma AttemptsChangeByClaims(s: Store, c: Call, now: Time, id: JobId)
    requires WellFormed(s) && Fresh(s, c) && id in s.rows
    ensures id in Apply(s, c, now).rows
    ensures Apply(s, c, now).rows[id].attempts ==
      s.rows[id].attempts + if c.Claim? && FirstQueued(s.rows, s.order) == Some(id) then 1 else 0
  {}

  lemma ClaimSkipsNobody(s: Store, i: nat, j: nat)
    requires WellFormed(s) && i < j < |s.order|
    requires s.order[i] in s.rows && s.rows[s.order[i]].status == Queued
    ensures FirstQueued(s.rows, s.order) != Some(s.order[j])
  {
    if FirstQueued(s.rows, s.order) == Some(s.order[j]) {
      var p := FirstQueuedPosition(s.rows, s.order);
    }
  }

  lemma RecordServesInOrder(l: Ledger, c: Call, now: Time)
    requires Faithful(l) && Fresh(l.store, c) && ServedInOrder(l.store)
    ensures ServedInOrder(Apply(l.store, c, now))
  {
    var s, s' := l.store, Apply(l.store, c, now);
    OnlyEnqueueAddsJobs(s, c, now);
    forall i, j | 0 <= i < j < |s'.order| && s'.rows[s'.order[i]].attempts == 0
      ensures s'.rows[s'.order[j]].attempts == 0
    {
      assert s.order <= s'.order;
      var a := s.order[i];
      assert a in s.order && a in s.rows;
      AttemptsChangeByClaims(s, c, now, a);
      NeverLeasedIsQueued(l.log[a], s.rows[a]);
      if j < |s.order| {
        var b := s.order[j];
        assert b in s.order && b in s.rows;
        AttemptsChangeByClaims(s, c, now, b);
        ClaimSkipsNobody(s, i, j);
      }
    }
  }

  lemma {:induction false} RunsServeInOrder(calls: seq<TimedCall>)
    requires Legal(calls)
    ensures ServedInOrder(Run(calls).store)
  {
    if calls == [] {
    } else {
      var n := |calls| - 1;
      RunsServeInOrder(calls[..n]);
      RunsAreFaithful(calls[..n]);
      RecordServesInOrder(Run(calls[..n]), calls[n].call, calls[n].now);
    }
  }

  lemma {:induction false} LogsAreSweptAlike(calls: seq<TimedCall>, maxAttempts: int, id: JobId)
    requires Legal(calls) && ReapsWith(calls, maxAttempts) && id in Run(calls).log
    ensures SweptWith(Run(calls).log[id], maxAttempts)
  {
    if calls == [] {
    } else {
      var n := |calls| - 1;
      if id in Run(calls[..n]).log {
        LogsAreSweptAlike(calls[..n], maxAttempts, id);
      }
    }
  }

  lemma OneTimeMore(n: nat, m: int)
    ensures (n + 1) * m == n * m + m
  {}

  lemma {:induction false} SumIsBounded(rows: map<JobId, JobRow>, log: map<JobId, History>, ids: seq<JobId>,
                                        maxAttempts: int)
    requires maxAttempts >= 1
    requires forall id :: id in ids ==> id in rows && id in log && rows[id].attempts <= maxAttempts + Fails(log[id])
    ensures SumAttempts(rows, ids) <= |ids| * maxAttempts + SumFails(log, ids)
  {
    if ids == [] {
    } else {
      var n := |ids| - 1;
      SumIsBounded(rows, log, ids[..n], maxAttempts);
      assert ids[n] in ids;
      OneTimeMore(n, maxAttempts);
    }
  }

  lemma {:induction false} SumOfPrefix(rows: map<JobId, JobRow>, ids: seq<JobId>, p: nat)
    requires p <= |ids| && forall i :: p <= i < |ids| ==> ids[i] in rows && rows[ids[i]].attempts == 0
    ensures SumAttempts(rows, ids) == SumAttempts(rows, ids[..p])
  {
    if p == |ids| {
      assert ids[..p] == ids;
    } else {
      SumOfPrefix(rows, ids[..|ids| - 1], p);
      assert ids[..|ids| - 1][..p] == ids[..p];
    }
  }

  lemma EarlierJobsTakeAll(s: Store, p: nat)
    requires WellFormed(s) && ServedInOrder(s) && p < |s.order| && s.order[p] in s.rows
    requires s.rows[s.order[p]].attempts == 0
    ensures SumAttempts(s.rows, s.order) == SumAttempts(s.rows, s.order[..p])
  {
    forall i | p <= i < |s.order|
      ensures s.order[i] in s.rows && s.rows[s.order[i]].attempts == 0
    {
      assert s.order[i] in s.order;
    }
    SumOfPrefix(s.rows, s.order, p);
  }

  lemma EarlierJobsAreBounded(l: Ledger, maxAttempts: int, p: nat)
    requires Faithful(l) && maxAttempts >= 1 && p <= |l.store.order|
    requires forall id :: id in l.log ==> SweptWith(l.log[id], maxAttempts)
    ensures SumAttempts(l.store.rows, l.store.order[..p]) <= p * maxAttempts + SumFails(l.log, l.store.order[..p])
  {
    var s := l.store;
    forall id | id in s.order[..p]
      ensures id in s.rows && id in l.log && s.rows[id].attempts <= maxAttempts + Fails(l.log[id])
    {
      assert id in s.order;
      AttemptsAreBounded(l.log[id], s.rows[id], maxAttempts);
    }
    SumIsBounded(s.rows, l.log, s.order[..p], maxAttempts);
  }

  /**
   * Bounded waiting: while the job at position `p` has had no lease, at most `p` times the attempt
   * limit leases have been handed out, plus one for each time a worker gave an earlier job back.
   */
  lemma WaitingIsBounded(calls: seq<TimedCall>, maxAttempts: int, p: nat)
    requires Legal(calls) && maxAttempts >= 1 && ReapsWith(calls, maxAttempts)
    requires p < |Run(calls).store.order|
    ensures Run(calls).store.order[p] in Run(calls).store.rows
    ensures Run(calls).store.rows[Run(calls).store.order[p]].attempts == 0 ==>
      Grants(calls) <= p * maxAttempts + SumFails(Run(calls).log, Run(calls).store.order[..p])
  {
    var l := Run(calls);
    RunsAreFaithful(calls);
    assert l.store.order[p] in l.store.rows by {
      assert l.store.order[p] in l.store.order;
    }
    if l.store.rows[l.store.order[p]].attempts == 0 {
      RunsServeInOrder(calls);
      AttemptsAreGrants(calls);
      EarlierJobsTakeAll(l.store, p);
      forall id | id in l.log {
        LogsAreSweptAlike(calls, maxAttempts, id);
      }
      EarlierJobsAreBounded(l, maxAttempts, p);
    }
  }
}
