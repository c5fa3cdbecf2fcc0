/**
 * What the sessions of app/queue/database.py tell their callers, and what they get done, in any
 * interleaving: that answers are true when they are given, and that nothing but a lock holds a call up.
 */
module SqlAnswers {
  import opened Base
  import opened Lifecycle
  import opened Jobs
  import opened JobHistory
  import opened JobColumns
  import opened MemoryQueue
  import opened SqlQueue
  import opened SqlSessions
  import opened SqlWaiting

  // ------------------------------------------------------------------------------------------
  // Beginning, going on and ending.

  /** A commit, a rollback and an empty answer leave their session without locks, and the others as they were. */
  lemma EndsLeaveNoLocks(db: Db, m: Move, id: JobId, other: SessionId)
    requires Enabled(db, m) && (m.Commit? || m.Abort? || m.Miss? || m.FindNothing?) && other != m.s
    ensures var after := Fire(db, m);
      && PhaseOf(after, m.s) == Idle && PhaseOf(after, other) == PhaseOf(db, other)
      && (id in after.locks <==> id in db.locks && db.locks[id] != m.s)
      && (id in after.locks ==> after.locks[id] == db.locks[id])
  {}

  lemma {:induction false} ScanOrderOf(t: Table, ids: set<JobId>) returns (todo: seq<JobId>)
    requires ids <= t.Keys
    ensures forall id :: id in todo <==> id in ids
    ensures forall i, j | 0 <= i < j < |todo| :: t[todo[i]].createdAt <= t[todo[j]].createdAt
    decreases |ids|
  {
    if ids == {} {
      todo := [];
    } else {
      var oldest := OldestExists(t, ids);
      var rest := ScanOrderOf(t, ids - {oldest});
      todo := [oldest] + rest;
      forall i, j | 0 <= i < j < |todo|
        ensures t[todo[i]].createdAt <= t[todo[j]].createdAt
      {
        assert rest[j - 1] in rest;
      }
    }
  }

  /** A session that is not in a call can begin any call, and every call can be broken off. */
  lemma AnyCallMayBegin(db: Db, s: SessionId, id: JobId, worker: WorkerId, seconds: int, action: Action,
                        maxAttempts: int, now: Time) returns (todo: seq<JobId>)
    requires PhaseOf(db, s) == Idle
    ensures Enabled(db, BeginClaim(s, worker, seconds, now, todo))
    ensures Enabled(db, BeginAsk(s, id, worker, action)) && Enabled(db, BeginSweep(s, maxAttempts, now))
    ensures forall s', now' :: Enabled(db, Abort(s')) && Enabled(db, BeginSweep(s, maxAttempts, now'))
  {
    var waiting := set id | id in db.rows && db.rows[id].status == Queued;
    todo := ScanOrderOf(db.rows, waiting);
    assert forall id :: id in waiting <==> IsQueued(db.rows, id);
  }

  /** Held up: the row asked for, or every row still to be swept, is locked by another session. */
  predicate HeldUp(db: Db, s: SessionId) {
    match PhaseOf(db, s)
    case Asking(id, _, _, visible) => visible && id in db.locks && db.locks[id] != s
    case Sweeping(_, _, _, rest, _) => rest != {} && forall id | id in rest :: id in db.locks && db.locks[id] != s
    case _ => false
  }

  /** Only locks hold a call up: without one in its way every session in a call has a next step of its own. */
  lemma OnlyLocksHoldCallsUp(db: Db, s: SessionId, now: Time) returns (m: Move)
    requires Inv(db) && PhaseOf(db, s) != Idle && !HeldUp(db, s)
    ensures Enabled(db, m) && !m.Insert? && !m.Abort? && m.s == s
  {
    var p := PhaseOf(db, s);
    assert PhaseSound(db.rows, db.locks, s, p);
    match p {
      case Scanning(_, _, _, todo) =>
        if todo != [] {
          assert todo[0] in todo;
        }
        m := if todo == [] then FindNothing(s) else Probe(s);
      case Asking(_, _, _, visible) => m := if visible then TakeLock(s) else Miss(s);
      case Deciding(_, _, _) => m := Decide(s, now);
      case Sweeping(_, _, abandoning, rest, _) =>
        if rest == {} {
          m := if abandoning then EndSweep(s) else NextStatement(s);
        } else {
          var id :| id in rest && !(id in db.locks && db.locks[id] != s);
          m := SweepOne(s, id);
        }
      case Ready(_, _, _) => m := Commit(s);
    }
  }

  // ------------------------------------------------------------------------------------------
  // Start, heartbeat, complete and fail.

  /** The trace opens with a call of session `s` on one job, which goes on at every state up to `b`. */
  ghost predicate AskUpTo(dbs: seq<Db>, moves: seq<Move>, s: SessionId, b: nat) {
    && IsTrace(dbs, moves) && 1 <= b <= |moves|
    && moves[0].BeginAsk? && moves[0].s == s
    && forall t :: 1 <= t <= b ==> PhaseOf(dbs[t], s).Asking? || PhaseOf(dbs[t], s).Deciding?
  }

  lemma OthersKeepPhases(db: Db, m: Move, s: SessionId)
    requires Enabled(db, m) && (m.Insert? || m.s != s)
    ensures PhaseOf(Fire(db, m), s) == PhaseOf(db, s)
  {}

  lemma AskingMoves(db: Db, m: Move, s: SessionId)
    requires Enabled(db, m) && !m.Insert? && m.s == s
    requires PhaseOf(db, s).Asking? || PhaseOf(db, s).Deciding?
    requires PhaseOf(Fire(db, m), s).Asking? || PhaseOf(Fire(db, m), s).Deciding?
    ensures PhaseOf(db, s).Asking? && PhaseOf(db, s).visible
    ensures PhaseOf(Fire(db, m), s) == Deciding(PhaseOf(db, s).id, PhaseOf(db, s).holder, PhaseOf(db, s).action)
  {}

  lemma {:induction false} AsksGoOn(dbs: seq<Db>, moves: seq<Move>, s: SessionId, b: nat)
    requires AskUpTo(dbs, moves, s, b)
    ensures var a, p := moves[0], PhaseOf(dbs[b], s);
      || p == Asking(a.id, a.worker, a.action, a.id in dbs[0].rows)
      || (p == Deciding(a.id, a.worker, a.action) && a.id in dbs[0].rows)
  {
    if b == 1 {
      assert dbs[1] == Fire(dbs[0], moves[0]);
    } else {
      AsksGoOn(dbs, moves, s, b - 1);
      var db, m := dbs[b - 1], moves[b - 1];
      assert dbs[b] == Fire(db, m);
      if m.Insert? || m.s != s {
        OthersKeepPhases(db, m, s);
      } else {
        AskingMoves(db, m, s);
      }
    }
  }

  /**
   * How such a call ends, whatever others do meanwhile. It answers that the job is unknown only if the job was when
   * the call began; otherwise it acts on, or is refused by, the row that is committed at that moment, and holds its
   * lock.
   */
  lemma AsksAnswerTruly(dbs: seq<Db>, moves: seq<Move>, s: SessionId, b: nat)
    requires AskUpTo(dbs, moves, s, b) && Inv(dbs[0]) && b < |moves| && !moves[b].Insert? && moves[b].s == s
    requires !PhaseOf(dbs[b + 1], s).Asking? && !PhaseOf(dbs[b + 1], s).Deciding?
    ensures var a, m, p := moves[0], moves[b], PhaseOf(dbs[b + 1], s);
      || (m == Abort(s) && p == Idle)
      || (m == Miss(s) && p == Idle && a.id !in dbs[0].rows)
      || (&& m.Decide? && a.id in dbs[b].rows && a.id in dbs[b].locks && dbs[b].locks[a.id] == s
          && var r := Act(dbs[b].rows[a.id], a.worker, a.action, m.now);
             p == if r.Ok? then Ready(Did(a.worker, a.action, m.now), map[a.id := r.value], None) else Idle)
  {
    AsksGoOn(dbs, moves, s, b);
    TracesStaySound(dbs, moves, b);
    assert dbs[b + 1] == Fire(dbs[b], moves[b]);
    assert PhaseSound(dbs[b].rows, dbs[b].locks, s, PhaseOf(dbs[b], s));
  }

  lemma FreeLocksAreTaken(db: Db, s: SessionId, id: JobId, worker: WorkerId, action: Action) returns (d1: Db, d2: Db)
    requires PhaseOf(db, s) == Idle && id in db.rows && !(id in db.locks && db.locks[id] != s)
    ensures Enabled(db, BeginAsk(s, id, worker, action)) && d1 == Fire(db, BeginAsk(s, id, worker, action))
    ensures Enabled(d1, TakeLock(s)) && d2 == Fire(d1, TakeLock(s))
    ensures PhaseOf(d2, s) == Deciding(id, worker, action) && d2.rows == db.rows && id in d2.locks && d2.locks[id] == s
  {
    d1 := Fire(db, BeginAsk(s, id, worker, action));
    d2 := Fire(d1, TakeLock(s));
  }

  lemma DecisionsAreDone(db: Db, s: SessionId, now: Time)
    requires PhaseOf(db, s).Deciding? && PhaseOf(db, s).id in db.rows
    requires PhaseOf(db, s).id in db.locks && db.locks[PhaseOf(db, s).id] == s
    ensures Enabled(db, Decide(s, now))
    ensures var p, after := PhaseOf(db, s), Fire(db, Decide(s, now));
      var r := Act(db.rows[p.id], p.holder, p.action, now);
      && after.rows == db.rows
      && (r.Ok? ==>
            PhaseOf(after, s) == Ready(Did(p.holder, p.action, now), map[p.id := r.value], None))
      && (r.Err? ==>
            PhaseOf(after, s) == Idle && (p.id in after.locks && after.locks[p.id] == s <==> r.error.Illegal?))
  {}

  lemma OneWriteIsPublished(db: Db, s: SessionId, e: Event, id: JobId, row: JobRow)
    requires PhaseOf(db, s) == Ready(e, map[id := row], None)
    ensures Enabled(db, Commit(s))
    ensures var after := Fire(db, Commit(s));
      && after.rows == db.rows[id := row] && PhaseOf(after, s) == Idle
      && forall k | k in after.locks :: after.locks[k] != s
  {
    assert db.rows + map[id := row] == db.rows[id := row];
  }

  lemma OneMoreMove(dbs: seq<Db>, moves: seq<Move>, m: Move, next: Db)
    requires IsTrace(dbs, moves) && Enabled(dbs[|moves|], m) && next == Fire(dbs[|moves|], m)
    ensures IsTrace(dbs + [next], moves + [m])
  {}

  /**
   * And left alone on an unlocked row it does what the sequential call does, and keeps no lock unless
   * it was illegal.
   */
  lemma UncontestedAsksAreDone(db: Db, s: SessionId, id: JobId, worker: WorkerId, action: Action, now: Time)
    returns (dbs: seq<Db>, moves: seq<Move>)
    requires PhaseOf(db, s) == Idle && id in db.rows && !(id in db.locks && db.locks[id] != s)
    ensures IsTrace(dbs, moves) && dbs[0] == db
    ensures var r, after := Act(db.rows[id], worker, action, now), dbs[|moves|];
      && PhaseOf(after, s) == Idle
      && after.rows == (if r.Ok? then db.rows[id := r.value] else db.rows)
      && (id in after.locks && after.locks[id] == s <==> r.Err? && r.error.Illegal?)
  {
    var m0, m1, m2, m3 := BeginAsk(s, id, worker, action), TakeLock(s), Decide(s, now), Commit(s);
    var d1, d2 := FreeLocksAreTaken(db, s, id, worker, action);
    DecisionsAreDone(d2, s, now);
    var d3 := Fire(d2, m2);
    var r := Act(db.rows[id], worker, action, now);
    OneMoreMove([db], [], m0, d1);
    OneMoreMove([db, d1], [m0], m1, d2);
    OneMoreMove([db, d1, d2], [m0, m1], m2, d3);
    dbs, moves := [db, d1, d2, d3], [m0, m1, m2];
    if r.Ok? {
      OneWriteIsPublished(d3, s, Did(worker, action, now), id, r.value);
      OneMoreMove(dbs, moves, m3, Fire(d3, m3));
      dbs, moves := dbs + [Fire(d3, m3)], moves + [m3];
    }
  }

  // ------------------------------------------------------------------------------------------
  // Claims that find nothing.

  /**
   * In any interleaving: when a claim answers that nothing waits, a job that does wait at that moment is locked by
   * another session, unless during the scan it was inserted or let go of by another session and not locked by one
   * since; and only then not.
   */
  lemma NothingFoundExactlyWhen(dbs: seq<Db>, moves: seq<Move>, s: SessionId, b: nat, id: JobId)
    requires ScanUpTo(dbs, moves, s, b) && Inv(dbs[0]) && b < |moves| && moves[b] == FindNothing(s)
    requires IsQueued(dbs[b].rows, id)
    ensures LockedByOther(dbs[b], s, id) <==> !exists t: nat :: FreedAt(dbs, moves, s, id, t, b)
  {
    if t: nat :| FreedAt(dbs, moves, s, id, t, b) {
      FreedStaysFree(dbs, moves, s, id, t, b);
    } else if !LockedByOther(dbs[b], s, id) {
      FreeAllAlong(dbs, moves, s, id, b, 1);
      assert dbs[1] == Fire(dbs[0], moves[0]);
      var todo := moves[0].todo;
      assert id in todo;
      var n := ScansExplainThemselves(dbs, moves, s, b);
      var k :| 0 <= k < |todo| && todo[k] == id;
      assert PhaseOf(dbs[b], s).todo == [];
      var t: nat :| 1 <= t < b && PassedAt(dbs, moves, s, id, t);
      FreeAllAlong(dbs, moves, s, id, b, t);
    }
  }

  // ------------------------------------------------------------------------------------------
  // Sweeps among others.

  /** The trace opens with a sweep of session `s`, which goes on at every state up to `b`. */
  ghost predicate SweepUpTo(dbs: seq<Db>, moves: seq<Move>, s: SessionId, b: nat) {
    && IsTrace(dbs, moves) && 1 <= b <= |moves|
    && moves[0].BeginSweep? && moves[0].s == s
    && forall t :: 1 <= t <= b ==> PhaseOf(dbs[t], s).Sweeping?
  }

  /** How far the sweep has got with a row that nobody else changes. */
  predicate GotTo(p: Phase, id: JobId, row: JobRow, maxAttempts: int, now: Time)
    requires p.Sweeping?
  {
    var requeue, abandon := MustRequeue(row, maxAttempts, now), MustAbandon(row, maxAttempts, now);
    && p.maxAttempts == maxAttempts && p.now == now
    && (id in p.swept ==> p.swept[id] == if requeue then RequeueValues(row) else AbandonValues(row, maxAttempts, now))
    && (id in p.rest || id in p.swept ==> (requeue || (abandon && p.abandoning)))
    && (requeue ==> id in p.swept || (!p.abandoning && id in p.rest))
    && (abandon && p.abandoning ==> id in p.swept || id in p.rest)
  }

  lemma SweepMovesGetOn(db: Db, m: Move, id: JobId, maxAttempts: int, now: Time)
    requires Enabled(db, m) && !m.Insert? && PhaseOf(db, m.s).Sweeping? && PhaseOf(Fire(db, m), m.s).Sweeping?
    requires id in db.rows && GotTo(PhaseOf(db, m.s), id, db.rows[id], maxAttempts, now)
    ensures GotTo(PhaseOf(Fire(db, m), m.s), id, db.rows[id], maxAttempts, now)
  {}

  ghost predicate UntouchedUpTo(dbs: seq<Db>, id: JobId, row: JobRow, b: nat)
    requires b < |dbs|
  {
    forall t | 0 <= t <= b :: id in dbs[t].rows && dbs[t].rows[id] == row
  }

  lemma {:induction false} SweepsGetOn(dbs: seq<Db>, moves: seq<Move>, s: SessionId, b: nat, id: JobId, row: JobRow)
    requires SweepUpTo(dbs, moves, s, b) && UntouchedUpTo(dbs, id, row, b)
    ensures GotTo(PhaseOf(dbs[b], s), id, row, moves[0].maxAttempts, moves[0].now)
  {
    if b == 1 {
      assert dbs[1] == Fire(dbs[0], moves[0]);
    } else {
      SweepsGetOn(dbs, moves, s, b - 1, id, row);
      var db, m := dbs[b - 1], moves[b - 1];
      assert dbs[b] == Fire(db, m);
      if m.Insert? || m.s != s {
        OthersKeepPhases(db, m, s);
      } else {
        SweepMovesGetOn(db, m, id, moves[0].maxAttempts, moves[0].now);
      }
    }
  }

  /**
   * Whatever others do meanwhile, a sweep takes back exactly the expired ones among the jobs that nobody else has
   * changed since it began: below the limit they wait again, at the limit they are cancelled.
   */
  lemma UntouchedJobsAreSweptExactlyWhenExpired(dbs: seq<Db>, moves: seq<Move>, s: SessionId, b: nat, id: JobId)
    requires SweepUpTo(dbs, moves, s, b) && b < |moves| && moves[b] == EndSweep(s)
    requires id in dbs[0].rows && UntouchedUpTo(dbs, id, dbs[0].rows[id], b)
    ensures var row, p, max, now := dbs[0].rows[id], PhaseOf(dbs[b + 1], s), moves[0].maxAttempts, moves[0].now;
      && p.Ready?
      && (id in p.writes <==>
            row.status in {Claimed, Running} && row.leaseExpiresAt.Some? && row.leaseExpiresAt.value <= now)
      && (id in p.writes ==>
            && p.writes[id].status == (if row.attempts < max then Queued else Cancelled)
            && p.writes[id].attempts == row.attempts && p.writes[id].claimedBy == None
            && p.writes[id].leaseExpiresAt == None)
  {
    SweepsGetOn(dbs, moves, s, b, id, dbs[0].rows[id]);
    assert dbs[b + 1] == Fire(dbs[b], moves[b]);
  }

  // ------------------------------------------------------------------------------------------
  // Leases and attempts.

  lemma LeasesNameTheirWrite(e: Event, writes: Table, lease: Option<Grant>, id: JobId)
    requires LeaseSound(e, writes, lease) && (e.Sweep? || |writes| == 1)
    ensures lease.Some? && lease.value.jobId == id <==> e.Lease? && id in writes
  {
    if lease.Some? {
      var only := OnlyKey(writes);
    }
  }

  lemma CountsOnePublished(issued: seq<Grant>, lease: Option<Grant>, id: JobId)
    ensures CountFor(issued + if lease.Some? then [lease.value] else [], id) ==
      CountFor(issued, id) + if lease.Some? && lease.value.jobId == id then 1 else 0
  {
    if lease.Some? {
      assert (issued + [lease.value])[..|issued|] == issued;
    } else {
      assert issued + [] == issued;
    }
  }

  lemma PublishedAttempts(db: Db, s: SessionId, id: JobId)
    requires Inv(db) && PhaseOf(db, s).Ready? && id in db.rows
    ensures var after := Fire(db, Commit(s));
      && id in after.rows
      && after.rows[id].attempts + CountFor(db.issued, id) == db.rows[id].attempts + CountFor(after.issued, id)
  {
    var p := PhaseOf(db, s);
    assert PhaseSound(db.rows, db.locks, s, p);
    if id in p.writes {
      ChangesKeepIdentity(db.rows[id], p.event);
    }
    LeasesNameTheirWrite(p.event, p.writes, p.lease, id);
    CountsOnePublished(db.issued, p.lease, id);
  }

  lemma NoRowNoWrite(db: Db, s: SessionId, id: JobId)
    requires Inv(db) && PhaseOf(db, s).Ready? && id !in db.rows
    ensures id !in Fire(db, Commit(s)).rows && CountFor(Fire(db, Commit(s)).issued, id) == CountFor(db.issued, id)
  {
    var p := PhaseOf(db, s);
    var after := Fire(db, Commit(s));
    assert PhaseSound(db.rows, db.locks, s, p);
    if p.lease.Some? {
      assert after.issued[..|db.issued|] == db.issued;
    } else {
      assert after.issued == db.issued;
    }
  }

  /** In every interleaving the attempts of a job are exactly the leases of it that have been handed out. */
  lemma {:induction false} AttemptsAreIssued(dbs: seq<Db>, moves: seq<Move>, id: JobId)
    requires FromEmpty(dbs, moves)
    ensures CountFor(dbs[|moves|].issued, id) == if id in dbs[|moves|].rows then dbs[|moves|].rows[id].attempts else 0
  {
    if moves == [] {
    } else {
      var n := |moves| - 1;
      TracePrefix(dbs, moves, n);
      AttemptsAreIssued(dbs[..n + 1], moves[..n], id);
      TracesAreSound(dbs[..n + 1], moves[..n]);
      var db, m := dbs[n], moves[n];
      assert dbs[n + 1] == Fire(db, m);
      if m.Commit? {
        if id in db.rows {
          PublishedAttempts(db, m.s, id);
        } else {
          NoRowNoWrite(db, m.s, id);
        }
      } else if !m.Insert? {
        OnlyCommitsAreVisible(db, m);
      }
    }
  }
}
