/** When locks left behind by illegal transitions in app/queue/database.py can block two sessions for good. */
module AskDeadlocks {
  import opened Base
  import opened Lifecycle
  import opened Jobs
  import opened JobHistory
  import opened MemoryQueue
  import opened SqlQueue
  import opened SqlSessions
  import opened SqlDeadlocks

  /** The jobs somebody holds. */
  function Owned(t: Table): set<JobId> {
    set id | id in t && t[id].claimedBy.Some?
  }

  /** A move of a start, heartbeat, complete or fail by one of two sessions, rollbacks included. */
  predicate OfTheAsks(m: Move, s: SessionId, t: SessionId) {
    && (m.BeginAsk? || m.Miss? || m.TakeLock? || m.Decide? || m.Commit? || m.Abort?)
    && (m.s == s || m.s == t)
  }

  /** Neither session does anything but that. */
  predicate OnlyAsks(p: Phase) {
    p.Idle? || p.Asking? || p.Deciding? || (p.Ready? && p.event.Did?)
  }

  // ------------------------------------------------------------------------------------------
  // Only with two held jobs.

  lemma AsksStayAsks(d: Db, m: Move, s: SessionId, t: SessionId, u: SessionId)
    requires Enabled(d, m) && OfTheAsks(m, s, t) && OnlyAsks(PhaseOf(d, u))
    ensures OnlyAsks(PhaseOf(Fire(d, m), u))
  {}

  lemma ActsNeedAHolder(row: JobRow, e: Event)
    requires e.Did? && Step(row, e).Some?
    ensures row.claimedBy.Some?
  {}

  lemma AsksGainNoJob(d: Db, m: Move, s: SessionId, t: SessionId)
    requires Inv(d) && Enabled(d, m) && OfTheAsks(m, s, t) && OnlyAsks(PhaseOf(d, s)) && OnlyAsks(PhaseOf(d, t))
    ensures Owned(Fire(d, m).rows) <= Owned(d.rows)
  {
    if m.Commit? {
      var p := d.phases[m.s];
      assert PhaseSound(d.rows, d.locks, m.s, p);
      forall id | id in p.writes {
        ActsNeedAHolder(d.rows[id], p.event);
      }
    } else {
      OnlyCommitsAreVisible(d, m);
    }
  }

  lemma {:induction false} RunsGainNoJob(dbs: seq<Db>, moves: seq<Move>, s: SessionId, t: SessionId, n: nat)
    requires IsTrace(dbs, moves) && n <= |moves| && Inv(dbs[0]) && PhaseOf(dbs[0], s).Idle? && PhaseOf(dbs[0], t).Idle?
    requires forall m :: m in moves ==> OfTheAsks(m, s, t)
    ensures OnlyAsks(PhaseOf(dbs[n], s)) && OnlyAsks(PhaseOf(dbs[n], t)) && Owned(dbs[n].rows) <= Owned(dbs[0].rows)
  {
    if n == 0 {
    } else {
      RunsGainNoJob(dbs, moves, s, t, n - 1);
      TracesStaySound(dbs, moves, n - 1);
      assert moves[n - 1] in moves && dbs[n] == Fire(dbs[n - 1], moves[n - 1]);
      AsksGainNoJob(dbs[n - 1], moves[n - 1], s, t);
      AsksStayAsks(dbs[n - 1], moves[n - 1], s, t, s);
      AsksStayAsks(dbs[n - 1], moves[n - 1], s, t, t);
    }
  }

  /** Only a holder gets as far as an illegal transition. */
  lemma KeptLocksAreOfOwnedJobs(dbs: seq<Db>, moves: seq<Move>, s: SessionId, t: SessionId, u: SessionId, id: JobId)
    requires IsTrace(dbs, moves) && Inv(dbs[0]) && PhaseOf(dbs[0], s).Idle? && PhaseOf(dbs[0], t).Idle?
    requires forall m :: m in moves ==> OfTheAsks(m, s, t)
    requires Kept(dbs, moves, u, id)
    ensures id in Owned(dbs[0].rows)
  {
    var k: nat :| KeptSince(dbs, moves, u, id, k);
    RunsGainNoJob(dbs, moves, s, t, k);
    assert id in Owned(dbs[k].rows);
  }

  /** Who waits for the other in a cycle waits for a job that is held from the beginning. */
  lemma AwaitedJobsAreOwned(dbs: seq<Db>, moves: seq<Move>, s: SessionId, t: SessionId, i: nat) returns (id: JobId)
    requires IsTrace(dbs, moves) && Inv(dbs[0]) && dbs[0].locks == map[] && s != t
    requires PhaseOf(dbs[0], s).Idle? && PhaseOf(dbs[0], t).Idle?
    requires IsCycle(dbs[|moves|], [s, t]) && i < 2
    requires forall m :: m in moves ==> OfTheAsks(m, s, t)
    ensures id in Owned(dbs[0].rows) && Awaits(dbs[|moves|], [s, t][i], After([s, t], i), id)
  {
    RunsGainNoJob(dbs, moves, s, t, |moves|);
    DeadlocksNeedSweepsOrKeptLocks(dbs, moves, [s, t], i);
    id :| Awaits(dbs[|moves|], [s, t][i], After([s, t], i), id) && Kept(dbs, moves, After([s, t], i), id);
    KeptLocksAreOfOwnedJobs(dbs, moves, s, t, After([s, t], i), id);
  }

  lemma TwoAreEnough(ids: set<JobId>, x: JobId, y: JobId)
    requires x in ids && y in ids && x != y
    ensures |ids| >= 2
  {
    assert |ids - {x, y}| + |{x, y}| == |ids|;
  }

  lemma CyclesNeedOwnedJobs(db: Db, s: SessionId, t: SessionId, moves: seq<Move>, after: Db)
    requires Inv(db) && db.locks == map[] && s != t && PhaseOf(db, s).Idle? && PhaseOf(db, t).Idle?
    requires Reaches(db, moves, after) && IsCycle(after, [s, t])
    requires forall m :: m in moves ==> OfTheAsks(m, s, t)
    ensures |Owned(db.rows)| >= 2
  {
    var dbs: seq<Db> :| IsTraceTo(dbs, db, moves, after);
    var y := AwaitedJobsAreOwned(dbs, moves, s, t, 0);
    var x := AwaitedJobsAreOwned(dbs, moves, s, t, 1);
    TwoAreEnough(Owned(db.rows), x, y);
  }

  // ------------------------------------------------------------------------------------------
  // And with any two.

  /** What the holder may not ask of the job as it stands. */
  function IllegalAsk(row: JobRow): Action {
    if row.status == Running then Start else Complete(Completed)
  }

  function AskFor(t: Table, s: SessionId, id: JobId): Move
    requires id in Owned(t)
  {
    BeginAsk(s, id, t[id].claimedBy.value, IllegalAsk(t[id]))
  }

  /** Of the sessions only `s` has moved, into this phase. */
  ghost predicate InPhase(d: Db, d': Db, s: SessionId, p: Phase) {
    d'.rows == d.rows && PhaseOf(d', s) == p && forall v | v != s :: PhaseOf(d', v) == PhaseOf(d, v)
  }

  lemma Asks(d: Db, s: SessionId, id: JobId)
    requires PhaseOf(d, s).Idle? && id in Owned(d.rows)
    ensures var m := AskFor(d.rows, s, id);
      && Enabled(d, m) && Fire(d, m).locks == d.locks
      && InPhase(d, Fire(d, m), s, Asking(id, d.rows[id].claimedBy.value, IllegalAsk(d.rows[id]), true))
  {}

  lemma Locks(d: Db, s: SessionId, id: JobId, holder: WorkerId, action: Action)
    requires PhaseOf(d, s) == Asking(id, holder, action, true) && !LockedByOther(d, s, id)
    ensures Enabled(d, TakeLock(s)) && Fire(d, TakeLock(s)).locks == d.locks[id := s]
    ensures InPhase(d, Fire(d, TakeLock(s)), s, Deciding(id, holder, action))
  {}

  lemma IsRefused(d: Db, s: SessionId, id: JobId)
    requires id in Owned(d.rows) && PhaseOf(d, s) == Deciding(id, d.rows[id].claimedBy.value, IllegalAsk(d.rows[id]))
    ensures Enabled(d, Decide(s, 0)) && Fire(d, Decide(s, 0)).locks == d.locks
    ensures InPhase(d, Fire(d, Decide(s, 0)), s, Idle)
  {}

  /** A session can lock any held job and let an illegal transition make it keep the lock. */
  lemma KeepLock(d: Db, s: SessionId, t: SessionId, id: JobId) returns (moves: seq<Move>, after: Db)
    requires PhaseOf(d, s).Idle? && id in Owned(d.rows) && !LockedByOther(d, s, id)
    ensures Reaches(d, moves, after) && forall m :: m in moves ==> OfTheAsks(m, s, t)
    ensures InPhase(d, after, s, Idle) && after.locks == d.locks[id := s]
  {
    var ask := AskFor(d.rows, s, id);
    Asks(d, s, id);
    var d1 := Fire(d, ask);
    Locks(d1, s, id, d.rows[id].claimedBy.value, IllegalAsk(d.rows[id]));
    var d2 := Fire(d1, TakeLock(s));
    IsRefused(d2, s, id);
    after := Fire(d2, Decide(s, 0));
    ReachesThree(d, ask, d1, TakeLock(s), d2, Decide(s, 0), after);
    moves := [ask, TakeLock(s), Decide(s, 0)];
  }

  lemma AskEachOther(d: Db, s: SessionId, t: SessionId, x: JobId, y: JobId) returns (moves: seq<Move>, after: Db)
    requires s != t && PhaseOf(d, s).Idle? && PhaseOf(d, t).Idle? && x in Owned(d.rows) && y in Owned(d.rows)
    requires x in d.locks && d.locks[x] == s && y in d.locks && d.locks[y] == t
    ensures Reaches(d, moves, after) && forall m :: m in moves ==> OfTheAsks(m, s, t)
    ensures Deadlocked(after, s, t)
  {
    Asks(d, s, y);
    var d1 := Fire(d, AskFor(d.rows, s, y));
    Asks(d1, t, x);
    after := Fire(d1, AskFor(d.rows, t, x));
    ReachesOne(d, AskFor(d.rows, s, y));
    ReachesOne(d1, AskFor(d.rows, t, x));
    ReachesJoin(d, [AskFor(d.rows, s, y)], d1, [AskFor(d.rows, t, x)], after);
    moves := [AskFor(d.rows, s, y)] + [AskFor(d.rows, t, x)];
    assert Awaits(after, s, t, y) && Awaits(after, t, s, x);
    TwoMakeACycle(after, s, t);
    BlockedAskersAreStuck(after, s);
    BlockedAskersAreStuck(after, t);
  }

  lemma KeptLocksMayDeadlock(db: Db, s: SessionId, t: SessionId, x: JobId, y: JobId)
    returns (moves: seq<Move>, after: Db)
    requires db.locks == map[] && s != t && PhaseOf(db, s).Idle? && PhaseOf(db, t).Idle?
    requires x in Owned(db.rows) && y in Owned(db.rows) && x != y
    ensures Reaches(db, moves, after) && forall m :: m in moves ==> OfTheAsks(m, s, t)
    ensures Deadlocked(after, s, t)
  {
    var first, d1 := KeepLock(db, s, t, x);
    var second, d2 := KeepLock(d1, t, s, y);
    var third;
    third, after := AskEachOther(d2, s, t, x, y);
    ReachesJoin(db, first, d1, second, d2);
    ReachesJoin(db, first + second, d2, third, after);
    moves := first + second + third;
  }

  /** A run of the two sessions' calls, and of no others, ends in a deadlock. */
  ghost predicate CanDeadlock(db: Db, s: SessionId, t: SessionId) {
    exists moves: seq<Move>, after: Db ::
      Reaches(db, moves, after) && Deadlocked(after, s, t) && forall m :: m in moves ==> OfTheAsks(m, s, t)
  }

  /** Two sessions that only start, renew, complete and fail can deadlock exactly when two jobs are held. */
  lemma TwoAskersDeadlockExactlyWhen(db: Db, s: SessionId, t: SessionId)
    requires Inv(db) && db.locks == map[] && s != t && PhaseOf(db, s).Idle? && PhaseOf(db, t).Idle?
    ensures CanDeadlock(db, s, t) <==> |Owned(db.rows)| >= 2
  {
    if |Owned(db.rows)| >= 2 {
      var x :| x in Owned(db.rows);
      assert |Owned(db.rows) - {x}| >= 1;
      var y :| y in Owned(db.rows) - {x};
      var moves, after := KeptLocksMayDeadlock(db, s, t, x, y);
    }
    if CanDeadlock(db, s, t) {
      var moves: seq<Move>, after: Db :|
        Reaches(db, moves, after) && Deadlocked(after, s, t) && forall m :: m in moves ==> OfTheAsks(m, s, t);
      CyclesNeedOwnedJobs(db, s, t, moves, after);
    }
  }

  /** A run from the empty database, without any sweep, into such a deadlock. */
  lemma ADeadlock() returns (dbs: seq<Db>, moves: seq<Move>)
    ensures FromEmpty(dbs, moves) && Deadlocked(dbs[|moves|], 0, 1)
    ensures forall m :: m in moves ==> !m.BeginSweep?
  {
    var start, db := TwoLapsedJobs();
    var asks, after := KeptLocksMayDeadlock(db, 0, 1, 1, 2);
    ReachesJoin(EMPTY_DB, start, db, asks, after);
    moves := start + asks;
    dbs :| IsTraceTo(dbs, EMPTY_DB, moves, after);
  }
}
