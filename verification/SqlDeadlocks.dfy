/** Which sessions of app/queue/database.py can end up waiting for each other. */
module SqlDeadlocks {
  import opened Base
  import opened Lifecycle
  import opened Jobs
  import opened JobHistory
  import opened MemoryQueue
  import opened SqlQueue
  import opened SqlSessions

  /** The row stands in the way of `s` until `t` ends its transaction: `s` asked for it, or has still to sweep it. */
  predicate Awaits(db: Db, s: SessionId, t: SessionId, id: JobId) {
    && LockedByOther(db, s, id) && db.locks[id] == t
    && match PhaseOf(db, s)
       case Asking(asked, _, _, visible) => visible && asked == id
       case Sweeping(_, _, _, rest, _) => id in rest
       case _ => false
  }

  ghost predicate WaitsFor(db: Db, s: SessionId, t: SessionId) {
    exists id: JobId :: Awaits(db, s, t, id)
  }

  function After(cycle: seq<SessionId>, i: nat): SessionId
    requires i < |cycle|
  {
    if i + 1 < |cycle| then cycle[i + 1] else cycle[0]
  }

  /** Each session of the cycle waits for the next, and the last for the first. */
  ghost predicate IsCycle(db: Db, cycle: seq<SessionId>) {
    |cycle| > 0 && forall i: nat | i < |cycle| :: WaitsFor(db, cycle[i], After(cycle, i))
  }

  /** With move `k` the session got an illegal transition on the row, and has ended no transaction since. */
  ghost predicate KeptSince(dbs: seq<Db>, moves: seq<Move>, s: SessionId, id: JobId, k: nat)
    requires IsTrace(dbs, moves)
  {
    && k < |moves| && moves[k].Decide? && moves[k].s == s && PhaseOf(dbs[k], s).id == id
    && RefusedAsIllegal(dbs[k], moves[k])
    && forall u: nat | k < u < |moves| :: !EndsTransaction(dbs[u], moves[u], s)
  }

  ghost predicate RefusedAsIllegal(db: Db, m: Move) {
    && m.Decide? && Enabled(db, m)
    && var p := PhaseOf(db, m.s);
       var r := Act(db.rows[p.id], p.holder, p.action, m.now);
       r.Err? && r.error.Illegal?
  }

  ghost predicate EndsTransaction(db: Db, m: Move, s: SessionId) {
    Enabled(db, m) && !m.Insert? && m.s == s && Next(db, m).1 == ReleaseAll
  }

  ghost predicate Kept(dbs: seq<Db>, moves: seq<Move>, s: SessionId, id: JobId)
    requires IsTrace(dbs, moves)
  {
    exists k: nat :: KeptSince(dbs, moves, s, id, k)
  }

  /** Between its calls, and while it only asks, a session has no lock but those that errors made it keep. */
  predicate OutsideItsCall(p: Phase, id: JobId) {
    p.Idle? || p.Asking? || (p.Deciding? && p.id != id)
  }

  ghost predicate LocksKept(dbs: seq<Db>, moves: seq<Move>)
    requires IsTrace(dbs, moves)
  {
    var db := dbs[|moves|];
    forall id | id in db.locks && OutsideItsCall(PhaseOf(db, db.locks[id]), id) :: Kept(dbs, moves, db.locks[id], id)
  }

  lemma KeptOn(dbs: seq<Db>, moves: seq<Move>, s: SessionId, id: JobId)
    requires IsTrace(dbs, moves) && moves != []
    requires IsTrace(dbs[..|moves|], moves[..|moves| - 1]) && Kept(dbs[..|moves|], moves[..|moves| - 1], s, id)
    requires !EndsTransaction(dbs[|moves| - 1], moves[|moves| - 1], s)
    ensures Kept(dbs, moves, s, id)
  {
    var k: nat :| KeptSince(dbs[..|moves|], moves[..|moves| - 1], s, id, k);
    assert KeptSince(dbs, moves, s, id, k);
  }

  /** A lock found outside a call after a move was there before it, or this move was an illegal transition. */
  lemma WhereLocksComeFrom(db: Db, m: Move, id: JobId)
    requires Enabled(db, m)
    requires id in Fire(db, m).locks && OutsideItsCall(PhaseOf(Fire(db, m), Fire(db, m).locks[id]), id)
    ensures var s := Fire(db, m).locks[id];
      || (id in db.locks && db.locks[id] == s && OutsideItsCall(PhaseOf(db, s), id) && !EndsTransaction(db, m, s))
      || (m.Decide? && m.s == s && PhaseOf(db, s).id == id && RefusedAsIllegal(db, m))
  {}

  lemma {:induction false} TracesKeepLocks(dbs: seq<Db>, moves: seq<Move>)
    requires IsTrace(dbs, moves) && dbs[0].locks == map[]
    ensures LocksKept(dbs, moves)
  {
    if moves == [] {
    } else {
      var n := |moves| - 1;
      TracePrefix(dbs, moves, n);
      TracesKeepLocks(dbs[..n + 1], moves[..n]);
      var db, m, after := dbs[n], moves[n], dbs[n + 1];
      forall id | id in after.locks && OutsideItsCall(PhaseOf(after, after.locks[id]), id)
        ensures Kept(dbs, moves, after.locks[id], id)
      {
        WhereLocksComeFrom(db, m, id);
        if RefusedAsIllegal(db, m) && m.s == after.locks[id] && PhaseOf(db, m.s).id == id {
          assert KeptSince(dbs, moves, m.s, id, n);
        } else {
          KeptOn(dbs, moves, after.locks[id], id);
        }
      }
    }
  }

  /**
   * Deadlocks: in every run from an unlocked state, each session of a cycle of waits is sweeping, or holds, as
   * the row the session before it waits for, a lock that an illegal transition made it keep.
   */
  lemma DeadlocksNeedSweepsOrKeptLocks(dbs: seq<Db>, moves: seq<Move>, cycle: seq<SessionId>, i: nat)
    requires IsTrace(dbs, moves) && dbs[0].locks == map[] && IsCycle(dbs[|moves|], cycle) && i < |cycle|
    ensures var db, t := dbs[|moves|], After(cycle, i);
      PhaseOf(db, t).Sweeping? || exists id: JobId :: Awaits(db, cycle[i], t, id) && Kept(dbs, moves, t, id)
  {
    var db, t := dbs[|moves|], After(cycle, i);
    var j := if i + 1 < |cycle| then i + 1 else 0;
    assert WaitsFor(db, cycle[i], t) && WaitsFor(db, cycle[j], After(cycle, j));
    TracesKeepLocks(dbs, moves);
    var id: JobId :| Awaits(db, cycle[i], t, id);
    if !PhaseOf(db, t).Sweeping? {
      assert PhaseOf(db, t).Asking?;
      assert Kept(dbs, moves, db.locks[id], id);
    }
  }

  lemma NothingIsKept(dbs: seq<Db>, moves: seq<Move>, s: SessionId, id: JobId)
    requires IsTrace(dbs, moves) && forall k | 0 <= k < |moves| :: !RefusedAsIllegal(dbs[k], moves[k])
    ensures !Kept(dbs, moves, s, id)
  {}

  /**
   * So with no illegal transition in the run every cycle consists of sweeps, at least two: one sweep at
   * a time is safe.
   */
  lemma OneSweepCannotDeadlock(dbs: seq<Db>, moves: seq<Move>, cycle: seq<SessionId>, i: nat)
    requires IsTrace(dbs, moves) && dbs[0].locks == map[]
    requires forall k | 0 <= k < |moves| :: !RefusedAsIllegal(dbs[k], moves[k])
    requires IsCycle(dbs[|moves|], cycle) && i < |cycle|
    ensures cycle[i] != After(cycle, i)
    ensures PhaseOf(dbs[|moves|], cycle[i]).Sweeping? && PhaseOf(dbs[|moves|], After(cycle, i)).Sweeping?
  {
    var before := if i > 0 then i - 1 else |cycle| - 1;
    assert After(cycle, before) == cycle[i] && WaitsFor(dbs[|moves|], cycle[i], After(cycle, i));
    DeadlocksNeedSweepsOrKeptLocks(dbs, moves, cycle, before);
    DeadlocksNeedSweepsOrKeptLocks(dbs, moves, cycle, i);
    forall t: SessionId, id: JobId
      ensures !Kept(dbs, moves, t, id)
    {
      NothingIsKept(dbs, moves, t, id);
    }
  }

  // ------------------------------------------------------------------------------------------
  // Building runs.

  /** Nothing is left to the session but to be rolled back. */
  ghost predicate Stuck(db: Db, s: SessionId) {
    forall m: Move :: Enabled(db, m) && !m.Insert? && m.s == s ==> m.Abort?
  }

  lemma BlockedSweepsAreStuck(db: Db, s: SessionId)
    requires PhaseOf(db, s).Sweeping? && PhaseOf(db, s).rest != {}
    requires forall id :: id in PhaseOf(db, s).rest ==> LockedByOther(db, s, id)
    ensures Stuck(db, s)
  {}

  lemma BlockedAskersAreStuck(db: Db, s: SessionId)
    requires PhaseOf(db, s).Asking? && PhaseOf(db, s).visible && LockedByOther(db, s, PhaseOf(db, s).id)
    ensures Stuck(db, s)
  {}

  /** Two sessions wait for each other, and neither can do anything else. */
  ghost predicate Deadlocked(db: Db, s: SessionId, t: SessionId) {
    IsCycle(db, [s, t]) && Stuck(db, s) && Stuck(db, t)
  }

  lemma TwoMakeACycle(db: Db, s: SessionId, t: SessionId)
    ensures IsCycle(db, [s, t]) <==> WaitsFor(db, s, t) && WaitsFor(db, t, s)
  {
    assert After([s, t], 0) == t && After([s, t], 1) == s;
  }

  ghost predicate IsTraceTo(dbs: seq<Db>, db: Db, moves: seq<Move>, after: Db) {
    IsTrace(dbs, moves) && dbs[0] == db && dbs[|moves|] == after
  }

  /** These moves, one after the other, lead from one state to the other. */
  ghost predicate Reaches(db: Db, moves: seq<Move>, after: Db) {
    exists dbs: seq<Db> :: IsTraceTo(dbs, db, moves, after)
  }

  lemma ReachesJoin(db: Db, moves: seq<Move>, mid: Db, more: seq<Move>, after: Db)
    requires Reaches(db, moves, mid) && Reaches(mid, more, after)
    ensures Reaches(db, moves + more, after)
  {
    var dbs: seq<Db> :| IsTraceTo(dbs, db, moves, mid);
    var dbs': seq<Db> :| IsTraceTo(dbs', mid, more, after);
    var all, allMoves := dbs + dbs'[1..], moves + more;
    forall i | 0 <= i < |allMoves|
      ensures Enabled(all[i], allMoves[i]) && all[i + 1] == Fire(all[i], allMoves[i])
    {
      if i >= |moves| {
        assert all[i] == dbs'[i - |moves|] && allMoves[i] == more[i - |moves|];
      }
    }
    assert IsTraceTo(all, db, allMoves, after);
  }

  lemma ReachesOne(db: Db, m: Move)
    requires Enabled(db, m)
    ensures Reaches(db, [m], Fire(db, m))
  {
    assert IsTraceTo([db, Fire(db, m)], db, [m], Fire(db, m));
  }

  lemma ReachesNone(db: Db)
    ensures Reaches(db, [], db)
  {
    assert IsTraceTo([db], db, [], db);
  }

  /** How a claim by session 0 comes out when nothing is locked. */
  ghost predicate ClaimedAlone(db: Db, todo: seq<JobId>, seconds: int, after: Db)
    requires todo != [] && todo[0] in db.rows
  {
    && after.rows == db.rows[todo[0] := ClaimValues(db.rows[todo[0]], "worker", 0, seconds)]
    && after.locks == map[] && after.phases == db.phases[0 := Idle]
  }

  lemma CommitAlone(db: Db, id: JobId, row: JobRow)
    requires PhaseOf(db, 0).Ready? && PhaseOf(db, 0).writes == map[id := row] && id in db.rows
    requires db.locks == map[id := 0]
    ensures Enabled(db, Commit(0)) && Fire(db, Commit(0)).rows == db.rows[id := row]
    ensures Fire(db, Commit(0)).locks == map[] && Fire(db, Commit(0)).phases == db.phases[0 := Idle]
  {}

  lemma ProbeAlone(db: Db, id: JobId, seconds: int)
    requires PhaseOf(db, 0).Scanning? && PhaseOf(db, 0).todo != [] && PhaseOf(db, 0).todo[0] == id
    requires IsQueued(db.rows, id) && db.locks == map[]
    requires PhaseOf(db, 0).worker == "worker" && PhaseOf(db, 0).leaseSeconds == seconds && PhaseOf(db, 0).now == 0
    ensures Enabled(db, Probe(0)) && Fire(db, Probe(0)).rows == db.rows && Fire(db, Probe(0)).locks == map[id := 0]
    ensures PhaseOf(Fire(db, Probe(0)), 0).Ready?
    ensures PhaseOf(Fire(db, Probe(0)), 0).writes == map[id := ClaimValues(db.rows[id], "worker", 0, seconds)]
    ensures Fire(db, Probe(0)).phases == db.phases[0 := PhaseOf(Fire(db, Probe(0)), 0)]
  {}

  lemma BeginAlone(db: Db, todo: seq<JobId>, seconds: int)
    requires PhaseOf(db, 0).Idle? && IsScanOrder(db.rows, todo)
    ensures var m := BeginClaim(0, "worker", seconds, 0, todo);
      && Enabled(db, m) && Fire(db, m).rows == db.rows && Fire(db, m).locks == db.locks
      && Fire(db, m).phases == db.phases[0 := Scanning("worker", seconds, 0, todo)]
  {}

  lemma ReachesThree(db: Db, m1: Move, d1: Db, m2: Move, d2: Db, m3: Move, d3: Db)
    requires Enabled(db, m1) && Fire(db, m1) == d1 && Enabled(d1, m2) && Fire(d1, m2) == d2
    requires Enabled(d2, m3) && Fire(d2, m3) == d3
    ensures Reaches(db, [m1, m2, m3], d3)
  {
    assert IsTraceTo([db, d1, d2, d3], db, [m1, m2, m3], d3);
  }

  lemma ClaimAlone(db: Db, todo: seq<JobId>, seconds: int) returns (moves: seq<Move>, after: Db)
    requires PhaseOf(db, 0).Idle? && db.locks == map[] && IsScanOrder(db.rows, todo)
    requires todo != [] && todo[0] in db.rows
    ensures Reaches(db, moves, after) && ClaimedAlone(db, todo, seconds, after)
    ensures forall m :: m in moves ==> !m.Decide? && !m.BeginSweep?
  {
    assert todo[0] in todo && IsQueued(db.rows, todo[0]);
    var begin := BeginClaim(0, "worker", seconds, 0, todo);
    BeginAlone(db, todo, seconds);
    var d1 := Fire(db, begin);
    ProbeAlone(d1, todo[0], seconds);
    var d2 := Fire(d1, Probe(0));
    CommitAlone(d2, todo[0], ClaimValues(db.rows[todo[0]], "worker", 0, seconds));
    after := Fire(d2, Commit(0));
    ReachesThree(db, begin, d1, Probe(0), d2, Commit(0), after);
    moves := [begin, Probe(0), Commit(0)];
  }

  /** Two jobs, both leased until a second before the start: where the runs below begin. */
  lemma TwoLapsedJobs() returns (moves: seq<Move>, after: Db)
    ensures Reaches(EMPTY_DB, moves, after) && forall m :: m in moves ==> !m.Decide? && !m.BeginSweep?
    ensures after.rows.Keys == {1, 2} && after.locks == map[] && after.phases.Keys == {0} && PhaseOf(after, 0).Idle?
    ensures forall id | id in after.rows ::
      MustRequeue(after.rows[id], 3, 0) && after.rows[id].claimedBy == Some("worker")
  {
    var d1 := Fire(EMPTY_DB, Insert(1, 1, "x"));
    var d2 := Fire(d1, Insert(2, 2, "y"));
    ReachesOne(EMPTY_DB, Insert(1, 1, "x"));
    ReachesOne(d1, Insert(2, 2, "y"));
    ReachesJoin(EMPTY_DB, [Insert(1, 1, "x")], d1, [Insert(2, 2, "y")], d2);
    var inserts := [Insert(1, 1, "x")] + [Insert(2, 2, "y")];
    assert IsScanOrder(d2.rows, [1, 2]);
    var first, d3 := ClaimAlone(d2, [1, 2], -1);
    assert IsScanOrder(d3.rows, [2]);
    var second, d4 := ClaimAlone(d3, [2], -1);
    ReachesJoin(EMPTY_DB, inserts, d2, first, d3);
    ReachesJoin(EMPTY_DB, inserts + first, d3, second, d4);
    moves, after := inserts + first + second, d4;
  }
}
