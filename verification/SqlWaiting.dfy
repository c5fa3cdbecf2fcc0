/** How long a job can be kept waiting by the sessions of app/queue/database.py. */
module SqlWaiting {
  import opened Base
  import opened Lifecycle
  import opened Jobs
  import opened JobHistory
  import opened MemoryQueue
  import opened MemoryRuns
  import opened SqlQueue
  import opened SqlSessions

  // ------------------------------------------------------------------------------------------
  // Counting leases.

  function CountFor(issued: seq<Grant>, id: JobId): nat {
    if issued == [] then 0
    else CountFor(issued[..|issued| - 1], id) + if issued[|issued| - 1].jobId == id then 1 else 0
  }

  /** The leases of jobs among `ids`, and the others. */
  function CountIn(issued: seq<Grant>, ids: seq<JobId>): (n: nat)
    ensures n <= |issued|
  {
    if issued == [] then 0
    else CountIn(issued[..|issued| - 1], ids) + if issued[|issued| - 1].jobId in ids then 1 else 0
  }

  function CountOutside(issued: seq<Grant>, ids: seq<JobId>): nat {
    |issued| - CountIn(issued, ids)
  }

  lemma CountOneMore(issued: seq<Grant>, ids: seq<JobId>, g: Grant)
    ensures CountOutside(issued + [g], ids) == CountOutside(issued, ids) + if g.jobId in ids then 0 else 1
  {
    assert (issued + [g])[..|issued|] == issued;
  }

  lemma {:induction false} CountPerJob(issued: seq<Grant>, ids: seq<JobId>)
    requires ids != []
    ensures CountIn(issued, ids) <= CountIn(issued, ids[..|ids| - 1]) + CountFor(issued, ids[|ids| - 1])
  {
    if issued == [] {
    } else {
      CountPerJob(issued[..|issued| - 1], ids);
    }
  }

  /** Leases of one job carry rising attempt numbers, so there are no more of them than the last one says. */
  lemma {:induction false} CountIsBoundedByAttempts(issued: seq<Grant>, id: JobId, bound: nat)
    requires AttemptsGoUp(issued) && forall g :: g in issued && g.jobId == id ==> 1 <= g.attempt <= bound
    ensures CountFor(issued, id) <= bound
  {
    if issued == [] {
    } else {
      var n := |issued| - 1;
      var init, last := issued[..n], issued[n];
      if last.jobId == id {
        forall g | g in init && g.jobId == id
          ensures g.attempt <= last.attempt - 1
        {
          var k :| 0 <= k < n && init[k] == g;
          assert issued[k] == g;
        }
        CountIsBoundedByAttempts(init, id, last.attempt - 1);
      } else {
        CountIsBoundedByAttempts(init, id, bound);
      }
    }
  }

  lemma {:induction false} CountIsBoundedBySum(db: Db, ids: seq<JobId>)
    requires Inv(db) && forall id :: id in ids ==> id in db.rows
    ensures CountIn(db.issued, ids) <= SumAttempts(db.rows, ids)
  {
    if ids == [] {
      NothingInNone(db.issued);
    } else {
      var id := ids[|ids| - 1];
      CountIsBoundedBySum(db, ids[..|ids| - 1]);
      CountPerJob(db.issued, ids);
      forall g | g in db.issued && g.jobId == id
        ensures 1 <= g.attempt <= db.rows[id].attempts
      {
        assert Stands(db.log, g);
        AttemptsCoverLeases(db.log, g, db.rows[id]);
        LeasesAreNumberedFromOne(db.log, g);
      }
      CountIsBoundedByAttempts(db.issued, id, db.rows[id].attempts);
    }
  }

  lemma {:induction false} NothingInNone(issued: seq<Grant>)
    ensures CountIn(issued, []) == 0
  {
    if issued == [] {
    } else {
      NothingInNone(issued[..|issued| - 1]);
    }
  }

  lemma LeasesAreNumberedFromOne(log: map<JobId, History>, g: Grant)
    requires Stands(log, g)
    ensures g.attempt >= 1
  {
    var c: nat :| IssuedAt(log[g.jobId], g, c);
    var h := log[g.jobId][..c + 1];
    assert h[|h| - 1].Lease?;
  }

  // ------------------------------------------------------------------------------------------
  // The window in which a job waits.

  /** A claim has begun and has not ended. */
  predicate Claiming(p: Phase) {
    p.Scanning? || (p.Ready? && p.event.Lease?)
  }

  /** The job waits, and no transaction has its row locked. */
  predicate Waits(db: Db, id: JobId) {
    IsQueued(db.rows, id) && id !in db.locks
  }

  /** `ids` has every job at least as old. */
  ghost predicate HasOlder(t: Table, id: JobId, ids: seq<JobId>) {
    id in t && forall older | older in t && older != id && t[older].createdAt <= t[id].createdAt :: older in ids
  }

  predicate ReachesAt(todo: seq<JobId>, id: JobId, ids: seq<JobId>, p: nat) {
    p < |todo| && todo[p] == id && forall i | 0 <= i < p :: todo[i] in ids
  }

  /** A claim that will take a job of `ids` before it could take one younger than `id`. */
  ghost predicate Respects(p: Phase, id: JobId, ids: seq<JobId>) {
    match p
    case Scanning(_, _, _, todo) => exists k: nat :: ReachesAt(todo, id, ids, k)
    case Ready(_, _, lease) => lease.Some? ==> lease.value.jobId in ids
    case _ => true
  }

  lemma NewScansRespect(t: Table, todo: seq<JobId>, id: JobId, ids: seq<JobId>)
    requires IsScanOrder(t, todo) && IsQueued(t, id) && HasOlder(t, id, ids)
    ensures exists k: nat :: ReachesAt(todo, id, ids, k)
  {
    assert id in todo;
    var k: nat := FirstAt(todo, id);
    forall i | 0 <= i < k
      ensures todo[i] in ids
    {
      assert todo[i] in todo && IsQueued(t, todo[i]);
    }
    assert ReachesAt(todo, id, ids, k);
  }

  lemma {:induction false} FirstAt(todo: seq<JobId>, id: JobId) returns (k: nat)
    requires id in todo
    ensures k < |todo| && todo[k] == id && forall i | 0 <= i < k :: todo[i] != id
  {
    if todo[0] == id {
      k := 0;
    } else {
      var rest := FirstAt(todo[1..], id);
      k := rest + 1;
    }
  }

  /** Stepping on, or taking what comes before, a scan goes on respecting the job; it never takes the job itself. */
  lemma ProbesRespect(db: Db, s: SessionId, id: JobId, ids: seq<JobId>)
    requires Enabled(db, Probe(s)) && Waits(db, id) && Waits(Fire(db, Probe(s)), id)
    requires Respects(PhaseOf(db, s), id, ids)
    ensures Respects(PhaseOf(Fire(db, Probe(s)), s), id, ids)
  {
    var todo := PhaseOf(db, s).todo;
    var k: nat :| ReachesAt(todo, id, ids, k);
    assert k > 0;
    assert ReachesAt(todo[1..], id, ids, k - 1);
  }

  /** Every other move of a session leaves it respecting the job, or not claiming. */
  lemma MovesRespect(db: Db, m: Move, id: JobId, ids: seq<JobId>)
    requires Inv(db) && Enabled(db, m) && !m.Insert? && Waits(db, id) && Waits(Fire(db, m), id)
    requires HasOlder(db.rows, id, ids) && Respects(PhaseOf(db, m.s), id, ids)
    ensures Respects(PhaseOf(Fire(db, m), m.s), id, ids)
  {
    match m {
      case BeginClaim(_, _, _, _, todo) => NewScansRespect(db.rows, todo, id, ids);
      case Probe(s) => ProbesRespect(db, s, id, ids);
      case _ =>
    }
  }

  lemma OlderBefore(db: Db, m: Move, id: JobId, ids: seq<JobId>)
    requires Inv(db) && Enabled(db, m) && id in db.rows && id in Fire(db, m).rows && HasOlder(Fire(db, m).rows, id, ids)
    ensures HasOlder(db.rows, id, ids)
  {
    MovesKeepCreationTimes(db, m, id);
    forall older | older in db.rows && older != id && db.rows[older].createdAt <= db.rows[id].createdAt
      ensures older in ids
    {
      MovesKeepCreationTimes(db, m, older);
    }
  }

  /** A claim that was under way before may still lease a younger job once; every later one leases an older job. */
  ghost predicate Accounted(start: Db, db: Db, id: JobId, ids: seq<JobId>, busy: set<SessionId>, old': set<SessionId>) {
    && old' <= busy
    && CountOutside(db.issued, ids) + |old'| <= CountOutside(start.issued, ids) + |busy|
    && forall s | s !in old' :: Respects(PhaseOf(db, s), id, ids)
  }

  lemma CommitsAreAccounted(start: Db, db: Db, s: SessionId, id: JobId, ids: seq<JobId>, busy: set<SessionId>,
                            old': set<SessionId>) returns (left: set<SessionId>)
    requires Enabled(db, Commit(s)) && Accounted(start, db, id, ids, busy, old')
    ensures Accounted(start, Fire(db, Commit(s)), id, ids, busy, left)
  {
    var p, after := PhaseOf(db, s), Fire(db, Commit(s));
    left := old' - {s};
    if s in old' {
      assert |old'| == |left| + 1;
    } else {
      assert left == old';
    }
    if p.lease.Some? {
      CountOneMore(db.issued, ids, p.lease.value);
    } else {
      assert after.issued == db.issued;
    }
    forall u | u !in left
      ensures Respects(PhaseOf(after, u), id, ids)
    {
      if u != s {
        assert Respects(PhaseOf(db, u), id, ids);
      }
    }
  }

  lemma MovesAreAccounted(start: Db, db: Db, m: Move, id: JobId, ids: seq<JobId>, busy: set<SessionId>,
                          old': set<SessionId>)
    requires Inv(db) && Enabled(db, m) && !m.Commit? && Accounted(start, db, id, ids, busy, old')
    requires Waits(db, id) && Waits(Fire(db, m), id) && HasOlder(db.rows, id, ids)
    ensures Accounted(start, Fire(db, m), id, ids, busy, old')
  {
    var after := Fire(db, m);
    assert after.issued == db.issued;
    forall s | s !in old'
      ensures Respects(PhaseOf(after, s), id, ids)
    {
      assert Respects(PhaseOf(db, s), id, ids);
      if !m.Insert? && m.s == s {
        MovesRespect(db, m, id, ids);
      }
    }
  }

  lemma StartsAreAccounted(db: Db, id: JobId, ids: seq<JobId>, busy: set<SessionId>)
    requires Inv(db) && forall s :: Claiming(PhaseOf(db, s)) ==> s in busy
    ensures Accounted(db, db, id, ids, busy, busy)
  {
    forall s | s !in busy
      ensures Respects(PhaseOf(db, s), id, ids)
    {
      assert !Claiming(PhaseOf(db, s));
      assert s in db.phases ==> PhaseSound(db.rows, db.locks, s, db.phases[s]);
    }
  }

  lemma StepsAreAccounted(start: Db, db: Db, after: Db, m: Move, id: JobId, ids: seq<JobId>, busy: set<SessionId>,
                          old': set<SessionId>) returns (left: set<SessionId>)
    requires Inv(db) && Enabled(db, m) && after == Fire(db, m) && Accounted(start, db, id, ids, busy, old')
    requires Waits(db, id) && Waits(after, id) && HasOlder(db.rows, id, ids)
    ensures Accounted(start, after, id, ids, busy, left)
  {
    if m.Commit? {
      left := CommitsAreAccounted(start, db, m.s, id, ids, busy, old');
    } else {
      MovesAreAccounted(start, db, m, id, ids, busy, old');
      left := old';
    }
  }

  ghost predicate WaitsThroughout(dbs: seq<Db>, id: JobId, a: nat, n: nat) {
    n < |dbs| && forall k: nat | a <= k <= n :: Waits(dbs[k], id)
  }

  lemma WindowsNarrow(dbs: seq<Db>, moves: seq<Move>, a: nat, n: nat, id: JobId, ids: seq<JobId>)
    requires IsTrace(dbs, moves) && Inv(dbs[0]) && a < n <= |moves| && WaitsThroughout(dbs, id, a, n)
    requires HasOlder(dbs[n].rows, id, ids)
    ensures WaitsThroughout(dbs, id, a, n - 1) && HasOlder(dbs[n - 1].rows, id, ids) && Inv(dbs[n - 1])
    ensures Enabled(dbs[n - 1], moves[n - 1]) && dbs[n] == Fire(dbs[n - 1], moves[n - 1])
    ensures Waits(dbs[n - 1], id) && Waits(dbs[n], id)
  {
    TracesStaySound(dbs, moves, n - 1);
    OlderBefore(dbs[n - 1], moves[n - 1], id, ids);
  }

  lemma {:induction false} WindowsAreAccounted(dbs: seq<Db>, moves: seq<Move>, a: nat, n: nat, id: JobId,
                                               ids: seq<JobId>, busy: set<SessionId>) returns (left: set<SessionId>)
    requires IsTrace(dbs, moves) && Inv(dbs[0]) && a <= n <= |moves| && WaitsThroughout(dbs, id, a, n)
    requires HasOlder(dbs[n].rows, id, ids) && forall s :: Claiming(PhaseOf(dbs[a], s)) ==> s in busy
    ensures Accounted(dbs[a], dbs[n], id, ids, busy, left)
  {
    if n == a {
      TracesStaySound(dbs, moves, a);
      StartsAreAccounted(dbs[a], id, ids, busy);
      left := busy;
    } else {
      WindowsNarrow(dbs, moves, a, n, id, ids);
      var before := WindowsAreAccounted(dbs, moves, a, n - 1, id, ids, busy);
      left := StepsAreAccounted(dbs[a], dbs[n - 1], dbs[n], moves[n - 1], id, ids, busy, before);
    }
  }

  lemma OlderJobsAreBounded(dbs: seq<Db>, moves: seq<Move>, ids: seq<JobId>, maxAttempts: int)
    requires FromEmpty(dbs, moves) && SweepsWith(moves, maxAttempts) && maxAttempts >= 1
    requires forall id :: id in ids ==> id in dbs[|moves|].rows
    ensures CountIn(dbs[|moves|].issued, ids) <= |ids| * maxAttempts + SumFails(dbs[|moves|].log, ids)
  {
    var db := dbs[|moves|];
    TracesAreSound(dbs, moves);
    CountIsBoundedBySum(db, ids);
    forall id | id in ids
      ensures id in db.rows && id in db.log && db.rows[id].attempts <= maxAttempts + Fails(db.log[id])
    {
      ConcurrentJobsTerminate(dbs, moves, maxAttempts, id);
    }
    SumIsBounded(db.rows, db.log, ids, maxAttempts);
  }

  /**
   * Bounded waiting in any interleaving: while a job waits with no transaction locking its row, the
   * leases handed out are at most the attempt limit for each job at least as old, as far as it had
   * not been used before, one for each time such a job was given back, and one for each claim that
   * was under way when the job began to wait.
   */
  lemma WaitingIsBoundedInAnyInterleaving(dbs: seq<Db>, moves: seq<Move>, a: nat, id: JobId, ids: seq<JobId>,
                                          busy: set<SessionId>, maxAttempts: int)
    requires FromEmpty(dbs, moves) && SweepsWith(moves, maxAttempts) && maxAttempts >= 1 && a <= |moves|
    requires WaitsThroughout(dbs, id, a, |moves|)
    requires HasOlder(dbs[|moves|].rows, id, ids) && forall older :: older in ids ==> older in dbs[|moves|].rows
    requires forall s :: Claiming(PhaseOf(dbs[a], s)) ==> s in busy
    ensures |dbs[|moves|].issued| - |dbs[a].issued| <=
      |ids| * maxAttempts + SumFails(dbs[|moves|].log, ids) - CountIn(dbs[a].issued, ids) + |busy|
  {
    assert Inv(EMPTY_DB);
    var left := WindowsAreAccounted(dbs, moves, a, |moves|, id, ids, busy);
    OlderJobsAreBounded(dbs, moves, ids, maxAttempts);
  }
}
