/** When two sweeps of app/queue/database.py can block each other for good. */
module SweepDeadlocks {
  import opened Base
  import opened Lifecycle
  import opened Jobs
  import opened JobHistory
  import opened MemoryQueue
  import opened SqlQueue
  import opened SqlSessions
  import opened SqlDeadlocks

  /** The rows that the first statement of a sweep finds, and those that the second does. */
  function ToRequeue(t: Table, maxAttempts: int, now: Time): set<JobId> {
    Found(t, map[], false, maxAttempts, now)
  }

  function ToAbandon(t: Table, maxAttempts: int, now: Time): set<JobId> {
    Found(t, map[], true, maxAttempts, now)
  }

  /** Two rows that both sweeps put back; or none, and two that both give up. */
  predicate Contended(t: Table, maxAttempts: int, now: Time, now': Time) {
    var requeue := ToRequeue(t, maxAttempts, now) * ToRequeue(t, maxAttempts, now');
    var abandon := ToAbandon(t, maxAttempts, now) * ToAbandon(t, maxAttempts, now');
    |requeue| >= 2 || (requeue == {} && |abandon| >= 2)
  }

  /** A move of this sweep, up to where it would commit. */
  predicate OfOneSweep(m: Move, s: SessionId, maxAttempts: int, now: Time) {
    m == BeginSweep(s, maxAttempts, now) || IsSweepMove(m, s)
  }

  predicate OfTheSweeps(m: Move, s: SessionId, t: SessionId, maxAttempts: int, now: Time, now': Time) {
    OfOneSweep(m, s, maxAttempts, now) || OfOneSweep(m, t, maxAttempts, now')
  }

  /** Two idle sessions, and no lock on a row that one of their sweeps would find. */
  predicate BothIdle(db: Db, s: SessionId, t: SessionId, maxAttempts: int, now: Time, now': Time) {
    && s != t && PhaseOf(db, s).Idle? && PhaseOf(db, t).Idle?
    && forall id | id in db.locks ::
      !Concerned(db.rows, maxAttempts, now, id) && !Concerned(db.rows, maxAttempts, now', id)
  }

  predicate Concerned(t: Table, maxAttempts: int, now: Time, id: JobId) {
    id in ToRequeue(t, maxAttempts, now) || id in ToAbandon(t, maxAttempts, now)
  }

  lemma KindsAreApart(t: Table, maxAttempts: int, now: Time, now': Time, id: JobId)
    requires id in ToRequeue(t, maxAttempts, now)
    ensures id !in ToAbandon(t, maxAttempts, now')
  {}

  // ------------------------------------------------------------------------------------------
  // Only then.

  /** The rows a sweep has updated so far. */
  function SweptBy(p: Phase): set<JobId> {
    match p
    case Sweeping(_, _, _, _, swept) => swept.Keys
    case Ready(_, writes, _) => writes.Keys
    case _ => {}
  }

  /**
   * One of the two sweeps: not begun, or as far as `SoloSweep` says; among its rows it has locked what
   * it has updated.
   */
  ghost predicate Underway(t: Table, d: Db, s: SessionId, maxAttempts: int, now: Time) {
    && d.rows == t && (PhaseOf(d, s).Idle? || SoloSweep(t, PhaseOf(d, s), maxAttempts, now))
    && (forall id :: id in SweptBy(PhaseOf(d, s)) ==> id in d.locks && d.locks[id] == s)
  }

  ghost predicate LocksAreSweeps(t: Table, d: Db, s: SessionId, maxAttempts: int, now: Time, now': Time) {
    forall id | id in d.locks && d.locks[id] == s
      && (Concerned(t, maxAttempts, now, id) || Concerned(t, maxAttempts, now', id)) :: id in SweptBy(PhaseOf(d, s))
  }

  lemma VisitsStayUnderway(t: Table, d: Db, s: SessionId, maxAttempts: int, now: Time, id: JobId)
    requires Underway(t, d, s, maxAttempts, now) && Enabled(d, SweepOne(s, id))
    ensures var after := Fire(d, SweepOne(s, id));
      && Underway(t, after, s, maxAttempts, now) && after.locks == d.locks[id := s]
      && SweptBy(PhaseOf(after, s)) == SweptBy(PhaseOf(d, s)) + {id}
  {
    SoloSweepMoves(d, SweepOne(s, id), t, maxAttempts, now);
  }

  lemma SweepsStayUnderway(t: Table, d: Db, m: Move, s: SessionId, maxAttempts: int, now: Time)
    requires Underway(t, d, s, maxAttempts, now) && Enabled(d, m)
    requires OfOneSweep(m, s, maxAttempts, now)
    ensures Underway(t, Fire(d, m), s, maxAttempts, now)
    ensures SweptBy(PhaseOf(Fire(d, m), s)) ==
      SweptBy(PhaseOf(d, s)) + if m.SweepOne? then {m.id} else {}
    ensures Fire(d, m).locks == if m.SweepOne? then d.locks[m.id := s] else d.locks
  {
    if m.SweepOne? {
      VisitsStayUnderway(t, d, s, maxAttempts, now, m.id);
    } else if !m.BeginSweep? {
      SoloSweepMoves(d, m, t, maxAttempts, now);
    }
  }

  /** The other sweep does not notice, but that it finds rows locked. */
  lemma OtherStaysUnderway(t: Table, d: Db, m: Move, s: SessionId, maxAttempts: int, now: Time, other: SessionId,
                           now': Time)
    requires Underway(t, d, s, maxAttempts, now) && Underway(t, d, other, maxAttempts, now')
    requires s != other && Enabled(d, m)
    requires OfOneSweep(m, s, maxAttempts, now)
    ensures Underway(t, Fire(d, m), other, maxAttempts, now') && PhaseOf(Fire(d, m), other) == PhaseOf(d, other)
  {
    SweepsStayUnderway(t, d, m, s, maxAttempts, now);
  }

  ghost predicate BothUnderway(t: Table, d: Db, s: SessionId, t': SessionId, maxAttempts: int, now: Time, now': Time) {
    && s != t' && Underway(t, d, s, maxAttempts, now) && Underway(t, d, t', maxAttempts, now')
    && LocksAreSweeps(t, d, s, maxAttempts, now, now') && LocksAreSweeps(t, d, t', maxAttempts, now', now)
  }

  lemma BothStayUnderway(t: Table, d: Db, m: Move, s: SessionId, t': SessionId, maxAttempts: int, now: Time, now': Time)
    requires BothUnderway(t, d, s, t', maxAttempts, now, now') && Enabled(d, m)
    requires OfOneSweep(m, s, maxAttempts, now)
    ensures BothUnderway(t, Fire(d, m), s, t', maxAttempts, now, now')
  {
    SweepsStayUnderway(t, d, m, s, maxAttempts, now);
    OtherStaysUnderway(t, d, m, s, maxAttempts, now, t', now');
  }

  lemma {:induction false} RunsStayUnderway(dbs: seq<Db>, moves: seq<Move>, s: SessionId, t: SessionId,
                                            maxAttempts: int,
                                            now: Time, now': Time, n: nat)
    requires IsTrace(dbs, moves) && n <= |moves| && BothIdle(dbs[0], s, t, maxAttempts, now, now')
    requires forall m :: m in moves ==> OfTheSweeps(m, s, t, maxAttempts, now, now')
    ensures BothUnderway(dbs[0].rows, dbs[n], s, t, maxAttempts, now, now')
  {
    if n > 0 {
      RunsStayUnderway(dbs, moves, s, t, maxAttempts, now, now', n - 1);
      var m := moves[n - 1];
      assert m in moves;
      if OfOneSweep(m, s, maxAttempts, now) {
        BothStayUnderway(dbs[0].rows, dbs[n - 1], m, s, t, maxAttempts, now, now');
      } else {
        BothStayUnderway(dbs[0].rows, dbs[n - 1], m, t, s, maxAttempts, now', now);
      }
    }
  }

  lemma TwoElements(x: JobId, y: JobId, all: set<JobId>)
    requires x in all && y in all && x != y
    ensures |all| >= 2
  {
    assert {x, y} <= all;
    assert |all - {x, y}| + |{x, y}| == |all|;
  }

  /** Each waits for a row the other has updated: then they were in the same statement, with two rows in common. */
  lemma MutualWaitsAreContention(t: Table, d: Db, s: SessionId, t': SessionId, maxAttempts: int, now: Time, now': Time)
    requires BothUnderway(t, d, s, t', maxAttempts, now, now') && WaitsFor(d, s, t') && WaitsFor(d, t', s)
    ensures Contended(t, maxAttempts, now, now')
  {
    var y: JobId :| Awaits(d, s, t', y);
    var x: JobId :| Awaits(d, t', s, x);
    var p, p' := PhaseOf(d, s), PhaseOf(d, t');
    assert x in SweptBy(p) && y in SweptBy(p') && y in p.rest && x in p'.rest && x != y;
    if !p.abandoning {
      TwoElements(x, y, ToRequeue(t, maxAttempts, now) * ToRequeue(t, maxAttempts, now'));
    } else {
      TwoElements(x, y, ToAbandon(t, maxAttempts, now) * ToAbandon(t, maxAttempts, now'));
      forall id
        ensures id !in ToRequeue(t, maxAttempts, now) * ToRequeue(t, maxAttempts, now')
      {
        assert id in ToRequeue(t, maxAttempts, now) ==> id in SweptBy(p);
        assert id in ToRequeue(t, maxAttempts, now') ==> id in SweptBy(p');
      }
    }
  }

  // ------------------------------------------------------------------------------------------
  // And then.

  /** `s` is in this statement of its sweep with these rows to go. */
  ghost predicate Stands(d: Db, s: SessionId, maxAttempts: int, now: Time, abandoning: bool, rest: set<JobId>) {
    var p := PhaseOf(d, s);
    && p.Sweeping? && SoloSweep(d.rows, p, maxAttempts, now) && p.abandoning == abandoning && p.rest == rest
  }

  /** Only `s` has moved: it has locked `taken` besides. */
  ghost predicate OnlyMoved(d: Db, d': Db, s: SessionId, taken: set<JobId>) {
    && d'.rows == d.rows && (forall v | v != s :: PhaseOf(d', v) == PhaseOf(d, v))
    && (forall id | id in taken :: id in d'.locks && d'.locks[id] == s)
    && forall id | id !in taken ::
      (id in d'.locks <==> id in d.locks) && (id in d.locks ==> d'.locks[id] == d.locks[id])
  }

  lemma OneVisit(d: Db, s: SessionId, maxAttempts: int, now: Time, abandoning: bool, rest: set<JobId>, id: JobId)
    requires Stands(d, s, maxAttempts, now, abandoning, rest) && id in rest && !LockedByOther(d, s, id)
    ensures Enabled(d, SweepOne(s, id)) && OnlyMoved(d, Fire(d, SweepOne(s, id)), s, {id})
    ensures Stands(Fire(d, SweepOne(s, id)), s, maxAttempts, now, abandoning, rest - {id})
  {
    SoloSweepMoves(d, SweepOne(s, id), d.rows, maxAttempts, now);
  }

  lemma MovedTwice(d: Db, d': Db, d'': Db, s: SessionId, taken: set<JobId>, more: set<JobId>)
    requires OnlyMoved(d, d', s, taken) && OnlyMoved(d', d'', s, more)
    ensures OnlyMoved(d, d'', s, taken + more)
  {}

  lemma OneThenTheRest(all: set<JobId>, todo: set<JobId>, id: JobId)
    requires id in todo && todo <= all
    ensures {id} + (todo - {id}) == todo && all - {id} - (todo - {id}) == all - todo && todo - {id} <= all - {id}
    ensures |todo - {id}| < |todo|
  {}

  lemma StillUnlocked(d: Db, d1: Db, s: SessionId, id: JobId, todo: set<JobId>)
    requires OnlyMoved(d, d1, s, {id}) && forall k | k in todo :: !LockedByOther(d, s, k)
    ensures forall k | k in todo - {id} :: !LockedByOther(d1, s, k)
  {}

  lemma VisitThen(d: Db, s: SessionId, id: JobId, d1: Db, more: seq<Move>, after: Db) returns (moves: seq<Move>)
    requires Enabled(d, SweepOne(s, id)) && d1 == Fire(d, SweepOne(s, id)) && Reaches(d1, more, after)
    requires forall m :: m in more ==> IsSweepMove(m, s)
    ensures Reaches(d, moves, after) && forall m :: m in moves ==> IsSweepMove(m, s)
  {
    ReachesOne(d, SweepOne(s, id));
    ReachesJoin(d, [SweepOne(s, id)], d1, more, after);
    moves := [SweepOne(s, id)] + more;
  }

  /** A sweep can visit whatever rows of its statement nobody else has locked. */
  lemma {:induction false} VisitAll(d: Db, s: SessionId, maxAttempts: int, now: Time, abandoning: bool,
                                    rest: set<JobId>,
                                    todo: set<JobId>) returns (moves: seq<Move>, after: Db)
    requires Stands(d, s, maxAttempts, now, abandoning, rest) && todo <= rest
    requires forall id | id in todo :: !LockedByOther(d, s, id)
    ensures Reaches(d, moves, after) && forall m :: m in moves ==> IsSweepMove(m, s)
    ensures Stands(after, s, maxAttempts, now, abandoning, rest - todo) && OnlyMoved(d, after, s, todo)
    decreases |todo|
  {
    if todo == {} {
      ReachesNone(d);
      moves, after := [], d;
      assert rest - todo == rest;
    } else {
      var id :| id in todo;
      OneVisit(d, s, maxAttempts, now, abandoning, rest, id);
      var d1 := Fire(d, SweepOne(s, id));
      OneThenTheRest(rest, todo, id);
      StillUnlocked(d, d1, s, id, todo);
      var more;
      more, after := VisitAll(d1, s, maxAttempts, now, abandoning, rest - {id}, todo - {id});
      moves := VisitThen(d, s, id, d1, more, after);
      MovedTwice(d, d1, after, s, {id}, todo - {id});
    }
  }

  lemma Begin(d: Db, s: SessionId, maxAttempts: int, now: Time)
    requires PhaseOf(d, s).Idle?
    ensures var m := BeginSweep(s, maxAttempts, now);
      && Enabled(d, m) && OnlyMoved(d, Fire(d, m), s, {})
      && Stands(Fire(d, m), s, maxAttempts, now, false, ToRequeue(d.rows, maxAttempts, now))
  {
    var rest := ToRequeue(d.rows, maxAttempts, now);
    assert rest - rest == {};
  }

  lemma GoOn(d: Db, s: SessionId, maxAttempts: int, now: Time)
    requires Stands(d, s, maxAttempts, now, false, {})
    ensures var m := NextStatement(s);
      && Enabled(d, m) && OnlyMoved(d, Fire(d, m), s, {})
      && Stands(Fire(d, m), s, maxAttempts, now, true, ToAbandon(d.rows, maxAttempts, now))
  {
    SoloSweepMoves(d, NextStatement(s), d.rows, maxAttempts, now);
    var p := PhaseOf(d, s);
    assert Found(d.rows, p.swept, true, maxAttempts, now) == ToAbandon(d.rows, maxAttempts, now);
  }

  /** A sweep can go to its first statement with all but `left` visited. */
  lemma SweepToFirst(d: Db, s: SessionId, maxAttempts: int, now: Time, left: set<JobId>)
    returns (moves: seq<Move>, after: Db)
    requires PhaseOf(d, s).Idle? && left <= ToRequeue(d.rows, maxAttempts, now)
    requires forall id | id in ToRequeue(d.rows, maxAttempts, now) - left :: id !in d.locks
    ensures Reaches(d, moves, after) && forall m :: m in moves ==> OfOneSweep(m, s, maxAttempts, now)
    ensures Stands(after, s, maxAttempts, now, false, left)
    ensures OnlyMoved(d, after, s, ToRequeue(d.rows, maxAttempts, now) - left)
  {
    var all := ToRequeue(d.rows, maxAttempts, now);
    Begin(d, s, maxAttempts, now);
    var d1 := Fire(d, BeginSweep(s, maxAttempts, now));
    moves, after := VisitAll(d1, s, maxAttempts, now, false, all, all - left);
    ReachesOne(d, BeginSweep(s, maxAttempts, now));
    ReachesJoin(d, [BeginSweep(s, maxAttempts, now)], d1, moves, after);
    moves := [BeginSweep(s, maxAttempts, now)] + moves;
    assert all - (all - left) == left && {} + (all - left) == all - left;
    MovedTwice(d, d1, after, s, {}, all - left);
  }

  lemma GoOnThen(d: Db, s: SessionId, maxAttempts: int, now: Time, first: seq<Move>, d1: Db, second: seq<Move>,
                 after: Db)
    returns (moves: seq<Move>)
    requires Reaches(d, first, d1) && Enabled(d1, NextStatement(s))
    requires Reaches(Fire(d1, NextStatement(s)), second, after)
    requires forall m :: m in first || m in second ==> OfOneSweep(m, s, maxAttempts, now)
    ensures Reaches(d, moves, after) && forall m :: m in moves ==> OfOneSweep(m, s, maxAttempts, now)
  {
    ReachesOne(d1, NextStatement(s));
    ReachesJoin(d1, [NextStatement(s)], Fire(d1, NextStatement(s)), second, after);
    ReachesJoin(d, first, d1, [NextStatement(s)] + second, after);
    moves := first + ([NextStatement(s)] + second);
  }

  /** Or to its second, with all of the first and all but `left` of the second visited. */
  lemma SweepToSecond(d: Db, s: SessionId, maxAttempts: int, now: Time, left: set<JobId>)
    returns (moves: seq<Move>, after: Db)
    requires PhaseOf(d, s).Idle? && left <= ToAbandon(d.rows, maxAttempts, now)
    requires forall id | id in ToRequeue(d.rows, maxAttempts, now) :: id !in d.locks
    requires forall id | id in ToAbandon(d.rows, maxAttempts, now) - left :: id !in d.locks
    ensures Reaches(d, moves, after) && forall m :: m in moves ==> OfOneSweep(m, s, maxAttempts, now)
    ensures Stands(after, s, maxAttempts, now, true, left)
    ensures OnlyMoved(d, after, s, ToRequeue(d.rows, maxAttempts, now) + (ToAbandon(d.rows, maxAttempts, now) - left))
  {
    var requeue, all := ToRequeue(d.rows, maxAttempts, now), ToAbandon(d.rows, maxAttempts, now);
    var first, d1 := SweepToFirst(d, s, maxAttempts, now, {});
    assert requeue - {} == requeue && requeue + {} == requeue;
    GoOn(d1, s, maxAttempts, now);
    var d2 := Fire(d1, NextStatement(s));
    MovedTwice(d, d1, d2, s, requeue, {});
    forall id | id in all - left
      ensures !LockedByOther(d2, s, id)
    {
      assert id !in requeue;
    }
    var second;
    second, after := VisitAll(d2, s, maxAttempts, now, true, all, all - left);
    MovedTwice(d, d2, after, s, requeue, all - left);
    assert all - (all - left) == left;
    moves := GoOnThen(d, s, maxAttempts, now, first, d1, second, after);
  }

  /** `s` has only `y` to go, which `t` has taken since; what `t` has to go, `s` has taken before. */
  lemma BlockEachOther(mid: Db, after: Db, s: SessionId, t: SessionId, maxAttempts: int, now: Time, now': Time,
                       abandoning: bool, x: JobId, y: JobId, taken: set<JobId>, left: set<JobId>)
    requires s != t && Stands(mid, s, maxAttempts, now, abandoning, {y})
    requires Stands(after, t, maxAttempts, now', abandoning, left)
    requires OnlyMoved(mid, after, t, taken) && y in taken && x in left && left !! taken
    requires forall id | id in left :: id in mid.locks && mid.locks[id] == s
    ensures Deadlocked(after, s, t)
  {
    assert PhaseOf(after, s) == PhaseOf(mid, s);
    assert Awaits(after, s, t, y) && Awaits(after, t, s, x);
    TwoMakeACycle(after, s, t);
    BlockedSweepsAreStuck(after, s);
    BlockedSweepsAreStuck(after, t);
  }

  /** What one sweep leaves to the other when it stops short of `y`. */
  lemma LeftForTheOther(db: Db, mid: Db, s: SessionId, mine: set<JobId>, theirs: set<JobId>, y: JobId)
    requires OnlyMoved(db, mid, s, mine - {y}) && y in mine && y in theirs
    requires forall id | id in mine || id in theirs :: id !in db.locks
    ensures forall id | id in theirs - (mine * theirs - {y}) :: id !in mid.locks
    ensures forall id | id in mine * theirs - {y} :: id in mid.locks && mid.locks[id] == s
    ensures (mine * theirs - {y}) !! (theirs - (mine * theirs - {y})) && y in theirs - (mine * theirs - {y})
  {}

  lemma Shares(mine: set<JobId>, theirs: set<JobId>, y: JobId, id: JobId)
    requires y in mine && y in theirs
    ensures id in theirs - (mine * theirs - {y}) <==> id in theirs && id !in mine - {y}
    ensures id in mine * theirs - {y} <==> id in theirs && id in mine - {y}
  {}

  lemma TwoDifferent(all: set<JobId>) returns (x: JobId, y: JobId)
    requires |all| >= 2
    ensures x in all && y in all && x != y
  {
    x :| x in all;
    assert |all - {x}| >= 1;
    y :| y in all - {x};
  }

  lemma RequeueTheRest(mid: Db, s: SessionId, t: SessionId, maxAttempts: int, now: Time, now': Time,
                       x: JobId, y: JobId, left: set<JobId>) returns (moves: seq<Move>, after: Db)
    requires s != t && Stands(mid, s, maxAttempts, now, false, {y}) && PhaseOf(mid, t).Idle?
    requires left <= ToRequeue(mid.rows, maxAttempts, now') && x in left
    requires y in ToRequeue(mid.rows, maxAttempts, now') - left
    requires forall id | id in ToRequeue(mid.rows, maxAttempts, now') - left :: id !in mid.locks
    requires forall id | id in left :: id in mid.locks && mid.locks[id] == s
    ensures Reaches(mid, moves, after) && Deadlocked(after, s, t)
    ensures forall m :: m in moves ==> OfOneSweep(m, t, maxAttempts, now')
  {
    moves, after := SweepToFirst(mid, t, maxAttempts, now', left);
    var taken := ToRequeue(mid.rows, maxAttempts, now') - left;
    BlockEachOther(mid, after, s, t, maxAttempts, now, now', false, x, y, taken, left);
  }

  lemma RequeueingMayDeadlock(db: Db, s: SessionId, t: SessionId, maxAttempts: int, now: Time, now': Time,
                              x: JobId, y: JobId) returns (moves: seq<Move>, after: Db)
    requires BothIdle(db, s, t, maxAttempts, now, now') && x != y
    requires x in ToRequeue(db.rows, maxAttempts, now) && x in ToRequeue(db.rows, maxAttempts, now')
    requires y in ToRequeue(db.rows, maxAttempts, now) && y in ToRequeue(db.rows, maxAttempts, now')
    ensures Reaches(db, moves, after) && forall m :: m in moves ==> OfTheSweeps(m, s, t, maxAttempts, now, now')
    ensures Deadlocked(after, s, t)
  {
    var r, r' := ToRequeue(db.rows, maxAttempts, now), ToRequeue(db.rows, maxAttempts, now');
    var left := r * r' - {y};
    assert forall id | id in r || id in r' :: id !in db.locks;
    var first, mid := SweepToFirst(db, s, maxAttempts, now, {y});
    LeftForTheOther(db, mid, s, r, r', y);
    var second;
    second, after := RequeueTheRest(mid, s, t, maxAttempts, now, now', x, y, left);
    ReachesJoin(db, first, mid, second, after);
    moves := first + second;
  }

  lemma AbandoningMayDeadlock(db: Db, s: SessionId, t: SessionId, maxAttempts: int, now: Time, now': Time,
                              x: JobId, y: JobId) returns (moves: seq<Move>, after: Db)
    requires BothIdle(db, s, t, maxAttempts, now, now') && x != y
    requires ToRequeue(db.rows, maxAttempts, now) * ToRequeue(db.rows, maxAttempts, now') == {}
    requires x in ToAbandon(db.rows, maxAttempts, now) && x in ToAbandon(db.rows, maxAttempts, now')
    requires y in ToAbandon(db.rows, maxAttempts, now) && y in ToAbandon(db.rows, maxAttempts, now')
    ensures Reaches(db, moves, after) && forall m :: m in moves ==> OfTheSweeps(m, s, t, maxAttempts, now, now')
    ensures Deadlocked(after, s, t)
  {
    var r, r' := ToRequeue(db.rows, maxAttempts, now), ToRequeue(db.rows, maxAttempts, now');
    var a, a' := ToAbandon(db.rows, maxAttempts, now), ToAbandon(db.rows, maxAttempts, now');
    var left := a * a' - {y};
    var first, mid := SweepToSecond(db, s, maxAttempts, now, {y});
    forall id {
      Shares(a, a', y, id);
    }
    forall id | id in r'
      ensures id !in mid.locks
    {
      assert id !in r * r';
      KindsAreApart(db.rows, maxAttempts, now', now, id);
    }
    var second;
    second, after := SweepToSecond(mid, t, maxAttempts, now', left);
    BlockEachOther(mid, after, s, t, maxAttempts, now, now', true, x, y, r' + (a' - left), left);
    ReachesJoin(db, first, mid, second, after);
    moves := first + second;
  }

  /** One of the sweeps visits all but one of its rows, the other that row and those only it finds. */
  lemma SweepsMayDeadlock(db: Db, s: SessionId, t: SessionId, maxAttempts: int, now: Time, now': Time)
    returns (moves: seq<Move>, after: Db)
    requires BothIdle(db, s, t, maxAttempts, now, now') && Contended(db.rows, maxAttempts, now, now')
    ensures Reaches(db, moves, after) && forall m :: m in moves ==> OfTheSweeps(m, s, t, maxAttempts, now, now')
    ensures Deadlocked(after, s, t)
  {
    var requeue := ToRequeue(db.rows, maxAttempts, now) * ToRequeue(db.rows, maxAttempts, now');
    if |requeue| >= 2 {
      var x, y := TwoDifferent(requeue);
      moves, after := RequeueingMayDeadlock(db, s, t, maxAttempts, now, now', x, y);
    } else {
      var x, y := TwoDifferent(ToAbandon(db.rows, maxAttempts, now) * ToAbandon(db.rows, maxAttempts, now'));
      moves, after := AbandoningMayDeadlock(db, s, t, maxAttempts, now, now', x, y);
    }
  }

  /** A run of the two sweeps, each up to where it would commit, ends in a deadlock. */
  ghost predicate CanDeadlock(db: Db, s: SessionId, t: SessionId, maxAttempts: int, now: Time, now': Time) {
    exists moves: seq<Move>, after: Db ::
      && Reaches(db, moves, after) && Deadlocked(after, s, t)
      && forall m :: m in moves ==> OfTheSweeps(m, s, t, maxAttempts, now, now')
  }

  /** Two sweeps with the same attempt limit, whenever they read the clock, can deadlock exactly on contended rows. */
  lemma TwoSweepsDeadlockExactlyWhen(db: Db, s: SessionId, t: SessionId, maxAttempts: int, now: Time, now': Time)
    requires BothIdle(db, s, t, maxAttempts, now, now')
    ensures CanDeadlock(db, s, t, maxAttempts, now, now') <==> Contended(db.rows, maxAttempts, now, now')
  {
    if Contended(db.rows, maxAttempts, now, now') {
      var moves, after := SweepsMayDeadlock(db, s, t, maxAttempts, now, now');
    }
    if CanDeadlock(db, s, t, maxAttempts, now, now') {
      var moves: seq<Move>, after: Db :|
        && Reaches(db, moves, after) && Deadlocked(after, s, t)
        && forall m :: m in moves ==> OfTheSweeps(m, s, t, maxAttempts, now, now');
      SweepsOnContendedRowsOnly(db, s, t, maxAttempts, now, now', moves, after);
    }
  }

  /** On other rows not even a cycle of waits comes about. */
  lemma SweepsOnContendedRowsOnly(db: Db, s: SessionId, t: SessionId, maxAttempts: int, now: Time, now': Time,
                                  moves: seq<Move>, after: Db)
    requires BothIdle(db, s, t, maxAttempts, now, now') && Reaches(db, moves, after) && IsCycle(after, [s, t])
    requires forall m :: m in moves ==> OfTheSweeps(m, s, t, maxAttempts, now, now')
    ensures Contended(db.rows, maxAttempts, now, now')
  {
    var dbs: seq<Db> :| IsTraceTo(dbs, db, moves, after);
    RunsStayUnderway(dbs, moves, s, t, maxAttempts, now, now', |moves|);
    TwoMakeACycle(after, s, t);
    MutualWaitsAreContention(db.rows, after, s, t, maxAttempts, now, now');
  }

  /** A run from the empty database, without an illegal transition, into such a deadlock. */
  lemma ADeadlock() returns (dbs: seq<Db>, moves: seq<Move>)
    ensures FromEmpty(dbs, moves) && Deadlocked(dbs[|moves|], 0, 1)
    ensures forall k | 0 <= k < |moves| :: !RefusedAsIllegal(dbs[k], moves[k])
  {
    var start, db := TwoLapsedJobs();
    var both := ToRequeue(db.rows, 3, 0) * ToRequeue(db.rows, 3, 0);
    assert 1 in both && 2 in both;
    TwoElements(1, 2, both);
    var sweeps, after := SweepsMayDeadlock(db, 0, 1, 3, 0, 0);
    ReachesJoin(EMPTY_DB, start, db, sweeps, after);
    moves := start + sweeps;
    dbs :| IsTraceTo(dbs, EMPTY_DB, moves, after);
    forall k | 0 <= k < |moves|
      ensures !RefusedAsIllegal(dbs[k], moves[k])
    {
      assert moves[k] in moves && !moves[k].Decide?;
    }
  }
}
