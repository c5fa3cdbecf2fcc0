/**
 * Any number of database sessions working on the jobs table at once: app/queue/database.py under
 * READ COMMITTED, the isolation level in force when none is configured (app/db/session.py).
 *
 * A move is what one session does between two points at which others can act: take a snapshot,
 * try one row, obtain a lock, act, commit, roll back. A statement sees the rows committed when it
 * began, but re-checks its condition on the newest committed version of a row once it has the lock.
 * Waiting for a lock is a move that is not enabled yet.
 */
module SqlSessions {
  import opened Base
  import opened Lifecycle
  import opened Jobs
  import opened JobHistory
  import opened MemoryQueue
  import opened MemoryRuns
  import opened SqlQueue

  type SessionId = nat

  datatype Phase =
    | Idle
    /** The claim's subselect, with the rest of its snapshot of waiting rows, oldest first. */
    | Scanning(worker: WorkerId, leaseSeconds: int, now: Time, todo: seq<JobId>)
    /** SELECT ... FOR UPDATE issued; `visible` is whether its snapshot contains the row. */
    | Asking(id: JobId, holder: WorkerId, action: Action, visible: bool)
    /** Row lock obtained, ownership not yet checked. */
    | Deciding(id: JobId, holder: WorkerId, action: Action)
    /** One of the two statements of a sweep, with the rows of its snapshot still to visit. */
    | Sweeping(maxAttempts: int, now: Time, abandoning: bool, rest: set<JobId>, swept: Table)
    /** Everything written, commit outstanding; the lease is returned only after the commit. */
    | Ready(event: Event, writes: Table, lease: Option<Grant>)

  /** Committed rows, committed history of each, row locks, sessions, and the leases returned so far. */
  datatype Db = Db(
    rows: Table,
    log: map<JobId, History>,
    locks: map<JobId, SessionId>,
    phases: map<SessionId, Phase>,
    issued: seq<Grant>)

  const EMPTY_DB := Db(map[], map[], map[], map[], [])

  function PhaseOf(db: Db, s: SessionId): Phase {
    if s in db.phases then db.phases[s] else Idle
  }

  predicate HeldByOther(locks: map<JobId, SessionId>, s: SessionId, id: JobId) {
    id in locks && locks[id] != s
  }

  predicate LockedByOther(db: Db, s: SessionId, id: JobId) {
    HeldByOther(db.locks, s, id)
  }

  datatype Move =
    | Insert(id: JobId, createdAt: Time, sampleSha256: string)
    | BeginClaim(s: SessionId, worker: WorkerId, leaseSeconds: int, now: Time, todo: seq<JobId>)
    | Probe(s: SessionId)
    | FindNothing(s: SessionId)
    | BeginAsk(s: SessionId, id: JobId, worker: WorkerId, action: Action)
    | Miss(s: SessionId)
    | TakeLock(s: SessionId)
    | Decide(s: SessionId, now: Time)
    | BeginSweep(s: SessionId, maxAttempts: int, now: Time)
    | SweepOne(s: SessionId, id: JobId)
    | NextStatement(s: SessionId)
    | EndSweep(s: SessionId)
    | Commit(s: SessionId)
    | Abort(s: SessionId)

  /** The waiting rows in creation order, ties broken either way. */
  ghost predicate IsScanOrder(t: Table, todo: seq<JobId>) {
    && (forall id :: id in todo <==> IsQueued(t, id))
    && forall i, j | 0 <= i < j < |todo| && todo[i] in t && todo[j] in t :: t[todo[i]].createdAt <= t[todo[j]].createdAt
  }

  predicate Matches(row: JobRow, abandoning: bool, maxAttempts: int, now: Time) {
    if abandoning then MustAbandon(row, maxAttempts, now) else MustRequeue(row, maxAttempts, now)
  }

  function SweepValues(row: JobRow, abandoning: bool, maxAttempts: int, now: Time): JobRow {
    if abandoning then AbandonValues(row, maxAttempts, now) else RequeueValues(row)
  }

  /** The rows a sweep statement finds in its snapshot; its own earlier writes no longer match. */
  function Found(t: Table, swept: Table, abandoning: bool, maxAttempts: int, now: Time): set<JobId> {
    set id | id in t && id !in swept && Matches(t[id], abandoning, maxAttempts, now)
  }

  ghost predicate Enabled(db: Db, m: Move) {
    match m
    case Insert(id, _, _) => id !in db.rows
    case BeginClaim(s, _, _, _, todo) => PhaseOf(db, s).Idle? && IsScanOrder(db.rows, todo)
    case Probe(s) => PhaseOf(db, s).Scanning? && PhaseOf(db, s).todo != [] && PhaseOf(db, s).todo[0] in db.rows
    case FindNothing(s) => PhaseOf(db, s).Scanning? && PhaseOf(db, s).todo == []
    case BeginAsk(s, _, _, _) => PhaseOf(db, s).Idle?
    case Miss(s) => PhaseOf(db, s).Asking? && !PhaseOf(db, s).visible
    case TakeLock(s) => PhaseOf(db, s).Asking? && PhaseOf(db, s).visible && !LockedByOther(db, s, PhaseOf(db, s).id)
    case Decide(s, _) => PhaseOf(db, s).Deciding? && PhaseOf(db, s).id in db.rows
    case BeginSweep(s, _, _) => PhaseOf(db, s).Idle?
    case SweepOne(s, id) =>
      PhaseOf(db, s).Sweeping? && id in PhaseOf(db, s).rest && id in db.rows && !LockedByOther(db, s, id)
    case NextStatement(s) => PhaseOf(db, s).Sweeping? && PhaseOf(db, s).rest == {} && !PhaseOf(db, s).abandoning
    case EndSweep(s) => PhaseOf(db, s).Sweeping? && PhaseOf(db, s).rest == {} && PhaseOf(db, s).abandoning
    case Commit(s) => PhaseOf(db, s).Ready?
    case Abort(s) => true
  }

  datatype LockEffect = Keep | Take(id: JobId) | ReleaseAll

  function Relocked(locks: map<JobId, SessionId>, s: SessionId, effect: LockEffect): map<JobId, SessionId> {
    match effect
    case Keep => locks
    case Take(id) => locks[id := s]
    case ReleaseAll => map id | id in locks && locks[id] != s :: locks[id]
  }

  /** Where a session stands after its move, and what the move does to the row locks. */
  ghost function Next(db: Db, m: Move): (next: (Phase, LockEffect))
    requires Enabled(db, m) && !m.Insert?
  {
    var p := PhaseOf(db, m.s);
    match m
    case BeginClaim(_, worker, secs, now, todo) => (Scanning(worker, secs, now, todo), Keep)
    case Probe(s) => Probed(db.rows, p, LockedByOther(db, s, p.todo[0]))
    case FindNothing(_) => (Idle, ReleaseAll)
    case BeginAsk(_, id, worker, action) => (Asking(id, worker, action, id in db.rows), Keep)
    case Miss(_) => (Idle, ReleaseAll)
    case TakeLock(_) => (Deciding(p.id, p.holder, p.action), Take(p.id))
    case Decide(_, now) => Decided(db.rows[p.id], p, now)
    case BeginSweep(_, max, now) => (Sweeping(max, now, false, Found(db.rows, map[], false, max, now), map[]), Keep)
    case SweepOne(_, id) => SweptOne(db.rows[id], p, id)
    case NextStatement(_) =>
      (p.(abandoning := true, rest := Found(db.rows, p.swept, true, p.maxAttempts, p.now)), Keep)
    case EndSweep(_) => (Ready(Sweep(p.maxAttempts, p.now), p.swept, None), Keep)
    case Commit(_) => (Idle, ReleaseAll)
    case Abort(_) => (Idle, ReleaseAll)
  }

  /** SKIP LOCKED, then lock and re-check, then the claiming UPDATE. */
  function Probed(t: Table, p: Phase, lockedByOther: bool): (Phase, LockEffect)
    requires p.Scanning? && p.todo != [] && p.todo[0] in t
  {
    var id := p.todo[0];
    if lockedByOther then (p.(todo := p.todo[1..]), Keep)
    else if t[id].status != Queued then (p.(todo := p.todo[1..]), Take(id))
    else
      var row := ClaimValues(t[id], p.worker, p.now, p.now + p.leaseSeconds);
      var lease := Grant(id, p.worker, p.now + p.leaseSeconds, row.attempts);
      (Ready(Lease(p.worker, p.leaseSeconds, p.now), map[id := row], Some(lease)), Take(id))
  }

  /** A stranger is rolled back; an illegal transition leaves the transaction open and the row locked. */
  function Decided(row: JobRow, p: Phase, now: Time): (Phase, LockEffect)
    requires p.Deciding?
  {
    match Act(row, p.holder, p.action, now)
    case Ok(acted) => (Ready(Did(p.holder, p.action, now), map[p.id := acted], None), Keep)
    case Err(why) => (Idle, if why.Illegal? then Keep else ReleaseAll)
  }

  /** The lock comes before the re-check, so a row that no longer matches stays locked too. */
  function SweptOne(row: JobRow, p: Phase, id: JobId): (Phase, LockEffect)
    requires p.Sweeping?
  {
    if Matches(row, p.abandoning, p.maxAttempts, p.now) then
      var values := SweepValues(row, p.abandoning, p.maxAttempts, p.now);
      (p.(rest := p.rest - {id}, swept := p.swept[id := values]), Take(id))
    else
      (p.(rest := p.rest - {id}), Take(id))
  }

  function Published(db: Db, e: Event, writes: Table, lease: Option<Grant>): Db {
    db.(rows := db.rows + writes,
        log := map id | id in db.log :: db.log[id] + if id in writes then [e] else [],
        issued := db.issued + if lease.Some? then [lease.value] else [])
  }

  ghost function Fire(db: Db, m: Move): Db
    requires Enabled(db, m)
  {
    if m.Insert? then
      db.(rows := db.rows[m.id := NewJob(m.createdAt, m.sampleSha256)], log := db.log[m.id := []])
    else
      var (phase, effect) := Next(db, m);
      var p := PhaseOf(db, m.s);
      var published := if m.Commit? then Published(db, p.event, p.writes, p.lease) else db;
      published.(phases := db.phases[m.s := phase], locks := Relocked(db.locks, m.s, effect))
  }

  // ------------------------------------------------------------------------------------------
  // What every move keeps.

  /** The rows a session has written but not committed: each locked, each one accepted event ahead. */
  ghost predicate WritesSound(t: Table, locks: map<JobId, SessionId>, s: SessionId, e: Event, writes: Table) {
    forall id :: id in writes ==>
      id in t && id in locks && locks[id] == s && Step(t[id], e) == Some(writes[id])
  }

  predicate LeaseSound(e: Event, writes: Table, lease: Option<Grant>) {
    && (lease.Some? <==> e.Lease?)
    && (lease.Some? ==>
        var g := lease.value;
        g == Grant(g.jobId, e.worker, e.at + e.leaseSeconds, g.attempt)
        && g.jobId in writes && g.attempt == writes[g.jobId].attempts)
  }

  ghost predicate PhaseSound(t: Table, locks: map<JobId, SessionId>, s: SessionId, p: Phase) {
    match p
    case Idle => true
    case Scanning(_, _, _, todo) => forall id :: id in todo ==> id in t
    case Asking(id, _, _, visible) => visible ==> id in t
    case Deciding(id, _, _) => id in t && id in locks && locks[id] == s
    case Sweeping(max, now, _, rest, swept) =>
      rest <= t.Keys && rest !! swept.Keys && WritesSound(t, locks, s, Sweep(max, now), swept)
    case Ready(e, writes, lease) =>
      WritesSound(t, locks, s, e, writes) && LeaseSound(e, writes, lease) && (e.Sweep? || |writes| == 1)
  }

  ghost predicate PhasesSound(db: Db) {
    forall s :: s in db.phases ==> PhaseSound(db.rows, db.locks, s, db.phases[s])
  }

  /** A returned lease stands in its job's committed history, with its attempt number. */
  predicate IssuedAt(h: History, g: Grant, c: nat) {
    c < |h| && h[c].Lease? && h[c].worker == g.workerId && Leases(h[..c + 1]) == g.attempt
  }

  ghost predicate Stands(log: map<JobId, History>, g: Grant) {
    g.jobId in log && exists c: nat :: IssuedAt(log[g.jobId], g, c)
  }

  ghost predicate LeasesSound(log: map<JobId, History>, issued: seq<Grant>) {
    && (forall g :: g in issued ==> Stands(log, g))
    && AttemptsGoUp(issued)
  }

  ghost predicate RowsSound(db: Db) {
    db.log.Keys == db.rows.Keys && forall id :: id in db.rows ==> Reached(db.log[id], db.rows[id])
  }

  /** Only existing rows are locked. */
  predicate LocksSound(db: Db) {
    db.locks.Keys <= db.rows.Keys
  }

  ghost predicate Inv(db: Db) {
    RowsSound(db) && LeasesSound(db.log, db.issued) && PhasesSound(db) && LocksSound(db)
  }

  lemma ProbeIsSound(t: Table, locks: map<JobId, SessionId>, s: SessionId, p: Phase, lockedByOther: bool)
    requires p.Scanning? && p.todo != [] && PhaseSound(t, locks, s, p)
    ensures PhaseSound(t, Relocked(locks, s, Probed(t, p, lockedByOther).1), s, Probed(t, p, lockedByOther).0)
  {
    BulkUpdatesAreTransitions(t[p.todo[0]], p.worker, p.leaseSeconds, 0, p.now);
  }

  lemma SweepOneIsSound(t: Table, locks: map<JobId, SessionId>, s: SessionId, p: Phase, id: JobId)
    requires p.Sweeping? && id in p.rest && id in t && PhaseSound(t, locks, s, p)
    ensures PhaseSound(t, Relocked(locks, s, SweptOne(t[id], p, id).1), s, SweptOne(t[id], p, id).0)
  {
    BulkUpdatesAreTransitions(t[id], "", 0, p.maxAttempts, p.now);
  }

  lemma ActorStaysSound(db: Db, m: Move)
    requires PhasesSound(db) && Enabled(db, m) && !m.Insert? && !m.Commit?
    ensures var (phase, effect) := Next(db, m); PhaseSound(db.rows, Relocked(db.locks, m.s, effect), m.s, phase)
  {
    var p := PhaseOf(db, m.s);
    assert PhaseSound(db.rows, db.locks, m.s, p);
    match m {
      case BeginClaim(_, _, _, _, todo) => assert forall id :: id in todo ==> IsQueued(db.rows, id);
      case Probe(s) => ProbeIsSound(db.rows, db.locks, s, p, LockedByOther(db, s, p.todo[0]));
      case SweepOne(s, id) => SweepOneIsSound(db.rows, db.locks, s, p, id);
      case _ =>
    }
  }

  /** The other sessions do not notice: what they have locked stays locked and unchanged. */
  lemma OthersStaySound(t: Table, locks: map<JobId, SessionId>, t': Table, locks': map<JobId, SessionId>,
                        s: SessionId, p: Phase)
    requires PhaseSound(t, locks, s, p) && t.Keys <= t'.Keys
    requires forall id | id in t && id in locks && locks[id] == s ::
      id in locks' && locks'[id] == s && t'[id] == t[id]
    ensures PhaseSound(t', locks', s, p)
  {}

  lemma LocksOfOthersStay(db: Db, m: Move, id: JobId)
    requires Enabled(db, m) && !m.Insert? && LockedByOther(db, m.s, id)
    ensures id in Relocked(db.locks, m.s, Next(db, m).1)
    ensures Relocked(db.locks, m.s, Next(db, m).1)[id] == db.locks[id]
  {}

  lemma MovesKeepPhasesSound(db: Db, m: Move)
    requires PhasesSound(db) && Enabled(db, m)
    ensures PhasesSound(Fire(db, m))
  {
    var after := Fire(db, m);
    forall t | t in after.phases
      ensures PhaseSound(after.rows, after.locks, t, after.phases[t])
    {
      if m.Insert? {
        OthersStaySound(db.rows, db.locks, after.rows, after.locks, t, db.phases[t]);
      } else if t != m.s {
        forall id | id in db.rows && id in db.locks && db.locks[id] == t
          ensures id in after.locks && after.locks[id] == t && after.rows[id] == db.rows[id]
        {
          LocksOfOthersStay(db, m, id);
          if m.Commit? {
            assert PhaseSound(db.rows, db.locks, m.s, db.phases[m.s]);
          }
        }
        OthersStaySound(db.rows, db.locks, after.rows, after.locks, t, db.phases[t]);
      } else if !m.Commit? {
        ActorStaysSound(db, m);
      }
    }
  }

  lemma PublishingKeepsRowsSound(db: Db, s: SessionId, e: Event, writes: Table, lease: Option<Grant>)
    requires RowsSound(db) && WritesSound(db.rows, db.locks, s, e, writes)
    ensures RowsSound(Published(db, e, writes, lease))
  {
    var after := Published(db, e, writes, lease);
    assert after.rows.Keys == db.rows.Keys == after.log.Keys;
    forall id | id in after.rows
      ensures Reached(after.log[id], after.rows[id])
    {
      if id in writes {
        ReachedSnoc(db.log[id], db.rows[id], e);
      } else {
        assert after.log[id] == db.log[id];
      }
    }
  }

  lemma StandsForGood(log: map<JobId, History>, log': map<JobId, History>, g: Grant)
    requires Stands(log, g) && g.jobId in log' && log[g.jobId] <= log'[g.jobId]
    ensures Stands(log', g)
  {
    var c: nat :| IssuedAt(log[g.jobId], g, c);
    assert log'[g.jobId][..c + 1] == log[g.jobId][..c + 1];
    assert IssuedAt(log'[g.jobId], g, c);
  }

  lemma AttemptsCoverLeases(log: map<JobId, History>, g: Grant, row: JobRow)
    requires Stands(log, g) && Reached(log[g.jobId], row)
    ensures g.attempt <= row.attempts
  {
    var h := log[g.jobId];
    var c: nat :| IssuedAt(h, g, c);
    LeasesGrow(h, c + 1);
    AttemptsCountLeases(h, row);
  }

  lemma NewLeaseStands(h: History, row: JobRow, e: Event, g: Grant)
    requires Reached(h, row) && e.Lease? && Step(row, e).Some?
    requires g.workerId == e.worker && g.attempt == Step(row, e).value.attempts
    ensures IssuedAt(h + [e], g, |h|) && g.attempt == row.attempts + 1
  {
    AttemptsCountLeases(h, row);
    assert (h + [e])[..|h| + 1] == h + [e] && (h + [e])[..|h|] == h;
  }

  lemma PublishingKeepsLeasesSound(db: Db, s: SessionId, e: Event, writes: Table, lease: Option<Grant>)
    requires RowsSound(db) && LeasesSound(db.log, db.issued)
    requires WritesSound(db.rows, db.locks, s, e, writes) && LeaseSound(e, writes, lease)
    ensures LeasesSound(Published(db, e, writes, lease).log, Published(db, e, writes, lease).issued)
  {
    var after := Published(db, e, writes, lease);
    forall g | g in db.issued
      ensures Stands(after.log, g)
      ensures lease.Some? && g.jobId == lease.value.jobId ==> g.attempt < lease.value.attempt
    {
      StandsForGood(db.log, after.log, g);
      AttemptsCoverLeases(db.log, g, db.rows[g.jobId]);
      if lease.Some? && g.jobId == lease.value.jobId {
        NewLeaseStands(db.log[g.jobId], db.rows[g.jobId], e, lease.value);
      }
    }
    if lease.Some? {
      var g := lease.value;
      NewLeaseStands(db.log[g.jobId], db.rows[g.jobId], e, g);
      assert IssuedAt(after.log[g.jobId], g, |db.log[g.jobId]|);
    }
    if lease.Some? {
      NewestStaysAhead(db.issued, lease.value);
    }
  }

  ghost predicate AttemptsGoUp(issued: seq<Grant>) {
    forall k, l | 0 <= k < l < |issued| && issued[k].jobId == issued[l].jobId :: issued[k].attempt < issued[l].attempt
  }

  lemma NewestStaysAhead(issued: seq<Grant>, lease: Grant)
    requires AttemptsGoUp(issued)
    requires forall g :: g in issued && g.jobId == lease.jobId ==> g.attempt < lease.attempt
    ensures AttemptsGoUp(issued + [lease])
  {
    assert forall k | 0 <= k < |issued| :: issued[k] in issued;
  }

  lemma InsertKeepsInv(db: Db, m: Move)
    requires Inv(db) && Enabled(db, m) && m.Insert?
    ensures RowsSound(Fire(db, m)) && LeasesSound(Fire(db, m).log, Fire(db, m).issued)
  {
    var after := Fire(db, m);
    ReachedNew(m.createdAt, m.sampleSha256);
    forall g | g in db.issued
      ensures Stands(after.log, g)
    {
      StandsForGood(db.log, after.log, g);
    }
  }

  lemma MovesKeepLocksSound(db: Db, m: Move)
    requires PhasesSound(db) && LocksSound(db) && Enabled(db, m)
    ensures LocksSound(Fire(db, m))
  {
    if m.TakeLock? {
      assert PhaseSound(db.rows, db.locks, m.s, db.phases[m.s]);
    }
  }

  lemma MovesKeepInv(db: Db, m: Move)
    requires Inv(db) && Enabled(db, m)
    ensures Inv(Fire(db, m))
  {
    MovesKeepPhasesSound(db, m);
    MovesKeepLocksSound(db, m);
    if m.Insert? {
      InsertKeepsInv(db, m);
    } else if m.Commit? {
      var p := db.phases[m.s];
      assert PhaseSound(db.rows, db.locks, m.s, p);
      PublishingKeepsRowsSound(db, m.s, p.event, p.writes, p.lease);
      PublishingKeepsLeasesSound(db, m.s, p.event, p.writes, p.lease);
    }
  }

  // ------------------------------------------------------------------------------------------
  // Whole runs.

  /** `dbs[i + 1]` follows from `dbs[i]` by `moves[i]`. */
  ghost predicate IsTrace(dbs: seq<Db>, moves: seq<Move>) {
    && |dbs| == |moves| + 1
    && forall i :: 0 <= i < |moves| ==> Enabled(dbs[i], moves[i]) && dbs[i + 1] == Fire(dbs[i], moves[i])
  }

  ghost predicate FromEmpty(dbs: seq<Db>, moves: seq<Move>) {
    IsTrace(dbs, moves) && dbs[0] == EMPTY_DB
  }

  lemma TracePrefix(dbs: seq<Db>, moves: seq<Move>, n: nat)
    requires IsTrace(dbs, moves) && n <= |moves|
    ensures IsTrace(dbs[..n + 1], moves[..n])
  {}

  /** In every interleaving, every reachable database is sound. */
  lemma {:induction false} TracesAreSound(dbs: seq<Db>, moves: seq<Move>)
    requires FromEmpty(dbs, moves)
    ensures Inv(dbs[|moves|])
  {
    if moves == [] {
    } else {
      var n := |moves| - 1;
      TracePrefix(dbs, moves, n);
      TracesAreSound(dbs[..n + 1], moves[..n]);
      MovesKeepInv(dbs[n], moves[n]);
    }
  }

  /**
   * Every committed row is coherent, counts its committed leases, and carries at most one outcome,
   * written last; `complete` would be accepted on it exactly for a worker that the history entitles.
   */
  lemma CommittedRowsAreHistories(dbs: seq<Db>, moves: seq<Move>, id: JobId, worker: WorkerId, outcome: RunOutcome,
                                  now: Time)
    requires FromEmpty(dbs, moves) && id in dbs[|moves|].rows
    ensures id in dbs[|moves|].log
    ensures var h, row := dbs[|moves|].log[id], dbs[|moves|].rows[id];
      && Reached(h, row) && Coherent(row) && row.attempts == Leases(h) && Completions(h) <= 1
      && (row.status == Finished <==> Completions(h) == 1)
      && (Act(row, worker, Complete(outcome), now).Ok? <==> HasStarted(h, worker))
  {
    TracesAreSound(dbs, moves);
    var h, row := dbs[|moves|].log[id], dbs[|moves|].rows[id];
    HistoriesAreCoherent(h, row);
    AttemptsCountLeases(h, row);
    OneOutcomePerJob(h, row);
    OwnerIsTheLatestLessee(h, row, worker);
  }

  lemma EarlierLeaseStandsEarlier(h: History, g: Grant, g': Grant, c: nat, c': nat)
    requires IssuedAt(h, g, c) && IssuedAt(h, g', c') && g.attempt < g'.attempt
    ensures c < c'
  {
    if c' <= c {
      assert h[..c + 1][..c' + 1] == h[..c' + 1];
      LeasesGrow(h[..c + 1], c' + 1);
    }
  }

  predicate PutBackBetween(h: History, g: Grant, g': Grant, a: nat, i: nat, b: nat) {
    IssuedAt(h, g, a) && IssuedAt(h, g', b) && a < i < b && PutsBack(h[i])
  }

  /**
   * No two leases ever returned, to whichever sessions, share a job and an attempt number; and
   * between two leases of one job its committed history shows a `fail` or a sweep putting it back.
   */
  lemma LeasesNeverCollide(dbs: seq<Db>, moves: seq<Move>, k: nat, l: nat)
    requires FromEmpty(dbs, moves) && k < l < |dbs[|moves|].issued|
    requires dbs[|moves|].issued[k].jobId == dbs[|moves|].issued[l].jobId
    ensures var db := dbs[|moves|];
      var g, g' := db.issued[k], db.issued[l];
      && g.attempt != g'.attempt && g.jobId in db.log
      && exists a: nat, i: nat, b: nat :: PutBackBetween(db.log[g.jobId], g, g', a, i, b)
  {
    TracesAreSound(dbs, moves);
    var db := dbs[|moves|];
    var g, g' := db.issued[k], db.issued[l];
    assert g in db.issued && g' in db.issued;
    assert Stands(db.log, g) && Stands(db.log, g');
    var h := db.log[g.jobId];
    var a: nat :| IssuedAt(h, g, a);
    var b: nat :| IssuedAt(h, g', b);
    EarlierLeaseStandsEarlier(h, g, g', a, b);
    LeasesAreSeparated(h, db.rows[g.jobId], a, b);
    var i: nat :| a < i < b && PutsBack(h[i]);
    assert PutBackBetween(h, g, g', a, i, b);
  }

  // ------------------------------------------------------------------------------------------
  // Which row a claim takes.

  /** Why a scan steps over a row of its snapshot. */
  predicate SteppedOver(db: Db, s: SessionId, id: JobId) {
    LockedByOther(db, s, id) || !IsQueued(db.rows, id)
  }

  /** Move `t` is the probe with which the scan of `s` steps over `id`. */
  predicate PassedAt(dbs: seq<Db>, moves: seq<Move>, s: SessionId, id: JobId, t: nat) {
    && t < |moves| && t < |dbs| && moves[t] == Probe(s)
    && PhaseOf(dbs[t], s).Scanning? && PhaseOf(dbs[t], s).todo != [] && PhaseOf(dbs[t], s).todo[0] == id
    && SteppedOver(dbs[t], s, id)
  }

  ghost predicate Explained(dbs: seq<Db>, moves: seq<Move>, s: SessionId, id: JobId, b: nat) {
    exists t: nat :: 1 <= t < b && PassedAt(dbs, moves, s, id, t)
  }

  /** The trace opens with the claim of session `s`, which is still scanning at every state up to `b`. */
  ghost predicate ScanUpTo(dbs: seq<Db>, moves: seq<Move>, s: SessionId, b: nat) {
    && IsTrace(dbs, moves) && 1 <= b <= |moves|
    && moves[0].BeginClaim? && moves[0].s == s
    && forall t :: 1 <= t <= b ==> PhaseOf(dbs[t], s).Scanning?
  }

  /** What is left of the scan is a suffix of its snapshot, and every row before it was stepped over for a reason. */
  lemma {:induction false} ScansExplainThemselves(dbs: seq<Db>, moves: seq<Move>, s: SessionId, b: nat) returns (n: nat)
    requires ScanUpTo(dbs, moves, s, b)
    ensures n <= |moves[0].todo| && PhaseOf(dbs[b], s).todo == moves[0].todo[n..]
    ensures forall k :: 0 <= k < n ==> Explained(dbs, moves, s, moves[0].todo[k], b)
  {
    if b == 1 {
      n := 0;
    } else {
      n := ScansExplainThemselves(dbs, moves, s, b - 1);
      var db, m := dbs[b - 1], moves[b - 1];
      if m == Probe(s) {
        assert PhaseOf(dbs[b], s).Scanning? && PhaseOf(db, s).todo[0] == moves[0].todo[n];
        assert dbs[b] == Fire(db, m);
        assert PassedAt(dbs, moves, s, moves[0].todo[n], b - 1);
        n := n + 1;
      }
    }
  }

  /**
   * A claim takes a row that is committed as waiting at the moment it is locked; and every older row
   * of the claim's snapshot was, when the scan reached it, locked by another open transaction or no
   * longer waiting.
   */
  lemma ClaimsTakeTheOldestTheyCan(dbs: seq<Db>, moves: seq<Move>, s: SessionId, b: nat, older: JobId)
    requires ScanUpTo(dbs, moves, s, b) && b < |moves| && moves[b] == Probe(s) && PhaseOf(dbs[b + 1], s).Ready?
    ensures var id := PhaseOf(dbs[b], s).todo[0];
      && IsQueued(dbs[b].rows, id) && PhaseOf(dbs[b + 1], s).writes.Keys == {id} && IsQueued(dbs[0].rows, id)
      && (IsQueued(dbs[0].rows, older) && dbs[0].rows[older].createdAt < dbs[0].rows[id].createdAt
          ==> Explained(dbs, moves, s, older, b))
  {
    var n := ScansExplainThemselves(dbs, moves, s, b);
    var todo := moves[0].todo;
    assert todo[n] in todo;
    if IsQueued(dbs[0].rows, older) && dbs[0].rows[older].createdAt < dbs[0].rows[todo[n]].createdAt {
      assert older in todo;
      var k :| 0 <= k < |todo| && todo[k] == older;
      assert todo[k] in todo && !(n < k);
    }
  }

  lemma {:induction false} ScanningAloneChangesNothing(dbs: seq<Db>, moves: seq<Move>, s: SessionId, b: nat)
    requires ScanUpTo(dbs, moves, s, b) && forall t :: 1 <= t < b ==> moves[t] == Probe(s)
    ensures dbs[b].rows == dbs[0].rows
    ensures forall id :: LockedByOther(dbs[b], s, id) <==> LockedByOther(dbs[0], s, id)
  {
    if b > 1 {
      ScanningAloneChangesNothing(dbs, moves, s, b - 1);
    }
  }

  /**
   * When nobody else moves during the scan, the row taken is at that moment the oldest waiting row
   * that no other open transaction has locked.
   */
  lemma UninterruptedClaims(dbs: seq<Db>, moves: seq<Move>, s: SessionId, b: nat, older: JobId)
    requires ScanUpTo(dbs, moves, s, b) && b < |moves| && moves[b] == Probe(s) && PhaseOf(dbs[b + 1], s).Ready?
    requires forall t :: 1 <= t < b ==> moves[t] == Probe(s)
    requires IsQueued(dbs[b].rows, older)
    requires dbs[b].rows[older].createdAt < dbs[b].rows[PhaseOf(dbs[b], s).todo[0]].createdAt
    ensures LockedByOther(dbs[b], s, older)
  {
    ScanningAloneChangesNothing(dbs, moves, s, b);
    ClaimsTakeTheOldestTheyCan(dbs, moves, s, b, older);
    var t: nat :| 1 <= t < b && PassedAt(dbs, moves, s, older, t);
    assert ScanUpTo(dbs, moves, s, t);
    ScanningAloneChangesNothing(dbs, moves, s, t);
  }

  // ------------------------------------------------------------------------------------------
  // When a claim passes over a row that nobody has locked.

  /** Waiting, and not locked by another open transaction. */
  predicate Free(db: Db, s: SessionId, id: JobId) {
    IsQueued(db.rows, id) && !LockedByOther(db, s, id)
  }

  /** How the row stands once the session that holds its lock has let go of it by this move. */
  predicate LeftWaiting(db: Db, m: Move, id: JobId)
    requires !m.Insert?
  {
    var p := PhaseOf(db, m.s);
    if m.Commit? && p.Ready? && id in p.writes then p.writes[id].status == Queued else IsQueued(db.rows, id)
  }

  /** The row is inserted, or another session releases its lock on it, by commit, rollback or error, and it waits. */
  ghost predicate Frees(db: Db, m: Move, s: SessionId, id: JobId) {
    && Enabled(db, m)
    && if m.Insert? then m.id == id
       else m.s != s && id in db.locks && db.locks[id] == m.s && Next(db, m).1 == ReleaseAll && LeftWaiting(db, m, id)
  }

  /** Another session locks the row. */
  ghost predicate Grabs(db: Db, m: Move, s: SessionId, id: JobId) {
    Enabled(db, m) && !m.Insert? && m.s != s && Next(db, m).1 == Take(id)
  }

  lemma LocksAfter(locks: map<JobId, SessionId>, s: SessionId, other: SessionId, effect: LockEffect, id: JobId)
    requires other != s
    ensures HeldByOther(Relocked(locks, other, effect), s, id) <==>
      match effect
      case Keep => HeldByOther(locks, s, id)
      case Take(taken) => taken == id || HeldByOther(locks, s, id)
      case ReleaseAll => HeldByOther(locks, s, id) && locks[id] != other
  {}

  /** The scan's own probes lock nobody out and let nobody in. */
  lemma OwnProbesFreeNothing(db: Db, m: Move, s: SessionId, id: JobId)
    requires Enabled(db, m) && !m.Insert? && m.s == s && PhaseOf(db, s).Scanning? && PhaseOf(Fire(db, m), s).Scanning?
    ensures m == Probe(s) && Free(Fire(db, m), s, id) == Free(db, s, id)
  {}

  lemma RowsAfter(db: Db, m: Move, id: JobId)
    requires Inv(db) && Enabled(db, m) && !m.Insert?
    ensures IsQueued(Fire(db, m).rows, id) <==> LeftWaiting(db, m, id)
    ensures IsQueued(Fire(db, m).rows, id) != IsQueued(db.rows, id) ==>
      id in db.locks && db.locks[id] == m.s && Next(db, m).1 == ReleaseAll
  {
    if m.Commit? {
      assert PhaseSound(db.rows, db.locks, m.s, db.phases[m.s]);
    } else {
      OnlyCommitsAreVisible(db, m);
    }
  }

  lemma OthersFreeing(db: Db, m: Move, s: SessionId, id: JobId)
    requires Inv(db) && Enabled(db, m) && !m.Insert? && m.s != s
    ensures Frees(db, m, s, id) <==> !Free(db, s, id) && Free(Fire(db, m), s, id)
    ensures Free(db, s, id) ==> (Grabs(db, m, s, id) <==> !Free(Fire(db, m), s, id))
  {
    var after, effect := Fire(db, m), Next(db, m).1;
    assert after.locks == Relocked(db.locks, m.s, effect);
    LocksAfter(db.locks, s, m.s, effect, id);
    RowsAfter(db, m, id);
  }

  /** While `s` scans, these moves and no others make a row free, or end its being free. */
  lemma FreeingMoves(db: Db, m: Move, s: SessionId, id: JobId)
    requires Inv(db) && Enabled(db, m) && PhaseOf(db, s).Scanning? && PhaseOf(Fire(db, m), s).Scanning?
    ensures Frees(db, m, s, id) <==> !Free(db, s, id) && Free(Fire(db, m), s, id)
    ensures Free(db, s, id) ==> (Grabs(db, m, s, id) <==> !Free(Fire(db, m), s, id))
  {
    if !m.Insert? {
      if m.s == s {
        OwnProbesFreeNothing(db, m, s, id);
      } else {
        OthersFreeing(db, m, s, id);
      }
    }
  }

  lemma {:induction false} TracesStaySound(dbs: seq<Db>, moves: seq<Move>, n: nat)
    requires IsTrace(dbs, moves) && Inv(dbs[0]) && n <= |moves|
    ensures Inv(dbs[n])
  {
    if n == 0 {
    } else {
      TracesStaySound(dbs, moves, n - 1);
      MovesKeepInv(dbs[n - 1], moves[n - 1]);
    }
  }

  lemma StepsKeepCreationTimes(row: JobRow, e: Event)
    requires Step(row, e).Some?
    ensures Step(row, e).value.createdAt == row.createdAt
  {}

  lemma MovesKeepCreationTimes(db: Db, m: Move, id: JobId)
    requires Inv(db) && Enabled(db, m) && id in db.rows
    ensures id in Fire(db, m).rows && Fire(db, m).rows[id].createdAt == db.rows[id].createdAt
  {
    if m.Commit? {
      var p := db.phases[m.s];
      assert PhaseSound(db.rows, db.locks, m.s, p);
      if id in p.writes {
        StepsKeepCreationTimes(db.rows[id], p.event);
      }
    } else if !m.Insert? {
      OnlyCommitsAreVisible(db, m);
    }
  }

  lemma {:induction false} CreationTimesStay(dbs: seq<Db>, moves: seq<Move>, n: nat, id: JobId)
    requires IsTrace(dbs, moves) && Inv(dbs[0]) && n <= |moves| && id in dbs[0].rows
    ensures id in dbs[n].rows && dbs[n].rows[id].createdAt == dbs[0].rows[id].createdAt
  {
    if n == 0 {
    } else {
      CreationTimesStay(dbs, moves, n - 1, id);
      TracesStaySound(dbs, moves, n - 1);
      MovesKeepCreationTimes(dbs[n - 1], moves[n - 1], id);
    }
  }

  /** Move `t` makes the row free, and nobody locks it from then until state `b`. */
  ghost predicate FreedAt(dbs: seq<Db>, moves: seq<Move>, s: SessionId, id: JobId, t: nat, b: nat) {
    && 1 <= t < b <= |moves| && b < |dbs| && Frees(dbs[t], moves[t], s, id)
    && forall u: nat | t < u < b :: !Grabs(dbs[u], moves[u], s, id)
  }

  lemma ScanStep(dbs: seq<Db>, moves: seq<Move>, s: SessionId, id: JobId, b: nat)
    requires ScanUpTo(dbs, moves, s, b) && Inv(dbs[0]) && b > 1
    ensures ScanUpTo(dbs, moves, s, b - 1)
    ensures Frees(dbs[b - 1], moves[b - 1], s, id) <==> !Free(dbs[b - 1], s, id) && Free(dbs[b], s, id)
    ensures Free(dbs[b - 1], s, id) ==> (Grabs(dbs[b - 1], moves[b - 1], s, id) <==> !Free(dbs[b], s, id))
  {
    TracesStaySound(dbs, moves, b - 1);
    assert dbs[b] == Fire(dbs[b - 1], moves[b - 1]) && PhaseOf(dbs[b], s).Scanning?;
    FreeingMoves(dbs[b - 1], moves[b - 1], s, id);
  }

  lemma {:induction false} FreedStaysFree(dbs: seq<Db>, moves: seq<Move>, s: SessionId, id: JobId, t: nat, b: nat)
    requires ScanUpTo(dbs, moves, s, b) && Inv(dbs[0]) && FreedAt(dbs, moves, s, id, t, b)
    ensures Free(dbs[b], s, id)
  {
    ScanStep(dbs, moves, s, id, b);
    if t < b - 1 {
      FreedStaysFree(dbs, moves, s, id, t, b - 1);
      assert !Grabs(dbs[b - 1], moves[b - 1], s, id);
    }
  }

  ghost predicate NeverFreed(dbs: seq<Db>, moves: seq<Move>, s: SessionId, id: JobId, b: nat) {
    forall t: nat :: !FreedAt(dbs, moves, s, id, t, b)
  }

  lemma NeverFreedBefore(dbs: seq<Db>, moves: seq<Move>, s: SessionId, id: JobId, b: nat)
    requires ScanUpTo(dbs, moves, s, b) && Inv(dbs[0]) && b > 1 && Free(dbs[b], s, id)
    requires NeverFreed(dbs, moves, s, id, b)
    ensures Free(dbs[b - 1], s, id) && NeverFreed(dbs, moves, s, id, b - 1)
  {
    var c := b - 1;
    ScanStep(dbs, moves, s, id, b);
    assert !FreedAt(dbs, moves, s, id, c, b);
    if t: nat :| FreedAt(dbs, moves, s, id, t, c) {
      assert FreedAt(dbs, moves, s, id, t, b);
    }
  }

  lemma {:induction false} FreeAllAlong(dbs: seq<Db>, moves: seq<Move>, s: SessionId, id: JobId, b: nat, t: nat)
    requires ScanUpTo(dbs, moves, s, b) && Inv(dbs[0]) && Free(dbs[b], s, id) && 1 <= t <= b
    requires NeverFreed(dbs, moves, s, id, b)
    ensures Free(dbs[t], s, id)
  {
    if t < b {
      NeverFreedBefore(dbs, moves, s, id, b);
      FreeAllAlong(dbs, moves, s, id, b - 1, t);
    }
  }

  lemma FreeRowsAreTaken(dbs: seq<Db>, moves: seq<Move>, s: SessionId, b: nat, older: JobId)
    requires ScanUpTo(dbs, moves, s, b) && Inv(dbs[0]) && Free(dbs[b], s, older) && NeverFreed(dbs, moves, s, older, b)
    requires b < |moves| && moves[b] == Probe(s) && PhaseOf(dbs[b + 1], s).Ready?
    ensures PhaseOf(dbs[b], s).todo != [] && PhaseOf(dbs[b], s).todo[0] in dbs[b].rows
    ensures dbs[b].rows[older].createdAt >= dbs[b].rows[PhaseOf(dbs[b], s).todo[0]].createdAt
  {
    var id := PhaseOf(dbs[b], s).todo[0];
    FreeAllAlong(dbs, moves, s, older, b, 1);
    assert dbs[1] == Fire(dbs[0], moves[0]);
    ClaimsTakeTheOldestTheyCan(dbs, moves, s, b, older);
    CreationTimesStay(dbs, moves, b, older);
    CreationTimesStay(dbs, moves, b, id);
    if t: nat :| 1 <= t < b && PassedAt(dbs, moves, s, older, t) {
      FreeAllAlong(dbs, moves, s, older, b, t);
    }
  }

  /**
   * Which older rows a claim passes over, in any interleaving: an older row that is waiting when the
   * claim takes its row is locked by another open transaction at that moment, unless during the scan
   * it was inserted or let go of by another session and not locked by one since; and only then not.
   */
  lemma PassedOverUnlockedExactlyWhenFreed(dbs: seq<Db>, moves: seq<Move>, s: SessionId, b: nat, older: JobId)
    requires ScanUpTo(dbs, moves, s, b) && Inv(dbs[0])
    requires b < |moves| && moves[b] == Probe(s) && PhaseOf(dbs[b + 1], s).Ready?
    requires IsQueued(dbs[b].rows, older)
    requires dbs[b].rows[older].createdAt < dbs[b].rows[PhaseOf(dbs[b], s).todo[0]].createdAt
    ensures LockedByOther(dbs[b], s, older) <==> !exists t: nat :: FreedAt(dbs, moves, s, older, t, b)
  {
    if t: nat :| FreedAt(dbs, moves, s, older, t, b) {
      FreedStaysFree(dbs, moves, s, older, t, b);
    } else if !LockedByOther(dbs[b], s, older) {
      FreeRowsAreTaken(dbs, moves, s, b, older);
    }
  }

  /**
   * Without that proviso it can fail: here an older job's insert commits after session 0 took its
   * snapshot, and the younger job is leased while the older one is waiting and nobody has it locked.
   */
  lemma AnOlderJobMayAppearDuringAScan() returns (dbs: seq<Db>, moves: seq<Move>)
    ensures FromEmpty(dbs, moves) && |moves| == 4 && moves[3] == Probe(0)
    ensures IsQueued(dbs[3].rows, 1) && IsQueued(dbs[3].rows, 2) && dbs[3].rows[1].createdAt < dbs[3].rows[2].createdAt
    ensures dbs[3].locks == map[] && PhaseOf(dbs[4], 0).Ready? && PhaseOf(dbs[4], 0).writes.Keys == {2}
  {
    moves := [Insert(2, 2, "y"), BeginClaim(0, "worker", 60, 6, [2]), Insert(1, 1, "x"), Probe(0)];
    var d1 := Fire(EMPTY_DB, moves[0]);
    assert IsScanOrder(d1.rows, [2]);
    var d2 := Fire(d1, moves[1]);
    var d3 := Fire(d2, moves[2]);
    dbs := [EMPTY_DB, d1, d2, d3, Fire(d3, moves[3])];
  }

  /** SKIP LOCKED at work: in no state does a claim wait for another session. */
  lemma ClaimsNeverWait(db: Db, s: SessionId)
    requires Inv(db) && PhaseOf(db, s).Scanning?
    ensures Enabled(db, Probe(s)) || Enabled(db, FindNothing(s))
    ensures Enabled(db, Probe(s)) ==>
      var p := PhaseOf(Fire(db, Probe(s)), s); p.Ready? || (p.Scanning? && |p.todo| < |PhaseOf(db, s).todo|)
  {
    assert PhaseSound(db.rows, db.locks, s, db.phases[s]);
    if db.phases[s].todo != [] {
      assert db.phases[s].todo[0] in db.phases[s].todo;
    }
  }

  /** An illegal transition leaves its row locked against everybody else until the session ends its transaction. */
  lemma IllegalTransitionsKeepTheLock(db: Db, s: SessionId, now: Time, other: SessionId)
    requires Inv(db) && Enabled(db, Decide(s, now)) && other != s
    requires var p := PhaseOf(db, s);
      var r := Act(db.rows[p.id], p.holder, p.action, now); r.Err? && r.error.Illegal?
    ensures var after := Fire(db, Decide(s, now));
      && PhaseOf(after, s) == Idle && after.rows == db.rows && LockedByOther(after, other, PhaseOf(db, s).id)
      && !LockedByOther(Fire(after, Abort(s)), other, PhaseOf(db, s).id)
  {
    assert PhaseSound(db.rows, db.locks, s, db.phases[s]);
  }

  /** Nothing but an insert or a commit changes what other sessions can read. */
  lemma OnlyCommitsAreVisible(db: Db, m: Move)
    requires Enabled(db, m) && !m.Commit? && !m.Insert?
    ensures Fire(db, m).rows == db.rows && Fire(db, m).log == db.log && Fire(db, m).issued == db.issued
  {}

  // ------------------------------------------------------------------------------------------
  // Transactions as sequential calls.

  ghost predicate ActsOn(t: Table, id: JobId, worker: WorkerId, action: Action, now: Time, after: Table) {
    && id in t && Act(t[id], worker, action, now).Ok?
    && var r := Act(t[id], worker, action, now);
       Commits(t, Ask(id, worker, action), now, after, AnswerReply(id, worker, action, r, now))
  }

  /** The sequential call that one commit amounts to, whatever happened since its statements ran. */
  ghost predicate CommitsLike(t: Table, e: Event, after: Table, lease: Option<Grant>) {
    match e
    case Lease(worker, secs, now) =>
      exists id: JobId :: IsQueued(t, id) && HandsOut(t, id, worker, secs, now, after, Handed(lease))
    case Did(worker, action, now) => exists id: JobId :: ActsOn(t, id, worker, action, now, after)
    case Sweep(max, now) =>
      && after.Keys == t.Keys
      && forall id :: id in t ==> after[id] == t[id] || (Expired(t[id], now) && after[id] == Swept(t[id], max, now))
  }

  /**
   * Linearizability: at its commit every transaction changes the committed rows as its call would if
   * it ran entirely at that instant; a sweep may miss rows, and a claim may pass over older ones.
   */
  lemma CommitsAreAtomic(db: Db, s: SessionId)
    requires Inv(db) && PhaseOf(db, s).Ready?
    ensures CommitsLike(db.rows, PhaseOf(db, s).event, Fire(db, Commit(s)).rows, PhaseOf(db, s).lease)
  {
    var p := db.phases[s];
    assert PhaseSound(db.rows, db.locks, s, p);
    if p.event.Sweep? {
      assert Fire(db, Commit(s)).rows == db.rows + p.writes;
    } else {
      var id := OnlyKey(p.writes);
      OneWriteCommits(db.rows, p.event, id, p.writes, p.lease);
    }
  }

  lemma OnlyKey(writes: Table) returns (id: JobId)
    requires |writes| == 1
    ensures writes.Keys == {id}
  {
    id :| id in writes;
    assert |writes.Keys - {id}| == 0;
  }

  lemma OneWriteCommits(t: Table, e: Event, id: JobId, writes: Table, lease: Option<Grant>)
    requires writes.Keys == {id} && id in t && Step(t[id], e) == Some(writes[id])
    requires !e.Sweep? && LeaseSound(e, writes, lease)
    ensures CommitsLike(t, e, t + writes, lease)
  {
    var after := t + writes;
    assert after == t[id := writes[id]];
    match e
    case Lease(worker, secs, now) =>
      BulkUpdatesAreTransitions(t[id], worker, secs, 0, now);
      assert IsQueued(t, id) && HandsOut(t, id, worker, secs, now, after, Handed(lease));
    case Did(worker, action, now) =>
      assert ActsOn(t, id, worker, action, now, after);
  }

  lemma ScanHeadIsOldest(t: Table, todo: seq<JobId>)
    requires IsScanOrder(t, todo) && todo != []
    ensures OldestQueued(t, todo[0])
  {
    assert todo[0] in todo;
    forall k | k in t && t[k].status == Queued
      ensures t[todo[0]].createdAt <= t[k].createdAt
    {
      assert IsQueued(t, k);
      var j :| 0 <= j < |todo| && todo[j] == k;
    }
  }

  /** One session alone: the first probe takes the row that DatabaseJobQueue.Claim would. */
  lemma SoloClaimsTakeTheOldest(db: Db, s: SessionId, begun: Db)
    requires db.locks == map[] && PhaseOf(begun, s).Scanning? && PhaseOf(begun, s).todo != []
    requires IsScanOrder(db.rows, PhaseOf(begun, s).todo) && begun.rows == db.rows && begun.locks == db.locks
    ensures Enabled(begun, Probe(s)) && PhaseOf(Fire(begun, Probe(s)), s).Ready?
    ensures exists id: JobId :: OldestQueued(db.rows, id) && PhaseOf(Fire(begun, Probe(s)), s).writes.Keys == {id}
  {
    ScanHeadIsOldest(db.rows, PhaseOf(begun, s).todo);
    assert PhaseOf(begun, s).todo[0] in PhaseOf(begun, s).todo;
  }

  /** How far a sweep that nobody disturbs has got: `swept` is the swept form of the rows visited so far. */
  ghost predicate SoloSweep(t: Table, p: Phase, maxAttempts: int, now: Time) {
    var requeue, abandon := Found(t, map[], false, maxAttempts, now), Found(t, map[], true, maxAttempts, now);
    match p
    case Sweeping(max, at, abandoning, rest, swept) =>
      && max == maxAttempts && at == now
      && rest <= (if abandoning then abandon else requeue)
      && swept.Keys == (if abandoning then requeue + (abandon - rest) else requeue - rest)
      && forall id :: id in swept ==> id in t && swept[id] == Swept(t[id], max, now)
    case Ready(e, writes, lease) =>
      && e == Sweep(maxAttempts, now)
      && writes.Keys == requeue + abandon
      && forall id | id in writes :: id in t && writes[id] == Swept(t[id], maxAttempts, now)
    case _ => false
  }

  predicate IsSweepMove(m: Move, s: SessionId) {
    (m.SweepOne? || m.NextStatement? || m.EndSweep?) && m.s == s
  }

  lemma SoloSweepMoves(db: Db, m: Move, t: Table, maxAttempts: int, now: Time)
    requires m.SweepOne? || m.NextStatement? || m.EndSweep?
    requires Enabled(db, m) && db.rows == t && SoloSweep(t, PhaseOf(db, m.s), maxAttempts, now)
    ensures SoloSweep(t, Next(db, m).0, maxAttempts, now)
  {
    if m.SweepOne? {
      BulkUpdatesAreTransitions(t[m.id], "", 0, maxAttempts, now);
    }
    if m.NextStatement? {
      var p := PhaseOf(db, m.s);
      assert Found(t, p.swept, true, maxAttempts, now) == Found(t, map[], true, maxAttempts, now);
    }
  }

  lemma SoloSweepsCommitTheReap(t: Table, p: Phase, maxAttempts: int, now: Time)
    requires SoloSweep(t, p, maxAttempts, now)
    ensures p.Ready? ==> t + p.writes == AbandonUpdate(RequeueUpdate(t, maxAttempts, now), maxAttempts, now)
  {
    TwoStatementsAreOneSweep(t, maxAttempts, now);
    assert Found(t, map[], false, maxAttempts, now) + Found(t, map[], true, maxAttempts, now)
      == set id | id in t && Expired(t[id], now);
  }

  /** One session alone: a sweep visits its rows in any order and commits what DatabaseJobQueue.ReapExpired would. */
  lemma {:induction false} SoloSweepsMissNothing(dbs: seq<Db>, moves: seq<Move>, s: SessionId, maxAttempts: int,
                                                 now: Time)
    requires IsTrace(dbs, moves) && moves != [] && moves[0] == BeginSweep(s, maxAttempts, now)
    requires forall i :: 1 <= i < |moves| ==> IsSweepMove(moves[i], s)
    ensures dbs[|moves|].rows == dbs[0].rows
    ensures SoloSweep(dbs[0].rows, PhaseOf(dbs[|moves|], s), maxAttempts, now)
    ensures PhaseOf(dbs[|moves|], s).Ready? ==>
      dbs[0].rows + PhaseOf(dbs[|moves|], s).writes ==
      AbandonUpdate(RequeueUpdate(dbs[0].rows, maxAttempts, now), maxAttempts, now)
  {
    var t, n := dbs[0].rows, |moves| - 1;
    if n > 0 {
      TracePrefix(dbs, moves, n);
      SoloSweepsMissNothing(dbs[..n + 1], moves[..n], s, maxAttempts, now);
      SoloSweepMoves(dbs[n], moves[n], t, maxAttempts, now);
    }
    SoloSweepsCommitTheReap(t, PhaseOf(dbs[|moves|], s), maxAttempts, now);
  }

  // ------------------------------------------------------------------------------------------
  // Termination, for any interleaving.

  predicate SweepsWith(moves: seq<Move>, maxAttempts: int) {
    forall i :: 0 <= i < |moves| && moves[i].BeginSweep? ==> moves[i].maxAttempts == maxAttempts
  }

  predicate PhaseSweepsWith(p: Phase, maxAttempts: int) {
    && (p.Sweeping? ==> p.maxAttempts == maxAttempts)
    && (p.Ready? && p.event.Sweep? ==> p.event.maxAttempts == maxAttempts)
  }

  ghost predicate AllSweptWith(db: Db, maxAttempts: int) {
    && (forall s :: s in db.phases ==> PhaseSweepsWith(db.phases[s], maxAttempts))
    && (forall id :: id in db.log ==> SweptWith(db.log[id], maxAttempts))
  }

  lemma {:induction false} TracesSweepAlike(dbs: seq<Db>, moves: seq<Move>, maxAttempts: int)
    requires FromEmpty(dbs, moves) && SweepsWith(moves, maxAttempts)
    ensures AllSweptWith(dbs[|moves|], maxAttempts)
  {
    if moves == [] {
    } else {
      var n := |moves| - 1;
      TracePrefix(dbs, moves, n);
      TracesSweepAlike(dbs[..n + 1], moves[..n], maxAttempts);
      var db, m := dbs[n], moves[n];
      if !m.Insert? {
        assert PhaseSweepsWith(PhaseOf(db, m.s), maxAttempts);
        assert PhaseSweepsWith(Next(db, m).0, maxAttempts);
      }
    }
  }

  /** However sessions interleave, a job given back F times changes at most 3 x (limit + F) times. */
  lemma ConcurrentJobsTerminate(dbs: seq<Db>, moves: seq<Move>, maxAttempts: int, id: JobId)
    requires FromEmpty(dbs, moves) && SweepsWith(moves, maxAttempts) && maxAttempts >= 1 && id in dbs[|moves|].log
    ensures id in dbs[|moves|].rows
    ensures dbs[|moves|].rows[id].attempts <= maxAttempts + Fails(dbs[|moves|].log[id])
    ensures Moves(dbs[|moves|].log[id]) <= 3 * (maxAttempts + Fails(dbs[|moves|].log[id]))
  {
    TracesAreSound(dbs, moves);
    TracesSweepAlike(dbs, moves, maxAttempts);
    AttemptsAreBounded(dbs[|moves|].log[id], dbs[|moves|].rows[id], maxAttempts);
    JobsTerminate(dbs[|moves|].log[id], dbs[|moves|].rows[id], maxAttempts);
  }
}
