/** What holds in every interleaving of submissions, errors, crashes and workers, from an empty store on. */
module IntakeRuns {
  import opened Base
  import opened FileTypes
  import opened Jobs
  import opened Staging
  import opened LocalStorage
  import opened Intake

  /** Where a run stands after these moves, `None` when some move was not open to it. */
  function Outcome(sv: Server, moves: seq<Move>): Option<Shop> {
    if moves == [] then Some(EMPTY_SHOP)
    else
      var before, last := Outcome(sv, moves[..|moves| - 1]), moves[|moves| - 1];
      if before.Some? && Enabled(sv, before.value, last) then Some(Fire(sv, before.value, last)) else None
  }

  lemma {:induction false} RunsAreSound(sv: Server, moves: seq<Move>)
    requires Outcome(sv, moves).Some?
    ensures Inv(sv, Outcome(sv, moves).value)
  {
    if moves == [] {
    } else {
      RunsAreSound(sv, moves[..|moves| - 1]);
      MovesKeepInv(sv, Outcome(sv, moves[..|moves| - 1]).value, moves[|moves| - 1]);
    }
  }

  // ------------------------------------------------------------------------------------------
  // Store before commit.

  /** Whatever a reader finds under a digest is complete and has that digest: no partial file is ever read. */
  lemma NothingHalfWrittenIsRead(sv: Server, moves: seq<Move>, digest: Hex)
    requires Outcome(sv, moves).Some?
    ensures var r := ReadAs(sv, Outcome(sv, moves).value, digest);
      r == Err(SampleNotFound) || (r.Ok? && Digest(sv, r.value) == digest)
  {
    RunsAreSound(sv, moves);
    assert ObjectSound(sv, Outcome(sv, moves).value, digest);
  }

  /** Every committed job has its sample row, and its object unseals to bytes with the job's digest. */
  lemma CommittedJobsAreBacked(sv: Server, moves: seq<Move>, job: JobId) returns (digest: Hex)
    requires Outcome(sv, moves).Some? && job in Outcome(sv, moves).value.jobs
    ensures var shop := Outcome(sv, moves).value;
      && shop.jobs[job].sampleSha256 == digest
      && digest in shop.samples && shop.samples[digest].hashes.sha256 == digest
      && ReadAs(sv, shop, digest).Ok? && Digest(sv, ReadAs(sv, shop, digest).value) == digest
  {
    var shop := Outcome(sv, moves).value;
    RunsAreSound(sv, moves);
    assert HasJob(shop.ledger, job);
    var k: nat :| k < |shop.ledger| && shop.ledger[k].job == job;
    digest := shop.ledger[k].digest;
    assert EntrySound(sv, shop, k);
    assert SubSound(sv, shop, shop.ledger[k].submission, shop.subs[shop.ledger[k].submission]);
    var first := FirstKnown(shop.ledger, k + 1, digest);
    assert EntrySound(sv, shop, first);
    assert SubSound(sv, shop, shop.ledger[first].submission, shop.subs[shop.ledger[first].submission]);
    NothingHalfWrittenIsRead(sv, moves, digest);
  }

  /** The commit that made a digest known. */
  lemma {:induction false} FirstKnown(ledger: seq<Entry>, n: nat, digest: Hex) returns (first: nat)
    requires n <= |ledger| && Known(ledger, n, digest)
    ensures first < n && ledger[first].digest == digest && !Known(ledger, first, digest)
  {
    if Known(ledger, n - 1, digest) {
      first := FirstKnown(ledger, n - 1, digest);
    } else {
      first := n - 1;
    }
  }

  // ------------------------------------------------------------------------------------------
  // Committed rows and accepted submissions.

  predicate AcceptedAs(shop: Shop, i: nat, job: JobId) {
    i < |shop.subs| && shop.subs[i].phase.Accepted? && shop.subs[i].phase.job == job
  }

  lemma JobsWereAccepted(sv: Server, shop: Shop, job: JobId) returns (i: nat)
    requires Inv(sv, shop) && job in shop.jobs
    ensures AcceptedAs(shop, i, job)
  {
    assert HasJob(shop.ledger, job);
    var k: nat :| k < |shop.ledger| && shop.ledger[k].job == job;
    i := shop.ledger[k].submission;
    assert EntrySound(sv, shop, k) && SubSound(sv, shop, i, shop.subs[i]);
  }

  lemma AcceptedHaveJobs(sv: Server, shop: Shop, i: nat, job: JobId)
    requires Inv(sv, shop) && AcceptedAs(shop, i, job)
    ensures job in shop.jobs && shop.jobs[job].sampleSha256 == Digest(sv, shop.subs[i].content)
  {
    assert SubSound(sv, shop, i, shop.subs[i]) && EntrySound(sv, shop, shop.subs[i].phase.at);
  }

  lemma AcceptedOnce(sv: Server, shop: Shop, i: nat, j: nat, job: JobId)
    requires Inv(sv, shop) && AcceptedAs(shop, i, job) && AcceptedAs(shop, j, job)
    ensures i == j
  {
    var k, l := shop.subs[i].phase.at, shop.subs[j].phase.at;
    assert SubSound(sv, shop, i, shop.subs[i]) && SubSound(sv, shop, j, shop.subs[j]);
    assert shop.ledger[k].job == job == shop.ledger[l].job;
    assert shop.ledger[k].submission == i && shop.ledger[l].submission == j;
  }

  /** The committed jobs are the accepted submissions: one each, about that submission's content. */
  lemma JobsAreAcceptedSubmissions(sv: Server, moves: seq<Move>)
    requires Outcome(sv, moves).Some?
    ensures var shop := Outcome(sv, moves).value;
      && (forall job :: job in shop.jobs ==> exists i: nat :: AcceptedAs(shop, i, job))
      && (forall i: nat, job :: AcceptedAs(shop, i, job) ==>
            job in shop.jobs && shop.jobs[job].sampleSha256 == Digest(sv, shop.subs[i].content))
      && (forall i: nat, j: nat, job :: AcceptedAs(shop, i, job) && AcceptedAs(shop, j, job) ==> i == j)
  {
    var shop := Outcome(sv, moves).value;
    RunsAreSound(sv, moves);
    forall job | job in shop.jobs
      ensures exists i: nat :: AcceptedAs(shop, i, job)
    {
      var i := JobsWereAccepted(sv, shop, job);
    }
    forall i: nat, job | AcceptedAs(shop, i, job) {
      AcceptedHaveJobs(sv, shop, i, job);
    }
    forall i: nat, j: nat, job | AcceptedAs(shop, i, job) && AcceptedAs(shop, j, job) {
      AcceptedOnce(sv, shop, i, j, job);
    }
  }

  /** Whether this submission's commit put the sample row in the table. */
  predicate InsertedRow(sv: Server, shop: Shop, i: nat, digest: Hex) {
    && i < |shop.subs| && Digest(sv, shop.subs[i].content) == digest
    && shop.subs[i].phase.Accepted? && shop.subs[i].phase.inserts
  }

  predicate AcceptedUnder(sv: Server, shop: Shop, i: nat, digest: Hex) {
    i < |shop.subs| && shop.subs[i].phase.Accepted? && Digest(sv, shop.subs[i].content) == digest
  }

  /** The submission whose commit made a digest known inserted the row with what it found itself. */
  lemma FirstInserts(sv: Server, shop: Shop, digest: Hex, at: nat)
    requires Inv(sv, shop) && at < |shop.ledger| && shop.ledger[at].digest == digest && !Known(shop.ledger, at, digest)
    ensures var first := shop.ledger[at].submission;
      && InsertedRow(sv, shop, first, digest) && shop.subs[first].phase.at == at
      && shop.samples[digest] == DetectedRow(sv, shop.subs[first].content)
  {
    var first := shop.ledger[at].submission;
    assert EntrySound(sv, shop, at) && SubSound(sv, shop, first, shop.subs[first]);
    assert !Known(shop.ledger, shop.subs[first].phase.ticket.seen, digest);
  }

  lemma OthersCommitLater(sv: Server, shop: Shop, digest: Hex, at: nat, i: nat)
    requires Inv(sv, shop) && at < |shop.ledger| && shop.ledger[at].digest == digest && !Known(shop.ledger, at, digest)
    requires i < |shop.subs| && shop.subs[i].phase.Accepted? && Digest(sv, shop.subs[i].content) == digest
    ensures at <= shop.subs[i].phase.at && (shop.subs[i].phase.inserts ==> shop.subs[i].phase.at == at)
  {
    assert SubSound(sv, shop, i, shop.subs[i]) && EntrySound(sv, shop, shop.subs[i].phase.at);
  }

  /**
   * However many submissions of one digest race, exactly one of them inserts the row, and it is the
   * first to commit.
   */
  lemma OneSubmissionInsertsEachRow(sv: Server, moves: seq<Move>, digest: Hex) returns (first: nat)
    requires Outcome(sv, moves).Some? && digest in Outcome(sv, moves).value.samples
    ensures var shop := Outcome(sv, moves).value;
      && InsertedRow(sv, shop, first, digest)
      && (forall i: nat :: InsertedRow(sv, shop, i, digest) ==> i == first)
      && (forall i: nat | AcceptedUnder(sv, shop, i, digest) ::
            shop.subs[first].phase.at <= shop.subs[i].phase.at)
      && shop.samples[digest] == DetectedRow(sv, shop.subs[first].content)
  {
    RunsAreSound(sv, moves);
    first := OneInserter(sv, Outcome(sv, moves).value, digest);
  }

  lemma OneInserter(sv: Server, shop: Shop, digest: Hex) returns (first: nat)
    requires Inv(sv, shop) && digest in shop.samples
    ensures InsertedRow(sv, shop, first, digest)
    ensures forall i: nat :: InsertedRow(sv, shop, i, digest) ==> i == first
    ensures forall i: nat | i < |shop.subs| && shop.subs[i].phase.Accepted? && Digest(sv, shop.subs[i].content) ==
      digest ::
      shop.subs[first].phase.at <= shop.subs[i].phase.at
    ensures shop.samples[digest] == DetectedRow(sv, shop.subs[first].content)
  {
    var at := FirstKnown(shop.ledger, |shop.ledger|, digest);
    first := shop.ledger[at].submission;
    FirstInserts(sv, shop, digest, at);
    forall i: nat | AcceptedUnder(sv, shop, i, digest)
      ensures at <= shop.subs[i].phase.at && (shop.subs[i].phase.inserts ==> i == first)
    {
      OthersCommitLater(sv, shop, digest, at, i);
      assert SubSound(sv, shop, i, shop.subs[i]);
    }
  }

  // ------------------------------------------------------------------------------------------
  // Content addressing, as long as no two submitted contents share a digest.

  ghost predicate NoCollisions(sv: Server, shop: Shop) {
    forall i: nat, j: nat | i < |shop.subs| && j < |shop.subs| ::
      var a, b := shop.subs[i].content, shop.subs[j].content;
      Digest(sv, a) == Digest(sv, b) ==> a == b
  }

  /** What an accepted submission was told is what its row says and what detection says of its own bytes. */
  lemma TypesAreCoherent(sv: Server, moves: seq<Move>, i: nat)
    requires Outcome(sv, moves).Some? && NoCollisions(sv, Outcome(sv, moves).value)
    requires i < |Outcome(sv, moves).value.subs| && Outcome(sv, moves).value.subs[i].phase.Accepted?
    ensures var shop := Outcome(sv, moves).value;
      var sub, digest := shop.subs[i], Digest(sv, shop.subs[i].content);
      && digest in shop.samples && shop.samples[digest] == RowFor(sv, sub.content, sub.phase.ticket.fileType)
      && sub.phase.ticket.fileType == DetectDefault(Window(sub.content, HEADER_SIZE))
      && ReadAs(sv, shop, digest) == Ok(sub.content)
  {
    var shop := Outcome(sv, moves).value;
    var sub, digest := shop.subs[i], Digest(sv, shop.subs[i].content);
    RunsAreSound(sv, moves);
    assert SubSound(sv, shop, i, sub) && EntrySound(sv, shop, sub.phase.at) && ObjectSound(sv, shop, digest);
    var first := OneSubmissionInsertsEachRow(sv, moves, digest);
    var content := ReadAs(sv, shop, digest).value;
    var j: nat :| j < |shop.subs| && SubmittedAt(shop, content, j);
    assert shop.subs[first].content == sub.content == shop.subs[j].content;
  }

  predicate AcceptedEarlier(shop: Shop, i: nat, j: nat) {
    && i < |shop.subs| && j < |shop.subs| && shop.subs[i].phase.Accepted? && shop.subs[j].phase.Accepted?
    && shop.subs[j].phase.at < shop.subs[i].phase.at
  }

  /** The bytes of `i` had been committed, by `j`, when `i` looked its sample row up. */
  predicate SeenBefore(shop: Shop, i: nat, j: nat) {
    && AcceptedEarlier(shop, i, j) && shop.subs[j].content == shop.subs[i].content
    && shop.subs[j].phase.at < shop.subs[i].phase.ticket.seen
  }

  /** `duplicate` is reported exactly when another submission had committed the same bytes before the lookup. */
  lemma DuplicatesWereCommittedEarlier(sv: Server, moves: seq<Move>, i: nat)
    requires Outcome(sv, moves).Some? && NoCollisions(sv, Outcome(sv, moves).value)
    requires i < |Outcome(sv, moves).value.subs| && Outcome(sv, moves).value.subs[i].phase.Accepted?
    ensures var shop := Outcome(sv, moves).value;
      shop.subs[i].phase.ticket.duplicate <==> exists j: nat :: SeenBefore(shop, i, j)
  {
    var shop := Outcome(sv, moves).value;
    var sub := shop.subs[i];
    var digest, seen := Digest(sv, sub.content), sub.phase.ticket.seen;
    RunsAreSound(sv, moves);
    assert SubSound(sv, shop, i, sub);
    if sub.phase.ticket.duplicate {
      var k: nat :| k < seen && shop.ledger[k].digest == digest;
      var j := shop.ledger[k].submission;
      assert EntrySound(sv, shop, k) && SubSound(sv, shop, j, shop.subs[j]);
      assert SeenBefore(shop, i, j);
    }
    if j: nat :| SeenBefore(shop, i, j) {
      assert SubSound(sv, shop, j, shop.subs[j]);
      assert shop.ledger[shop.subs[j].phase.at].digest == digest;
      assert Known(shop.ledger, seen, digest);
    }
  }

  /** Losing the promote race, like every other move, changes no plaintext that could already be read. */
  lemma MovesKeepPlaintext(sv: Server, shop: Shop, m: Move, digest: Hex)
    requires Inv(sv, shop) && Enabled(sv, shop, m) && NoCollisions(sv, Fire(sv, shop, m))
    requires ReadAs(sv, shop, digest).Ok?
    ensures ReadAs(sv, Fire(sv, shop, m), digest) == ReadAs(sv, shop, digest)
  {
    var after := Fire(sv, shop, m);
    if m.Do? {
      var sub := shop.subs[m.i];
      var content := ReadAs(sv, shop, digest).value;
      assert SubSound(sv, shop, m.i, sub) && ObjectSound(sv, shop, digest);
      DeedsShowOnly(sv, shop, sub, m.deed, digest);
      var j: nat :| j < |shop.subs| && SubmittedAt(shop, content, j);
      assert after.subs[j].content == content && after.subs[m.i].content == sub.content;
    }
  }

  lemma NoCollisionsBefore(sv: Server, shop: Shop, m: Move)
    requires Enabled(sv, shop, m) && NoCollisions(sv, Fire(sv, shop, m))
    ensures NoCollisions(sv, shop)
  {
    var after := Fire(sv, shop, m);
    assert forall i | 0 <= i < |shop.subs| :: after.subs[i].content == shop.subs[i].content;
  }

  /** So whatever can be read once reads the same for the rest of the run. */
  lemma {:induction false} PlaintextIsStable(sv: Server, moves: seq<Move>, more: seq<Move>, digest: Hex)
    requires Outcome(sv, moves).Some? && Outcome(sv, moves + more).Some?
    requires NoCollisions(sv, Outcome(sv, moves + more).value)
    requires ReadAs(sv, Outcome(sv, moves).value, digest).Ok?
    ensures ReadAs(sv, Outcome(sv, moves + more).value, digest) == ReadAs(sv, Outcome(sv, moves).value, digest)
  {
    if more == [] {
      assert moves + more == moves;
    } else {
      var fewer, last := more[..|more| - 1], more[|more| - 1];
      assert (moves + more)[..|moves + more| - 1] == moves + fewer && (moves + more)[|moves + more| - 1] == last;
      NoCollisionsBefore(sv, Outcome(sv, moves + fewer).value, last);
      PlaintextIsStable(sv, moves, fewer, digest);
      RunsAreSound(sv, moves + fewer);
      MovesKeepPlaintext(sv, Outcome(sv, moves + fewer).value, last, digest);
    }
  }

  // ------------------------------------------------------------------------------------------
  // Errors, and waiting.

  /** An error or a crash leaves the tables as they were, and every digest reading as it did. */
  lemma AbortsChangeNothing(sv: Server, shop: Shop, i: nat, deed: Deed, digest: Hex)
    requires Enabled(sv, shop, Do(i, deed)) && (deed.Raise? || deed.Crash? || deed.Cancel?)
    ensures var after := Fire(sv, shop, Do(i, deed));
      && (after.samples, after.jobs, after.ledger) == (shop.samples, shop.jobs, shop.ledger)
      && ReadAs(sv, after, digest) == ReadAs(sv, shop, digest)
  {
    if shop.subs[i].phase.Storing? {
      PartialsHide(sv, shop.subs[i], shop.subs[i].phase.suffix, digest);
    }
  }

  /** What a submission does next when nothing goes wrong. */
  function Onward(sv: Server, sub: Submission, suffix: string, nonce: Nonce, job: JobId, createdAt: Time): Deed
    requires Live(sub.phase) && CanSeal(sv)
  {
    match sub.phase
    case Arrived => Lookup
    case LookedUp(_) => CheckExists
    case Missing(_) => Open(suffix, nonce)
    case Storing(_, _, used, written, _) =>
      var size := |SealedCopy(sv, sub.content, used)|;
      if written < size then Write(size) else Promote(false)
    case Stored(_) => Insert
    case Inserted(_, _) => Enqueue(job, createdAt)
    case Enqueued(_, _, _, _) => Commit
  }

  /** Not in use by any other submission under way. */
  predicate Unused(shop: Shop, i: nat, suffix: string, job: JobId) {
    forall j | 0 <= j < |shop.subs| && j != i ::
      && (shop.subs[j].phase.Storing? ==> shop.subs[j].phase.suffix != suffix)
      && (shop.subs[j].phase.Enqueued? ==> shop.subs[j].phase.job != job)
  }

  lemma SuffixesTellApart(sv: Server, shop: Shop, i: nat, suffix: string, job: JobId, j: nat)
    requires Unused(shop, i, suffix, job) && i < |shop.subs| && j < |shop.subs| && j != i && shop.subs[j].phase.Storing?
    ensures PartialOf(sv, shop.subs[j]) != PartialPath(sv.site.root, Digest(sv, shop.subs[i].content), suffix)
  {
    var other, digest := shop.subs[j], Digest(sv, shop.subs[i].content);
    if PartialOf(sv, other) == PartialPath(sv.site.root, digest, suffix) {
      PartialsAreDistinct(sv.site.root, Digest(sv, other.content), other.phase.suffix, digest, suffix);
    }
  }

  /** Nothing but inserting its row can keep a submission waiting. */
  lemma OthersGoOn(sv: Server, shop: Shop, i: nat, suffix: string, nonce: Nonce, job: JobId, createdAt: Time)
    requires CanSeal(sv) && Inv(sv, shop) && Unused(shop, i, suffix, job) && job !in shop.jobs
    requires i < |shop.subs| && Live(shop.subs[i].phase) && !shop.subs[i].phase.Stored?
    ensures Enabled(sv, shop, Do(i, Onward(sv, shop.subs[i], suffix, nonce, job, createdAt)))
  {
    var sub := shop.subs[i];
    var deed := Onward(sv, sub, suffix, nonce, job, createdAt);
    assert SubSound(sv, shop, i, sub);
    if deed.Open? || deed.Enqueue? {
      forall k | 0 <= k < |shop.subs| && k != i
        ensures Apart(sv, Advanced(sv, shop, i, deed), shop.subs[k])
      {
        assert Apart(sv, sub, shop.subs[k]);
        if shop.subs[k].phase.Storing? {
          SuffixesTellApart(sv, shop, i, suffix, job, k);
        }
      }
    }
  }

  /** Holds an uncommitted row with this digest, and can go on at once. */
  predicate HoldsUp(sv: Server, shop: Shop, digest: Hex, suffix: string, nonce: Nonce, job: JobId, j: nat)
    requires CanSeal(sv)
  {
    && j < |shop.subs| && Pending(shop.subs[j].phase) && Digest(sv, shop.subs[j].content) == digest
    && Enabled(sv, shop, Do(j, Onward(sv, shop.subs[j], suffix, nonce, job, 0)))
  }

  /** An insert that has to wait waits for one that holds an uncommitted row. */
  lemma InsertsWaitForHolders(sv: Server, shop: Shop, i: nat) returns (j: nat)
    requires i < |shop.subs| && shop.subs[i].phase.Stored? && !Enabled(sv, shop, Do(i, Insert))
    ensures j < |shop.subs| && j != i && Pending(shop.subs[j].phase)
    ensures Digest(sv, shop.subs[j].content) == Digest(sv, shop.subs[i].content)
  {
    j :| j < |shop.subs| && j != i && !Apart(sv, Advanced(sv, shop, i, Insert), shop.subs[j]);
  }

  /** No deadlock: a submission can go on, or waits to insert its row for one that can. */
  lemma SubmissionsNeverStick(sv: Server, shop: Shop, i: nat, suffix: string, nonce: Nonce, job: JobId)
    requires CanSeal(sv) && Inv(sv, shop) && job !in shop.jobs
    requires forall k: nat :: Unused(shop, k, suffix, job)
    requires i < |shop.subs| && Live(shop.subs[i].phase)
    ensures
      || Enabled(sv, shop, Do(i, Onward(sv, shop.subs[i], suffix, nonce, job, 0)))
      || (shop.subs[i].phase.Stored?
          && exists j: nat :: HoldsUp(sv, shop, Digest(sv, shop.subs[i].content), suffix, nonce, job, j))
  {
    if !shop.subs[i].phase.Stored? {
      OthersGoOn(sv, shop, i, suffix, nonce, job, 0);
    } else if !Enabled(sv, shop, Do(i, Insert)) {
      var j := InsertsWaitForHolders(sv, shop, i);
      OthersGoOn(sv, shop, j, suffix, nonce, job, 0);
      assert HoldsUp(sv, shop, Digest(sv, shop.subs[i].content), suffix, nonce, job, j);
    }
  }

  // ------------------------------------------------------------------------------------------
  // One submission with nobody moving in between.

  predicate ReadableOrAbsent(sv: Server, books: Books, digest: Hex) {
    var r := Fetched(sv.site, books.files, digest);
    r.Ok? || r == Err(SampleNotFound)
  }

  /** What the caller of an accepted submission and every later reader find, given what was there before. */
  ghost predicate RecordedAs(sv: Server, before: Books, after: Books, content: Bytes, job: JobId, createdAt: Time)
  {
    var digest := Digest(sv, content);
    && after.jobs == before.jobs[job := NewJob(createdAt, digest)]
    && after.samples == (if digest in before.samples then before.samples
                         else before.samples[digest := DetectedRow(sv, content)])
    && Fetched(sv.site, after.files, digest) != Err(SampleNotFound)
    && (ReadableOrAbsent(sv, before, digest) ==> Fetched(sv.site, after.files, digest).Ok?)
    && forall d: Hex :: SeesOnly(sv, before.files, after.files, content, d)
  }

  /** Steps still to go. */
  function Rank(sv: Server, sub: Submission): nat
    requires Live(sub.phase) && CanSeal(sv)
  {
    match sub.phase
    case Arrived => 8
    case LookedUp(_) => 7
    case Missing(_) => 6
    case Storing(_, _, used, written, _) => if written < |SealedCopy(sv, sub.content, used)| then 5 else 4
    case Stored(_) => 3
    case Inserted(_, _) => 2
    case Enqueued(_, _, _, _) => 1
  }

  function From(sv: Server, shop: Shop, moves: seq<Move>): Option<Shop>
    decreases moves
  {
    if moves == [] then Some(shop)
    else if Enabled(sv, shop, moves[0]) then From(sv, Fire(sv, shop, moves[0]), moves[1..])
    else None
  }

  /** A submission whose put, if under way, is still wanted, and which nobody keeps waiting. */
  predicate Unhindered(sv: Server, shop: Shop, i: nat) {
    && i < |shop.subs| && Live(shop.subs[i].phase) && (shop.subs[i].phase.Storing? ==> shop.subs[i].phase.wanted)
    && forall j | 0 <= j < |shop.subs| && j != i ::
      Pending(shop.subs[j].phase) ==> Digest(sv, shop.subs[j].content) != Digest(sv, shop.subs[i].content)
  }

  /** The job it is recorded as: the one already enqueued, or the one on offer. */
  function JobOf(p: Phase, job: JobId, createdAt: Time): (JobId, Time) {
    if p.Enqueued? then (p.job, p.createdAt) else (job, createdAt)
  }

  /** What it has been told of its sample, or would be told now. */
  function TicketOf(sv: Server, shop: Shop, sub: Submission): Ticket
    requires !sub.phase.Gone?
  {
    if sub.phase.Arrived? then TicketFor(sv, shop, sub.content) else sub.phase.ticket
  }

  lemma UnhinderedGoOn(sv: Server, shop: Shop, i: nat, suffix: string, nonce: Nonce, job: JobId, createdAt: Time)
    requires CanSeal(sv) && Inv(sv, shop) && Unused(shop, i, suffix, job) && job !in shop.jobs
    requires Unhindered(sv, shop, i)
    ensures Enabled(sv, shop, Do(i, Onward(sv, shop.subs[i], suffix, nonce, job, createdAt)))
  {
    if !shop.subs[i].phase.Stored? {
      OthersGoOn(sv, shop, i, suffix, nonce, job, createdAt);
    } else if !Enabled(sv, shop, Do(i, Insert)) {
      var j := InsertsWaitForHolders(sv, shop, i);
    }
  }

  /** Each such step but the last changes no row, and brings the submission closer to its commit. */
  lemma OnwardAdvances(sv: Server, shop: Shop, i: nat, suffix: string, nonce: Nonce, job: JobId, createdAt: Time)
    requires CanSeal(sv) && Unhindered(sv, shop, i)
    requires Enabled(sv, shop, Do(i, Onward(sv, shop.subs[i], suffix, nonce, job, createdAt)))
    ensures var deed := Onward(sv, shop.subs[i], suffix, nonce, job, createdAt);
      var p, p' := shop.subs[i].phase, PhaseAfter(sv, shop, shop.subs[i], deed);
      if deed.Commit? then p.Enqueued?
      else
        && Live(p') && Rank(sv, shop.subs[i].(phase := p')) < Rank(sv, shop.subs[i]) && (p'.Storing? ==> p'.wanted)
        && JobOf(p', job, createdAt) == JobOf(p, job, createdAt)
  {}

  /** What it was told at the lookup it carries along. */
  lemma OnwardKeepsTickets(sv: Server, shop: Shop, i: nat, suffix: string, nonce: Nonce, job: JobId, createdAt: Time)
    requires CanSeal(sv) && Unhindered(sv, shop, i)
    requires Enabled(sv, shop, Do(i, Onward(sv, shop.subs[i], suffix, nonce, job, createdAt)))
    ensures var p' := PhaseAfter(sv, shop, shop.subs[i], Onward(sv, shop.subs[i], suffix, nonce, job, createdAt));
      !p'.Gone? ==> !p'.Arrived? && p'.ticket == TicketOf(sv, shop, shop.subs[i])
  {}

  lemma OthersUnmoved(sv: Server, shop: Shop, i: nat, suffix: string, nonce: Nonce, job: JobId, createdAt: Time)
    requires CanSeal(sv) && Unused(shop, i, suffix, job) && job !in shop.jobs && Unhindered(sv, shop, i)
    requires Enabled(sv, shop, Do(i, Onward(sv, shop.subs[i], suffix, nonce, job, createdAt)))
    requires !shop.subs[i].phase.Enqueued?
    ensures var next := Fire(sv, shop, Do(i, Onward(sv, shop.subs[i], suffix, nonce, job, createdAt)));
      && Unused(next, i, suffix, job) && Unhindered(sv, next, i)
      && (next.samples, next.jobs) == (shop.samples, shop.jobs) && next.subs[i].content == shop.subs[i].content
      && JobOf(next.subs[i].phase, job, createdAt) == JobOf(shop.subs[i].phase, job, createdAt)
      && TicketOf(sv, next, next.subs[i]) == TicketOf(sv, shop, shop.subs[i])
      && Rank(sv, next.subs[i]) < Rank(sv, shop.subs[i])
  {
    OnwardAdvances(sv, shop, i, suffix, nonce, job, createdAt);
    OnwardKeepsTickets(sv, shop, i, suffix, nonce, job, createdAt);
  }

  lemma OnwardShowsOnly(sv: Server, shop: Shop, i: nat, deed: Deed)
    requires Inv(sv, shop) && Enabled(sv, shop, Do(i, deed))
    ensures forall d: Hex :: SeesOnly(sv, shop.files, Fire(sv, shop, Do(i, deed)).files, shop.subs[i].content, d)
  {
    assert SubSound(sv, shop, i, shop.subs[i]);
    forall d: Hex {
      DeedsShowOnly(sv, shop, shop.subs[i], deed, d);
    }
  }

  lemma CommitRecords(sv: Server, shop: Shop, i: nat)
    requires Inv(sv, shop) && i < |shop.subs| && shop.subs[i].phase.Enqueued?
    ensures var p := shop.subs[i].phase;
      RecordedAs(sv, BooksOf(shop), BooksOf(Committed(sv, shop, i)), shop.subs[i].content, p.job, p.createdAt)
  {
    assert SubSound(sv, shop, i, shop.subs[i]);
  }

  lemma RecordedLater(sv: Server, before: Books, next: Books, after: Books, content: Bytes, job: JobId, createdAt: Time)
    requires RecordedAs(sv, next, after, content, job, createdAt)
    requires (next.samples, next.jobs) == (before.samples, before.jobs)
    requires forall d: Hex :: SeesOnly(sv, before.files, next.files, content, d)
    ensures RecordedAs(sv, before, after, content, job, createdAt)
  {
    assert SeesOnly(sv, before.files, next.files, content, Digest(sv, content));
    forall d: Hex
      ensures SeesOnly(sv, before.files, after.files, content, d)
    {
      assert SeesOnly(sv, before.files, next.files, content, d) && SeesOnly(sv, next.files, after.files, content, d);
    }
  }

  /** Left alone, every submission is accepted after at most eight more steps, and recorded as the code records it. */
  lemma {:induction false} LeftAloneIsAccepted(sv: Server, shop: Shop, i: nat, suffix: string, nonce: Nonce, job: JobId,
                                               createdAt: Time) returns (moves: seq<Move>, after: Shop)
    requires CanSeal(sv) && Inv(sv, shop) && Unused(shop, i, suffix, job) && job !in shop.jobs
    requires Unhindered(sv, shop, i)
    ensures From(sv, shop, moves) == Some(after) && |moves| <= Rank(sv, shop.subs[i])
    ensures i < |after.subs| && after.subs[i].phase.Accepted?
    ensures after.subs[i].phase.ticket == TicketOf(sv, shop, shop.subs[i])
    ensures var (asJob, at) := JobOf(shop.subs[i].phase, job, createdAt);
      && after.subs[i].phase.job == asJob
      && RecordedAs(sv, BooksOf(shop), BooksOf(after), shop.subs[i].content, asJob, at)
    decreases Rank(sv, shop.subs[i])
  {
    UnhinderedGoOn(sv, shop, i, suffix, nonce, job, createdAt);
    var m := Do(i, Onward(sv, shop.subs[i], suffix, nonce, job, createdAt));
    var next := Fire(sv, shop, m);
    if shop.subs[i].phase.Enqueued? {
      CommitRecords(sv, shop, i);
      moves, after := [m], next;
      assert From(sv, next, []) == Some(next);
    } else {
      MovesKeepInv(sv, shop, m);
      OthersUnmoved(sv, shop, i, suffix, nonce, job, createdAt);
      OnwardShowsOnly(sv, shop, i, m.deed);
      var rest;
      rest, after := LeftAloneIsAccepted(sv, next, i, suffix, nonce, job, createdAt);
      moves := [m] + rest;
      assert moves[1..] == rest;
      var (asJob, at) := JobOf(shop.subs[i].phase, job, createdAt);
      RecordedLater(sv, BooksOf(shop), BooksOf(next), BooksOf(after), shop.subs[i].content, asJob, at);
    }
  }
}
