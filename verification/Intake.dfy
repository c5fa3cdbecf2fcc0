/**
 * Any number of submissions on their way into the store and the tables at once: IntakeService._record
 * in app/services/intake.py over app/storage/local.py, with workers taking the committed jobs.
 *
 * A move is what one submission does between two points at which others can act. Every submission
 * starts from a staged upload (`Staging`), with its digests and header window computed.
 */
module Intake {
  import opened Base
  import opened FileTypes
  import opened Jobs
  import opened JobHistory
  import opened Staging
  import opened LocalStorage
  import Envelope
  import Gcm

  type Nonce = n: Bytes | |n| == Gcm.NONCE_SIZE witness seq(12, _ => 0)

  /** Where everything is kept and how it is sealed and hashed; fixed for a run. */
  datatype Server = Server(site: Site, suite: Suite)

  function Digest(sv: Server, content: Bytes): Hex {
    HashBytes(sv.suite, content).sha256
  }

  predicate CanSeal(sv: Server) {
    sv.site.keyId in sv.site.keys && Envelope.Prepare(sv.site.keys[sv.site.keyId], sv.site.keyId).Ok?
  }

  function SealedCopy(sv: Server, content: Bytes, nonce: Nonce): Bytes
    requires CanSeal(sv)
  {
    Envelope.Seal(sv.site.p, sv.site.keys[sv.site.keyId], sv.site.keyId, nonce, content).value
  }

  /** What the lookup of the sample row told a submission; `seen` is how many had been accepted by then. */
  datatype Ticket = Ticket(fileType: FileType, duplicate: bool, seen: nat)

  datatype Phase =
    | Arrived
    | LookedUp(ticket: Ticket)
    | Missing(ticket: Ticket)
    /** Sealing to a partial file; `wanted` until the request that asked for it is cancelled. */
    | Storing(ticket: Ticket, suffix: string, nonce: Nonce, written: nat, wanted: bool)
    | Stored(ticket: Ticket)
    /** `inserts` is whether this transaction holds an uncommitted sample row. */
    | Inserted(ticket: Ticket, inserts: bool)
    | Enqueued(ticket: Ticket, inserts: bool, job: JobId, createdAt: Time)
    | Accepted(ticket: Ticket, inserts: bool, job: JobId, at: nat)
    | Gone

  datatype Submission = Submission(content: Bytes, phase: Phase)

  datatype SampleRow = SampleRow(hashes: ContentHashes, fileType: FileType)

  datatype Entry = Entry(submission: nat, digest: Hex, job: JobId)

  /** Files, committed rows, the submissions, and the accepted ones in the order of their commits. */
  datatype Shop = Shop(
    files: Files,
    samples: map<Hex, SampleRow>,
    jobs: map<JobId, JobRow>,
    subs: seq<Submission>,
    ledger: seq<Entry>)

  /** What outlives the submissions. */
  datatype Books = Books(files: Files, samples: map<Hex, SampleRow>, jobs: map<JobId, JobRow>)

  function BooksOf(shop: Shop): Books {
    Books(shop.files, shop.samples, shop.jobs)
  }

  const EMPTY_SHOP := Shop(map[], map[], map[], [], [])

  /** What one submission does next. */
  datatype Deed =
    | Lookup
    | CheckExists
    | Open(suffix: string, nonce: Nonce)
    | Write(written: nat)
    | Promote(refused: bool)
    | Insert
    | Enqueue(job: JobId, createdAt: Time)
    | Commit
    /** An error: the transaction is rolled back and the partial file removed. */
    | Raise
    /** The request is cancelled while its put runs on in another thread. */
    | Cancel
    /** The process dies and removes nothing. */
    | Crash

  datatype Move =
    | Arrive(content: Bytes)
    | Do(i: nat, deed: Deed)
    /** A worker or a sweep changes a committed job. */
    | Work(job: JobId, event: Event)

  predicate Live(p: Phase) {
    !p.Accepted? && !p.Gone?
  }

  /** Holds an uncommitted sample row. */
  predicate Pending(p: Phase) {
    (p.Inserted? || p.Enqueued?) && p.inserts
  }

  function PartialOf(sv: Server, sub: Submission): Path
    requires sub.phase.Storing?
  {
    PartialPath(sv.site.root, Digest(sv, sub.content), sub.phase.suffix)
  }

  /** Two submissions never share a partial file, an uncommitted sample row, or a job id. */
  predicate Apart(sv: Server, a: Submission, b: Submission) {
    && (a.phase.Storing? && b.phase.Storing? ==> PartialOf(sv, a) != PartialOf(sv, b))
    && (Pending(a.phase) && Pending(b.phase) ==> Digest(sv, a.content) != Digest(sv, b.content))
    && (a.phase.Enqueued? && b.phase.Enqueued? ==> a.phase.job != b.phase.job)
  }

  predicate ApartFromOthers(sv: Server, subs: seq<Submission>, i: nat, sub: Submission) {
    forall j | 0 <= j < |subs| && j != i :: Apart(sv, sub, subs[j])
  }

  predicate Guard(sv: Server, shop: Shop, sub: Submission, deed: Deed) {
    match deed
    case Lookup => sub.phase.Arrived?
    case CheckExists => sub.phase.LookedUp?
    case Open(_, _) => sub.phase.Missing? && CanSeal(sv)
    case Write(written) =>
      sub.phase.Storing? && CanSeal(sv) && sub.phase.written < written <= |SealedCopy(sv, sub.content, sub.phase.nonce)|
    case Promote(_) =>
      && sub.phase.Storing? && CanSeal(sv) && PartialOf(sv, sub) in shop.files
      && sub.phase.written == |SealedCopy(sv, sub.content, sub.phase.nonce)|
    case Insert => sub.phase.Stored?
    case Enqueue(job, _) => sub.phase.Inserted? && job !in shop.jobs
    case Commit => sub.phase.Enqueued?
    case Raise => Live(sub.phase)
    case Cancel => sub.phase.Storing? && sub.phase.wanted
    case Crash => Live(sub.phase)
  }

  /** The answer of the lookup: a duplicate keeps the type decided the first time. */
  function TicketFor(sv: Server, shop: Shop, content: Bytes): Ticket {
    if Digest(sv, content) in shop.samples then
      Ticket(shop.samples[Digest(sv, content)].fileType, true, |shop.ledger|)
    else
      Ticket(DetectDefault(Window(content, HEADER_SIZE)), false, |shop.ledger|)
  }

  function AcceptedAt(p: Phase, at: nat): Phase
    requires p.Enqueued?
  {
    Accepted(p.ticket, p.inserts, p.job, at)
  }

  function PhaseAfter(sv: Server, shop: Shop, sub: Submission, deed: Deed): Phase
    requires Guard(sv, shop, sub, deed)
  {
    var digest, p := Digest(sv, sub.content), sub.phase;
    match deed
    case Lookup => LookedUp(TicketFor(sv, shop, sub.content))
    case CheckExists => if PathFor(sv.site.root, digest) in shop.files then Stored(p.ticket) else Missing(p.ticket)
    case Open(suffix, nonce) => Storing(p.ticket, suffix, nonce, 0, true)
    case Write(written) => p.(written := written)
    case Promote(refused) =>
      var promoted := Promoted(shop.files, PartialOf(sv, sub), PathFor(sv.site.root, digest), refused);
      if promoted.1 == None && p.wanted then Stored(p.ticket) else Gone
    case Insert => Inserted(p.ticket, !p.ticket.duplicate && digest !in shop.samples)
    case Enqueue(job, createdAt) => Enqueued(p.ticket, p.inserts, job, createdAt)
    case Commit => AcceptedAt(p, |shop.ledger|)
    case Raise => Gone
    case Cancel => p.(wanted := false)
    case Crash => Gone
  }

  function FilesAfter(sv: Server, shop: Shop, sub: Submission, deed: Deed): Files
    requires Guard(sv, shop, sub, deed)
  {
    var digest := Digest(sv, sub.content);
    match deed
    case Open(suffix, _) => shop.files[PartialPath(sv.site.root, digest, suffix) := []]
    case Write(written) => shop.files[PartialOf(sv, sub) := SealedCopy(sv, sub.content, sub.phase.nonce)[..written]]
    case Promote(refused) =>
      Promoted(shop.files, PartialOf(sv, sub), PathFor(sv.site.root, digest), refused).0 - {PartialOf(sv, sub)}
    case Raise => if sub.phase.Storing? then shop.files - {PartialOf(sv, sub)} else shop.files
    case _ => shop.files
  }

  /**
   * Random suffixes and job ids are not handed out twice, and inserting a row waits while another
   * transaction holds one with the same key.
   */
  predicate Enabled(sv: Server, shop: Shop, m: Move) {
    match m
    case Arrive(content) => content != []
    case Work(job, event) => job in shop.jobs && Step(shop.jobs[job], event).Some?
    case Do(i, deed) =>
      && i < |shop.subs| && Guard(sv, shop, shop.subs[i], deed)
      && (deed.Open? || deed.Insert? || deed.Enqueue? ==>
            ApartFromOthers(sv, shop.subs, i, Advanced(sv, shop, i, deed)))
  }

  function Advanced(sv: Server, shop: Shop, i: nat, deed: Deed): Submission
    requires i < |shop.subs| && Guard(sv, shop, shop.subs[i], deed)
  {
    shop.subs[i].(phase := PhaseAfter(sv, shop, shop.subs[i], deed))
  }

  function RowFor(sv: Server, content: Bytes, fileType: FileType): SampleRow {
    SampleRow(HashBytes(sv.suite, content), fileType)
  }

  /** The row of somebody who found none. */
  function DetectedRow(sv: Server, content: Bytes): SampleRow {
    RowFor(sv, content, DetectDefault(Window(content, HEADER_SIZE)))
  }

  /** The sample row, if this transaction inserted it, and the job become visible at one instant. */
  function Committed(sv: Server, shop: Shop, i: nat): Shop
    requires i < |shop.subs| && shop.subs[i].phase.Enqueued?
  {
    var sub := shop.subs[i];
    var digest, p := Digest(sv, sub.content), sub.phase;
    var row := RowFor(sv, sub.content, p.ticket.fileType);
    shop.(samples := if p.inserts then shop.samples[digest := row] else shop.samples,
          jobs := shop.jobs[p.job := NewJob(p.createdAt, digest)],
          ledger := shop.ledger + [Entry(i, digest, p.job)],
          subs := shop.subs[i := sub.(phase := AcceptedAt(p, |shop.ledger|))])
  }

  function Fire(sv: Server, shop: Shop, m: Move): Shop
    requires Enabled(sv, shop, m)
  {
    match m
    case Arrive(content) => shop.(subs := shop.subs + [Submission(content, Arrived)])
    case Work(job, event) => shop.(jobs := shop.jobs[job := Step(shop.jobs[job], event).value])
    case Do(i, deed) =>
      if deed.Commit? then Committed(sv, shop, i)
      else shop.(files := FilesAfter(sv, shop, shop.subs[i], deed), subs := shop.subs[i := Advanced(sv, shop, i, deed)])
  }

  // ------------------------------------------------------------------------------------------
  // What every move keeps.

  function ReadAs(sv: Server, shop: Shop, digest: Hex): Result<Bytes, GetError> {
    Fetched(sv.site, shop.files, digest)
  }

  predicate SubmittedAt(shop: Shop, content: Bytes, i: nat) {
    i < |shop.subs| && shop.subs[i].content == content
  }

  predicate WasSubmitted(shop: Shop, content: Bytes) {
    exists i: nat :: i < |shop.subs| && SubmittedAt(shop, content, i)
  }

  /** Under a digest there is nothing, or a complete envelope of submitted bytes that have that digest. */
  predicate ObjectSound(sv: Server, shop: Shop, digest: Hex) {
    var r := ReadAs(sv, shop, digest);
    if r.Ok? then Digest(sv, r.value) == digest && WasSubmitted(shop, r.value)
    else r == Err(SampleNotFound)
  }

  ghost predicate ObjectsSound(sv: Server, shop: Shop) {
    forall digest: Hex :: ObjectSound(sv, shop, digest)
  }

  predicate Known(ledger: seq<Entry>, n: nat, digest: Hex)
    requires n <= |ledger|
  {
    exists k: nat :: k < n && ledger[k].digest == digest
  }

  predicate TicketSound(sv: Server, shop: Shop, content: Bytes, t: Ticket) {
    && t.seen <= |shop.ledger|
    && (t.duplicate <==> Known(shop.ledger, t.seen, Digest(sv, content)))
    && var digest := Digest(sv, content);
       if t.duplicate then digest in shop.samples && shop.samples[digest].fileType == t.fileType
       else t.fileType == DetectDefault(Window(content, HEADER_SIZE))
  }

  /** The partial file is exactly as far as the sealing has come. */
  predicate PartialSound(sv: Server, shop: Shop, sub: Submission)
    requires sub.phase.Storing?
  {
    && CanSeal(sv) && sub.phase.written <= |SealedCopy(sv, sub.content, sub.phase.nonce)|
    && PartialOf(sv, sub) in shop.files
    && shop.files[PartialOf(sv, sub)] == SealedCopy(sv, sub.content, sub.phase.nonce)[..sub.phase.written]
  }

  predicate SubSound(sv: Server, shop: Shop, i: nat, sub: Submission) {
    var digest, p := Digest(sv, sub.content), sub.phase;
    && sub.content != []
    && (!p.Arrived? && !p.Gone? ==> TicketSound(sv, shop, sub.content, p.ticket))
    && (p.Storing? ==> PartialSound(sv, shop, sub))
    && (p.Stored? || p.Inserted? || p.Enqueued? || p.Accepted? ==> ReadAs(sv, shop, digest).Ok?)
    && (p.Inserted? || p.Enqueued? ==> (p.inserts <==> digest !in shop.samples))
    && (p.Enqueued? ==> p.job !in shop.jobs)
    && (p.Accepted? ==> p.at < |shop.ledger| && shop.ledger[p.at] == Entry(i, digest, p.job) && p.ticket.seen <= p.at)
  }

  ghost predicate SubsSound(sv: Server, shop: Shop) {
    && (forall i | 0 <= i < |shop.subs| :: SubSound(sv, shop, i, shop.subs[i]))
    && forall i, j | 0 <= i < |shop.subs| && 0 <= j < |shop.subs| && i != j :: Apart(sv, shop.subs[i], shop.subs[j])
  }

  /** The first of its digest to commit, and only the first, inserted the sample row. */
  predicate EntrySound(sv: Server, shop: Shop, k: nat)
    requires k < |shop.ledger|
  {
    var e := shop.ledger[k];
    && e.submission < |shop.subs|
    && var sub := shop.subs[e.submission];
    && sub.phase.Accepted? && sub.phase.at == k
    && e.digest in shop.samples && e.job in shop.jobs && shop.jobs[e.job].sampleSha256 == e.digest
    && (sub.phase.inserts <==> !Known(shop.ledger, k, e.digest))
    && (sub.phase.inserts ==> shop.samples[e.digest] == RowFor(sv, sub.content, sub.phase.ticket.fileType))
  }

  predicate HasJob(ledger: seq<Entry>, job: JobId) {
    exists k: nat :: k < |ledger| && ledger[k].job == job
  }

  ghost predicate LedgerSound(sv: Server, shop: Shop) {
    && (forall k: nat | k < |shop.ledger| :: EntrySound(sv, shop, k))
    && (forall digest :: digest in shop.samples <==> Known(shop.ledger, |shop.ledger|, digest))
    && (forall job :: job in shop.jobs <==> HasJob(shop.ledger, job))
    && forall k, l | 0 <= k < l < |shop.ledger| :: shop.ledger[k].job != shop.ledger[l].job
  }

  ghost predicate Inv(sv: Server, shop: Shop) {
    ObjectsSound(sv, shop) && SubsSound(sv, shop) && LedgerSound(sv, shop)
  }

  // ------------------------------------------------------------------------------------------
  // What readers of the store see of one move.

  lemma SealedCopyReads(sv: Server, content: Bytes, nonce: Nonce)
    requires CanSeal(sv)
    ensures Envelope.Unseal(sv.site.p, sv.site.keys, SealedCopy(sv, content, nonce)) == Ok(content)
  {
    Envelope.UnsealSeal(sv.site.p, sv.site.keys[sv.site.keyId], sv.site.keyId, nonce, content, sv.site.keys);
  }

  /** A partial file is at the path of no digest. */
  lemma PartialsHide(sv: Server, sub: Submission, suffix: string, digest: Hex)
    ensures PathFor(sv.site.root, digest) != PartialPath(sv.site.root, Digest(sv, sub.content), suffix)
  {
    PartialsAreUnderNoKey(sv.site.root, Digest(sv, sub.content), suffix, digest);
    DigestsAreNotPartialNames(Digest(sv, sub.content), suffix, digest);
  }

  /** The sealed file, once it is complete, is the whole envelope. */
  lemma CompletePartial(sv: Server, shop: Shop, sub: Submission, refused: bool)
    requires Guard(sv, shop, sub, Promote(refused)) && PartialSound(sv, shop, sub)
    ensures Envelope.Unseal(sv.site.p, sv.site.keys, shop.files[PartialOf(sv, sub)]) == Ok(sub.content)
  {
    var whole := SealedCopy(sv, sub.content, sub.phase.nonce);
    assert whole[..|whole|] == whole;
    SealedCopyReads(sv, sub.content, sub.phase.nonce);
  }

  /** Under a digest a reader sees what it saw before, or this content, which has that digest. */
  ghost predicate SeesOnly(sv: Server, before: Files, after: Files, content: Bytes, digest: Hex) {
    var before', after' := Fetched(sv.site, before, digest), Fetched(sv.site, after, digest);
    after' == before' || (after' == Ok(content) && Digest(sv, content) == digest)
  }

  lemma PromotingShowsOnly(sv: Server, shop: Shop, sub: Submission, refused: bool, digest: Hex)
    requires Guard(sv, shop, sub, Promote(refused)) && PartialSound(sv, shop, sub)
    ensures SeesOnly(sv, shop.files, FilesAfter(sv, shop, sub, Promote(refused)), sub.content, digest)
  {
    PartialsHide(sv, sub, sub.phase.suffix, digest);
    CompletePartial(sv, shop, sub, refused);
    PromotionShows(sv.site.root, shop.files, PartialOf(sv, sub), Digest(sv, sub.content), refused, digest);
  }

  lemma DeedsShowOnly(sv: Server, shop: Shop, sub: Submission, deed: Deed, digest: Hex)
    requires Guard(sv, shop, sub, deed) && (sub.phase.Storing? ==> PartialSound(sv, shop, sub))
    ensures SeesOnly(sv, shop.files, FilesAfter(sv, shop, sub, deed), sub.content, digest)
  {
    match deed {
      case Open(suffix, _) => PartialsHide(sv, sub, suffix, digest);
      case Promote(refused) => PromotingShowsOnly(sv, shop, sub, refused, digest);
      case Write(_) => PartialsHide(sv, sub, sub.phase.suffix, digest);
      case Raise =>
        if sub.phase.Storing? {
          PartialsHide(sv, sub, sub.phase.suffix, digest);
        }
      case _ =>
    }
  }

  lemma DeedsKeepObjectsSound(sv: Server, shop: Shop, i: nat, deed: Deed)
    requires Inv(sv, shop) && Enabled(sv, shop, Do(i, deed))
    ensures ObjectsSound(sv, Fire(sv, shop, Do(i, deed)))
  {
    var after, sub := Fire(sv, shop, Do(i, deed)), shop.subs[i];
    assert SubSound(sv, shop, i, sub);
    forall digest: Hex
      ensures ObjectSound(sv, after, digest)
    {
      DeedsShowOnly(sv, shop, sub, deed, digest);
      assert ObjectSound(sv, shop, digest);
      var r := ReadAs(sv, after, digest);
      if r.Ok? {
        var j: nat :| j < |shop.subs| && shop.subs[j].content == r.value by {
          if r == ReadAs(sv, shop, digest) {
            var j: nat :| j < |shop.subs| && SubmittedAt(shop, r.value, j);
          }
        }
        assert SubmittedAt(after, r.value, j);
      }
    }
  }

  // ------------------------------------------------------------------------------------------
  // What the submissions that do not move rely on.

  /** Rows and ledger entries stay, whatever else comes. */
  ghost predicate Extends(shop: Shop, after: Shop) {
    && shop.ledger <= after.ledger
    && forall digest | digest in shop.samples ::
      digest in after.samples && after.samples[digest] == shop.samples[digest]
  }

  lemma TicketsStaySound(sv: Server, shop: Shop, after: Shop, content: Bytes, t: Ticket)
    requires TicketSound(sv, shop, content, t) && Extends(shop, after)
    ensures TicketSound(sv, after, content, t)
  {
    assert forall k | 0 <= k < t.seen :: after.ledger[k] == shop.ledger[k];
  }

  /** A commit takes no row or job id that another submission counts on being free. */
  lemma CommitsStayApart(sv: Server, shop: Shop, i: nat, j: nat)
    requires SubsSound(sv, shop) && i < |shop.subs| && j < |shop.subs| && i != j && shop.subs[i].phase.Enqueued?
    ensures var after, q := Committed(sv, shop, i), shop.subs[j].phase;
      (Pending(q) ==> Digest(sv, shop.subs[j].content) !in after.samples) && (q.Enqueued? ==> q.job !in after.jobs)
  {
    assert SubSound(sv, shop, j, shop.subs[j]) && Apart(sv, shop.subs[i], shop.subs[j]);
  }

  lemma CommitsExtend(sv: Server, shop: Shop, i: nat)
    requires SubsSound(sv, shop) && i < |shop.subs| && shop.subs[i].phase.Enqueued?
    ensures Extends(shop, Committed(sv, shop, i))
  {
    assert SubSound(sv, shop, i, shop.subs[i]);
  }

  /** No deed touches a file that is neither the submission's partial file nor under its digest. */
  lemma OtherFilesStay(sv: Server, shop: Shop, sub: Submission, deed: Deed, path: Path)
    requires Guard(sv, shop, sub, deed) && path != PathFor(sv.site.root, Digest(sv, sub.content))
    requires sub.phase.Storing? ==> path != PartialOf(sv, sub)
    requires deed.Open? ==> path != PartialPath(sv.site.root, Digest(sv, sub.content), deed.suffix)
    ensures SameAt(shop.files, FilesAfter(sv, shop, sub, deed), path)
  {}

  lemma PartialsStaySound(sv: Server, shop: Shop, i: nat, deed: Deed, j: nat)
    requires SubsSound(sv, shop) && Enabled(sv, shop, Do(i, deed))
    requires j < |shop.subs| && j != i && shop.subs[j].phase.Storing?
    ensures PartialSound(sv, Fire(sv, shop, Do(i, deed)), shop.subs[j])
  {
    var sub, other := shop.subs[i], shop.subs[j];
    assert SubSound(sv, shop, j, other) && Apart(sv, sub, other);
    if deed.Open? {
      assert Apart(sv, Advanced(sv, shop, i, deed), other);
    }
    PartialsHide(sv, other, other.phase.suffix, Digest(sv, sub.content));
    OtherFilesStay(sv, shop, sub, deed, PartialOf(sv, other));
  }

  lemma OtherTicketsStaySound(sv: Server, shop: Shop, i: nat, deed: Deed, j: nat)
    requires Inv(sv, shop) && Enabled(sv, shop, Do(i, deed)) && j < |shop.subs| && j != i
    requires !shop.subs[j].phase.Arrived? && !shop.subs[j].phase.Gone?
    ensures TicketSound(sv, Fire(sv, shop, Do(i, deed)), shop.subs[j].content, shop.subs[j].phase.ticket)
  {
    assert SubSound(sv, shop, j, shop.subs[j]);
    if deed.Commit? {
      CommitsExtend(sv, shop, i);
    }
    TicketsStaySound(sv, shop, Fire(sv, shop, Do(i, deed)), shop.subs[j].content, shop.subs[j].phase.ticket);
  }

  lemma OthersStaySound(sv: Server, shop: Shop, i: nat, deed: Deed, j: nat)
    requires Inv(sv, shop) && Enabled(sv, shop, Do(i, deed)) && j < |shop.subs| && j != i
    ensures SubSound(sv, Fire(sv, shop, Do(i, deed)), j, shop.subs[j])
  {
    var sub, other := shop.subs[i], shop.subs[j];
    assert SubSound(sv, shop, j, other) && SubSound(sv, shop, i, sub);
    DeedsShowOnly(sv, shop, sub, deed, Digest(sv, other.content));
    if deed.Commit? {
      CommitsExtend(sv, shop, i);
      CommitsStayApart(sv, shop, i, j);
    }
    if !other.phase.Arrived? && !other.phase.Gone? {
      OtherTicketsStaySound(sv, shop, i, deed, j);
    }
    if other.phase.Storing? {
      PartialsStaySound(sv, shop, i, deed, j);
    }
  }

  // ------------------------------------------------------------------------------------------
  // The submission that moves.

  lemma TicketsAreSound(sv: Server, shop: Shop, content: Bytes)
    requires LedgerSound(sv, shop)
    ensures TicketSound(sv, shop, content, TicketFor(sv, shop, content))
  {}

  lemma CommitsAreSound(sv: Server, shop: Shop, i: nat)
    requires Inv(sv, shop) && Enabled(sv, shop, Do(i, Commit))
    ensures SubSound(sv, Fire(sv, shop, Do(i, Commit)), i, Advanced(sv, shop, i, Commit))
  {
    var after := Fire(sv, shop, Do(i, Commit));
    assert SubSound(sv, shop, i, shop.subs[i]);
    CommitsExtend(sv, shop, i);
    TicketsStaySound(sv, shop, after, shop.subs[i].content, shop.subs[i].phase.ticket);
  }

  /** Once promoted, or found there after losing the race, the object can be read. */
  lemma PromotionsAreReadable(sv: Server, shop: Shop, i: nat, refused: bool)
    requires Inv(sv, shop) && Enabled(sv, shop, Do(i, Promote(refused)))
    requires PhaseAfter(sv, shop, shop.subs[i], Promote(refused)).Stored?
    ensures ReadAs(sv, Fire(sv, shop, Do(i, Promote(refused))), Digest(sv, shop.subs[i].content)).Ok?
  {
    var sub := shop.subs[i];
    var digest := Digest(sv, sub.content);
    assert SubSound(sv, shop, i, sub) && ObjectSound(sv, shop, digest);
    PartialsHide(sv, sub, sub.phase.suffix, digest);
    CompletePartial(sv, shop, sub, refused);
    PromotionShows(sv.site.root, shop.files, PartialOf(sv, sub), digest, refused, digest);
  }

  /** What is written is the beginning of the envelope. */
  lemma OwnPartialsAreSound(sv: Server, shop: Shop, i: nat, deed: Deed)
    requires Inv(sv, shop) && Enabled(sv, shop, Do(i, deed)) && PhaseAfter(sv, shop, shop.subs[i], deed).Storing?
    ensures PartialSound(sv, Fire(sv, shop, Do(i, deed)), Advanced(sv, shop, i, deed))
  {
    assert SubSound(sv, shop, i, shop.subs[i]);
  }

  lemma OwnTicketsAreSound(sv: Server, shop: Shop, i: nat, deed: Deed)
    requires Inv(sv, shop) && Enabled(sv, shop, Do(i, deed)) && !deed.Commit?
    requires !PhaseAfter(sv, shop, shop.subs[i], deed).Gone?
    ensures !PhaseAfter(sv, shop, shop.subs[i], deed).Arrived?
    ensures var p := PhaseAfter(sv, shop, shop.subs[i], deed);
      TicketSound(sv, Fire(sv, shop, Do(i, deed)), shop.subs[i].content, p.ticket)
  {
    assert SubSound(sv, shop, i, shop.subs[i]);
    TicketsAreSound(sv, shop, shop.subs[i].content);
  }

  lemma OwnObjectsAreReadable(sv: Server, shop: Shop, i: nat, deed: Deed)
    requires Inv(sv, shop) && Enabled(sv, shop, Do(i, deed))
    requires var p := PhaseAfter(sv, shop, shop.subs[i], deed); p.Stored? || p.Inserted? || p.Enqueued?
    ensures ReadAs(sv, Fire(sv, shop, Do(i, deed)), Digest(sv, shop.subs[i].content)).Ok?
  {
    if deed.Promote? {
      PromotionsAreReadable(sv, shop, i, deed.refused);
    } else {
      assert SubSound(sv, shop, i, shop.subs[i]) && ObjectSound(sv, shop, Digest(sv, shop.subs[i].content));
    }
  }

  lemma ActorsStaySound(sv: Server, shop: Shop, i: nat, deed: Deed)
    requires Inv(sv, shop) && Enabled(sv, shop, Do(i, deed))
    ensures SubSound(sv, Fire(sv, shop, Do(i, deed)), i, Advanced(sv, shop, i, deed))
  {
    var p := PhaseAfter(sv, shop, shop.subs[i], deed);
    assert SubSound(sv, shop, i, shop.subs[i]);
    if deed.Commit? {
      CommitsAreSound(sv, shop, i);
    } else if !p.Gone? {
      OwnTicketsAreSound(sv, shop, i, deed);
      if p.Storing? {
        OwnPartialsAreSound(sv, shop, i, deed);
      } else if p.Stored? || p.Inserted? || p.Enqueued? {
        OwnObjectsAreReadable(sv, shop, i, deed);
      }
    }
  }

  lemma OtherDeedsClaimNothing(sv: Server, shop: Shop, sub: Submission, deed: Deed)
    requires Guard(sv, shop, sub, deed) && !deed.Open? && !deed.Insert? && !deed.Enqueue?
    ensures var p := PhaseAfter(sv, shop, sub, deed);
      && !Pending(p) && !p.Enqueued? && (p.Storing? ==> sub.phase.Storing? && p.suffix == sub.phase.suffix)
  {}

  lemma DeedsStayApart(sv: Server, shop: Shop, i: nat, deed: Deed, j: nat)
    requires SubsSound(sv, shop) && Enabled(sv, shop, Do(i, deed)) && j < |shop.subs| && j != i
    ensures Apart(sv, Advanced(sv, shop, i, deed), shop.subs[j])
  {
    if !deed.Open? && !deed.Insert? && !deed.Enqueue? {
      OtherDeedsClaimNothing(sv, shop, shop.subs[i], deed);
      assert Apart(sv, shop.subs[i], shop.subs[j]);
    }
  }

  lemma ApartBothWays(sv: Server, a: Submission, b: Submission)
    requires Apart(sv, a, b)
    ensures Apart(sv, b, a)
  {}

  lemma DeedsKeepSubsSound(sv: Server, shop: Shop, i: nat, deed: Deed)
    requires Inv(sv, shop) && Enabled(sv, shop, Do(i, deed))
    ensures SubsSound(sv, Fire(sv, shop, Do(i, deed)))
  {
    var after := Fire(sv, shop, Do(i, deed));
    forall j | 0 <= j < |after.subs|
      ensures SubSound(sv, after, j, after.subs[j])
    {
      if j == i {
        ActorsStaySound(sv, shop, i, deed);
      } else {
        OthersStaySound(sv, shop, i, deed, j);
      }
    }
    forall j, k | 0 <= j < |after.subs| && 0 <= k < |after.subs| && j != k
      ensures Apart(sv, after.subs[j], after.subs[k])
    {
      if j == i {
        DeedsStayApart(sv, shop, i, deed, k);
      } else if k == i {
        DeedsStayApart(sv, shop, i, deed, j);
        ApartBothWays(sv, after.subs[i], after.subs[j]);
      } else {
        assert Apart(sv, shop.subs[j], shop.subs[k]);
      }
    }
  }

  // ------------------------------------------------------------------------------------------
  // The committed rows.

  lemma KnownBefore(ledger: seq<Entry>, e: Entry, n: nat, digest: Hex)
    requires n <= |ledger|
    ensures Known(ledger + [e], n, digest) <==> Known(ledger, n, digest)
    ensures Known(ledger + [e], |ledger| + 1, digest) <==> Known(ledger, |ledger|, digest) || e.digest == digest
  {
    var longer := ledger + [e];
    assert forall k: nat | k < |ledger| :: longer[k] == ledger[k];
    if e.digest == digest {
      assert longer[|ledger|].digest == digest;
    }
  }

  lemma HasJobBefore(ledger: seq<Entry>, e: Entry, job: JobId)
    ensures HasJob(ledger + [e], job) <==> HasJob(ledger, job) || e.job == job
  {
    var longer := ledger + [e];
    assert forall k: nat | k < |ledger| :: longer[k] == ledger[k];
    assert longer[|ledger|] == e;
  }

  lemma EntriesStaySound(sv: Server, shop: Shop, i: nat, k: nat)
    requires k < |shop.ledger| && EntrySound(sv, shop, k)
    requires i < |shop.subs| && shop.subs[i].phase.Enqueued? && SubSound(sv, shop, i, shop.subs[i])
    ensures EntrySound(sv, Committed(sv, shop, i), k)
  {
    var e, sub, after := shop.ledger[k], shop.subs[i], Committed(sv, shop, i);
    KnownBefore(shop.ledger, Entry(i, Digest(sv, sub.content), sub.phase.job), k, e.digest);
    assert e.submission != i && after.subs[e.submission] == shop.subs[e.submission] && after.ledger[k] == e;
  }

  lemma NewEntriesAreSound(sv: Server, shop: Shop, i: nat)
    requires LedgerSound(sv, shop)
    requires i < |shop.subs| && shop.subs[i].phase.Enqueued? && SubSound(sv, shop, i, shop.subs[i])
    ensures EntrySound(sv, Committed(sv, shop, i), |shop.ledger|)
  {
    var sub := shop.subs[i];
    KnownBefore(shop.ledger, Entry(i, Digest(sv, sub.content), sub.phase.job), |shop.ledger|, Digest(sv, sub.content));
  }

  lemma CommitsKeepRowsKnown(sv: Server, shop: Shop, i: nat)
    requires LedgerSound(sv, shop) && i < |shop.subs| && shop.subs[i].phase.Enqueued?
    requires SubSound(sv, shop, i, shop.subs[i])
    ensures var after := Committed(sv, shop, i);
      && (forall digest :: digest in after.samples <==> Known(after.ledger, |after.ledger|, digest))
      && (forall job :: job in after.jobs <==> HasJob(after.ledger, job))
  {
    var e := Entry(i, Digest(sv, shop.subs[i].content), shop.subs[i].phase.job);
    forall digest: Hex {
      KnownBefore(shop.ledger, e, |shop.ledger|, digest);
    }
    forall job: JobId {
      HasJobBefore(shop.ledger, e, job);
    }
  }

  lemma CommitsKeepEntriesSound(sv: Server, shop: Shop, i: nat)
    requires LedgerSound(sv, shop)
    requires i < |shop.subs| && shop.subs[i].phase.Enqueued? && SubSound(sv, shop, i, shop.subs[i])
    ensures forall k: nat | k < |shop.ledger| + 1 :: EntrySound(sv, Committed(sv, shop, i), k)
  {
    forall k: nat | k < |shop.ledger| + 1
      ensures EntrySound(sv, Committed(sv, shop, i), k)
    {
      if k < |shop.ledger| {
        EntriesStaySound(sv, shop, i, k);
      } else {
        NewEntriesAreSound(sv, shop, i);
      }
    }
  }

  lemma NewJobsAreNew(sv: Server, shop: Shop, i: nat, k: nat)
    requires LedgerSound(sv, shop) && k < |shop.ledger|
    requires i < |shop.subs| && shop.subs[i].phase.Enqueued? && SubSound(sv, shop, i, shop.subs[i])
    ensures shop.ledger[k].job != shop.subs[i].phase.job
  {
    assert EntrySound(sv, shop, k);
  }

  lemma CommitsKeepLedgerSound(sv: Server, shop: Shop, i: nat)
    requires LedgerSound(sv, shop)
    requires i < |shop.subs| && shop.subs[i].phase.Enqueued? && SubSound(sv, shop, i, shop.subs[i])
    ensures LedgerSound(sv, Committed(sv, shop, i))
  {
    CommitsKeepEntriesSound(sv, shop, i);
    CommitsKeepRowsKnown(sv, shop, i);
    forall k: nat | k < |shop.ledger| {
      NewJobsAreNew(sv, shop, i, k);
    }
  }

  lemma OtherDeedsKeepLedgerSound(sv: Server, shop: Shop, i: nat, deed: Deed)
    requires Inv(sv, shop) && Enabled(sv, shop, Do(i, deed)) && !deed.Commit?
    ensures LedgerSound(sv, Fire(sv, shop, Do(i, deed)))
  {
    var after := Fire(sv, shop, Do(i, deed));
    forall k: nat | k < |after.ledger|
      ensures EntrySound(sv, after, k)
    {
      assert EntrySound(sv, shop, k);
    }
  }

  lemma WorkKeepsTheSample(row: JobRow, event: Event)
    requires Step(row, event).Some?
    ensures Step(row, event).value.sampleSha256 == row.sampleSha256
  {}

  /** A worker changes a job's own columns and never which sample it is about. */
  lemma WorkKeepsInv(sv: Server, shop: Shop, job: JobId, event: Event)
    requires Inv(sv, shop) && Enabled(sv, shop, Work(job, event))
    ensures Inv(sv, Fire(sv, shop, Work(job, event)))
  {
    WorkKeepsTheSample(shop.jobs[job], event);
    JobColumnsDoNotMatter(sv, shop, job, Step(shop.jobs[job], event).value);
  }

  lemma JobColumnsDoNotMatter(sv: Server, shop: Shop, job: JobId, row: JobRow)
    requires Inv(sv, shop) && job in shop.jobs && row.sampleSha256 == shop.jobs[job].sampleSha256
    ensures Inv(sv, shop.(jobs := shop.jobs[job := row]))
  {
    var after := shop.(jobs := shop.jobs[job := row]);
    forall i | 0 <= i < |after.subs|
      ensures SubSound(sv, after, i, after.subs[i])
    {
      assert SubSound(sv, shop, i, shop.subs[i]);
    }
    forall k: nat | k < |after.ledger|
      ensures EntrySound(sv, after, k)
    {
      assert EntrySound(sv, shop, k);
    }
    ObjectsStaySound(sv, shop, after);
  }

  lemma ObjectsStaySound(sv: Server, shop: Shop, after: Shop)
    requires ObjectsSound(sv, shop) && after.files == shop.files
    requires |after.subs| >= |shop.subs|
    requires forall i | 0 <= i < |shop.subs| :: after.subs[i].content == shop.subs[i].content
    ensures ObjectsSound(sv, after)
  {
    forall digest: Hex
      ensures ObjectSound(sv, after, digest)
    {
      assert ObjectSound(sv, shop, digest);
      var r := ReadAs(sv, shop, digest);
      if r.Ok? {
        var j: nat :| j < |shop.subs| && SubmittedAt(shop, r.value, j);
        assert SubmittedAt(after, r.value, j);
      }
    }
  }

  lemma ArrivalsKeepSubsSound(sv: Server, shop: Shop, content: Bytes)
    requires SubsSound(sv, shop) && content != []
    ensures SubsSound(sv, Fire(sv, shop, Arrive(content)))
  {
    var after := Fire(sv, shop, Arrive(content));
    forall i | 0 <= i < |after.subs|
      ensures SubSound(sv, after, i, after.subs[i])
    {
      if i < |shop.subs| {
        assert SubSound(sv, shop, i, shop.subs[i]);
      }
    }
    forall j, k | 0 <= j < |after.subs| && 0 <= k < |after.subs| && j != k
      ensures Apart(sv, after.subs[j], after.subs[k])
    {
      if j < |shop.subs| && k < |shop.subs| {
        assert Apart(sv, shop.subs[j], shop.subs[k]);
      }
    }
  }

  lemma ArrivalsKeepInv(sv: Server, shop: Shop, content: Bytes)
    requires Inv(sv, shop) && content != []
    ensures Inv(sv, Fire(sv, shop, Arrive(content)))
  {
    var after := Fire(sv, shop, Arrive(content));
    ArrivalsKeepSubsSound(sv, shop, content);
    forall k: nat | k < |after.ledger|
      ensures EntrySound(sv, after, k)
    {
      assert EntrySound(sv, shop, k);
    }
    ObjectsStaySound(sv, shop, after);
  }

  lemma MovesKeepInv(sv: Server, shop: Shop, m: Move)
    requires Inv(sv, shop) && Enabled(sv, shop, m)
    ensures Inv(sv, Fire(sv, shop, m))
  {
    match m {
      case Arrive(content) => ArrivalsKeepInv(sv, shop, content);
      case Work(job, event) => WorkKeepsInv(sv, shop, job, event);
      case Do(i, deed) =>
        DeedsKeepObjectsSound(sv, shop, i, deed);
        DeedsKeepSubsSound(sv, shop, i, deed);
        if deed.Commit? {
          assert SubSound(sv, shop, i, shop.subs[i]);
          CommitsKeepLedgerSound(sv, shop, i);
        } else {
          OtherDeedsKeepLedgerSound(sv, shop, i, deed);
        }
    }
  }
}
