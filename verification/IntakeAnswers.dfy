/** What submitters are told, from the books before and after: one call, two calls, and any series of calls. */
module IntakeAnswers {
  import opened Base
  import opened Lifecycle
  import opened FileTypes
  import opened Jobs
  import opened Staging
  import opened LocalStorage
  import opened Intake
  import opened IntakeRuns
  import opened IntakeService
  import Envelope

  /** The type detected in the bytes seen first. */
  function TypeOf(content: Bytes): FileType {
    DetectDefault(if |content| <= 512 then content else content[..512])
  }

  /** The hashes are those of the content. */
  predicate HashesOf(sv: Server, hashes: ContentHashes, content: Bytes) {
    && hashes.sha256 == sv.suite.sha256.hexDigest(Absorb(sv.suite.sha256, sv.suite.sha256.start, content))
    && hashes.sha1 == sv.suite.sha1.hexDigest(Absorb(sv.suite.sha1, sv.suite.sha1.start, content))
    && hashes.md5 == sv.suite.md5.hexDigest(Absorb(sv.suite.md5, sv.suite.md5.start, content))
    && hashes.sizeBytes == |content|
  }

  /** The sample table has grown by at most the row of this digest, with what the submitter was told. */
  predicate RowsGrow(before: map<Hex, SampleRow>, after: map<Hex, SampleRow>, told: IntakeResult) {
    && after.Keys == before.Keys + {told.hashes.sha256}
    && (forall d | d in before :: after[d] == before[d])
    && after[told.hashes.sha256].fileType == told.fileType
    && (told.hashes.sha256 !in before ==> after[told.hashes.sha256].hashes == told.hashes)
  }

  /** The job table has grown by exactly the reported job, which waits and refers to the reported digest. */
  predicate JobsGrow(before: map<JobId, JobRow>, after: map<JobId, JobRow>, told: IntakeResult, createdAt: Time) {
    && told.job !in before && after.Keys == before.Keys + {told.job}
    && (forall j | j in before :: after[j] == before[j])
    && var row := after[told.job];
       row.sampleSha256 == told.hashes.sha256 && row.status == Queued && row.attempts == 0 && row.createdAt == createdAt
       && row.claimedBy == None && row.leaseExpiresAt == None && row.startedAt == None && row.finishedAt == None
  }

  /** Its object is there, and no other digest reads differently. */
  ghost predicate ObjectAdded(sv: Server, before: Files, after: Files, digest: Hex, content: Bytes) {
    && Fetched(sv.site, after, digest) ==
       (if Fetched(sv.site, before, digest) == Err(SampleNotFound) then Ok(content)
        else Fetched(sv.site, before, digest))
    && forall d: Hex | d != digest :: Fetched(sv.site, after, d) == Fetched(sv.site, before, d)
  }

  lemma AcceptedObjects(sv: Server, before: Books, after: Books, content: Bytes, chance: Chance,
                        r: Result<IntakeResult, SubmitError>)
    requires Answered(sv, before, after, content, chance, r) && r.Ok?
    ensures ObjectAdded(sv, before.files, after.files, r.value.hashes.sha256, content)
  {
    var digest := Digest(sv, content);
    assert SeesOnly(sv, before.files, after.files, content, digest);
    forall d: Hex | d != digest
      ensures Fetched(sv.site, after.files, d) == Fetched(sv.site, before.files, d)
    {
      assert SeesOnly(sv, before.files, after.files, content, d);
    }
  }

  lemma AcceptedRows(sv: Server, before: Books, after: Books, content: Bytes, chance: Chance,
                     r: Result<IntakeResult, SubmitError>)
    requires Answered(sv, before, after, content, chance, r) && r.Ok?
    ensures RowsGrow(before.samples, after.samples, r.value)
    ensures r.value.duplicate <==> r.value.hashes.sha256 in before.samples
    ensures r.value.duplicate <==> after.samples == before.samples
  {
    if Digest(sv, content) !in before.samples {
      assert Digest(sv, content) in after.samples;
    }
  }

  lemma AcceptedJobs(sv: Server, before: Books, after: Books, content: Bytes, chance: Chance,
                     r: Result<IntakeResult, SubmitError>)
    requires Answered(sv, before, after, content, chance, r) && r.Ok? && chance.job !in before.jobs
    ensures HashesOf(sv, r.value.hashes, content)
    ensures JobsGrow(before.jobs, after.jobs, r.value, chance.createdAt)
  {}

  /**
   * An accepted submission is reported as a duplicate exactly if its digest had a row, that is, if no row was added.
   * Its type is the row's, or is detected in its first 512 bytes; its job is the only new one; its object is there.
   */
  lemma AcceptedAnswers(sv: Server, before: Books, after: Books, content: Bytes, chance: Chance,
                        r: Result<IntakeResult, SubmitError>)
    requires Answered(sv, before, after, content, chance, r) && r.Ok? && chance.job !in before.jobs
    ensures var told, digest := r.value, r.value.hashes.sha256;
      && HashesOf(sv, told.hashes, content)
      && (told.duplicate <==> digest in before.samples) && (told.duplicate <==> after.samples == before.samples)
      && RowsGrow(before.samples, after.samples, told)
      && told.fileType == (if digest in before.samples then before.samples[digest].fileType else TypeOf(content))
      && JobsGrow(before.jobs, after.jobs, told, chance.createdAt)
      && ObjectAdded(sv, before.files, after.files, digest, content)
  {
    AcceptedRows(sv, before, after, content, chance, r);
    AcceptedJobs(sv, before, after, content, chance, r);
    AcceptedObjects(sv, before, after, content, chance, r);
  }

  lemma FailuresOfPuts(site: Site, content: Bytes, nonce: Nonce, fault: Fault)
    requires site.keyId in site.keys
    ensures var failure := PutFailure(site, content, nonce, fault, false);
      && (failure == None <==> Usable(site) && fault.Works?)
      && (failure == Some(FileSystemError) <==> fault.Unopened? || (Usable(site) && !fault.Works?))
      && (failure.Some? && failure.value.Unsealable? <==> !fault.Unopened? && !Usable(site))
  {
    Envelope.SealedBytes(site.p, site.keys[site.keyId], site.keyId, nonce, content);
  }

  /** A refused submission is told why, and changes no table: the commit failed, or the put did. */
  lemma RefusedAnswers(sv: Server, before: Books, after: Books, content: Bytes, chance: Chance,
                       r: Result<IntakeResult, SubmitError>)
    requires Answered(sv, before, after, content, chance, r)
    ensures var present := PathFor(sv.site.root, Digest(sv, content)) in before.files;
      && (r.Ok? <==> !chance.commitFails && (present || (Usable(sv.site) && chance.fault.Works?)))
      && (r == Err(NotCommitted) <==> chance.commitFails && (present || (Usable(sv.site) && chance.fault.Works?)))
    ensures r.Err? ==> after.samples == before.samples && after.jobs == before.jobs
  {
    FailuresOfPuts(sv.site, content, chance.nonce, chance.fault);
  }

  /** A put is tried only where no object is, and its failure is the disk's or the key's. */
  lemma UnstoredAnswers(sv: Server, before: Books, after: Books, content: Bytes, chance: Chance,
                        r: Result<IntakeResult, SubmitError>)
    requires Answered(sv, before, after, content, chance, r)
    ensures var present, fault := PathFor(sv.site.root, Digest(sv, content)) in before.files, chance.fault;
      && (r == Err(NotStored(FileSystemError)) <==>
            !present && (fault.Unopened? || (Usable(sv.site) && !fault.Works?)))
      && (r.Err? && r.error.NotStored? && r.error.put.Unsealable? <==>
            !present && !fault.Unopened? && !Usable(sv.site))
  {
    FailuresOfPuts(sv.site, content, chance.nonce, chance.fault);
  }

  /** From the upload on: an accepted one was read to its end, is not empty, and keeps to the limit and the disk. */
  lemma SubmittedAnswers(sv: Server, before: Books, after: Books, content: Bytes, broken: bool, limit: int,
                         room: Option<nat>, chance: Chance, r: Result<IntakeResult, SubmitError>)
    requires SubmittedAs(sv, before, after, content, broken, limit, room, chance, r)
    ensures r.Ok? ==> !broken && 1 <= |content| <= limit && (room.Some? ==> |content| <= room.value)
    ensures room == None || |content| <= room.value ==>
      (r.Err? && r.error.NotStaged? <==> broken || content == [] || |content| > limit)
    ensures r.Err? && r.error.NotStaged? ==> after == before
    ensures !(r.Err? && r.error.NotStaged?) ==> Answered(sv, before, after, content, chance, r)
  {}

  /**
   * The same content again, however much was submitted and worked on in between: a duplicate, of the same type and
   * with the same hashes, under a job of its own, and no row is added.
   */
  lemma SubmittedAgain(sv: Server, b0: Books, b1: Books, b2: Books, b3: Books, content: Bytes, chance: Chance,
                       again: Chance, r: Result<IntakeResult, SubmitError>, r': Result<IntakeResult, SubmitError>)
    requires Answered(sv, b0, b1, content, chance, r) && r.Ok? && chance.job !in b0.jobs
    requires Answered(sv, b2, b3, content, again, r') && r'.Ok? && again.job !in b2.jobs
    requires forall d | d in b1.samples :: d in b2.samples && b2.samples[d] == b1.samples[d]
    requires forall j | j in b1.jobs :: j in b2.jobs
    ensures r'.value.duplicate && r'.value.fileType == r.value.fileType && r'.value.hashes == r.value.hashes
    ensures r'.value.job != r.value.job && b3.samples == b2.samples
  {
    AcceptedAnswers(sv, b0, b1, content, chance, r);
    AcceptedAnswers(sv, b2, b3, content, again, r');
  }

  // ------------------------------------------------------------------------------------------
  // Any series of submissions, one after the other.

  datatype Call = Call(content: Bytes, broken: bool, room: Option<nat>, chance: Chance,
                       answer: Result<IntakeResult, SubmitError>)

  /** Between two calls workers and sweeps may change jobs; rows and objects stay. */
  ghost predicate Worked(before: Books, after: Books) {
    after.samples == before.samples && after.files == before.files && after.jobs.Keys == before.jobs.Keys
  }

  /** Call `k` found the books `found[k]` and left them as `left[k]`. */
  ghost predicate Served(sv: Server, limit: int, calls: seq<Call>, found: seq<Books>, left: seq<Books>) {
    && |found| == |left| == |calls|
    && (|calls| > 0 ==> found[0].samples == map[])
    && (forall k | 0 <= k < |calls| :: ServedOne(sv, limit, calls[k], found[k], left[k]))
    && forall k, l | 0 <= k < |calls| && l == k + 1 && l < |calls| :: Worked(left[k], found[l])
  }

  ghost predicate ServedOne(sv: Server, limit: int, call: Call, found: Books, left: Books) {
    && call.chance.job !in found.jobs
    && SubmittedAs(sv, found, left, call.content, call.broken, limit, call.room, call.chance, call.answer)
  }

  predicate AcceptedWith(call: Call, digest: Hex) {
    call.answer.Ok? && call.answer.value.hashes.sha256 == digest
  }

  /** What one call and the work after it do to the books. */
  ghost predicate Extends(call: Call, found: Books, next: Books) {
    && (forall d :: d in next.samples <==> d in found.samples || AcceptedWith(call, d))
    && (forall d | d in found.samples :: next.samples[d] == found.samples[d])
    && (forall j | j in found.jobs :: j in next.jobs)
    && (call.answer.Ok? ==>
          && next.samples[call.answer.value.hashes.sha256].fileType == call.answer.value.fileType
          && call.answer.value.job in next.jobs)
  }

  lemma CallsExtend(sv: Server, limit: int, call: Call, found: Books, left: Books, next: Books)
    requires ServedOne(sv, limit, call, found, left) && Worked(left, next)
    ensures Extends(call, found, next)
  {
    if call.answer.Ok? {
      AcceptedRows(sv, found, left, call.content, call.chance, call.answer);
      AcceptedJobs(sv, found, left, call.content, call.chance, call.answer);
    }
  }

  ghost predicate ExtendsAt(calls: seq<Call>, found: seq<Books>, k: nat)
    requires |found| == |calls|
  {
    k + 1 < |calls| ==> Extends(calls[k], found[k], found[k + 1])
  }

  lemma ServedExtend(sv: Server, limit: int, calls: seq<Call>, found: seq<Books>, left: seq<Books>)
    requires Served(sv, limit, calls, found, left)
    ensures forall k: nat :: ExtendsAt(calls, found, k)
  {
    forall k: nat
      ensures ExtendsAt(calls, found, k)
    {
      if k + 1 < |calls| {
        assert ServedOne(sv, limit, calls[k], found[k], left[k]) && Worked(left[k], found[k + 1]);
        CallsExtend(sv, limit, calls[k], found[k], left[k], found[k + 1]);
      }
    }
  }

  predicate AcceptedBefore(calls: seq<Call>, n: nat, digest: Hex)
    requires n <= |calls|
  {
    exists k :: 0 <= k < n && AcceptedWith(calls[k], digest)
  }

  lemma {:induction false} RowsAreOfAccepted(calls: seq<Call>, found: seq<Books>, n: nat, digest: Hex)
    requires |found| == |calls| && n < |calls| && found[0].samples == map[]
    requires forall k: nat :: ExtendsAt(calls, found, k)
    ensures digest in found[n].samples <==> AcceptedBefore(calls, n, digest)
  {
    if n == 0 {
    } else {
      RowsAreOfAccepted(calls, found, n - 1, digest);
      assert ExtendsAt(calls, found, n - 1);
      assert AcceptedWith(calls[n - 1], digest) ==> AcceptedBefore(calls, n, digest);
    }
  }

  /** What was accepted stays on record as it was told. */
  lemma {:induction false} RecordsStay(calls: seq<Call>, found: seq<Books>, k: nat, n: nat)
    requires |found| == |calls| && k < n < |calls| && calls[k].answer.Ok?
    requires forall m: nat :: ExtendsAt(calls, found, m)
    ensures var told := calls[k].answer.value;
      && told.hashes.sha256 in found[n].samples && found[n].samples[told.hashes.sha256].fileType == told.fileType
      && told.job in found[n].jobs
  {
    assert ExtendsAt(calls, found, n - 1);
    if k == n - 1 {
      assert AcceptedWith(calls[k], calls[k].answer.value.hashes.sha256);
    } else {
      RecordsStay(calls, found, k, n - 1);
    }
  }

  /**
   * In any series of submissions from empty tables, an accepted one is reported as a duplicate exactly if an earlier
   * one was accepted with the same digest, and then with the same type.
   */
  lemma DuplicatesFollowTheFirst(sv: Server, limit: int, calls: seq<Call>, found: seq<Books>, left: seq<Books>, n: nat)
    requires Served(sv, limit, calls, found, left) && n < |calls| && calls[n].answer.Ok?
    ensures var told := calls[n].answer.value;
      && (told.duplicate <==> exists k :: 0 <= k < n && AcceptedWith(calls[k], told.hashes.sha256))
      && forall k | 0 <= k < n && AcceptedWith(calls[k], told.hashes.sha256) ::
           told.fileType == calls[k].answer.value.fileType && told.job != calls[k].answer.value.job
  {
    var digest := calls[n].answer.value.hashes.sha256;
    assert ServedOne(sv, limit, calls[n], found[n], left[n]);
    ServedExtend(sv, limit, calls, found, left);
    RowsAreOfAccepted(calls, found, n, digest);
    AcceptedAnswers(sv, found[n], left[n], calls[n].content, calls[n].chance, calls[n].answer);
    forall k | 0 <= k < n && AcceptedWith(calls[k], digest)
      ensures calls[n].answer.value.fileType == calls[k].answer.value.fileType
      ensures calls[k].answer.value.job != calls[n].answer.value.job
    {
      RecordsStay(calls, found, k, n);
    }
  }

  // ------------------------------------------------------------------------------------------
  // Agreement with the step machine.

  /** A chance at which nothing goes wrong. */
  function GoodChance(job: JobId, createdAt: Time, suffix: string, nonce: Nonce): Chance {
    Chance(job, createdAt, suffix, nonce, Works, false)
  }

  /**
   * A submission that arrives and is left alone by the others ends with what the one call answers to the same books:
   * the same job, type and duplicate flag.
   */
  lemma LeftAloneIsAnswered(sv: Server, shop: Shop, i: nat, suffix: string, nonce: Nonce, job: JobId, createdAt: Time)
    returns (moves: seq<Move>, after: Shop)
    requires CanSeal(sv) && Inv(sv, shop) && Unused(shop, i, suffix, job) && job !in shop.jobs
    requires Unhindered(sv, shop, i) && shop.subs[i].phase.Arrived?
    ensures From(sv, shop, moves) == Some(after) && |moves| <= 8
    ensures i < |after.subs| && after.subs[i].phase.Accepted?
    ensures var content, p := shop.subs[i].content, after.subs[i].phase;
      var told := IntakeResult(p.job, HashBytes(sv.suite, content), p.ticket.fileType, p.ticket.duplicate);
      AnswerTo(sv, BooksOf(shop), content, GoodChance(job, createdAt, suffix, nonce)) == Ok(told)
      && (p.ticket.duplicate <==> Digest(sv, content) in shop.samples) && p.job == job
  {
    moves, after := LeftAloneIsAccepted(sv, shop, i, suffix, nonce, job, createdAt);
    AcceptedExactlyWhen(sv, BooksOf(shop), shop.subs[i].content, GoodChance(job, createdAt, suffix, nonce));
  }
}
