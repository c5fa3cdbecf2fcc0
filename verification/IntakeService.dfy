/** One submission from upload to answer: IntakeService.submit and _record in app/services/intake.py. */
module IntakeService {
  import opened Base
  import opened FileTypes
  import opened Jobs
  import opened Staging
  import opened LocalStorage
  import opened Intake
  import opened IntakeRuns
  import Envelope

  datatype SubmitError = NotStaged(upload: StageError) | NotStored(put: PutError) | NotCommitted

  datatype IntakeResult = IntakeResult(job: JobId, hashes: ContentHashes, fileType: FileType, duplicate: bool)

  /** What chance decides for one request: names, times, and what fails. */
  datatype Chance = Chance(
    job: JobId,
    createdAt: Time,
    suffix: string,
    nonce: Nonce,
    fault: Fault,
    commitFails: bool)

  /** A transaction's own writes, invisible until it commits. */
  datatype Uncommitted = Uncommitted(sample: Option<SampleRow>, job: Option<(JobId, JobRow)>)

  class IntakeService {
    const sv: Server
    const storage: LocalFileSystemStorage
    const maxUploadBytes: int
    var samples: map<Hex, SampleRow>
    var jobs: map<JobId, JobRow>

    ghost predicate Valid() {
      storage.Valid() && storage.site == sv.site
    }

    ghost function Kept(): Books
      reads this, storage
    {
      Books(storage.files, samples, jobs)
    }

    constructor (sv: Server, storage: LocalFileSystemStorage, maxUploadBytes: int,
                 samples: map<Hex, SampleRow>, jobs: map<JobId, JobRow>)
      requires storage.Valid() && storage.site == sv.site
      ensures Valid() && Kept() == Books(storage.files, samples, jobs)
      ensures this.sv == sv && this.storage == storage && this.maxUploadBytes == maxUploadBytes
    {
      this.sv, this.storage, this.maxUploadBytes := sv, storage, maxUploadBytes;
      this.samples, this.jobs := samples, jobs;
    }

    /** The uploaded bytes are staged, recorded, and the staging file removed whatever happens. */
    method Submit(chunks: seq<Bytes>, broken: bool, room: Option<nat>, chance: Chance)
      returns (r: Result<IntakeResult, SubmitError>, staging: StagingFile)
      requires Valid() && chance.job !in jobs
      requires forall i :: 0 <= i < |chunks| ==> chunks[i] != []
      modifies this, storage
      ensures Valid() && !staging.present
      ensures SubmittedAs(sv, old(Kept()), Kept(), Joined(chunks), broken, maxUploadBytes, room, chance, r)
    {
      var staged;
      staged, staging := Stage(sv.suite, chunks, broken, maxUploadBytes, room);
      if staged.Err? {
        return Err(NotStaged(staged.error)), staging;
      }
      var source := new Envelope.Source(staging.data);
      r := Record(source, staged.value.hashes, staged.value.header, chance);
      staging.Unlink();
    }

    /** Looks the content up, stores it if absent, and commits the sample row and the job together. */
    method Record(source: Envelope.Source, hashes: ContentHashes, header: Bytes, chance: Chance)
      returns (r: Result<IntakeResult, SubmitError>)
      requires Valid() && chance.job !in jobs && source.Valid() && source.position == 0
      requires hashes == HashBytes(sv.suite, source.content) && header == Window(source.content, HEADER_SIZE)
      modifies this, storage, source
      ensures Valid()
      ensures Answered(sv, old(Kept()), Kept(), source.content, chance, r)
    {
      var duplicate := hashes.sha256 in samples;
      var fileType := if duplicate then samples[hashes.sha256].fileType else DetectDefault(header);

      var present := storage.Exists(hashes.sha256);
      if !present {
        var failure := storage.PutSync(hashes.sha256, source, chance.suffix, chance.nonce, chance.fault);
        PutsShowOnly(sv, old(storage.files), storage.files, hashes.sha256, source.content, chance, failure);
        if failure.Some? {
          return Err(NotStored(failure.value));
        }
      }

      var writes := Uncommitted(None, None);
      if !duplicate {
        if hashes.sha256 !in samples {
          writes := writes.(sample := Some(SampleRow(hashes, fileType)));
        }
      }
      writes := writes.(job := Some((chance.job, NewJob(chance.createdAt, hashes.sha256))));
      if chance.commitFails {
        return Err(NotCommitted);
      }
      ghost var files := storage.files;
      CommitsRecord(sv, old(Kept()), files, source.content, chance.job, chance.createdAt);
      Commit(hashes.sha256, writes);
      r := Ok(IntakeResult(chance.job, hashes, fileType, duplicate));
    }

    method Commit(digest: Hex, writes: Uncommitted)
      modifies this
      ensures samples == if writes.sample.Some? then old(samples)[digest := writes.sample.value] else old(samples)
      ensures jobs == if writes.job.Some? then old(jobs)[writes.job.value.0 := writes.job.value.1] else old(jobs)
    {
      if writes.sample.Some? {
        samples := samples[digest := writes.sample.value];
      }
      if writes.job.Some? {
        jobs := jobs[writes.job.value.0 := writes.job.value.1];
      }
    }
  }

  /** What the caller is told: why the content could not be stored, that the commit failed, or the result. */
  function AnswerTo(sv: Server, before: Books, content: Bytes, chance: Chance): Result<IntakeResult, SubmitError>
    requires sv.site.keyId in sv.site.keys
  {
    var digest := Digest(sv, content);
    var known := digest in before.samples;
    var failure := if PathFor(sv.site.root, digest) in before.files then None
                   else PutFailure(sv.site, content, chance.nonce, chance.fault, false);
    if failure.Some? then Err(NotStored(failure.value))
    else if chance.commitFails then Err(NotCommitted)
    else
      var fileType := if known then before.samples[digest].fileType else DetectDefault(Window(content, HEADER_SIZE));
      Ok(IntakeResult(chance.job, HashBytes(sv.suite, content), fileType, known))
  }

  /** The answer to a staged submission, and what it leaves behind. */
  ghost predicate Answered(sv: Server, before: Books, after: Books, content: Bytes, chance: Chance,
                           r: Result<IntakeResult, SubmitError>)
  {
    var digest := Digest(sv, content);
    && sv.site.keyId in sv.site.keys && r == AnswerTo(sv, before, content, chance)
    && (forall d: Hex :: SeesOnly(sv, before.files, after.files, content, d))
    && (PathFor(sv.site.root, digest) in before.files ==> after.files == before.files)
    && (r.Err? ==> (after.samples, after.jobs) == (before.samples, before.jobs))
    && (r.Ok? ==>
          && RecordedAs(sv, before, after, content, chance.job, chance.createdAt)
          && after.samples[digest].fileType == r.value.fileType)
  }

  /** A staging error, which changes nothing, or the answer for the whole content. */
  ghost predicate SubmittedAs(sv: Server, before: Books, after: Books, content: Bytes, broken: bool, limit: int,
                              room: Option<nat>, chance: Chance, r: Result<IntakeResult, SubmitError>)
  {
    if r.Err? && r.error.NotStaged? then
      StagesAs(sv.suite, content, broken, limit, room, Err(r.error.upload)) && after == before
    else
      && Fits(content, room) && StageOutcome(sv.suite, content, broken, limit).Ok?
      && Answered(sv, before, after, content, chance, r)
  }

  /** A staged submission is accepted exactly when its commit goes through and its object is there or can be put. */
  lemma AcceptedExactlyWhen(sv: Server, before: Books, content: Bytes, chance: Chance)
    requires sv.site.keyId in sv.site.keys
    ensures AnswerTo(sv, before, content, chance).Ok? <==>
      && !chance.commitFails
      && (PathFor(sv.site.root, Digest(sv, content)) in before.files || (CanSeal(sv) && chance.fault.Works?))
  {}

  /** Books with the object in place, to which one job and, unless known, one row are added. */
  lemma CommitsRecord(sv: Server, before: Books, files: Files, content: Bytes, job: JobId, createdAt: Time)
    requires PathFor(sv.site.root, Digest(sv, content)) in files
    requires forall d: Hex :: SeesOnly(sv, before.files, files, content, d)
    ensures var digest := Digest(sv, content);
      var row := DetectedRow(sv, content);
      var samples := if digest in before.samples then before.samples else before.samples[digest := row];
      var after := Books(files, samples, before.jobs[job := NewJob(createdAt, digest)]);
      RecordedAs(sv, before, after, content, job, createdAt)
  {
    assert SeesOnly(sv, before.files, files, content, Digest(sv, content));
  }

  lemma PutsShowOnly(sv: Server, before: Files, after: Files, digest: Hex, content: Bytes, chance: Chance,
                     failure: Option<PutError>)
    requires digest == Digest(sv, content)
    requires PutResult(sv.site, before, after, digest, PartialPath(sv.site.root, digest, chance.suffix), content,
                       chance.nonce, chance.fault, failure)
    ensures forall d: Hex :: SeesOnly(sv, before, after, content, d)
    ensures failure == None ==> PathFor(sv.site.root, digest) in after
  {
    forall d: Hex
      ensures SeesOnly(sv, before, after, content, d)
    {
      if d == digest {
        if failure == None && !chance.fault.RenameRefused? {
          GetAfterPut(sv.site, before, after, digest, chance.suffix, content, chance.nonce);
        }
      } else {
        PutTouchesOneKey(sv.site, before, after, digest, chance.suffix, content, chance.nonce, chance.fault,
                         failure, d);
      }
    }
  }
}
