/** Encrypted objects in a directory tree: app/storage/local.py. */
module LocalStorage {
  import opened Base
  import opened Gcm
  import opened Envelope
  import Utf8

  const SEAL_CHUNK_SIZE := 0x100000

  /** The names on the way from the top of the file system to a file. */
  type Path = seq<string>

  type Files = map<Path, Bytes>

  /** Two levels of fan-out, for keys long enough to have them. */
  function PathFor(root: Path, key: string): (path: Path)
    ensures |path| > |root| && path[|path| - 1] == key
  {
    if |key| >= 4 then root + [key[..2], key[2..4], key] else root + [key]
  }

  /** The name of a temporary neighbour; `suffix` is the process id and the random part. */
  function PartialName(key: string, suffix: string): string {
    key + "." + suffix + ".partial"
  }

  function PartialPath(root: Path, key: string, suffix: string): Path {
    var destination := PathFor(root, key);
    destination[..|destination| - 1] + [PartialName(key, suffix)]
  }

  /** Different keys never share a file. */
  lemma PathsAreDistinct(root: Path, key: string, key': string)
    requires PathFor(root, key) == PathFor(root, key')
    ensures key == key'
  {
    var path := PathFor(root, key);
    assert path[|path| - 1] == key;
  }

  /** A temporary file is stored under no key but, when its directory is fanned out, its own name. */
  lemma PartialsAreUnderNoKey(root: Path, key: string, suffix: string, key': string)
    ensures PartialPath(root, key, suffix) == PathFor(root, key') <==> |key| >= 4 && key' == PartialName(key, suffix)
  {
    var partial, name := PartialPath(root, key, suffix), PartialName(key, suffix);
    assert partial[|partial| - 1] == name;
    if |key| >= 4 {
      assert name[..2] == key[..2] && name[2..4] == key[2..4];
    } else {
      assert |PathFor(root, name)| == |root| + 3 && |partial| == |root| + 1;
    }
  }

  /** A key in which no dot occurs, as in a hexadecimal digest, is never the name of a temporary file. */
  lemma DigestsAreNotPartialNames(key: string, suffix: string, digest: string)
    requires '.' !in digest
    ensures digest != PartialName(key, suffix)
  {
    assert PartialName(key, suffix)[|key|] == '.';
  }

  /** Temporary files of digests tell their keys and suffixes apart. */
  lemma PartialsAreDistinct(root: Path, key: string, suffix: string, key': string, suffix': string)
    requires '.' !in key && '.' !in key' && PartialPath(root, key, suffix) == PartialPath(root, key', suffix')
    ensures key == key' && suffix == suffix'
  {
    var path := PartialPath(root, key, suffix);
    var name := path[|path| - 1];
    assert name == PartialName(key, suffix) == PartialName(key', suffix');
    assert forall i | 0 <= i < |key| :: name[i] == key[i] != '.';
    assert forall i | 0 <= i < |key'| :: name[i] == key'[i] != '.';
    assert name[|key|] == '.' && name[|key'|] == '.';
    assert key == name[..|key|] && suffix == name[|key| + 1..|name| - 8];
    assert key' == name[..|key|] && suffix' == name[|key| + 1..|name| - 8];
  }

  // ------------------------------------------------------------------------------------------
  // What putting and getting come to.

  /** How the file system misbehaves during one put. */
  datatype Fault =
    | Works
    | Unopened
    /** Writing fails once this many bytes of the envelope are on disk. */
    | Breaks(written: nat)
    /** Everything is written, but the rename is refused. */
    | RenameRefused

  datatype PutError = Unsealable(why: SealError) | FileSystemError

  datatype GetError = SampleNotFound | Undecryptable(why: UnsealError)

  /** The objects, the primitives they are sealed with, and the keyring. */
  datatype Site = Site(p: Primitives, root: Path, keys: map<string, Bytes>, keyId: string)

  /** The directory after renaming `staging` to `destination`, refused or not, and whether that is an error. */
  function Promoted(files: Files, staging: Path, destination: Path, refused: bool): (Files, Option<PutError>)
    requires staging in files
  {
    if !refused then ((files - {staging})[destination := files[staging]], None)
    else if destination in files then (files - {staging}, None)
    else (files, Some(FileSystemError))
  }

  function Fetched(site: Site, files: Files, key: string): Result<Bytes, GetError> {
    if PathFor(site.root, key) !in files then Err(SampleNotFound)
    else
      match Unseal(site.p, site.keys, files[PathFor(site.root, key)])
      case Ok(plaintext) => Ok(plaintext)
      case Err(why) => Err(Undecryptable(why))
  }

  /** Why writing the envelope to a file fails, if it does. */
  function SealingError(site: Site, content: Bytes, nonce: Bytes, fault: Fault): Option<PutError>
    requires |nonce| == NONCE_SIZE && site.keyId in site.keys
  {
    var sealed := Seal(site.p, site.keys[site.keyId], site.keyId, nonce, content);
    if fault.Unopened? then Some(FileSystemError)
    else if sealed.Err? then Some(Unsealable(sealed.error))
    else if fault.Breaks? then Some(FileSystemError)
    else None
  }

  /** Why a put fails, if it does; `present` is whether anything is under the key before. */
  function PutFailure(site: Site, content: Bytes, nonce: Bytes, fault: Fault, present: bool): Option<PutError>
    requires |nonce| == NONCE_SIZE && site.keyId in site.keys
  {
    var failure := SealingError(site, content, nonce, fault);
    if failure.Some? then failure
    else if fault.RenameRefused? && !present then Some(FileSystemError)
    else None
  }

  /** What is under a key after a put: the new envelope, unless it failed or lost a race and kept what was there. */
  ghost predicate PutResult(site: Site, before: Files, after: Files, key: string, staging: Path, content: Bytes,
                            nonce: Bytes, fault: Fault, error: Option<PutError>)
    requires |nonce| == NONCE_SIZE
  {
    && site.keyId in site.keys
    && var destination := PathFor(site.root, key);
    && error == PutFailure(site, content, nonce, fault, destination in before)
    && staging !in after
    && (forall path :: path != staging && path != destination ==> SameAt(before, after, path))
    && if error == None && !fault.RenameRefused? then
         && destination in after
         && Ok(after[destination]) == Seal(site.p, site.keys[site.keyId], site.keyId, nonce, content)
       else
         SameAt(before, after, destination)
  }

  /** Promotion changes the file of one key, to the whole of the temporary file. */
  lemma PromotionShows(root: Path, files: Files, staging: Path, promoted: string, refused: bool, key: string)
    requires staging in files && staging != PathFor(root, key)
    ensures var after := Promoted(files, staging, PathFor(root, promoted), refused).0 - {staging};
      if key == promoted && !refused then PathFor(root, key) in after && after[PathFor(root, key)] == files[staging]
      else SameAt(files, after, PathFor(root, key))
  {
    if PathFor(root, key) == PathFor(root, promoted) {
      PathsAreDistinct(root, key, promoted);
    }
  }

  predicate SameAt(before: Files, after: Files, path: Path) {
    && (path in before <==> path in after)
    && (path in before ==> before[path] == after[path])
  }

  class LocalFileSystemStorage {
    const site: Site
    var files: Files

    ghost predicate Valid() {
      site.keyId in site.keys
    }

    constructor (site: Site, files: Files)
      requires site.keyId in site.keys
      ensures Valid() && this.site == site && this.files == files
    {
      this.site, this.files := site, files;
    }

    /** Refuses an active key id that is not in the keyring. */
    static method Open(site: Site, files: Files) returns (storage: Option<LocalFileSystemStorage>)
      ensures storage.Some? <==> site.keyId in site.keys
      ensures storage.Some? ==> fresh(storage.value) && storage.value.Valid()
      ensures storage.Some? ==> storage.value.site == site && storage.value.files == files
    {
      if site.keyId !in site.keys {
        return None;
      }
      var opened' := new LocalFileSystemStorage(site, files);
      storage := Some(opened');
    }

    /** Seals into a temporary neighbour and renames it into place; on any error the neighbour is removed. */
    method PutSync(key: string, source: Source, suffix: string, nonce: Bytes, fault: Fault)
      returns (error: Option<PutError>)
      requires Valid() && source.Valid() && source.position == 0 && |nonce| == NONCE_SIZE
      modifies this, source
      ensures Valid()
      ensures PutResult(site, old(files), files, key, PartialPath(site.root, key, suffix), source.content,
                        nonce, fault, error)
    {
      var destination, staging := PathFor(site.root, key), PartialPath(site.root, key, suffix);
      PartialsAreUnderNoKey(site.root, key, suffix, key);
      error := SealInto(staging, source, nonce, fault);
      assert destination in files - {staging} <==> destination in old(files) - {staging};
      if error == None {
        error := Promote(staging, destination, fault.RenameRefused?);
      }
      if error.Some? {
        files := files - {staging};
      }
    }

    /** Writes the envelope to a new file; an error may leave part of it there. */
    method SealInto(staging: Path, source: Source, nonce: Bytes, fault: Fault) returns (error: Option<PutError>)
      requires Valid() && source.Valid() && source.position == 0 && |nonce| == NONCE_SIZE
      modifies this, source
      ensures files - {staging} == old(files) - {staging}
      ensures error == SealingError(site, source.content, nonce, fault)
      ensures error == None ==> staging in files
      ensures error == None ==>
        Ok(files[staging]) == Seal(site.p, site.keys[site.keyId], site.keyId, nonce, source.content)
    {
      if fault.Unopened? {
        return Some(FileSystemError);
      }
      var sink := new Sink();
      var refusal := SealStream(site.p, source, sink, site.keys[site.keyId], site.keyId, nonce, SEAL_CHUNK_SIZE);
      var broken := fault.Breaks? && fault.written <= |sink.data|;
      files := files[staging := if broken then sink.data[..fault.written] else sink.data];
      if refusal.Some? {
        return Some(Unsealable(refusal.value));
      }
      ghost var sealed := Seal(site.p, site.keys[site.keyId], site.keyId, nonce, source.content);
      assert sink.data == [] + sealed.value == sealed.value;
      error := if fault.Breaks? then Some(FileSystemError) else None;
    }

    /** Moves the finished object into place, tolerating a lost race. */
    method Promote(staging: Path, destination: Path, refused: bool) returns (error: Option<PutError>)
      requires staging in files
      modifies this
      ensures (files, error) == Promoted(old(files), staging, destination, refused)
    {
      if !refused {
        files := (files - {staging})[destination := files[staging]];
        return None;
      }
      if destination !in files {
        return Some(FileSystemError);
      }
      files := files - {staging};
      error := None;
    }

    method GetSync(key: string) returns (r: Result<Bytes, GetError>)
      ensures r == Fetched(site, files, key)
    {
      var path := PathFor(site.root, key);
      if path !in files {
        return Err(SampleNotFound);
      }
      var plaintext := Unseal(site.p, site.keys, files[path]);
      r := if plaintext.Ok? then Ok(plaintext.value) else Err(Undecryptable(plaintext.error));
    }

    method Exists(key: string) returns (present: bool)
      ensures present <==> Fetched(site, files, key) != Err(SampleNotFound)
    {
      present := PathFor(site.root, key) in files;
    }

    /** The length of the plaintext, not of the file. */
    method SizeOf(key: string) returns (r: Result<nat, GetError>)
      ensures match Fetched(site, files, key)
              case Ok(plaintext) => r == Ok(|plaintext|)
              case Err(why) => r == Err(why)
    {
      var got := GetSync(key);
      r := if got.Ok? then Ok(|got.value|) else Err(got.error);
    }

    /** Deleting an absent key is not an error. */
    method DeleteSync(key: string)
      modifies this
      ensures PathFor(site.root, key) !in files
      ensures forall path :: path != PathFor(site.root, key) ==> SameAt(old(files), files, path)
    {
      files := files - {PathFor(site.root, key)};
    }
  }

  // ------------------------------------------------------------------------------------------
  // In the file system's own terms.

  /** Two directories of two characters each, then the key; short keys lie in the root. */
  lemma KeysFanOut(root: Path, key: string)
    ensures var path, n := PathFor(root, key), |root|;
      && root <= path && path[|path| - 1] == key
      && (|key| < 4 ==> |path| == n + 1)
      && (|key| >= 4 ==> |path| == n + 3 && |path[n]| == 2 && |path[n + 1]| == 2 && path[n] + path[n + 1] == key[..4])
  {
    if |key| >= 4 {
      assert key[..2] + key[2..4] == key[..4];
    }
  }

  /** A partial file is beside the object, under the key's name with the suffix and `.partial`. */
  lemma PartialsAreNeighbours(root: Path, key: string, suffix: string)
    ensures var partial, path := PartialPath(root, key, suffix), PathFor(root, key);
      && |partial| == |path| && partial[..|path| - 1] == path[..|path| - 1]
      && partial[|path| - 1] == key + "." + suffix + ".partial"
  {}

  /** A rename that is refused is an error if nothing is there, and keeps what is. */
  lemma PromotedIs(files: Files, staging: Path, destination: Path, refused: bool)
    requires staging in files && staging != destination
    ensures var (after, error) := Promoted(files, staging, destination, refused);
      && (error == None <==> !refused || destination in files)
      && (error != None ==> error == Some(FileSystemError) && after == files)
      && (error == None ==> staging !in after && destination in after)
      && (error == None ==> after[destination] == if refused then files[destination] else files[staging])
      && forall path :: path != staging && path != destination ==>
           (path in after <==> path in files) && (path in files ==> after[path] == files[path])
  {}

  /** Absent, readable, or there and not to be unsealed. */
  lemma FetchedIs(site: Site, files: Files, key: string)
    ensures var r, path := Fetched(site, files, key), PathFor(site.root, key);
      && (r == Err(SampleNotFound) <==> path !in files)
      && (path in files ==>
            && (forall plaintext :: r == Ok(plaintext) <==> Unseal(site.p, site.keys, files[path]) == Ok(plaintext))
            && (forall why :: r == Err(Undecryptable(why)) <==> Unseal(site.p, site.keys, files[path]) == Err(why)))
  {}

  /** A key that seals: 32 bytes, under a key id of 1 to 255 bytes. */
  predicate Usable(site: Site) {
    site.keyId in site.keys && |site.keys[site.keyId]| == 32 && 1 <= |Utf8.Encode(site.keyId)| <= 255
  }

  /**
   * Each way a put ends has its own cause, and shows: the envelope is there whole after one that went through, what
   * was there before after one that lost the race or failed, the partial file never, and no other file has changed.
   */
  lemma PutsNameTheCause(site: Site, before: Files, after: Files, key: string, suffix: string, content: Bytes,
                         nonce: Bytes, fault: Fault, error: Option<PutError>)
    requires |nonce| == NONCE_SIZE
    requires PutResult(site, before, after, key, PartialPath(site.root, key, suffix), content, nonce, fault, error)
    ensures var path, partial := PathFor(site.root, key), PartialPath(site.root, key, suffix);
      && (error == None <==> Usable(site) && (fault.Works? || (fault.RenameRefused? && path in before)))
      && (error == Some(FileSystemError) <==>
            fault.Unopened? || (Usable(site) && (fault.Breaks? || (fault.RenameRefused? && path !in before))))
      && (error == Some(Unsealable(WrongKeySize)) <==> !fault.Unopened? && |site.keys[site.keyId]| != 32)
      && (error == Some(Unsealable(WrongKeyIdLength)) <==>
            !fault.Unopened? && |site.keys[site.keyId]| == 32 && !(1 <= |Utf8.Encode(site.keyId)| <= 255))
      && partial !in after
      && (error == None && fault.Works? ==>
            path in after && Unseal(site.p, site.keys, after[path]) == Ok(content))
      && (!(error == None && fault.Works?) ==>
            (path in after <==> path in before) && (path in before ==> after[path] == before[path]))
      && forall other :: other != path && other != partial ==>
           (other in after <==> other in before) && (other in before ==> after[other] == before[other])
  {
    SealedBytes(site.p, site.keys[site.keyId], site.keyId, nonce, content);
    if error == None && fault.Works? {
      UnsealSeal(site.p, site.keys[site.keyId], site.keyId, nonce, content, site.keys);
    }
    forall other | other != PathFor(site.root, key) && other != PartialPath(site.root, key, suffix)
      ensures (other in after <==> other in before) && (other in before ==> after[other] == before[other])
    {
      assert SameAt(before, after, other);
    }
  }

  // ------------------------------------------------------------------------------------------
  // Round trips.

  /** What was put is got, unless the rename lost a race. */
  lemma GetAfterPut(site: Site, before: Files, after: Files, key: string, suffix: string, content: Bytes, nonce: Bytes)
    requires |nonce| == NONCE_SIZE
    requires PutResult(site, before, after, key, PartialPath(site.root, key, suffix), content, nonce, Works, None)
    ensures Fetched(site, after, key) == Ok(content)
  {
    UnsealSeal(site.p, site.keys[site.keyId], site.keyId, nonce, content, site.keys);
  }

  /** Putting the same content again is harmless, whatever goes wrong: the key still reads as that content. */
  lemma PutAgainIsHarmless(site: Site, before: Files, after: Files, key: string, suffix: string, content: Bytes,
                           nonce: Bytes, fault: Fault, error: Option<PutError>)
    requires |nonce| == NONCE_SIZE && Fetched(site, before, key) == Ok(content)
    requires PutResult(site, before, after, key, PartialPath(site.root, key, suffix), content, nonce, fault, error)
    ensures Fetched(site, after, key) == Ok(content)
  {
    if fault.Works? && error == None {
      GetAfterPut(site, before, after, key, suffix, content, nonce);
    }
  }

  /** A put changes what is read under no other key that is a digest. */
  lemma PutTouchesOneKey(site: Site, before: Files, after: Files, key: string, suffix: string, content: Bytes,
                         nonce: Bytes, fault: Fault, error: Option<PutError>, other: string)
    requires |nonce| == NONCE_SIZE && other != key && '.' !in other
    requires PutResult(site, before, after, key, PartialPath(site.root, key, suffix), content, nonce, fault, error)
    ensures Fetched(site, after, other) == Fetched(site, before, other)
  {
    if PathFor(site.root, other) == PathFor(site.root, key) {
      PathsAreDistinct(site.root, other, key);
    }
    PartialsAreUnderNoKey(site.root, key, suffix, other);
    DigestsAreNotPartialNames(key, suffix, other);
    assert SameAt(before, after, PathFor(site.root, other));
  }
}
