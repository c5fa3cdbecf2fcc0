/** Hashing while streaming, and the bounded copy of an upload: app/domain/hashing.py and IntakeService._stage. */
module Staging {
  import opened Base
  import opened FileTypes

  predicate IsHex(s: string) {
    forall i | 0 <= i < |s| :: s[i] in "0123456789abcdef"
  }

  type Hex = s: string | IsHex(s)

  /** A streaming hash: a start state, one step per byte, and the hexadecimal digest of a state. */
  datatype Algorithm = Algorithm(start: int, step: (int, byte) -> int, hexDigest: int -> Hex)

  datatype Suite = Suite(sha256: Algorithm, sha1: Algorithm, md5: Algorithm)

  datatype ContentHashes = ContentHashes(sha256: Hex, sha1: Hex, md5: Hex, sizeBytes: nat)

  function Absorb(a: Algorithm, state: int, data: Bytes): int
    decreases data
  {
    if data == [] then state else Absorb(a, a.step(state, data[0]), data[1..])
  }

  /** Feeding two pieces is feeding their concatenation. */
  lemma {:induction false} AbsorbJoins(a: Algorithm, state: int, data: Bytes, more: Bytes)
    ensures Absorb(a, Absorb(a, state, data), more) == Absorb(a, state, data + more)
    decreases data
  {
    if data == [] {
      assert data + more == more;
    } else {
      AbsorbJoins(a, a.step(state, data[0]), data[1..], more);
      assert (data + more)[1..] == data[1..] + more;
    }
  }

  /** Every byte is one step, in the order of the content, and nothing else is. */
  lemma {:induction false} AbsorbsByteByByte(a: Algorithm, state: int, data: Bytes, b: byte)
    ensures Absorb(a, state, []) == state
    ensures Absorb(a, state, data + [b]) == a.step(Absorb(a, state, data), b)
  {
    AbsorbJoins(a, state, data, [b]);
    assert [b][1..] == [];
  }

  function HexDigest(a: Algorithm, data: Bytes): Hex {
    a.hexDigest(Absorb(a, a.start, data))
  }

  /** The digests and length of one piece of content. */
  function HashBytes(suite: Suite, data: Bytes): ContentHashes {
    ContentHashes(HexDigest(suite.sha256, data), HexDigest(suite.sha1, data), HexDigest(suite.md5, data), |data|)
  }

  class StreamHasher {
    const suite: Suite
    var sha256: int
    var sha1: int
    var md5: int
    var bytesSeen: nat
    ghost var seen: Bytes

    ghost predicate Valid()
      reads this
    {
      && sha256 == Absorb(suite.sha256, suite.sha256.start, seen)
      && sha1 == Absorb(suite.sha1, suite.sha1.start, seen)
      && md5 == Absorb(suite.md5, suite.md5.start, seen)
      && bytesSeen == |seen|
    }

    constructor (suite: Suite)
      ensures Valid() && seen == [] && this.suite == suite
    {
      this.suite := suite;
      sha256, sha1, md5 := suite.sha256.start, suite.sha1.start, suite.md5.start;
      bytesSeen, seen := 0, [];
    }

    method Update(chunk: Bytes)
      requires Valid()
      modifies this
      ensures Valid() && seen == old(seen) + chunk
    {
      AbsorbJoins(suite.sha256, suite.sha256.start, seen, chunk);
      AbsorbJoins(suite.sha1, suite.sha1.start, seen, chunk);
      AbsorbJoins(suite.md5, suite.md5.start, seen, chunk);
      sha256 := Absorb(suite.sha256, sha256, chunk);
      sha1 := Absorb(suite.sha1, sha1, chunk);
      md5 := Absorb(suite.md5, md5, chunk);
      bytesSeen, seen := bytesSeen + |chunk|, seen + chunk;
    }

    method Result() returns (hashes: ContentHashes)
      requires Valid()
      ensures hashes == HashBytes(suite, seen)
    {
      hashes := ContentHashes(suite.sha256.hexDigest(sha256), suite.sha1.hexDigest(sha1),
                              suite.md5.hexDigest(md5), bytesSeen);
    }
  }

  /** The temporary file, which has room for so many bytes where `room` says so; `peak` is the most it has ever held. */
  class StagingFile {
    var data: Bytes
    var present: bool
    const room: Option<nat>
    ghost var peak: nat

    constructor (room: Option<nat>)
      ensures data == [] && present && peak == 0 && this.room == room
    {
      this.room := room;
      data, present, peak := [], true, 0;
    }

    method Write(piece: Bytes) returns (written: bool)
      modifies this
      ensures written <==> Fits(old(data) + piece, room)
      ensures data == (if written then old(data) + piece else old(data)) && present == old(present)
      ensures peak == if written && old(peak) < |data| then |data| else old(peak)
    {
      written := Fits(data + piece, room);
      if !written {
        return;
      }
      data := data + piece;
      peak := if peak >= |data| then peak else |data|;
    }

    method Unlink()
      modifies this
      ensures !present && data == old(data) && peak == old(peak)
    {
      present := false;
    }
  }

  predicate Fits(data: Bytes, room: Option<nat>) {
    room.None? || |data| <= room.value
  }

  datatype StageError = TooLarge | Empty | ReadFailed | WriteFailed

  datatype Staged = Staged(hashes: ContentHashes, header: Bytes)

  /** What staging an upload with this content must come to, however it was cut into chunks. */
  function StageOutcome(suite: Suite, content: Bytes, broken: bool, limit: int): Result<Staged, StageError> {
    if |content| > 0 && |content| > limit then Err(TooLarge)
    else if broken then Err(ReadFailed)
    else if content == [] then Err(Empty)
    else Ok(Staged(HashBytes(suite, content), Window(content, HEADER_SIZE)))
  }

  /** The same with a file system that may fill up: then only which limit is met first depends on the cut. */
  predicate StagesAs(suite: Suite, content: Bytes, broken: bool, limit: int, room: Option<nat>,
                     outcome: Result<Staged, StageError>)
  {
    if Fits(content, room) then outcome == StageOutcome(suite, content, broken, limit)
    else
      || (outcome == Err(WriteFailed) && room.value < limit)
      || (outcome == Err(TooLarge) && limit < |content|)
  }

  /**
   * Each answer has its own cause. An accepted upload comes with the digests of its content, its length and its
   * first 512 bytes.
   */
  lemma AnswersNameTheCause(suite: Suite, content: Bytes, broken: bool, limit: int, room: Option<nat>,
                            r: Result<Staged, StageError>)
    requires StagesAs(suite, content, broken, limit, room, r)
    ensures r.Ok? ==>
      && r.value.hashes.sha256 == suite.sha256.hexDigest(Absorb(suite.sha256, suite.sha256.start, content))
      && r.value.hashes.sha1 == suite.sha1.hexDigest(Absorb(suite.sha1, suite.sha1.start, content))
      && r.value.hashes.md5 == suite.md5.hexDigest(Absorb(suite.md5, suite.md5.start, content))
      && r.value.hashes.sizeBytes == |content|
      && r.value.header == if |content| <= 512 then content else content[..512]
    ensures r.Ok? ==> !broken && 1 <= |content| <= limit && (room.Some? ==> |content| <= room.value)
    ensures r == Err(TooLarge) ==> |content| >= 1 && |content| > limit
    ensures r == Err(WriteFailed) ==> room.Some? && room.value < |content| && room.value < limit
    ensures r == Err(ReadFailed) ==> broken
    ensures r == Err(Empty) ==> content == [] && !broken
    ensures room == None || |content| <= room.value ==>
      && (r == Err(TooLarge) <==> |content| >= 1 && |content| > limit)
      && (r == Err(ReadFailed) <==> broken && (content == [] || |content| <= limit))
      && (r == Err(Empty) <==> content == [] && !broken)
  {}

  /**
   * Copies the chunks, hashing as it goes. `broken` is whether reading fails after the last chunk
   * instead of reporting the end. The file never holds more than the limit, and is gone on any error.
   */
  method Stage(suite: Suite, chunks: seq<Bytes>, broken: bool, limit: int, room: Option<nat>)
    returns (outcome: Result<Staged, StageError>, file: StagingFile)
    requires forall i :: 0 <= i < |chunks| ==> chunks[i] != []
    ensures fresh(file) && StagesAs(suite, Joined(chunks), broken, limit, room, outcome)
    ensures file.present <==> outcome.Ok?
    ensures outcome.Ok? ==> file.data == Joined(chunks)
    ensures file.peak == 0 || file.peak <= limit
  {
    var hasher := new StreamHasher(suite);
    file := new StagingFile(room);
    var header: Bytes := [];
    for i := 0 to |chunks|
      invariant fresh(hasher) && fresh(file) && hasher.Valid() && hasher.suite == suite
      invariant hasher.seen == file.data == Joined(chunks[..i]) && file.present && file.room == room
      invariant Fits(file.data, room)
      invariant header == Window(file.data, HEADER_SIZE)
      invariant file.data == [] || |file.data| <= limit
      invariant file.peak == 0 || file.peak <= limit
    {
      var chunk := chunks[i];
      JoinedSnoc(chunks[..i], chunk);
      assert chunks[..i + 1] == chunks[..i] + [chunk];
      hasher.Update(chunk);
      if hasher.bytesSeen > limit {
        JoinedPrefix(chunks, i + 1);
        file.Unlink();
        return Err(TooLarge), file;
      }
      if |header| < HEADER_SIZE {
        header := header + Window(chunk, HEADER_SIZE - |header|);
      }
      var written := file.Write(chunk);
      if !written {
        JoinedPrefix(chunks, i + 1);
        file.Unlink();
        return Err(WriteFailed), file;
      }
    }
    assert chunks[..|chunks|] == chunks;
    if broken {
      file.Unlink();
      return Err(ReadFailed), file;
    }
    if hasher.bytesSeen == 0 {
      file.Unlink();
      return Err(Empty), file;
    }
    var hashes := hasher.Result();
    outcome := Ok(Staged(hashes, header));
  }

  lemma {:induction false} JoinedPrefix(chunks: seq<Bytes>, n: nat)
    requires n <= |chunks|
    ensures |Joined(chunks[..n])| <= |Joined(chunks)|
  {
    if n == 0 {
    } else {
      JoinedPrefix(chunks[1..], n - 1);
      assert chunks[..n][1..] == chunks[1..][..n - 1];
    }
  }
}
