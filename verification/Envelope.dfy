/** The sealed envelope of a stored sample: app/storage/encryption.py. */
module Envelope {
  import opened Base
  import opened Gcm
  import Utf8

  const ENVELOPE_MAGIC: Bytes := [0x55, 0x50, 0x41, 0x31]
  const KEY_SIZE := 32
  const MAX_KEY_ID_LENGTH := 255

  datatype SealError = WrongKeySize | WrongKeyIdLength

  datatype UnsealError = NotAnEnvelope | TruncatedHeader | MalformedKeyId | UnknownKeyId | UnusableKey | Unauthentic

  /** Magic, the length of the key id, and the key id. */
  function Header(keyId: string): Bytes
    requires |Utf8.Encode(keyId)| <= MAX_KEY_ID_LENGTH
  {
    ENVELOPE_MAGIC + [|Utf8.Encode(keyId)|] + Utf8.Encode(keyId)
  }

  /** The checks made before anything is written, and the header; the nonce is drawn by the caller. */
  function Prepare(key: Bytes, keyId: string): Result<Bytes, SealError> {
    if |key| != KEY_SIZE then Err(WrongKeySize)
    else if |Utf8.Encode(keyId)| == 0 || |Utf8.Encode(keyId)| > MAX_KEY_ID_LENGTH then Err(WrongKeyIdLength)
    else Ok(Header(keyId))
  }

  /** The bytes on disk for one plaintext. */
  function Sealed(p: Primitives, key: Bytes, keyId: string, nonce: Bytes, plaintext: Bytes): Bytes
    requires |Utf8.Encode(keyId)| <= MAX_KEY_ID_LENGTH && |nonce| == NONCE_SIZE
  {
    Header(keyId) + nonce + Encrypt(p, key, nonce, plaintext, Header(keyId))
  }

  function Seal(p: Primitives, key: Bytes, keyId: string, nonce: Bytes, plaintext: Bytes): Result<Bytes, SealError>
    requires |nonce| == NONCE_SIZE
  {
    match Prepare(key, keyId)
    case Err(e) => Err(e)
    case Ok(header) => Ok(header + nonce + Encrypt(p, key, nonce, plaintext, header))
  }

  datatype Parts = Parts(header: Bytes, keyId: string, nonce: Bytes, ciphertext: Bytes)

  function Split(blob: Bytes): (r: Result<Parts, UnsealError>)
    ensures r.Ok? ==> |r.value.nonce| == NONCE_SIZE
  {
    if |blob| < |ENVELOPE_MAGIC| + 1 || !(ENVELOPE_MAGIC <= blob) then Err(NotAnEnvelope)
    else
      var keyIdStart := |ENVELOPE_MAGIC| + 1;
      var nonceStart := keyIdStart + blob[|ENVELOPE_MAGIC|];
      var ciphertextStart := nonceStart + NONCE_SIZE;
      if |blob| < ciphertextStart then Err(TruncatedHeader)
      else
        var keyId := Utf8.Decode(blob[keyIdStart..nonceStart]);
        if keyId.None? then Err(MalformedKeyId)
        else Ok(Parts(blob[..nonceStart], keyId.value, blob[nonceStart..ciphertextStart], blob[ciphertextStart..]))
  }

  function KeyIdOf(blob: Bytes): Result<string, UnsealError> {
    match Split(blob)
    case Ok(parts) => Ok(parts.keyId)
    case Err(e) => Err(e)
  }

  function Unseal(p: Primitives, keys: map<string, Bytes>, blob: Bytes): Result<Bytes, UnsealError> {
    match Split(blob)
    case Err(e) => Err(e)
    case Ok(parts) =>
      if parts.keyId !in keys then Err(UnknownKeyId)
      else if |keys[parts.keyId]| !in {16, 24, 32} then Err(UnusableKey)
      else
        var opened' := Decrypt(p, keys[parts.keyId], parts.nonce, parts.ciphertext, parts.header);
        if opened'.Some? then Ok(opened'.value) else Err(Unauthentic)
  }

  // ------------------------------------------------------------------------------------------
  // Byte by byte.

  /**
   * The format: `UPA1`, the length of the key id in one byte, the key id, the nonce, and the ciphertext and tag
   * authenticated with everything before the nonce. Keys of 32 bytes and key ids of 1 to 255 are accepted.
   */
  lemma SealedBytes(p: Primitives, key: Bytes, keyId: string, nonce: Bytes, plaintext: Bytes)
    requires |nonce| == 12
    ensures var r, id := Seal(p, key, keyId, nonce, plaintext), Utf8.Encode(keyId);
      && (r == Err(WrongKeySize) <==> |key| != 32)
      && (r == Err(WrongKeyIdLength) <==> |key| == 32 && !(1 <= |id| <= 255))
      && (r.Ok? ==>
            var blob, n := r.value, |id|;
            && |blob| == 5 + n + 12 + |plaintext| + 16
            && blob[..4] == ['U' as int, 'P' as int, 'A' as int, '1' as int] && blob[4] == n
            && blob[5..5 + n] == id && blob[5 + n..17 + n] == nonce
            && blob[17 + n..] == Encrypt(p, key, nonce, plaintext, blob[..5 + n]))
  {
    var r, id := Seal(p, key, keyId, nonce, plaintext), Utf8.Encode(keyId);
    if r.Ok? {
      assert Header(keyId) == ENVELOPE_MAGIC + [|id|] + id;
      assert r.value[..5 + |id|] == Header(keyId);
    }
  }

  /** Begins as an envelope and is long enough for its key id and nonce. */
  predicate Framed(blob: Bytes) {
    && |blob| >= 5 && blob[..4] == ['U' as int, 'P' as int, 'A' as int, '1' as int]
    && |blob| >= 17 + blob[4] as int
  }

  lemma FramedSplits(blob: Bytes)
    ensures Split(blob) == Err(NotAnEnvelope) <==>
      |blob| < 5 || blob[..4] != ['U' as int, 'P' as int, 'A' as int, '1' as int]
    ensures Split(blob) == Err(TruncatedHeader) <==>
      |blob| >= 5 && blob[..4] == ['U' as int, 'P' as int, 'A' as int, '1' as int] && |blob| < 17 + blob[4] as int
    ensures Split(blob) == Err(MalformedKeyId) <==> Framed(blob) && !Utf8.Valid(blob[5..5 + blob[4]])
  {
    assert ENVELOPE_MAGIC <= blob <==> |blob| >= 4 && blob[..4] == ENVELOPE_MAGIC;
    if Framed(blob) {
      Utf8.DecodesExactlyTheValid(blob[5..5 + blob[4]]);
    }
  }

  /** Names its key: the bytes of the key id are where the format has them. */
  predicate Names(blob: Bytes, id: string) {
    Framed(blob) && Utf8.Encode(id) == blob[5..5 + blob[4]]
  }

  lemma SplitNames(blob: Bytes, id: string)
    ensures Names(blob, id) <==> KeyIdOf(blob) == Ok(id)
  {
    FramedSplits(blob);
    if Names(blob, id) {
      Utf8.DecodeEncode(id);
    }
    if KeyIdOf(blob) == Ok(id) {
      Utf8.EncodeDecode(blob[5..5 + blob[4]]);
    }
  }

  /** The rest of the string is what encrypting this plaintext under this key gives. */
  predicate Carries(p: Primitives, key: Bytes, blob: Bytes, plaintext: Bytes)
    requires Framed(blob)
  {
    var n := blob[4] as int;
    blob[17 + n..] == Encrypt(p, key, blob[5 + n..17 + n], plaintext, blob[..5 + n])
  }

  lemma DecryptsWhatItCarries(p: Primitives, key: Bytes, blob: Bytes, plaintext: Bytes)
    requires Framed(blob)
    ensures var n := blob[4] as int;
      Decrypt(p, key, blob[5 + n..17 + n], blob[17 + n..], blob[..5 + n]) == Some(plaintext) <==>
      Carries(p, key, blob, plaintext)
  {
    var n := blob[4] as int;
    var nonce, data, aad := blob[5 + n..17 + n], blob[17 + n..], blob[..5 + n];
    if Carries(p, key, blob, plaintext) {
      DecryptEncrypt(p, key, nonce, plaintext, aad);
    }
    if Decrypt(p, key, nonce, data, aad) == Some(plaintext) {
      var c, tag := data[..|data| - TAG_SIZE], data[|data| - TAG_SIZE..];
      GctrCancels(p, key, Inc32(FirstCounter(nonce)), c);
      assert data == c + tag;
    }
  }

  /** Every answer of unsealing has its own cause. */
  lemma AnswersNameTheCause(p: Primitives, keys: map<string, Bytes>, blob: Bytes, id: string)
    ensures var r := Unseal(p, keys, blob);
      && (r == Err(NotAnEnvelope) <==> |blob| < 5 || blob[..4] != ['U' as int, 'P' as int, 'A' as int, '1' as int])
      && (r == Err(TruncatedHeader) <==>
            && |blob| >= 5 && blob[..4] == ['U' as int, 'P' as int, 'A' as int, '1' as int]
            && |blob| < 17 + blob[4] as int)
      && (r == Err(MalformedKeyId) <==> Framed(blob) && !Utf8.Valid(blob[5..5 + blob[4]]))
      && (Names(blob, id) ==>
            && (r == Err(UnknownKeyId) <==> id !in keys)
            && (r == Err(UnusableKey) <==> id in keys && |keys[id]| !in {16, 24, 32})
            && (forall plaintext ::
                  r == Ok(plaintext) <==>
                  id in keys && |keys[id]| in {16, 24, 32} && Carries(p, keys[id], blob, plaintext)))
  {
    FramedSplits(blob);
    SplitNames(blob, id);
    if Names(blob, id) && id in keys {
      forall plaintext {
        DecryptsWhatItCarries(p, keys[id], blob, plaintext);
      }
    }
  }

  // ------------------------------------------------------------------------------------------
  // Parsing.

  /** What a string must contain to be split: the magic, a full header and nonce, and a UTF-8 key id. */
  predicate Splittable(blob: Bytes) {
    && |blob| >= 5 && blob[..4] == ENVELOPE_MAGIC
    && |blob| >= 5 + blob[4] + NONCE_SIZE
    && Utf8.Valid(blob[5..5 + blob[4]])
  }

  /** Exactly those strings are split. */
  lemma SplitIsExact(blob: Bytes)
    ensures Split(blob).Ok? <==> Splittable(blob)
  {
    if |blob| >= 5 && blob[..4] == ENVELOPE_MAGIC && |blob| >= 5 + blob[4] + NONCE_SIZE {
      Utf8.DecodesExactlyTheValid(blob[5..5 + blob[4]]);
    }
  }

  /** The pieces, put together again, are the string, and the header is the one its key id has. */
  lemma PiecesMakeTheWhole(blob: Bytes)
    requires Split(blob).Ok?
    ensures var parts := Split(blob).value;
      && blob == parts.header + parts.nonce + parts.ciphertext
      && |Utf8.Encode(parts.keyId)| <= MAX_KEY_ID_LENGTH && parts.header == Header(parts.keyId)
  {
    var parts, id := Split(blob).value, blob[5..5 + blob[4]];
    Utf8.EncodeDecode(id);
    SlicesJoin(blob, 4, 5);
    SlicesJoin(blob, 5, 5 + |id|);
    SlicesJoin(blob, 5 + |id|, 5 + |id| + NONCE_SIZE);
    SlicesJoin(blob, 5 + |id| + NONCE_SIZE, |blob|);
    assert blob[4..5] == [blob[4]] && blob[..|blob|] == blob;
  }

  /** Splitting undoes assembling, whatever follows the nonce. */
  lemma SplitAssembled(keyId: string, nonce: Bytes, ciphertext: Bytes)
    requires |Utf8.Encode(keyId)| <= MAX_KEY_ID_LENGTH && |nonce| == NONCE_SIZE
    ensures Split(Header(keyId) + nonce + ciphertext) == Ok(Parts(Header(keyId), keyId, nonce, ciphertext))
  {
    var id, blob := Utf8.Encode(keyId), Header(keyId) + nonce + ciphertext;
    assert blob[4] == |id| && ENVELOPE_MAGIC <= blob;
    assert blob[5..5 + |id|] == id && blob[..5 + |id|] == Header(keyId);
    assert blob[5 + |id|..5 + |id| + 12] == nonce && blob[5 + |id| + 12..] == ciphertext;
    Utf8.DecodeEncode(keyId);
  }

  /** No header is the beginning of a different one: two headers that begin the same string are equal. */
  lemma HeadersArePrefixFree(keyId: string, keyId': string, blob: Bytes)
    requires |Utf8.Encode(keyId)| <= MAX_KEY_ID_LENGTH && |Utf8.Encode(keyId')| <= MAX_KEY_ID_LENGTH
    requires Header(keyId) <= blob && Header(keyId') <= blob
    ensures keyId == keyId'
  {
    var id, id' := Utf8.Encode(keyId), Utf8.Encode(keyId');
    assert Header(keyId)[4] == blob[4] == Header(keyId')[4];
    assert id == Header(keyId)[5..] == blob[5..5 + |id|];
    assert id' == Header(keyId')[5..] == blob[5..5 + |id'|];
    Utf8.DecodeEncode(keyId);
    Utf8.DecodeEncode(keyId');
  }

  /** Envelopes of different key ids or nonces are never equal. */
  lemma EnvelopesShowKeyIdAndNonce(p: Primitives, key: Bytes, keyId: string, nonce: Bytes, plaintext: Bytes,
                                   key': Bytes, keyId': string, nonce': Bytes, plaintext': Bytes)
    requires |Utf8.Encode(keyId)| <= MAX_KEY_ID_LENGTH && |Utf8.Encode(keyId')| <= MAX_KEY_ID_LENGTH
    requires |nonce| == NONCE_SIZE && |nonce'| == NONCE_SIZE
    requires Sealed(p, key, keyId, nonce, plaintext) == Sealed(p, key', keyId', nonce', plaintext')
    ensures keyId == keyId' && nonce == nonce'
  {
    SplitAssembled(keyId, nonce, Encrypt(p, key, nonce, plaintext, Header(keyId)));
    SplitAssembled(keyId', nonce', Encrypt(p, key', nonce', plaintext', Header(keyId')));
  }

  // ------------------------------------------------------------------------------------------
  // Round trips.

  /** Whatever was sealed is unsealed by every keyring that holds the key, and names its key. */
  lemma UnsealSeal(p: Primitives, key: Bytes, keyId: string, nonce: Bytes, plaintext: Bytes, keys: map<string, Bytes>)
    requires |nonce| == NONCE_SIZE && Seal(p, key, keyId, nonce, plaintext).Ok?
    requires keyId in keys && keys[keyId] == key
    ensures Unseal(p, keys, Seal(p, key, keyId, nonce, plaintext).value) == Ok(plaintext)
    ensures KeyIdOf(Seal(p, key, keyId, nonce, plaintext).value) == Ok(keyId)
  {
    SplitAssembled(keyId, nonce, Encrypt(p, key, nonce, plaintext, Header(keyId)));
    DecryptEncrypt(p, key, nonce, plaintext, Header(keyId));
  }

  /** And nothing else is accepted: what unseals is the envelope of what came out of it. */
  lemma OnlyEnvelopesUnseal(p: Primitives, keys: map<string, Bytes>, blob: Bytes)
    requires Unseal(p, keys, blob).Ok?
    ensures Split(blob).Ok?
    ensures var parts := Split(blob).value;
      parts.keyId in keys && |Utf8.Encode(parts.keyId)| <= MAX_KEY_ID_LENGTH
      && blob == Sealed(p, keys[parts.keyId], parts.keyId, parts.nonce, Unseal(p, keys, blob).value)
  {
    PiecesMakeTheWhole(blob);
    var parts := Split(blob).value;
    var data := parts.ciphertext;
    var c, tag := data[..|data| - TAG_SIZE], data[|data| - TAG_SIZE..];
    GctrCancels(p, keys[parts.keyId], Inc32(FirstCounter(parts.nonce)), c);
    assert data == c + tag;
  }

  /** Rotating keys: adding keys to the ring changes no successful answer, and no refusal but an unknown key id. */
  lemma LargerKeyringsAgree(p: Primitives, keys: map<string, Bytes>, more: map<string, Bytes>, blob: Bytes)
    requires forall id :: id in keys ==> id in more && more[id] == keys[id]
    ensures Unseal(p, keys, blob) != Err(UnknownKeyId) ==> Unseal(p, more, blob) == Unseal(p, keys, blob)
  {}

  // ------------------------------------------------------------------------------------------
  // Streaming.

  /** A file open for reading. */
  class Source {
    const content: Bytes
    var position: nat

    ghost predicate Valid()
      reads this
    {
      position <= |content|
    }

    constructor (content: Bytes)
      ensures Valid() && this.content == content && position == 0
    {
      this.content, position := content, 0;
    }

    /** `read(size)`: everything left for a negative size, otherwise at most that many bytes. */
    method Read(size: int) returns (chunk: Bytes)
      requires Valid()
      modifies this
      ensures Valid() && old(position) <= position && chunk == content[old(position)..position]
      ensures position == if size < 0 || size > |content| - old(position) then |content| else old(position) + size
    {
      var stop := if size < 0 || size > |content| - position then |content| else position + size;
      chunk := content[position..stop];
      position := stop;
    }
  }

  /** A file open for writing. */
  class Sink {
    var data: Bytes

    constructor ()
      ensures data == []
    {
      data := [];
    }

    method Write(piece: Bytes)
      modifies this
      ensures data == old(data) + piece
    {
      data := data + piece;
    }
  }

  /**
   * Encrypts from one file to another; the bytes written are those of the one-shot envelope. Reading until
   * nothing is read delivers everything, unless the chunk size is zero.
   */
  method SealStream(p: Primitives, source: Source, sink: Sink, key: Bytes, keyId: string, nonce: Bytes, chunkSize: int)
    returns (error: Option<SealError>)
    requires source.Valid() && source.position == 0 && |nonce| == NONCE_SIZE
    modifies source, sink
    ensures var sealed := Seal(p, key, keyId, nonce, if chunkSize == 0 then [] else source.content);
      if sealed.Ok? then error == None && sink.data == old(sink.data) + sealed.value
      else error == Some(sealed.error) && sink.data == old(sink.data)
  {
    var prepared := Prepare(key, keyId);
    if prepared.Err? {
      return Some(prepared.error);
    }
    var header := prepared.value;
    var encryptor := new Encryptor(p, key, nonce, header);
    sink.Write(header);
    sink.Write(nonce);
    EncryptAll(encryptor, source, sink, chunkSize);
    var tag := encryptor.Finalize();
    sink.Write(tag);
    ConcatAssociates(old(sink.data), header, nonce);
    ConcatAssociates(old(sink.data) + (header + nonce), encryptor.emitted, tag);
    ConcatAssociates(old(sink.data), header + nonce, encryptor.emitted + tag);
    error := None;
  }

  lemma SlicesJoin(s: Bytes, a: nat, b: nat)
    requires a <= b <= |s|
    ensures s[..a] + s[a..b] == s[..b]
  {}

  /** The read loop: chunk by chunk, until nothing is read. */
  method EncryptAll(encryptor: Encryptor, source: Source, sink: Sink, chunkSize: int)
    requires source.Valid() && source.position == 0
    requires encryptor.Valid() && encryptor.fed == [] && encryptor.emitted == []
    modifies encryptor, source, sink
    ensures encryptor.Valid() && encryptor.aad == old(encryptor.aad)
    ensures encryptor.fed == if chunkSize == 0 then [] else source.content
    ensures sink.data == old(sink.data) + encryptor.emitted
  {
    var chunk := source.Read(chunkSize);
    while chunk != []
      invariant source.Valid() && encryptor.Valid() && encryptor.aad == old(encryptor.aad)
      invariant chunk == [] ==> chunkSize == 0 || source.position == |source.content|
      invariant chunkSize == 0 ==> chunk == [] && source.position == 0
      invariant encryptor.fed + chunk == source.content[..source.position]
      invariant sink.data == old(sink.data) + encryptor.emitted
      decreases |source.content| - source.position + |chunk|
    {
      ghost var earlier := encryptor.emitted;
      var out := encryptor.Update(chunk);
      sink.Write(out);
      ConcatAssociates(old(sink.data), earlier, out);
      ghost var before := source.position;
      chunk := source.Read(chunkSize);
      SlicesJoin(source.content, before, source.position);
    }
  }
}
