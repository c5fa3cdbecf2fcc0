/**
 * Galois/Counter Mode over an uninterpreted block cipher, with the section numbers of NIST SP 800-38D:
 * the one-shot form that `AESGCM` offers and the incremental form of a `Cipher` encryptor.
 */
module Gcm {
  import opened Base

  const NONCE_SIZE := 12
  const TAG_SIZE := 16

  type Block = b: Bytes | |b| == 16 witness seq(16, _ => 0)

  /** The block cipher for each key, and multiplication in the field of section 6.3. */
  datatype Primitives = Primitives(cipher: (Bytes, Block) -> Block, multiply: (Block, Block) -> Block)

  function Ciph(p: Primitives, key: Bytes, x: Block): Block {
    p.cipher(key, x)
  }

  /** One step of the hash: fold a block in and multiply by the hash key. */
  function Fold(p: Primitives, h: Block, y: Block, x: Block): Block {
    p.multiply(XorWith(y, x), h)
  }

  // ------------------------------------------------------------------------------------------
  // Byte operations.

  function XorBits(a: nat, b: nat, bits: nat): nat {
    if bits == 0 then 0 else (if a % 2 == b % 2 then 0 else 1) + 2 * XorBits(a / 2, b / 2, bits - 1)
  }

  function Power2(bits: nat): nat {
    if bits == 0 then 1 else 2 * Power2(bits - 1)
  }

  lemma {:induction false} XorBitsFits(a: nat, b: nat, bits: nat)
    ensures XorBits(a, b, bits) < Power2(bits)
  {
    if bits == 0 {
    } else {
      XorBitsFits(a / 2, b / 2, bits - 1);
    }
  }

  lemma {:induction false} XorBitsCancels(a: nat, b: nat, bits: nat)
    requires a < Power2(bits)
    ensures XorBits(XorBits(a, b, bits), b, bits) == a
  {
    if bits == 0 {
    } else {
      XorBitsCancels(a / 2, b / 2, bits - 1);
      assert XorBits(a, b, bits) / 2 == XorBits(a / 2, b / 2, bits - 1);
    }
  }

  function Xor(a: byte, b: byte): byte {
    XorBitsFits(a, b, 8);
    assert Power2(8) == 256;
    XorBits(a, b, 8)
  }

  lemma XorCancels(a: byte, b: byte)
    ensures Xor(Xor(a, b), b) == a
  {
    assert Power2(8) == 256;
    XorBitsCancels(a, b, 8);
  }

  /** `a` combined with as many leading bytes of `mask`. */
  function XorWith(a: Bytes, mask: Bytes): (r: Bytes)
    requires |a| <= |mask|
    ensures |r| == |a|
  {
    seq(|a|, i requires 0 <= i < |a| => Xor(a[i], mask[i]))
  }

  lemma XorWithCancels(a: Bytes, mask: Bytes)
    requires |a| <= |mask|
    ensures XorWith(XorWith(a, mask), mask) == a
  {
    forall i | 0 <= i < |a|
      ensures XorWith(XorWith(a, mask), mask)[i] == a[i]
    {
      XorCancels(a[i], mask[i]);
    }
  }

  function Zeros(n: nat): Bytes {
    seq(n, _ => 0)
  }

  /** `n` as `size` bytes, most significant first, reduced modulo 256 to the power `size`. */
  function BigEndian(n: nat, size: nat): (b: Bytes)
    ensures |b| == size
  {
    if size == 0 then [] else BigEndian(n / 256, size - 1) + [n % 256]
  }

  function FromBigEndian(b: Bytes): nat {
    if b == [] then 0 else 256 * FromBigEndian(b[..|b| - 1]) + b[|b| - 1]
  }

  /** The whole blocks of a string. */
  function Whole(s: Bytes): seq<Block>
    decreases |s|
  {
    if |s| < 16 then [] else [s[..16]] + Whole(s[16..])
  }

  /** What is left after the whole blocks. */
  function Rest(s: Bytes): (r: Bytes)
    ensures |r| < 16 && |s| == 16 * |Whole(s)| + |r|
    decreases |s|
  {
    if |s| < 16 then s else Rest(s[16..])
  }

  function Padded(partial: Bytes): Block
    requires |partial| < 16
  {
    partial + Zeros(16 - |partial|)
  }

  /** The string as blocks, the last one filled up with zero bits. */
  function Blocks(s: Bytes): seq<Block> {
    Whole(s) + if Rest(s) == [] then [] else [Padded(Rest(s))]
  }

  function Flat(blocks: seq<Block>): Bytes {
    if blocks == [] then [] else Flat(blocks[..|blocks| - 1]) + blocks[|blocks| - 1]
  }

  lemma FlatSnoc(blocks: seq<Block>, last: Block)
    ensures Flat(blocks + [last]) == Flat(blocks) + last
  {
    assert (blocks + [last])[..|blocks|] == blocks;
  }

  lemma {:induction false} FlatFirst(first: Block, blocks: seq<Block>)
    ensures Flat([first] + blocks) == first + Flat(blocks)
  {
    if blocks == [] {
    } else {
      FlatFirst(first, blocks[..|blocks| - 1]);
      assert ([first] + blocks)[..|blocks|] == [first] + blocks[..|blocks| - 1];
    }
  }

  /** There is one way to cut a string into whole blocks and a shorter rest. */
  lemma {:induction false} CutIsUnique(blocks: seq<Block>, partial: Bytes)
    requires |partial| < 16
    ensures Whole(Flat(blocks) + partial) == blocks && Rest(Flat(blocks) + partial) == partial
  {
    if blocks == [] {
      assert Flat(blocks) + partial == partial;
    } else {
      CutIsUnique(blocks[1..], partial);
      FlatFirst(blocks[0], blocks[1..]);
      assert [blocks[0]] + blocks[1..] == blocks;
      var s := Flat(blocks) + partial;
      assert s[..16] == blocks[0] && s[16..] == Flat(blocks[1..]) + partial;
    }
  }

  // ------------------------------------------------------------------------------------------
  // Sections 6.2, 6.4 and 6.5.

  /** inc32: the last four bytes count modulo 2 to the power 32. */
  function Inc32(x: Block): Block {
    x[..12] + BigEndian(FromBigEndian(x[12..]) + 1, 4)
  }

  function Inc32Times(x: Block, n: nat): Block {
    if n == 0 then x else Inc32(Inc32Times(x, n - 1))
  }

  lemma {:induction false} Inc32First(x: Block, n: nat)
    ensures Inc32Times(Inc32(x), n) == Inc32Times(x, n + 1)
  {
    if n == 0 {
    } else {
      Inc32First(x, n - 1);
    }
  }

  function Ghash(p: Primitives, h: Block, blocks: seq<Block>): Block {
    if blocks == [] then Zeros(16)
    else
      var n := |blocks| - 1;
      Fold(p, h, Ghash(p, h, blocks[..n]), blocks[n])
  }

  lemma GhashSnoc(p: Primitives, h: Block, blocks: seq<Block>, last: Block)
    ensures Ghash(p, h, blocks + [last]) == Fold(p, h, Ghash(p, h, blocks), last)
  {
    assert (blocks + [last])[..|blocks|] == blocks;
  }

  function Gctr(p: Primitives, key: Bytes, counter: Block, x: Bytes): (r: Bytes)
    ensures |r| == |x|
    decreases |x|
  {
    if |x| <= 16 then XorWith(x, Ciph(p, key, counter))
    else XorWith(x[..16], Ciph(p, key, counter)) + Gctr(p, key, Inc32(counter), x[16..])
  }

  /** Applying the counter mode twice gives the input back. */
  lemma {:induction false} GctrCancels(p: Primitives, key: Bytes, counter: Block, x: Bytes)
    ensures Gctr(p, key, counter, Gctr(p, key, counter, x)) == x
    decreases |x|
  {
    var mask := Ciph(p, key, counter);
    if |x| <= 16 {
      XorWithCancels(x, mask);
    } else {
      XorWithCancels(x[..16], mask);
      GctrCancels(p, key, Inc32(counter), x[16..]);
      var r := Gctr(p, key, counter, x);
      assert r[..16] == XorWith(x[..16], mask) && r[16..] == Gctr(p, key, Inc32(counter), x[16..]);
    }
  }

  lemma GctrSplits(p: Primitives, key: Bytes, counter: Block, first: Block, rest: Bytes)
    requires rest != []
    ensures Gctr(p, key, counter, first + rest) ==
      XorWith(first, Ciph(p, key, counter)) + Gctr(p, key, Inc32(counter), rest)
  {
    assert (first + rest)[..16] == first && (first + rest)[16..] == rest;
  }

  /** One more byte of input is one more byte of output, masked by its place in the key stream. */
  lemma {:induction false} GctrSnoc(p: Primitives, key: Bytes, counter: Block, x: Bytes, b: byte, n: nat, r: nat)
    requires |x| == 16 * n + r && r < 16
    ensures Gctr(p, key, counter, x + [b]) ==
      Gctr(p, key, counter, x) + [Xor(b, Ciph(p, key, Inc32Times(counter, n))[r])]
    decreases |x|
  {
    if |x| < 16 {
      assert Inc32Times(counter, 0) == counter;
    } else {
      var first, rest := x[..16], x[16..];
      var head := XorWith(first, Ciph(p, key, counter));
      Inc32First(counter, n - 1);
      ConcatAssociates(first, rest, [b]);
      assert x == first + rest;
      GctrSplits(p, key, counter, first, rest + [b]);
      GctrSnoc(p, key, Inc32(counter), rest, b, n - 1, r);
      if rest != [] {
        GctrSplits(p, key, counter, first, rest);
        ConcatAssociates(head, Gctr(p, key, Inc32(counter), rest), [Xor(b, Ciph(p, key, Inc32Times(counter, n))[r])]);
      }
    }
  }

  // ------------------------------------------------------------------------------------------
  // Section 7: authenticated encryption and decryption with a 96-bit nonce.

  function HashKey(p: Primitives, key: Bytes): Block {
    Ciph(p, key, Zeros(16))
  }

  function FirstCounter(nonce: Bytes): Block
    requires |nonce| == NONCE_SIZE
  {
    nonce + [0, 0, 0, 1]
  }

  function Lengths(aad: nat, text: nat): (b: Block) {
    BigEndian(8 * aad, 8) + BigEndian(8 * text, 8)
  }

  function Tag(p: Primitives, key: Bytes, nonce: Bytes, ciphertext: Bytes, aad: Bytes): (tag: Bytes)
    requires |nonce| == NONCE_SIZE
    ensures |tag| == TAG_SIZE
  {
    var s := Ghash(p, HashKey(p, key), Blocks(aad) + Blocks(ciphertext) + [Lengths(|aad|, |ciphertext|)]);
    Gctr(p, key, FirstCounter(nonce), s)
  }

  /** Ciphertext followed by the tag. */
  function Encrypt(p: Primitives, key: Bytes, nonce: Bytes, plaintext: Bytes, aad: Bytes): (r: Bytes)
    requires |nonce| == NONCE_SIZE
    ensures |r| == |plaintext| + TAG_SIZE
  {
    var c := Gctr(p, key, Inc32(FirstCounter(nonce)), plaintext);
    c + Tag(p, key, nonce, c, aad)
  }

  /** `None` when the tag is missing or wrong. */
  function Decrypt(p: Primitives, key: Bytes, nonce: Bytes, data: Bytes, aad: Bytes): Option<Bytes>
    requires |nonce| == NONCE_SIZE
  {
    if |data| < TAG_SIZE then None
    else
      var c := data[..|data| - TAG_SIZE];
      if Tag(p, key, nonce, c, aad) == data[|data| - TAG_SIZE..] then
        Some(Gctr(p, key, Inc32(FirstCounter(nonce)), c))
      else
        None
  }

  lemma DecryptEncrypt(p: Primitives, key: Bytes, nonce: Bytes, plaintext: Bytes, aad: Bytes)
    requires |nonce| == NONCE_SIZE
    ensures Decrypt(p, key, nonce, Encrypt(p, key, nonce, plaintext, aad), aad) == Some(plaintext)
  {
    GctrCancels(p, key, Inc32(FirstCounter(nonce)), plaintext);
    var c := Gctr(p, key, Inc32(FirstCounter(nonce)), plaintext);
    var data := Encrypt(p, key, nonce, plaintext, aad);
    assert data[..|data| - TAG_SIZE] == c && data[|data| - TAG_SIZE..] == Tag(p, key, nonce, c, aad);
  }

  // ------------------------------------------------------------------------------------------
  // The incremental form.

  /** An encryptor that is fed the plaintext piece by piece and keeps a constant amount of state. */
  class Encryptor {
    const primitives: Primitives
    const key: Bytes
    const nonce: Bytes
    var counter: Block
    var unused: Bytes
    var digest: Block
    var partial: Bytes
    var aadLength: nat
    var textLength: nat
    ghost var aad: Bytes
    ghost var fed: Bytes
    ghost var emitted: Bytes
    ghost var whole: seq<Block>

    /** The state is what the one-shot algorithm has reached after the data fed so far. */
    ghost predicate Valid()
      reads this
    {
      && |nonce| == NONCE_SIZE && aadLength == |aad| && textLength == |fed|
      && emitted == Gctr(primitives, key, Inc32(FirstCounter(nonce)), fed)
      && InStep()
    }

    ghost predicate InStep()
      requires |nonce| == NONCE_SIZE
      reads this
    {
      Hashed() && Streamed(|whole|, |partial|)
    }

    /** The ciphertext so far is `whole` blocks, already in the digest, and `partial`. */
    ghost predicate Hashed()
      reads this
    {
      && |partial| < 16 && |emitted| == 16 * |whole| + |partial| && emitted == Flat(whole) + partial
      && digest == Ghash(primitives, HashKey(primitives, key), Blocks(aad) + whole)
    }

    /** `n` blocks of the key stream are used up, and `r` bytes of the next one. */
    ghost predicate Streamed(n: nat, r: nat)
      requires |nonce| == NONCE_SIZE && r < 16
      reads this`counter, this`unused
    {
      var first := Inc32(FirstCounter(nonce));
      if r == 0 then counter == Inc32Times(first, n) && unused == []
      else counter == Inc32Times(first, n + 1) && unused == Ciph(primitives, key, Inc32Times(first, n))[r..]
    }

    /** Creates the encryptor and authenticates the additional data. */
    constructor (primitives: Primitives, key: Bytes, nonce: Bytes, aad: Bytes)
      requires |nonce| == NONCE_SIZE
      ensures Valid() && this.primitives == primitives && this.key == key && this.nonce == nonce
      ensures this.aad == aad && fed == [] && emitted == []
    {
      this.primitives, this.key, this.nonce := primitives, key, nonce;
      counter, unused := Inc32(FirstCounter(nonce)), [];
      digest := Ghash(primitives, HashKey(primitives, key), Blocks(aad));
      partial, aadLength, textLength := [], |aad|, 0;
      this.aad, fed, emitted, whole := aad, [], [], [];
      new;
      assert Blocks(aad) + [] == Blocks(aad);
    }

    /** The next byte of the key stream. */
    method Mask(ghost n: nat, ghost r: nat) returns (mask: byte)
      requires |nonce| == NONCE_SIZE && r < 16 && Streamed(n, r)
      modifies this`counter, this`unused
      ensures mask == Ciph(primitives, key, Inc32Times(Inc32(FirstCounter(nonce)), n))[r]
      ensures if r == 15 then Streamed(n + 1, 0) else Streamed(n, r + 1)
    {
      if unused == [] {
        unused := Ciph(primitives, key, counter);
        counter := Inc32(counter);
      }
      mask := unused[0];
      unused := unused[1..];
    }

    /** Hashes one more byte of ciphertext. */
    method Absorb(out: byte)
      requires Hashed()
      modifies this`partial, this`digest, this`emitted, this`whole
      ensures Hashed() && emitted == old(emitted) + [out]
      ensures if old(|partial|) == 15 then |whole| == old(|whole|) + 1 && partial == []
              else |whole| == old(|whole|) && |partial| == old(|partial|) + 1
    {
      partial, emitted := partial + [out], emitted + [out];
      if |partial| == 16 {
        FlatSnoc(whole, partial);
        GhashSnoc(primitives, HashKey(primitives, key), Blocks(aad) + whole, partial);
        assert Blocks(aad) + (whole + [partial]) == Blocks(aad) + whole + [partial];
        digest := Fold(primitives, HashKey(primitives, key), digest, partial);
        whole, partial := whole + [partial], [];
      }
    }

    /** Masks one byte and hashes the result. */
    method MaskAndAbsorb(b: byte) returns (out: byte)
      requires |nonce| == NONCE_SIZE && InStep()
      modifies this`counter, this`unused, this`partial, this`digest, this`emitted, this`whole
      ensures InStep() && emitted == old(emitted) + [out]
      ensures out == Xor(b, Ciph(primitives, key, Inc32Times(Inc32(FirstCounter(nonce)), old(|whole|)))[old(|partial|)])
    {
      var mask := Mask(|whole|, |partial|);
      out := Xor(b, mask);
      Absorb(out);
    }

    method UpdateByte(b: byte) returns (out: byte)
      requires Valid()
      modifies this
      ensures Valid() && aad == old(aad) && fed == old(fed) + [b]
      ensures emitted == old(emitted) + [out]
    {
      GctrSnoc(primitives, key, Inc32(FirstCounter(nonce)), fed, b, |whole|, |partial|);
      out := MaskAndAbsorb(b);
      textLength, fed := textLength + 1, fed + [b];
    }

    method Update(chunk: Bytes) returns (out: Bytes)
      requires Valid()
      modifies this
      ensures Valid() && aad == old(aad) && fed == old(fed) + chunk
      ensures emitted == old(emitted) + out
    {
      out := [];
      ghost var before, sent := fed, emitted;
      assert before + chunk[..0] == before && sent + out == sent;
      for i := 0 to |chunk|
        invariant Valid() && aad == old(aad) && fed == before + chunk[..i]
        invariant emitted == sent + out
      {
        var b := UpdateByte(chunk[i]);
        assert chunk[..i + 1] == chunk[..i] + [chunk[i]];
        ConcatAssociates(before, chunk[..i], [chunk[i]]);
        ConcatAssociates(sent, out, [b]);
        out := out + [b];
      }
      assert chunk[..|chunk|] == chunk;
    }

    /** Nothing is left to emit but the tag: everything emitted and the tag are the one-shot result. */
    method Finalize() returns (tag: Bytes)
      requires Valid()
      ensures emitted + tag == Encrypt(primitives, key, nonce, fed, aad)
    {
      var h, y := HashKey(primitives, key), digest;
      CutIsUnique(whole, partial);
      ghost var blocks := Blocks(aad) + whole;
      if partial != [] {
        GhashSnoc(primitives, h, blocks, Padded(partial));
        y := Fold(primitives, h, y, Padded(partial));
        blocks := blocks + [Padded(partial)];
      }
      assert blocks == Blocks(aad) + Blocks(emitted);
      GhashSnoc(primitives, h, blocks, Lengths(aadLength, textLength));
      y := Fold(primitives, h, y, Lengths(aadLength, textLength));
      tag := Gctr(primitives, key, FirstCounter(nonce), y);
    }
  }
}
