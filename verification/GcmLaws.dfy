/**
 * What the bytes of Galois/Counter Mode are, in the words of NIST SP 800-38D: stated of the block
 * cipher and the field multiplication alone, with every counter, length and padding byte written out.
 */
module GcmLaws {
  import opened Base
  import opened Gcm

  // ------------------------------------------------------------------------------------------
  // Exclusive or is that of machine words.

  lemma Halving(x: bv8)
    ensures (x >> 1) as int == x as int / 2 && (x & 1) as int == x as int % 2
  {}

  lemma HalvesOfXor(x: bv8, y: bv8)
    ensures (x ^ y) >> 1 == (x >> 1) ^ (y >> 1)
    ensures ((x ^ y) & 1) as int == if (x & 1) as int == (y & 1) as int then 0 else 1
  {}

  function XorValue(x: bv8, y: bv8): byte {
    (x ^ y) as int
  }

  function Half(x: bv8): bv8 {
    x >> 1
  }

  lemma HalfOfXor(x: bv8, y: bv8)
    ensures XorValue(Half(x), Half(y)) == XorValue(x, y) / 2
  {
    Halving(x ^ y);
    HalvesOfXor(x, y);
  }

  lemma LowBitOfXor(x: bv8, y: bv8)
    ensures XorValue(x, y) % 2 == if x as int % 2 == y as int % 2 then 0 else 1
  {
    Halving(x);
    Halving(y);
    Halving(x ^ y);
    HalvesOfXor(x, y);
  }

  lemma Recomposed(v: nat, low: nat, half: nat)
    requires v % 2 == low && v / 2 == half
    ensures v == low + 2 * half
  {}

  function Value(x: bv8): byte {
    x as int
  }

  lemma XorUnfolds(a: nat, b: nat, x: bv8, y: bv8)
    requires Value(x) == a && Value(y) == b
    ensures XorValue(x, y) == (if a % 2 == b % 2 then 0 else 1) + 2 * XorValue(Half(x), Half(y))
  {
    HalfOfXor(x, y);
    LowBitOfXor(x, y);
    Recomposed(XorValue(x, y), if a % 2 == b % 2 then 0 else 1, XorValue(Half(x), Half(y)));
  }

  lemma HalvesAreWords(a: nat, x: bv8)
    requires Value(x) == a
    ensures Value(Half(x)) == a / 2
  {
    Halving(x);
  }

  lemma ZeroXor(x: bv8, y: bv8)
    requires Value(x) == 0 && Value(y) == 0
    ensures XorValue(x, y) == 0
  {}

  lemma {:induction false} XorBitsOfWords(a: nat, b: nat, x: bv8, y: bv8, bits: nat)
    requires Value(x) == a < Power2(bits) && Value(y) == b < Power2(bits)
    ensures XorBits(a, b, bits) == XorValue(x, y)
  {
    if bits == 0 {
      ZeroXor(x, y);
    } else {
      HalvesAreWords(a, x);
      HalvesAreWords(b, y);
      XorBitsOfWords(a / 2, b / 2, Half(x), Half(y), bits - 1);
      XorUnfolds(a, b, x, y);
    }
  }

  /** The model's exclusive or of two bytes is that of eight-bit words. */
  lemma XorIsOfWords(x: bv8, y: bv8)
    ensures Xor(x as int, y as int) == (x ^ y) as int
  {
    assert Power2(8) == 256;
    XorBitsOfWords(x as int, y as int, x, y, 8);
  }

  lemma Doubling(x: bv8)
    requires x as int < 128
    ensures (x << 1) as int == 2 * x as int && ((x << 1) | 1) as int == 2 * x as int + 1
  {}

  /** And every byte is such a word. */
  lemma {:induction false} BytesAreWords(a: byte) returns (x: bv8)
    ensures x as int == a
  {
    if a == 0 {
      x := 0;
    } else {
      var half := BytesAreWords(a / 2);
      Doubling(half);
      x := if a % 2 == 0 then half << 1 else (half << 1) | 1;
    }
  }

  // ------------------------------------------------------------------------------------------
  // Numbers, most significant byte first.

  function Power256(size: nat): (m: nat)
    ensures m > 0
  {
    if size == 0 then 1 else 256 * Power256(size - 1)
  }

  lemma Times(d: nat, a: nat, b: nat)
    requires a < b
    ensures d * a + d <= d * b
  {
    if b > a + 1 {
      Times(d, a, b - 1);
    }
  }

  lemma Remainders(n: nat, d: nat, q: nat, r: nat)
    requires d > 0 && n == d * q + r && r < d
    ensures n % d == r
  {
    var q', r' := n / d, n % d;
    assert n == d * q' + r';
    if q < q' {
      Times(d, q, q');
    } else if q' < q {
      Times(d, q', q);
    }
  }

  lemma RemainderByParts(n: nat, m: nat)
    requires m > 0
    ensures 256 * (n / 256 % m) + n % 256 == n % (256 * m)
  {
    var q, r := n / 256 / m, n / 256 % m;
    assert n / 256 == m * q + r;
    assert n == 256 * m * q + (256 * r + n % 256);
    Remainders(n, 256 * m, q, 256 * r + n % 256);
  }

  lemma {:induction false} BigEndianValue(n: nat, size: nat)
    ensures FromBigEndian(BigEndian(n, size)) == n % Power256(size)
  {
    if size == 0 {
    } else {
      BigEndianValue(n / 256, size - 1);
      RemainderByParts(n, Power256(size - 1));
      assert BigEndian(n, size)[..size - 1] == BigEndian(n / 256, size - 1);
    }
  }

  lemma FourBytes(b: Bytes)
    requires |b| == 4
    ensures FromBigEndian(b) == 0x100_0000 * b[0] as int + 0x1_0000 * b[1] as int + 0x100 * b[2] as int + b[3] as int
  {
    assert b[..3][..2] == b[..2] && b[..2][..1] == b[..1] && b[..1][..0] == [];
    assert FromBigEndian(b[..1]) == b[0];
    assert FromBigEndian(b[..2]) == 0x100 * b[0] as int + b[1] as int;
    assert FromBigEndian(b[..3]) == 0x1_0000 * b[0] as int + 0x100 * b[1] as int + b[2] as int;
  }

  // ------------------------------------------------------------------------------------------
  // Counters.

  lemma Inc32Value(x: Block)
    ensures Inc32(x)[..12] == x[..12]
    ensures FromBigEndian(Inc32(x)[12..]) == (FromBigEndian(x[12..]) + 1) % 0x1_0000_0000
  {
    var value := FromBigEndian(x[12..]) + 1;
    BigEndianValue(value, 4);
    assert Power256(4) == 0x1_0000_0000;
    assert Inc32(x)[12..] == BigEndian(value, 4);
  }

  lemma FirstCounterValue(nonce: Bytes)
    requires |nonce| == 12
    ensures FirstCounter(nonce)[..12] == nonce && FromBigEndian(FirstCounter(nonce)[12..]) == 1
  {
    var last: Bytes := FirstCounter(nonce)[12..];
    assert last == [0, 0, 0, 1];
    FourBytes(last);
  }

  lemma NextValue(v: nat, n: nat)
    requires n > 0 && v == n % 0x1_0000_0000
    ensures (v + 1) % 0x1_0000_0000 == (1 + n) % 0x1_0000_0000
  {}

  lemma {:induction false} CounterValue(nonce: Bytes, n: nat)
    requires |nonce| == 12
    ensures Inc32Times(FirstCounter(nonce), n)[..12] == nonce
    ensures FromBigEndian(Inc32Times(FirstCounter(nonce), n)[12..]) == (1 + n) % 0x1_0000_0000
  {
    if n == 0 {
      FirstCounterValue(nonce);
    } else {
      var before := Inc32Times(FirstCounter(nonce), n - 1);
      CounterValue(nonce, n - 1);
      Inc32Value(before);
      NextValue(FromBigEndian(before[12..]), n);
    }
  }

  lemma FirstBytes(p: Primitives, key: Bytes, counter: Block, x: Bytes, r: nat)
    requires r < 16 && r < |x|
    ensures Gctr(p, key, counter, x)[r] == Xor(x[r], Ciph(p, key, counter)[r])
  {
    if |x| > 16 {
      assert x == x[..16] + x[16..];
      GctrSplits(p, key, counter, x[..16], x[16..]);
    }
  }

  lemma {:induction false} GctrByte(p: Primitives, key: Bytes, counter: Block, x: Bytes, n: nat, r: nat)
    requires r < 16 && 16 * n + r < |x|
    ensures Gctr(p, key, counter, x)[16 * n + r] == Xor(x[16 * n + r], Ciph(p, key, Inc32Times(counter, n))[r])
    decreases n
  {
    if n == 0 {
      FirstBytes(p, key, counter, x, r);
    } else {
      var i := 16 * (n - 1) + r;
      var rest := x[16..];
      assert x == x[..16] + rest && rest[i] == x[16 + i];
      GctrSplits(p, key, counter, x[..16], rest);
      GctrByte(p, key, Inc32(counter), rest, n - 1, r);
      Inc32First(counter, n - 1);
      assert Gctr(p, key, counter, x)[16 + i] == Gctr(p, key, Inc32(counter), rest)[i];
    }
  }

  /**
   * Sections 6.5 and 7.1: byte `i` of the ciphertext is that of the plaintext combined with byte
   * `i % 16` of the encrypted counter block, which is the nonce and `2 + i / 16` in four bytes.
   */
  lemma CiphertextBytes(p: Primitives, key: Bytes, nonce: Bytes, plaintext: Bytes, aad: Bytes, i: nat)
    returns (x: Block)
    requires |nonce| == 12 && i < |plaintext|
    ensures x[..12] == nonce
    ensures 0x100_0000 * x[12] as int + 0x1_0000 * x[13] as int + 0x100 * x[14] as int + x[15] as int ==
      (2 + i / 16) % 0x1_0000_0000
    ensures |Encrypt(p, key, nonce, plaintext, aad)| == |plaintext| + 16
    ensures Encrypt(p, key, nonce, plaintext, aad)[i] == Xor(plaintext[i], p.cipher(key, x)[i % 16])
  {
    x := Inc32Times(FirstCounter(nonce), i / 16 + 1);
    CounterValue(nonce, i / 16 + 1);
    FourBytes(x[12..]);
    GctrByte(p, key, Inc32(FirstCounter(nonce)), plaintext, i / 16, i % 16);
    Inc32First(FirstCounter(nonce), i / 16);
  }

  // ------------------------------------------------------------------------------------------
  // The tag.

  lemma BlocksUnfold(s: Bytes)
    ensures s == [] ==> Blocks(s) == []
    ensures 0 < |s| < 16 ==> Blocks(s) == [Padded(s)]
    ensures |s| >= 16 ==> Blocks(s) == [s[..16]] + Blocks(s[16..])
  {}

  /** A string as blocks, filled up with zeros. */
  lemma {:induction false} BlockBytes(s: Bytes, k: nat, j: nat)
    requires j < 16
    ensures |Blocks(s)| == (|s| + 15) / 16
    ensures k < |Blocks(s)| ==> Blocks(s)[k][j] == if 16 * k + j < |s| then s[16 * k + j] else 0
    decreases |s|
  {
    BlocksUnfold(s);
    if |s| >= 16 {
      if k == 0 {
        BlockBytes(s[16..], 0, j);
      } else {
        BlockBytes(s[16..], k - 1, j);
        assert k < |Blocks(s)| ==> Blocks(s)[k] == Blocks(s[16..])[k - 1];
      }
    }
  }

  lemma EightBytes(b: Bytes)
    requires |b| == 8
    ensures FromBigEndian(b) ==
      0x1_0000_0000 * (0x100_0000 * b[0] as int + 0x1_0000 * b[1] as int + 0x100 * b[2] as int + b[3] as int)
      + 0x100_0000 * b[4] as int + 0x1_0000 * b[5] as int + 0x100 * b[6] as int + b[7] as int
  {
    FourBytes(b[..4]);
    assert b[..5][..4] == b[..4] && b[..6][..5] == b[..5] && b[..7][..6] == b[..6];
    assert FromBigEndian(b[..5]) == 0x100 * FromBigEndian(b[..4]) + b[4] as int;
    assert FromBigEndian(b[..6]) == 0x100 * FromBigEndian(b[..5]) + b[5] as int;
    assert FromBigEndian(b[..7]) == 0x100 * FromBigEndian(b[..6]) + b[6] as int;
  }

  /** The last block hashed: the two lengths in bits, the authenticated data's first, eight bytes each. */
  lemma LengthBytes(aad: nat, text: nat)
    ensures var b := Lengths(aad, text);
      && FromBigEndian(b[..8]) == 8 * aad % 0x1_0000_0000_0000_0000
      && FromBigEndian(b[8..]) == 8 * text % 0x1_0000_0000_0000_0000
  {
    BigEndianValue(8 * aad, 8);
    BigEndianValue(8 * text, 8);
    assert Power256(8) == 0x100 * 0x100 * Power256(6) && Power256(6) == 0x100 * 0x100 * Power256(4);
    assert Power256(4) == 0x1_0000_0000;
    assert Lengths(aad, text)[..8] == BigEndian(8 * aad, 8) && Lengths(aad, text)[8..] == BigEndian(8 * text, 8);
  }

  /** One step of the hash: `z` is `y` combined with the block, and is multiplied by the hash key. */
  lemma HashStep(p: Primitives, h: Block, blocks: seq<Block>, k: nat) returns (z: Block)
    requires k < |blocks|
    ensures Ghash(p, h, blocks[..k + 1]) == p.multiply(z, h)
    ensures forall j | 0 <= j < 16 :: z[j] == Xor(Ghash(p, h, blocks[..k])[j], blocks[k][j])
  {
    assert blocks[..k + 1][..k] == blocks[..k];
    z := XorWith(Ghash(p, h, blocks[..k]), blocks[k]);
  }

  lemma HashStart(p: Primitives, h: Block)
    ensures forall j | 0 <= j < 16 :: Ghash(p, h, [])[j] == 0
  {}

  /** The intermediate values of the hash, and what is multiplied at each step. */
  lemma {:induction false} HashSteps(p: Primitives, h: Block, blocks: seq<Block>) returns (ys: seq<Block>,
                                     zs: seq<Block>)
    ensures HashesAs(p, h, blocks, ys, zs) && ys[|blocks|] == Ghash(p, h, blocks)
  {
    if blocks == [] {
      ys, zs := [Ghash(p, h, [])], [];
    } else {
      var n := |blocks| - 1;
      ys, zs := HashSteps(p, h, blocks[..n]);
      var z := HashStep(p, h, blocks, n);
      assert blocks[..n + 1] == blocks;
      ys, zs := ys + [Ghash(p, h, blocks)], zs + [z];
    }
  }

  /** A string cut into blocks, the last one filled up with zeros. */
  predicate CutAs(s: Bytes, blocks: seq<Block>) {
    && |blocks| == (|s| + 15) / 16
    && forall k, j | 0 <= k < |blocks| && 0 <= j < 16 :: blocks[k][j] == if 16 * k + j < |s| then s[16 * k + j] else 0
  }

  lemma BlocksAreCut(s: Bytes)
    ensures CutAs(s, Blocks(s))
  {
    BlockBytes(s, 0, 0);
    forall k, j | 0 <= k < |Blocks(s)| && 0 <= j < 16
      ensures Blocks(s)[k][j] == if 16 * k + j < |s| then s[16 * k + j] else 0
    {
      BlockBytes(s, k, j);
    }
  }

  /** `ys` are the values of the hash, from zero on, and `zs` what is multiplied at each step. */
  predicate HashesAs(p: Primitives, h: Block, blocks: seq<Block>, ys: seq<Block>, zs: seq<Block>) {
    && |ys| == |blocks| + 1 && |zs| == |blocks|
    && (forall j | 0 <= j < 16 :: ys[0][j] == 0)
    && (forall k | 0 <= k < |blocks| :: ys[k + 1] == p.multiply(zs[k], h))
    && (forall k, j | 0 <= k < |blocks| && 0 <= j < 16 :: zs[k][j] == Xor(ys[k][j], blocks[k][j]))
  }

  lemma MaskedTag(p: Primitives, key: Bytes, x: Block, s: Block)
    ensures forall j | 0 <= j < 16 :: Gctr(p, key, x, s)[j] == Xor(s[j], p.cipher(key, x)[j])
  {}

  /** The two parts of an encryption. */
  lemma EncryptionParts(p: Primitives, key: Bytes, nonce: Bytes, plaintext: Bytes, aad: Bytes) returns (text: Bytes)
    requires |nonce| == 12
    ensures |text| == |plaintext| && Encrypt(p, key, nonce, plaintext, aad) == text + Tag(p, key, nonce, text, aad)
    ensures Encrypt(p, key, nonce, plaintext, aad)[..|plaintext|] == text
  {
    text := Gctr(p, key, Inc32(FirstCounter(nonce)), plaintext);
  }

  /** The tag as the masked end of a hash. */
  lemma TagIsMasked(p: Primitives, key: Bytes, nonce: Bytes, text: Bytes, aad: Bytes)
    returns (ys: seq<Block>, zs: seq<Block>)
    requires |nonce| == 12
    ensures HashesAs(p, p.cipher(key, Zeros(16)), Blocks(aad) + Blocks(text) + [Lengths(|aad|, |text|)], ys, zs)
    ensures var end := |Blocks(aad)| + |Blocks(text)| + 1;
      forall j | 0 <= j < 16 ::
        Tag(p, key, nonce, text, aad)[j] == Xor(ys[end][j], p.cipher(key, FirstCounter(nonce))[j])
  {
    var blocks := Blocks(aad) + Blocks(text) + [Lengths(|aad|, |text|)];
    ys, zs := HashSteps(p, HashKey(p, key), blocks);
    MaskedTag(p, key, FirstCounter(nonce), ys[|blocks|]);
  }

  lemma LastBytes(whole: Bytes, text: Bytes, tag: Bytes, j: nat)
    requires whole == text + tag && j < |tag|
    ensures whole[|text| + j] == tag[j]
  {}

  /**
   * Sections 6.4 and 7.1: the authenticated data and the ciphertext, each filled up with zeros to whole
   * blocks, and the two lengths in bits are folded by exclusive or and multiplication with the cipher of
   * the zero block; the tag is the result combined with the cipher of the nonce and the number 1.
   */
  lemma TagBytes(p: Primitives, key: Bytes, nonce: Bytes, plaintext: Bytes, aad: Bytes)
    returns (zero: Block, x: Block, a: seq<Block>, c: seq<Block>, last: Block, ys: seq<Block>, zs: seq<Block>)
    requires |nonce| == 12
    ensures (forall j | 0 <= j < 16 :: zero[j] == 0) && x == nonce + [0, 0, 0, 1]
    ensures |Encrypt(p, key, nonce, plaintext, aad)| == |plaintext| + 16
    ensures CutAs(aad, a) && CutAs(Encrypt(p, key, nonce, plaintext, aad)[..|plaintext|], c)
    ensures FromBigEndian(last[..8]) == 8 * |aad| % 0x1_0000_0000_0000_0000
    ensures FromBigEndian(last[8..]) == 8 * |plaintext| % 0x1_0000_0000_0000_0000
    ensures HashesAs(p, p.cipher(key, zero), a + c + [last], ys, zs)
    ensures forall j | 0 <= j < 16 ::
      Encrypt(p, key, nonce, plaintext, aad)[|plaintext| + j] == Xor(ys[|a| + |c| + 1][j], p.cipher(key, x)[j])
  {
    var text := EncryptionParts(p, key, nonce, plaintext, aad);
    zero, x := Zeros(16), FirstCounter(nonce);
    a, c, last := Blocks(aad), Blocks(text), Lengths(|aad|, |text|);
    BlocksAreCut(aad);
    BlocksAreCut(text);
    LengthBytes(|aad|, |text|);
    ys, zs := TagIsMasked(p, key, nonce, text, aad);
    forall j | 0 <= j < 16
      ensures Encrypt(p, key, nonce, plaintext, aad)[|plaintext| + j] == Tag(p, key, nonce, text, aad)[j]
    {
      LastBytes(Encrypt(p, key, nonce, plaintext, aad), text, Tag(p, key, nonce, text, aad), j);
    }
  }
}
