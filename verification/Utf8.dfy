/** UTF-8 as section 4 of RFC 3629 defines it: well-formed byte strings, encoding and strict decoding. */
module Utf8 {
  import opened Base

  predicate IsTail(b: byte) {
    0x80 <= b <= 0xBF
  }

  predicate StartsThree(first: byte, second: byte) {
    || (first == 0xE0 && 0xA0 <= second <= 0xBF)
    || (0xE1 <= first <= 0xEC && IsTail(second))
    || (first == 0xED && 0x80 <= second <= 0x9F)
    || (0xEE <= first <= 0xEF && IsTail(second))
  }

  predicate StartsFour(first: byte, second: byte) {
    || (first == 0xF0 && 0x90 <= second <= 0xBF)
    || (0xF1 <= first <= 0xF3 && IsTail(second))
    || (first == 0xF4 && 0x80 <= second <= 0x8F)
  }

  /** The length of the well-formed character at the front, 0 when there is none. */
  function LeadLength(b: Bytes): (n: nat)
    ensures n <= 4 && n <= |b|
  {
    if |b| >= 1 && b[0] <= 0x7F then 1
    else if |b| >= 2 && 0xC2 <= b[0] <= 0xDF && IsTail(b[1]) then 2
    else if |b| >= 3 && StartsThree(b[0], b[1]) && IsTail(b[2]) then 3
    else if |b| >= 4 && StartsFour(b[0], b[1]) && IsTail(b[2]) && IsTail(b[3]) then 4
    else 0
  }

  predicate Valid(b: Bytes)
    decreases |b|
  {
    b == [] || (LeadLength(b) > 0 && Valid(b[LeadLength(b)..]))
  }

  /** A longer string has the same front character. */
  lemma LeadLengthOfPrefix(b: Bytes, n: nat)
    requires LeadLength(b) <= n <= |b|
    ensures LeadLength(b) > 0 ==> LeadLength(b[..n]) == LeadLength(b)
  {}

  /** Cutting well-formed text anywhere leaves well-formed text and at most three bytes of a cut character. */
  lemma {:induction false} CutText(b: Bytes, n: nat) returns (whole: nat)
    requires Valid(b) && n <= |b|
    ensures whole <= n <= whole + 3 && Valid(b[..whole])
    decreases |b|
  {
    if n == 0 {
      return 0;
    }
    var lead := LeadLength(b);
    if n < lead {
      return 0;
    }
    var rest := CutText(b[lead..], n - lead);
    whole := lead + rest;
    LeadLengthOfPrefix(b, whole);
    assert b[..whole][lead..] == b[lead..][..rest];
  }

  // ------------------------------------------------------------------------------------------
  // Characters. A Dafny char is a Unicode scalar value.

  /** Section 3 of RFC 3629. */
  function EncodeChar(c: char): (b: Bytes)
    ensures 1 <= |b| <= 4
  {
    var v := c as int;
    if v < 0x80 then [v]
    else if v < 0x800 then [0xC0 + v / 64, 0x80 + v % 64]
    else if v < 0x10000 then [0xE0 + v / 64 / 64, 0x80 + v / 64 % 64, 0x80 + v % 64]
    else [0xF0 + v / 64 / 64 / 64, 0x80 + v / 64 / 64 % 64, 0x80 + v / 64 % 64, 0x80 + v % 64]
  }

  /** Its table: how many bytes a character takes, and that their payload bits are the character's. */
  lemma EncodedCharIs(c: char)
    ensures var b, v := EncodeChar(c), c as int;
      && (|b| == 1 <==> v <= 0x7F) && (|b| == 2 <==> 0x80 <= v <= 0x7FF)
      && (|b| == 3 <==> 0x800 <= v <= 0xFFFF) && (|b| == 4 <==> 0x1_0000 <= v)
      && (|b| == 1 ==> b[0] == v)
      && (|b| == 2 ==> 0xC0 <= b[0] < 0xE0 && v == 0x40 * (b[0] as int - 0xC0) + (b[1] as int - 0x80))
      && (|b| == 3 ==>
            && 0xE0 <= b[0] < 0xF0
            && v == 0x1000 * (b[0] as int - 0xE0) + 0x40 * (b[1] as int - 0x80) + (b[2] as int - 0x80))
      && (|b| == 4 ==>
            && 0xF0 <= b[0] < 0xF8
            && v == 0x4_0000 * (b[0] as int - 0xF0) + 0x1000 * (b[1] as int - 0x80) + 0x40 * (b[2] as int - 0x80)
                    + (b[3] as int - 0x80))
      && forall k | 1 <= k < |b| :: 0x80 <= b[k] < 0xC0
  {
    var v := c as int;
    assert v == 0x40 * (v / 64) + v % 64;
    assert v / 64 == 0x40 * (v / 64 / 64) + v / 64 % 64;
    assert v / 64 / 64 == 0x40 * (v / 64 / 64 / 64) + v / 64 / 64 % 64;
  }

  /** A text is its characters one after the other. */
  lemma EncodedTextIs(s: string, c: char)
    ensures Encode([]) == [] && Encode(s + [c]) == Encode(s) + EncodeChar(c)
  {
    if s == [] {
      assert [c][1..] == [] && s + [c] == [c];
    } else {
      EncodedTextIs(s[1..], c);
      assert (s + [c])[1..] == s[1..] + [c];
    }
  }

  function Low(b: byte): int {
    b as int - 0x80
  }

  function LeadValue(b: Bytes): int
    requires LeadLength(b) > 0
  {
    match LeadLength(b)
    case 1 => b[0]
    case 2 => 64 * (b[0] as int - 0xC0) + Low(b[1])
    case 3 => 64 * (64 * (b[0] as int - 0xE0) + Low(b[1])) + Low(b[2])
    case _ => 64 * (64 * (64 * (b[0] as int - 0xF0) + Low(b[1])) + Low(b[2])) + Low(b[3])
  }

  lemma SixBits(v: int, high: int, low: int)
    requires v == 64 * high + low && 0 <= low < 64
    ensures v / 64 == high && v % 64 == low
  {}

  /** Well-formed sequences never denote a surrogate or a value beyond the last plane. */
  lemma LeadValueIsScalar(b: Bytes)
    requires LeadLength(b) > 0
    ensures 0 <= LeadValue(b) < 0xD800 || 0xE000 <= LeadValue(b) < 0x11_0000
  {}

  function LeadChar(b: Bytes): char
    requires LeadLength(b) > 0
  {
    LeadValueIsScalar(b);
    LeadValue(b) as char
  }

  function Encode(s: string): Bytes {
    if s == [] then [] else EncodeChar(s[0]) + Encode(s[1..])
  }

  /** Strict decoding: `None` where `bytes.decode` raises. */
  function Decode(b: Bytes): Option<string>
    decreases |b|
  {
    if b == [] then Some([])
    else if LeadLength(b) == 0 then None
    else
      var rest := Decode(b[LeadLength(b)..]);
      if rest.Some? then Some([LeadChar(b)] + rest.value) else None
  }

  lemma {:induction false} DecodesExactlyTheValid(b: Bytes)
    ensures Decode(b).Some? <==> Valid(b)
    decreases |b|
  {
    if LeadLength(b) > 0 {
      DecodesExactlyTheValid(b[LeadLength(b)..]);
    }
  }

  lemma EncodedCharLeads(c: char, rest: Bytes)
    ensures LeadLength(EncodeChar(c) + rest) == |EncodeChar(c)|
    ensures LeadChar(EncodeChar(c) + rest) == c
  {
    var v, b := c as int, EncodeChar(c) + rest;
    assert v == 64 * (v / 64) + v % 64;
    assert v / 64 == 64 * (v / 64 / 64) + v / 64 % 64;
    assert v / 64 / 64 == 64 * (v / 64 / 64 / 64) + v / 64 / 64 % 64;
    EncodedCharStarts(c, rest);
    assert LeadValue(b) == v;
  }

  lemma EncodedCharStarts(c: char, rest: Bytes)
    ensures LeadLength(EncodeChar(c) + rest) == |EncodeChar(c)|
  {}

  lemma LongLeadCharEncodes(b: Bytes)
    requires LeadLength(b) == 4
    ensures EncodeChar(LeadChar(b)) == b[..4]
  {
    var higher := 64 * (b[0] as int - 0xF0) + Low(b[1]);
    var high := 64 * higher + Low(b[2]);
    SixBits(LeadValue(b), high, Low(b[3]));
    SixBits(high, higher, Low(b[2]));
    SixBits(higher, b[0] as int - 0xF0, Low(b[1]));
  }

  lemma LeadCharEncodes(b: Bytes)
    requires LeadLength(b) > 0
    ensures EncodeChar(LeadChar(b)) == b[..LeadLength(b)]
  {
    var v := LeadValue(b);
    match LeadLength(b) {
      case 1 =>
      case 2 =>
        SixBits(v, b[0] as int - 0xC0, Low(b[1]));
      case 3 =>
        var high := 64 * (b[0] as int - 0xE0) + Low(b[1]);
        SixBits(v, high, Low(b[2]));
        SixBits(high, b[0] as int - 0xE0, Low(b[1]));
      case _ =>
        LongLeadCharEncodes(b);
    }
  }

  /** Decoding undoes encoding. */
  lemma {:induction false} DecodeEncode(s: string)
    ensures Decode(Encode(s)) == Some(s)
  {
    if s == [] {
    } else {
      DecodeEncode(s[1..]);
      EncodedCharLeads(s[0], Encode(s[1..]));
      assert Encode(s)[|EncodeChar(s[0])|..] == Encode(s[1..]);
      assert s == [s[0]] + s[1..];
    }
  }

  lemma EncodeCons(c: char, rest: string)
    ensures Encode([c] + rest) == EncodeChar(c) + Encode(rest)
  {
    assert ([c] + rest)[1..] == rest;
  }

  lemma EncodeFront(b: Bytes, n: nat, text: string)
    requires 0 < LeadLength(b) == n <= |b| && Encode(text) == b[n..]
    ensures Encode([LeadChar(b)] + text) == b
  {
    LeadCharEncodes(b);
    EncodeCons(LeadChar(b), text);
  }

  /** Only one byte string decodes to a given text. */
  lemma {:induction false} EncodeDecode(b: Bytes)
    requires Decode(b).Some?
    ensures Encode(Decode(b).value) == b
    decreases |b|
  {
    if b == [] {
    } else {
      var n := LeadLength(b);
      EncodeDecode(b[n..]);
      EncodeFront(b, n, Decode(b[n..]).value);
    }
  }
}
