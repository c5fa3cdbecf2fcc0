/** The answer of the default registry for every header, in the bytes and characters of the formats themselves. */
module Detection {
  import opened Base
  import opened FileTypes
  import Utf8

  /** These characters stand at this place. */
  predicate Spells(h: Bytes, at: nat, text: string) {
    at + |text| <= |h| && forall i | 0 <= i < |text| :: h[at + i] == text[i] as int
  }

  /** The character, or the capital it is the small letter of. */
  predicate EitherCase(b: byte, c: char) {
    b == c as int || ('a' <= c <= 'z' && b == c as int - 32)
  }

  predicate SpellsInAnyCase(h: Bytes, at: nat, text: string) {
    at + |text| <= |h| && forall i | 0 <= i < |text| :: EitherCase(h[at + i], text[i])
  }

  /** Nothing but spaces, tabs, line breaks and form feeds before this place. */
  predicate BlankUpTo(h: Bytes, n: nat) {
    n <= |h| && forall i | 0 <= i < n :: h[i] in {9, 10, 11, 12, 13, 32}
  }

  // ------------------------------------------------------------------------------------------
  // From the answer to the one detector behind it.

  lemma NobodyElseMatches(h: Bytes, answer: FileType, t: FileType)
    requires Matches(answer, h) && Matches(t, h) && t != answer && (Matches(OOXML, h) ==> answer == OOXML)
    ensures t == Archive && answer == OOXML
  {
    DetectorsAreDisjoint(h, t, answer);
  }

  lemma DefaultAnswer(h: Bytes)
    ensures var answer := DetectDefault(h);
      if exists t :: Matches(t, h) then Matches(answer, h) && (Matches(OOXML, h) ==> answer == OOXML)
      else answer == Unknown
  {
    AnswerOfPermutation(DEFAULT_DETECTORS, h);
    OoxmlComesFirst();
  }

  lemma OoxmlComesFirst()
    ensures Precedes(DEFAULT_DETECTORS, OOXML, Archive)
  {
    assert DEFAULT_DETECTORS[5] == OOXML && DEFAULT_DETECTORS[6] == Archive;
  }

  /** Whatever a detector other than archive claims is its answer; archive has what OOXML leaves. */
  lemma AnswersAreMatches(h: Bytes, t: FileType)
    ensures t != Archive && t != Unknown ==> (DetectDefault(h) == t <==> Matches(t, h))
    ensures DetectDefault(h) == Archive <==> Matches(Archive, h) && !Matches(OOXML, h)
  {
    DefaultAnswer(h);
    if Matches(t, h) && t != DetectDefault(h) {
      NobodyElseMatches(h, DetectDefault(h), t);
    }
    if Matches(Archive, h) && DetectDefault(h) != Archive {
      NobodyElseMatches(h, DetectDefault(h), Archive);
    }
  }

  lemma Begins(h: Bytes, magic: Bytes, text: string)
    requires |magic| == |text| && forall i | 0 <= i < |text| :: magic[i] == text[i] as int
    ensures magic <= h <==> Spells(h, 0, text)
  {
    if Spells(h, 0, text) {
      assert forall i | 0 <= i < |text| :: h[0 + i] == magic[i];
      assert h[..|text|] == magic;
    }
    if magic <= h {
      assert forall i | 0 <= i < |text| :: h[0 + i] == magic[i];
    }
  }

  /** Executables: `MZ`, and `PE` with two zero bytes wherever the offset leads, if that is in view. */
  lemma PEIsDetected(h: Bytes)
    ensures DetectDefault(h) == PE <==>
      && Spells(h, 0, "MZ")
      && (|h| < 64
          || var at: int := h[60] as int + 0x100 * h[61] as int + 0x1_0000 * h[62] as int + 0x100_0000 * h[63] as int;
             at + 4 > |h| || h[at..at + 4] == ['P' as int, 'E' as int, 0, 0])
  {
    AnswersAreMatches(h, PE);
    Begins(h, DOS_MAGIC, "MZ");
    if DOS_MAGIC <= h {
      RefusedExecutables(h);
      assert Ascii("PE") + [0, 0] == ['P' as int, 'E' as int, 0, 0];
    }
  }

  lemma ELFIsDetected(h: Bytes)
    ensures DetectDefault(h) == ELF <==> |h| >= 4 && h[0] == 0x7F && Spells(h, 1, "ELF")
  {
    AnswersAreMatches(h, ELF);
    var text := "ELF";
    assert text[0] == 'E' && text[1] == 'L' && text[2] == 'F';
    assert ELF_MAGIC <= h <==> |h| >= 4 && h[..4] == ELF_MAGIC;
    assert ELF_MAGIC == [0x7F, text[0] as int, text[1] as int, text[2] as int];
  }

  lemma MachOIsDetected(h: Bytes)
    ensures DetectDefault(h) == MachO <==> |h| >= 4 && h[..4] in {
      [0xFE, 0xED, 0xFA, 0xCE], [0xFE, 0xED, 0xFA, 0xCF], [0xCE, 0xFA, 0xED, 0xFE], [0xCF, 0xFA, 0xED, 0xFE],
      [0xCA, 0xFE, 0xBA, 0xBE]}
  {
    AnswersAreMatches(h, MachO);
    assert StartsWithAny(h, MACH_O_MAGICS) <==>
      || MACH_O_MAGICS[0] <= h || MACH_O_MAGICS[1] <= h || MACH_O_MAGICS[2] <= h || MACH_O_MAGICS[3] <= h
      || MACH_O_MAGICS[4] <= h;
    forall i | 0 <= i < 5 {
      PrefixIs(h, MACH_O_MAGICS[i]);
    }
  }

  lemma PrefixIs(h: Bytes, magic: Bytes)
    ensures magic <= h <==> |h| >= |magic| && h[..|magic|] == magic
  {}

  lemma OLEIsDetected(h: Bytes)
    ensures DetectDefault(h) == OLE <==> |h| >= 8 && h[..8] == [0xD0, 0xCF, 0x11, 0xE0, 0xA1, 0xB1, 0x1A, 0xE1]
  {
    AnswersAreMatches(h, OLE);
  }

  lemma PDFIsDetected(h: Bytes)
    ensures DetectDefault(h) == PDF <==> Spells(h, 0, "%PDF-")
  {
    AnswersAreMatches(h, PDF);
    Begins(h, PDF_MAGIC, "%PDF-");
  }

  lemma OOXMLIsDetected(h: Bytes)
    ensures DetectDefault(h) == OOXML <==>
      |h| >= 4 && h[..4] == ['P' as int, 'K' as int, 3, 4] && exists at: nat :: Spells(h, at, "[Content_Types].xml")
  {
    AnswersAreMatches(h, OOXML);
    forall at: nat
      ensures OccursAt(h, CONTENT_TYPES, at) <==> Spells(h, at, "[Content_Types].xml")
    {
      OccursWhereSpelled(h, at, "[Content_Types].xml");
    }
  }

  lemma OccursWhereSpelled(h: Bytes, at: nat, text: string)
    requires forall i :: 0 <= i < |text| ==> text[i] as int < 128
    ensures OccursAt(h, Ascii(text), at) <==> Spells(h, at, text)
  {
    if at + |text| <= |h| {
      assert forall i | 0 <= i < |text| :: h[at..at + |text|][i] == h[at + i] && Ascii(text)[i] == text[i] as int;
    }
  }

  /** Containers: any of seven signatures, in a file that is no document. */
  lemma ArchiveIsDetected(h: Bytes)
    ensures DetectDefault(h) == Archive <==>
      && (|| (|h| >= 4 && h[..4] in {['P' as int, 'K' as int, 3, 4], ['P' as int, 'K' as int, 5, 6]})
          || (|h| >= 6 && h[..6] in {['R' as int, 'a' as int, 'r' as int, '!' as int, 0x1A, 0x07],
                                     ['7' as int, 'z' as int, 0xBC, 0xAF, 0x27, 0x1C],
                                     [0xFD, '7' as int, 'z' as int, 'X' as int, 'Z' as int, 0]})
          || (|h| >= 2 && h[..2] == [0x1F, 0x8B])
          || Spells(h, 0, "BZh"))
      && DetectDefault(h) != OOXML
  {
    AnswersAreMatches(h, Archive);
    AnswersAreMatches(h, OOXML);
    Begins(h, ARCHIVE_MAGICS[5], "BZh");
    assert StartsWithAny(h, ARCHIVE_MAGICS) <==>
      || ARCHIVE_MAGICS[0] <= h || ARCHIVE_MAGICS[1] <= h || ARCHIVE_MAGICS[2] <= h || ARCHIVE_MAGICS[3] <= h
      || ARCHIVE_MAGICS[4] <= h || ARCHIVE_MAGICS[5] <= h || ARCHIVE_MAGICS[6] <= h;
    PrefixIs(h, ARCHIVE_MAGICS[0]);
    PrefixIs(h, ARCHIVE_MAGICS[1]);
    PrefixIs(h, ARCHIVE_MAGICS[2]);
    PrefixIs(h, ARCHIVE_MAGICS[3]);
    PrefixIs(h, ARCHIVE_MAGICS[4]);
    PrefixIs(h, ARCHIVE_MAGICS[6]);
  }

  // ------------------------------------------------------------------------------------------
  // Scripts.

  /** One of the eight beginnings of a script. */
  predicate IsMarker(text: string) {
    text in {"<?php", "<script", "@echo off", "param(", "function ", "import ", "#requires", "using namespace system"}
  }

  lemma MarkersAreListed(text: string)
    ensures IsMarker(text) <==> exists i :: 0 <= i < |SCRIPT_MARKERS| && IsAsciiOf(SCRIPT_MARKERS[i], text)
  {
    var texts := ["<?php", "<script", "@echo off", "param(", "function ", "import ", "#requires",
                  "using namespace system"];
    assert forall i | 0 <= i < 8 :: IsAsciiOf(SCRIPT_MARKERS[i], texts[i]);
    if IsMarker(text) {
      assert text in {texts[0], texts[1], texts[2], texts[3], texts[4], texts[5], texts[6], texts[7]};
      var i :| 0 <= i < 8 && texts[i] == text;
    }
    if i :| 0 <= i < |SCRIPT_MARKERS| && IsAsciiOf(SCRIPT_MARKERS[i], text) {
      assert text == texts[i];
    }
  }

  predicate IsAsciiOf(b: Bytes, text: string) {
    |b| == |text| && forall i | 0 <= i < |b| :: b[i] == text[i] as int
  }

  /** Stripping drops the blanks and nothing else. */
  lemma {:induction false} StripDropsBlanks(h: Bytes) returns (n: nat)
    ensures BlankUpTo(h, n) && LStrip(h) == h[n..] && (n == |h| || !IsSpace(h[n]))
  {
    if h == [] || !IsSpace(h[0]) {
      n := 0;
    } else {
      var rest := StripDropsBlanks(h[1..]);
      n := rest + 1;
      assert forall i | 1 <= i < n :: h[i] == h[1..][i - 1];
      assert h[1..][rest..] == h[n..];
    }
  }

  lemma LoweredBytes(b: byte, c: char)
    requires c as int < 128 && !('A' <= c <= 'Z')
    ensures ToLower(b) == c as int <==> EitherCase(b, c)
    ensures IsSpace(ToLower(b)) <==> IsSpace(b)
  {}

  predicate SmallAscii(text: string) {
    forall i | 0 <= i < |text| :: text[i] as int < 128 && !('A' <= text[i] <= 'Z')
  }

  lemma LoweredSpells(h: Bytes, n: nat, marker: Bytes, text: string)
    requires n <= |h| && IsAsciiOf(marker, text) && SmallAscii(text)
    ensures marker <= Lower(h)[n..] <==> SpellsInAnyCase(h, n, text)
  {
    if n + |text| <= |h| {
      forall i | 0 <= i < |text|
        ensures Lower(h)[n..][i] == marker[i] <==> EitherCase(h[n + i], text[i])
      {
        LoweredBytes(h[n + i], text[i]);
      }
      assert marker <= Lower(h)[n..] <==> forall i | 0 <= i < |text| :: Lower(h)[n..][i] == marker[i];
    }
  }

  lemma LoweredBlanks(h: Bytes, n: nat)
    ensures BlankUpTo(Lower(h), n) <==> BlankUpTo(h, n)
  {
    if n <= |h| {
      assert forall i | 0 <= i < n :: Lower(h)[i] == ToLower(h[i]);
    }
  }

  lemma MarkersAreSmall(text: string)
    requires IsMarker(text)
    ensures SmallAscii(text) && text != [] && text[0] !in "\t\n\r "
    ensures !IsSpace(text[0] as int)
  {}

  lemma MarkedScripts(h: Bytes)
    ensures StartsWithAny(LStrip(Lower(h)), SCRIPT_MARKERS) <==>
      exists n: nat, text | IsMarker(text) :: BlankUpTo(h, n) && SpellsInAnyCase(h, n, text)
  {
    var k := StripDropsBlanks(Lower(h));
    LoweredBlanks(h, k);
    if i :| 0 <= i < |SCRIPT_MARKERS| && SCRIPT_MARKERS[i] <= LStrip(Lower(h)) {
      var text := TextOf(i);
      LoweredSpells(h, k, SCRIPT_MARKERS[i], text);
      assert IsMarker(text) && BlankUpTo(h, k) && SpellsInAnyCase(h, k, text);
    }
    if n: nat, text :| IsMarker(text) && BlankUpTo(h, n) && SpellsInAnyCase(h, n, text) {
      MarkersAreListed(text);
      var i :| 0 <= i < |SCRIPT_MARKERS| && IsAsciiOf(SCRIPT_MARKERS[i], text);
      MarkersAreSmall(text);
      LoweredSpells(h, n, SCRIPT_MARKERS[i], text);
      LoweredBlanks(h, n);
      BlanksEndAtOnce(Lower(h), k, n);
    }
  }

  lemma TextOf(i: nat) returns (text: string)
    requires i < |SCRIPT_MARKERS|
    ensures IsMarker(text) && IsAsciiOf(SCRIPT_MARKERS[i], text) && SmallAscii(text)
  {
    text := ["<?php", "<script", "@echo off", "param(", "function ", "import ", "#requires",
             "using namespace system"][i];
    assert i in {0, 1, 2, 3, 4, 5, 6, 7};
  }

  lemma BlanksEndAtOnce(h: Bytes, k: nat, n: nat)
    requires BlankUpTo(h, k) && (k == |h| || !IsSpace(h[k]))
    requires BlankUpTo(h, n) && n < |h| && !IsSpace(h[n])
    ensures k == n
  {}

  /**
   * Scripts: a shebang, or text without NUL, in UTF-8 but for at most three last bytes, in which one of eight
   * markers, in whatever case, follows the leading blanks.
   */
  lemma ScriptIsDetected(h: Bytes)
    ensures DetectDefault(h) == Script <==>
      || Spells(h, 0, "#!")
      || (&& 0 !in h
          && (exists whole :: 0 <= whole <= |h| && |h| - whole <= 3 && Utf8.Valid(h[..whole]))
          && exists n: nat, text | text in {"<?php", "<script", "@echo off", "param(", "function ", "import ",
                                            "#requires", "using namespace system"} ::
               BlankUpTo(h, n) && SpellsInAnyCase(h, n, text))
  {
    AnswersAreMatches(h, Script);
    Begins(h, SHEBANG, "#!");
    TextIsAlmostValid(h);
    MarkedScripts(h);
    assert forall text :: IsMarker(text) <==> text in {"<?php", "<script", "@echo off", "param(", "function ",
                                                       "import ", "#requires", "using namespace system"};
  }
}
