/** The container detectors and their registry: app/filetypes/detectors.py and app/filetypes/registry.py. */
module FileTypes {
  import opened Base
  import Utf8

  datatype FileType = PE | ELF | MachO | Script | OLE | OOXML | Archive | PDF | Unknown

  const HEADER_SIZE := 512

  // ------------------------------------------------------------------------------------------
  // Byte-string helpers with Python's meaning.

  function Ascii(s: string): Bytes
    requires forall i :: 0 <= i < |s| ==> s[i] as int < 128
  {
    seq(|s|, i requires 0 <= i < |s| => s[i] as int)
  }

  predicate StartsWithAny(h: Bytes, magics: seq<Bytes>) {
    exists i :: 0 <= i < |magics| && magics[i] <= h
  }

  predicate OccursAt(h: Bytes, part: Bytes, i: nat) {
    i + |part| <= |h| && h[i..i + |part|] == part
  }

  predicate Contains(h: Bytes, part: Bytes) {
    exists i: nat :: i <= |h| && OccursAt(h, part, i)
  }

  /** `h[:stop]`, where a negative stop counts from the end and is then clipped. */
  function SliceTo(h: Bytes, stop: int): Bytes {
    if stop >= |h| then h
    else if stop >= 0 then h[..stop]
    else if |h| + stop >= 0 then h[..|h| + stop]
    else []
  }

  function ToLower(b: byte): byte {
    if 0x41 <= b <= 0x5A then b + 0x20 else b
  }

  function Lower(h: Bytes): Bytes {
    seq(|h|, i requires 0 <= i < |h| => ToLower(h[i]))
  }

  predicate IsSpace(b: byte) {
    b == 0x20 || 0x09 <= b <= 0x0D
  }

  function LStrip(h: Bytes): Bytes {
    if h != [] && IsSpace(h[0]) then LStrip(h[1..]) else h
  }

  // ------------------------------------------------------------------------------------------
  // The detectors.

  const DOS_MAGIC: Bytes := [0x4D, 0x5A]
  const E_LFANEW_OFFSET := 0x3C
  const PE_SIGNATURE: Bytes := [0x50, 0x45, 0x00, 0x00]
  const ELF_MAGIC: Bytes := [0x7F, 0x45, 0x4C, 0x46]
  const MACH_O_MAGICS: seq<Bytes> := [
    [0xFE, 0xED, 0xFA, 0xCE], [0xFE, 0xED, 0xFA, 0xCF], [0xCE, 0xFA, 0xED, 0xFE],
    [0xCF, 0xFA, 0xED, 0xFE], [0xCA, 0xFE, 0xBA, 0xBE]]
  const OLE_MAGIC: Bytes := [0xD0, 0xCF, 0x11, 0xE0, 0xA1, 0xB1, 0x1A, 0xE1]
  const PDF_MAGIC: Bytes := [0x25, 0x50, 0x44, 0x46, 0x2D]
  const ZIP_MAGIC: Bytes := [0x50, 0x4B, 0x03, 0x04]
  const CONTENT_TYPES: Bytes := Ascii("[Content_Types].xml")
  const ARCHIVE_MAGICS: seq<Bytes> := [
    [0x50, 0x4B, 0x03, 0x04], [0x50, 0x4B, 0x05, 0x06], [0x52, 0x61, 0x72, 0x21, 0x1A, 0x07],
    [0x37, 0x7A, 0xBC, 0xAF, 0x27, 0x1C], [0x1F, 0x8B], [0x42, 0x5A, 0x68],
    [0xFD, 0x37, 0x7A, 0x58, 0x5A, 0x00]]
  const SHEBANG: Bytes := [0x23, 0x21]
  const SCRIPT_MARKERS: seq<Bytes> := [
    Ascii("<?php"), Ascii("<script"), Ascii("@echo off"), Ascii("param("),
    Ascii("function "), Ascii("import "), Ascii("#requires"), Ascii("using namespace system")]

  function LittleEndian(b: Bytes): nat {
    if b == [] then 0 else b[0] + 256 * LittleEndian(b[1..])
  }

  predicate MatchesPE(h: Bytes) {
    if !(DOS_MAGIC <= h) then false
    else if |h| < E_LFANEW_OFFSET + 4 then true
    else
      var peOffset := LittleEndian(h[E_LFANEW_OFFSET..E_LFANEW_OFFSET + 4]);
      if peOffset + 4 > |h| then true else h[peOffset..peOffset + 4] == PE_SIGNATURE
  }

  predicate Decodes(chunk: Bytes) {
    Utf8.Decode(chunk).Some?
  }

  predicate DecodesWithout(h: Bytes, trim: nat) {
    Decodes(SliceTo(h, |h| - trim))
  }

  /** No NUL, and UTF-8 up to at most three dropped bytes. */
  predicate IsText(h: Bytes) {
    0x00 !in h && exists trim: nat :: trim <= 3 && DecodesWithout(h, trim)
  }

  predicate MatchesScript(h: Bytes) {
    if SHEBANG <= h then true
    else if h == [] || !IsText(h) then false
    else StartsWithAny(LStrip(Lower(h)), SCRIPT_MARKERS)
  }

  predicate Matches(t: FileType, h: Bytes) {
    match t
    case PE => MatchesPE(h)
    case ELF => ELF_MAGIC <= h
    case MachO => StartsWithAny(h, MACH_O_MAGICS)
    case OLE => OLE_MAGIC <= h
    case PDF => PDF_MAGIC <= h
    case OOXML => ZIP_MAGIC <= h && Contains(h, CONTENT_TYPES)
    case Archive => StartsWithAny(h, ARCHIVE_MAGICS)
    case Script => MatchesScript(h)
    case Unknown => false
  }

  // ------------------------------------------------------------------------------------------
  // The registry.

  datatype Verdict = Yes | No | Raised

  datatype Detector = Detector(fileType: FileType, matches: Bytes -> Verdict)

  /** First match wins; a detector that raises is skipped. */
  function Detect(detectors: seq<Detector>, h: Bytes): FileType {
    if detectors == [] then Unknown
    else if detectors[0].matches(h) == Yes then detectors[0].fileType
    else Detect(detectors[1..], h)
  }

  function Shipped(t: FileType): Detector {
    Detector(t, h => if Matches(t, h) then Yes else No)
  }

  function Registered(types: seq<FileType>): seq<Detector> {
    seq(|types|, i requires 0 <= i < |types| => Shipped(types[i]))
  }

  const DEFAULT_DETECTORS := [PE, ELF, MachO, OLE, PDF, OOXML, Archive, Script]

  /** Detection with the default registry. */
  function DetectDefault(h: Bytes): FileType {
    Detect(Registered(DEFAULT_DETECTORS), h)
  }

  /** The answer is the type of the first detector that says yes, and `Unknown` when none does. */
  lemma {:induction false} DetectIsFirstYes(detectors: seq<Detector>, h: Bytes)
    ensures (forall i :: 0 <= i < |detectors| ==> detectors[i].matches(h) != Yes) ==> Detect(detectors, h) == Unknown
    ensures forall i | 0 <= i < |detectors| && detectors[i].matches(h) == Yes ::
      (forall j :: 0 <= j < i ==> detectors[j].matches(h) != Yes) ==> Detect(detectors, h) == detectors[i].fileType
  {
    if detectors == [] {
    } else {
      DetectIsFirstYes(detectors[1..], h);
      forall i | 0 <= i < |detectors| && detectors[i].matches(h) == Yes
        && forall j :: 0 <= j < i ==> detectors[j].matches(h) != Yes
        ensures Detect(detectors, h) == detectors[i].fileType
      {
        if i > 0 {
          assert detectors[0].matches(h) != Yes;
          assert detectors[1..][i - 1] == detectors[i];
          assert forall j :: 0 <= j < i - 1 ==> detectors[1..][j] == detectors[j + 1];
        }
      }
    }
  }

  /** A failing detector changes no answer: the registry behaves as if it had not been registered. */
  lemma {:induction false} RaisingIsSkipped(before: seq<Detector>, failing: Detector, after: seq<Detector>, h: Bytes)
    requires failing.matches(h) == Raised
    ensures Detect(before + [failing] + after, h) == Detect(before + after, h)
  {
    if before == [] {
      assert ([failing] + after)[1..] == after;
      assert before + [failing] + after == [failing] + after && before + after == after;
    } else {
      RaisingIsSkipped(before[1..], failing, after, h);
      assert (before + [failing] + after)[1..] == before[1..] + [failing] + after;
      assert (before + after)[1..] == before[1..] + after;
    }
  }

  // ------------------------------------------------------------------------------------------
  // Executables.

  /**
   * An `MZ` header is refused exactly when the offset at 0x3C and what it leads to are both in view and
   * not `PE\0\0`.
   */
  lemma RefusedExecutables(h: Bytes)
    requires DOS_MAGIC <= h
    ensures !MatchesPE(h) <==>
      && |h| >= 64
      && var at: int := h[60] as int + 0x100 * h[61] as int + 0x1_0000 * h[62] as int + 0x100_0000 * h[63] as int;
      && at + 4 <= |h| && h[at..at + 4] != Ascii("PE") + [0, 0]
  {
    assert Ascii("PE") + [0, 0] == PE_SIGNATURE;
    if |h| >= 64 {
      assert h[60..64] == [h[60], h[61], h[62], h[63]];
      LittleEndianWords(h[60], h[61], h[62], h[63]);
    }
  }

  lemma LittleEndianWords(a: byte, b: byte, c: byte, d: byte)
    ensures LittleEndian([a, b, c, d]) == a as int + 0x100 * b as int + 0x1_0000 * c as int + 0x100_0000 * d as int
  {
    assert [a, b, c, d][1..] == [b, c, d] && [b, c, d][1..] == [c, d] && [c, d][1..] == [d];
    assert LittleEndian([d]) == d;
    assert LittleEndian([c, d]) == c as int + 0x100 * d as int;
    assert LittleEndian([b, c, d]) == b as int + 0x100 * c as int + 0x1_0000 * d as int;
  }

  /** Seeing less of an executable never makes it anything else, down to its first two bytes. */
  lemma ShorterWindowsKeepPE(file: Bytes, n: nat)
    requires n >= 2 && MatchesPE(file)
    ensures MatchesPE(Window(file, n))
  {
    var h := Window(file, n);
    if |h| >= 64 {
      assert h[60..64] == file[60..64];
      var at := LittleEndian(h[60..64]);
      if at + 4 <= |h| {
        assert h[at..at + 4] == file[at..at + 4];
      }
    }
  }

  // ------------------------------------------------------------------------------------------
  // Text windows.

  /** The window kept of a file. */
  function Window(file: Bytes, n: nat): Bytes {
    if n < |file| then file[..n] else file
  }

  /** A fixed-size window of NUL-free UTF-8 text always counts as text, wherever it cuts. */
  lemma TextWindowsAreText(file: Bytes, n: nat)
    requires Utf8.Valid(file) && 0x00 !in file
    ensures IsText(Window(file, n))
  {
    var h := Window(file, n);
    var whole := Utf8.CutText(file, |h|);
    assert h == file[..|h|];
    Utf8.DecodesExactlyTheValid(file[..whole]);
    assert SliceTo(h, whole) == file[..whole];
    assert DecodesWithout(h, |h| - whole);
  }

  /** Conversely, what counts as text is NUL-free and valid once at most three trailing bytes are dropped. */
  lemma TextIsAlmostValid(h: Bytes)
    ensures IsText(h) <==> 0x00 !in h && exists whole :: 0 <= whole <= |h| && |h| - whole <= 3 && Utf8.Valid(h[..whole])
  {
    if IsText(h) {
      var trim: nat :| trim <= 3 && DecodesWithout(h, trim);
      Utf8.DecodesExactlyTheValid(SliceTo(h, |h| - trim));
      if trim <= |h| {
        assert SliceTo(h, |h| - trim) == h[..|h| - trim];
      } else {
        assert Utf8.Valid(h[..0]);
      }
    }
    if 0x00 !in h && exists whole :: 0 <= whole <= |h| && |h| - whole <= 3 && Utf8.Valid(h[..whole]) {
      var whole :| 0 <= whole <= |h| && |h| - whole <= 3 && Utf8.Valid(h[..whole]);
      Utf8.DecodesExactlyTheValid(h[..whole]);
      assert SliceTo(h, whole) == h[..whole];
      assert DecodesWithout(h, |h| - whole);
    }
  }

  /** Three is needed: this window is a four-byte character cut after its third byte. */
  lemma ThreeDroppedBytesAreNeeded()
    ensures var file: Bytes := [0xF0, 0x9F, 0x98, 0x80];
      Utf8.Valid(file) && !Decodes(file[..3]) && !Decodes(file[..2]) && !Decodes(file[..1]) && IsText(file[..3])
  {
    var file: Bytes := [0xF0, 0x9F, 0x98, 0x80];
    assert Utf8.LeadLength(file) == 4 && file[4..] == [];
    TextWindowsAreText(file, 3);
  }

  // ------------------------------------------------------------------------------------------
  // Dispatch order.

  lemma MarkersStart(i: nat)
    requires i < |SCRIPT_MARKERS|
    ensures |SCRIPT_MARKERS[i]| >= 2
    ensures SCRIPT_MARKERS[i][0] in {0x3C, 0x40, 0x70, 0x66, 0x69, 0x23, 0x75}
    ensures SCRIPT_MARKERS[i][0] == 0x70 ==> SCRIPT_MARKERS[i][1] == 0x61
  {
    assert i in {0, 1, 2, 3, 4, 5, 6, 7};
  }

  /** How a header that counts as a script begins, through case folding and whitespace stripping. */
  lemma ScriptsStart(h: Bytes)
    requires MatchesScript(h)
    ensures h != []
    ensures h[0] == 0x23 || IsSpace(h[0]) || (|h| >= 2 && ToLower(h[0]) in {0x3C, 0x40, 0x70, 0x66, 0x69, 0x75})
    ensures ToLower(h[0]) == 0x70 ==> |h| >= 2 && ToLower(h[1]) == 0x61
  {
    if !(SHEBANG <= h) && !IsSpace(h[0]) {
      assert Lower(h)[0] == ToLower(h[0]);
      assert LStrip(Lower(h)) == Lower(h);
      var i :| 0 <= i < |SCRIPT_MARKERS| && SCRIPT_MARKERS[i] <= Lower(h);
      MarkersStart(i);
      assert Lower(h)[0] == SCRIPT_MARKERS[i][0] && Lower(h)[1] == SCRIPT_MARKERS[i][1];
    }
  }

  /** The detectors with a signature, by the first byte it demands. */
  function SignedBy(first: byte, second: byte): FileType {
    if first == 0x4D then PE
    else if first == 0x7F then ELF
    else if first in {0xFE, 0xCE, 0xCF, 0xCA} then MachO
    else if first == 0xD0 then OLE
    else if first == 0x25 then PDF
    else if (first == 0x50 && second == 0x4B) || first in {0x52, 0x37, 0x1F, 0x42, 0xFD} then Archive
    else Unknown
  }

  lemma SignaturesStart(h: Bytes, t: FileType)
    requires Matches(t, h) && t != Script
    ensures |h| >= 2 && SignedBy(h[0], h[1]) == if t == OOXML then Archive else t
  {
    match t {
      case MachO =>
        var i :| 0 <= i < |MACH_O_MAGICS| && MACH_O_MAGICS[i] <= h;
        assert i in {0, 1, 2, 3, 4};
        assert h[0] == MACH_O_MAGICS[i][0];
      case Archive =>
        var i :| 0 <= i < |ARCHIVE_MAGICS| && ARCHIVE_MAGICS[i] <= h;
        assert i in {0, 1, 2, 3, 4, 5, 6};
        assert h[0] == ARCHIVE_MAGICS[i][0] && h[1] == ARCHIVE_MAGICS[i][1];
      case _ =>
    }
  }

  /** No header is claimed by two detectors, except that an OOXML document is also an archive. */
  lemma DetectorsAreDisjoint(h: Bytes, t: FileType, u: FileType)
    requires Matches(t, h) && Matches(u, h) && t != u
    ensures {t, u} == {OOXML, Archive}
  {
    if t == Script {
      ScriptsStart(h);
      SignaturesStart(h, u);
    } else if u == Script {
      ScriptsStart(h);
      SignaturesStart(h, t);
    } else {
      SignaturesStart(h, t);
      SignaturesStart(h, u);
    }
  }

  lemma OoxmlIsArchive(h: Bytes)
    requires Matches(OOXML, h)
    ensures Matches(Archive, h)
  {
    assert ARCHIVE_MAGICS[0] <= h;
  }

  predicate Precedes(types: seq<FileType>, t: FileType, u: FileType) {
    exists i, j :: 0 <= i < j < |types| && types[i] == t && types[j] == u
  }

  ghost predicate IsPermutation(types: seq<FileType>) {
    multiset(types) == multiset(DEFAULT_DETECTORS)
  }

  /** A detector that matches and is preceded by no other match gives the answer. */
  lemma AnswerOf(types: seq<FileType>, i: nat, h: Bytes)
    requires i < |types| && Matches(types[i], h) && forall j :: 0 <= j < i ==> !Matches(types[j], h)
    ensures Detect(Registered(types), h) == types[i]
  {
    DetectIsFirstYes(Registered(types), h);
    assert Registered(types)[i].matches(h) == Yes;
    assert forall j :: 0 <= j < i ==> Registered(types)[j].matches(h) == No;
  }

  /** What a registry of the default detectors in any order answers. */
  lemma AnswerOfPermutation(types: seq<FileType>, h: Bytes)
    requires IsPermutation(types)
    ensures var answer := Detect(Registered(types), h);
      if Matches(OOXML, h) then answer == if Precedes(types, OOXML, Archive) then OOXML else Archive
      else if exists t :: Matches(t, h) then Matches(answer, h)
      else answer == Unknown
  {
    if t :| Matches(t, h) {
      assert t in DEFAULT_DETECTORS;
      assert t in multiset(types);
      var i :| 0 <= i < |types| && types[i] == t;
      var first := FirstMatch(types, h, i);
      AnswerOf(types, first, h);
      if Matches(OOXML, h) {
        OoxmlIsArchive(h);
        OoxmlOrArchiveFirst(types, h, first);
      }
    } else {
      DetectIsFirstYes(Registered(types), h);
    }
  }

  lemma FirstMatch(types: seq<FileType>, h: Bytes, i: nat) returns (first: nat)
    requires i < |types| && Matches(types[i], h)
    ensures first <= i && Matches(types[first], h) && forall j :: 0 <= j < first ==> !Matches(types[j], h)
  {
    first := 0;
    while !Matches(types[first], h)
      invariant first <= i && forall j :: 0 <= j < first ==> !Matches(types[j], h)
      decreases i - first
    {
      first := first + 1;
    }
  }

  lemma OnlyOnce(types: seq<FileType>, i: nat, j: nat)
    requires IsPermutation(types) && i < j < |types|
    ensures types[i] != types[j]
  {
    var rest := types[..i] + types[i + 1..];
    assert types == types[..i] + [types[i]] + types[i + 1..];
    assert types[j] == rest[j - 1] && types[j] in multiset(rest);
    assert multiset(types) == multiset(rest) + multiset{types[i]};
  }

  lemma OoxmlOrArchiveFirst(types: seq<FileType>, h: Bytes, first: nat)
    requires IsPermutation(types) && Matches(OOXML, h) && Matches(Archive, h)
    requires first < |types| && Matches(types[first], h) && forall j :: 0 <= j < first ==> !Matches(types[j], h)
    ensures types[first] == if Precedes(types, OOXML, Archive) then OOXML else Archive
  {
    assert OOXML in multiset(types) && Archive in multiset(types);
    var o :| 0 <= o < |types| && types[o] == OOXML;
    var a :| 0 <= a < |types| && types[a] == Archive;
    if types[first] != OOXML {
      DetectorsAreDisjoint(h, types[first], OOXML);
    }
    if Precedes(types, OOXML, Archive) {
      var i, j :| 0 <= i < j < |types| && types[i] == OOXML && types[j] == Archive;
      if types[first] == Archive {
        if first < j { OnlyOnce(types, first, j); }
      }
    }
  }

  /**
   * Any order of the default detectors that asks OOXML before archive gives the default answer on
   * every header; an order that asks archive first differs exactly on the headers OOXML matches.
   */
  lemma OrderMattersForOnePair(types: seq<FileType>, h: Bytes)
    requires IsPermutation(types)
    ensures Detect(Registered(types), h) == DetectDefault(h) <==>
      Precedes(types, OOXML, Archive) || !Matches(OOXML, h)
  {
    AnswerOfPermutation(types, h);
    AnswerOfPermutation(DEFAULT_DETECTORS, h);
    assert DEFAULT_DETECTORS[5] == OOXML && DEFAULT_DETECTORS[6] == Archive;
    if !Matches(OOXML, h) {
      if exists t :: Matches(t, h) {
        if Detect(Registered(types), h) != DetectDefault(h) {
          DetectorsAreDisjoint(h, Detect(Registered(types), h), DetectDefault(h));
        }
      }
    }
  }

  /** So the pair is the only thing an order has to get right, and it does have to: some header is OOXML. */
  lemma OrdersAgreeExactlyWhenOoxmlIsFirst(types: seq<FileType>)
    requires IsPermutation(types)
    ensures (forall h :: Detect(Registered(types), h) == DetectDefault(h)) <==> Precedes(types, OOXML, Archive)
  {
    forall h
      ensures Detect(Registered(types), h) == DetectDefault(h) <==>
        Precedes(types, OOXML, Archive) || !Matches(OOXML, h)
    {
      OrderMattersForOnePair(types, h);
    }
    var document := ZIP_MAGIC + CONTENT_TYPES;
    assert OccursAt(document, CONTENT_TYPES, 4);
    assert Matches(OOXML, document);
  }
}
