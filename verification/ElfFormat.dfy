/** ELF files written out field by field, and read back by the kernel. */
module ElfFormat {
  import opened Words
  import opened Bytes
  import opened ElfImage

  /** The file header after its magic number: twelve bytes of identification, and fields of the widths that
      `PrintHeader` gives them. */
  datatype FileHeader = FileHeader(
    ident: seq<Byte>, kind: nat, machine: nat, version: nat, entry: nat, phoff: nat, shoff: nat, flags: nat,
    ehsize: nat, phentsize: nat, phnum: nat, shentsize: nat, shnum: nat, shstrndx: nat)

  datatype ProgramHeader = ProgramHeader(
    kind: nat, flags: nat, offset: nat, virtaddr: nat, phyaddr: nat, filesize: nat, memsize: nat, align: nat)

  /** Parts one after the other. */
  function Join(parts: seq<seq<Byte>>): seq<Byte> {
    if parts == [] then [] else parts[0] + Join(parts[1..])
  }

  /** The fields in their order and widths, the magic number first. */
  function HeaderParts(h: FileHeader): (parts: seq<seq<Byte>>)
    ensures |parts| == 15
  {
    [[0x7F, 0x45, 0x4C, 0x46], h.ident, ToBytes(h.kind, 2), ToBytes(h.machine, 2), ToBytes(h.version, 4),
     ToBytes(h.entry, 8), ToBytes(h.phoff, 8), ToBytes(h.shoff, 8), ToBytes(h.flags, 4), ToBytes(h.ehsize, 2),
     ToBytes(h.phentsize, 2), ToBytes(h.phnum, 2), ToBytes(h.shentsize, 2), ToBytes(h.shnum, 2),
     ToBytes(h.shstrndx, 2)]
  }

  function PrintHeader(h: FileHeader): seq<Byte> {
    Join(HeaderParts(h))
  }

  function ProgramHeaderParts(p: ProgramHeader): (parts: seq<seq<Byte>>)
    ensures |parts| == 8
  {
    [ToBytes(p.kind, 4), ToBytes(p.flags, 4), ToBytes(p.offset, 8), ToBytes(p.virtaddr, 8), ToBytes(p.phyaddr, 8),
     ToBytes(p.filesize, 8), ToBytes(p.memsize, 8), ToBytes(p.align, 8)]
  }

  function PrintProgramHeader(p: ProgramHeader): seq<Byte> {
    Join(ProgramHeaderParts(p))
  }

  const HALF: nat := 0x1_0000
  const WORD: nat := 0x1_0000_0000
  const LONG: nat := 0x1_0000_0000_0000_0000

  /** The fields the kernel reads have room in their widths. */
  predicate HeaderFits(h: FileHeader) {
    |h.ident| == 12 && h.entry < LONG && h.phoff < LONG && h.phnum < HALF
  }

  predicate ProgramHeaderFits(p: ProgramHeader) {
    p.kind < WORD && p.offset < LONG && p.virtaddr < LONG && p.filesize < LONG && p.memsize < LONG
  }

  /** b is in the file at this place. */
  predicate LiesAt(file: seq<Byte>, at: nat, b: seq<Byte>) {
    at + |b| <= |file| && file[at..at + |b|] == b
  }

  /** The file begins with this header, and has these program headers where it says, each 56 bytes after the other: as
      many as it says, or all for which the file is long enough. */
  predicate Spells(file: seq<Byte>, h: FileHeader, ps: seq<ProgramHeader>) {
    && HeaderFits(h) && LiesAt(file, 0, PrintHeader(h))
    && |ps| <= h.phnum && (|ps| < h.phnum ==> |file| < h.phoff + 56 * |ps| + 56)
    && forall i: nat {:trigger ps[i]} | i < |ps| ::
         ProgramHeaderFits(ps[i]) && LiesAt(file, h.phoff + 56 * i, PrintProgramHeader(ps[i]))
  }

  /** The segments that the program headers of type 1 describe, in order. */
  function LoadSegments(ps: seq<ProgramHeader>): seq<Segment> {
    if ps == [] then []
    else
      var p := ps[0];
      (if p.kind == 1 then [Segment(p.offset, p.virtaddr, p.filesize, p.memsize)] else []) + LoadSegments(ps[1..])
  }

  // ---------------------------------------------------------------- fields

  lemma SmallFits(v: nat)
    ensures v < HALF <==> Fits(v, 2)
    ensures v < WORD <==> Fits(v, 4)
    ensures v < LONG <==> Fits(v, 8)
  {
    WordFits(v);
    var a := v / 256;
    var b := a / 256;
    var c := b / 256;
    assert Fits(v, 4) == Fits(a, 3) == Fits(b, 2) == Fits(c, 1) == (c / 256 == 0);
    assert Fits(v, 2) == Fits(a, 1) == (a / 256 == 0);
  }

  /** A number written in n bytes is what the kernel reads there. */
  lemma FieldReads(file: seq<Byte>, at: nat, v: nat, n: nat)
    requires LiesAt(file, at, ToBytes(v, n)) && Fits(v, n)
    ensures Field(file, at, n) == v
  {
    NumberOfDigits(v, ToBytes(v, n));
  }

  /** Where part k begins. */
  function Before(parts: seq<seq<Byte>>, k: nat): nat
    requires k <= |parts|
  {
    if k == 0 then 0 else Before(parts, k - 1) + |parts[k - 1]|
  }

  lemma {:induction false} BeforeRest(parts: seq<seq<Byte>>, k: nat)
    requires 0 < k <= |parts|
    ensures Before(parts, k) == |parts[0]| + Before(parts[1..], k - 1)
    decreases k
  {
    if k > 1 { BeforeRest(parts, k - 1); }
  }

  /** Each part of what lies somewhere lies in its place there. */
  lemma {:induction false} PartLies(file: seq<Byte>, at: nat, parts: seq<seq<Byte>>, k: nat)
    requires k < |parts| && LiesAt(file, at, Join(parts))
    ensures LiesAt(file, at + Before(parts, k), parts[k])
    decreases |parts|
  {
    var first, rest := parts[0], Join(parts[1..]);
    SplitLies(file, at, first, rest);
    if k > 0 {
      PartLies(file, at + |first|, parts[1..], k - 1);
      BeforeRest(parts, k);
    }
  }

  lemma SplitLies(file: seq<Byte>, at: nat, a: seq<Byte>, b: seq<Byte>)
    requires LiesAt(file, at, a + b)
    ensures LiesAt(file, at, a) && LiesAt(file, at + |a|, b)
  {
    var c := file[at..at + |a + b|];
    assert c[..|a|] == a && c[|a|..] == b;
    assert c[..|a|] == file[at..at + |a|] && c[|a|..] == file[at + |a|..at + |a| + |b|];
  }

  /** A field of a header, among its parts. */
  lemma PartReads(file: seq<Byte>, at: nat, parts: seq<seq<Byte>>, k: nat, v: nat, n: nat)
    requires k < |parts| && LiesAt(file, at, Join(parts)) && parts[k] == ToBytes(v, n) && Fits(v, n)
    ensures at + Before(parts, k) + n <= |file| && Field(file, at + Before(parts, k), n) == v
  {
    PartLies(file, at, parts, k);
    FieldReads(file, at + Before(parts, k), v, n);
  }

  lemma MagicReads(file: seq<Byte>)
    requires LiesAt(file, 0, [0x7F, 0x45, 0x4C, 0x46])
    ensures Field(file, 0, 4) == ELF_MAGIC
  {
    var s: seq<Byte> := [0x7F, 0x45, 0x4C, 0x46];
    assert file[0..4] == s;
    assert s[1..] == [0x45, 0x4C, 0x46] && s[1..][1..] == [0x4C, 0x46] && s[1..][1..][1..] == [0x46];
    assert s[1..][1..][1..][1..] == [];
    assert Number(s[1..][1..][1..]) == 0x46;
    assert Number(s[1..][1..]) == 0x4C + 256 * 0x46;
  }

  lemma HeaderPlaces(h: FileHeader)
    requires |h.ident| == 12
    ensures var parts := HeaderParts(h);
      && Before(parts, 0) == 0 && Before(parts, 1) == 4 && Before(parts, 2) == 16 && Before(parts, 3) == 18
      && Before(parts, 4) == 20 && Before(parts, 5) == 24 && Before(parts, 6) == 32 && Before(parts, 7) == 40
      && Before(parts, 8) == 48 && Before(parts, 9) == 52 && Before(parts, 10) == 54 && Before(parts, 11) == 56
      && Before(parts, 12) == 58 && Before(parts, 13) == 60 && Before(parts, 14) == 62 && Before(parts, 15) == 64
  {
    var parts := HeaderParts(h);
    assert Before(parts, 1) == 4 && Before(parts, 2) == 16 && Before(parts, 3) == 18 && Before(parts, 4) == 20;
    assert Before(parts, 5) == 24 && Before(parts, 6) == 32 && Before(parts, 7) == 40 && Before(parts, 8) == 48;
    assert Before(parts, 9) == 52 && Before(parts, 10) == 54 && Before(parts, 11) == 56;
    assert Before(parts, 12) == 58 && Before(parts, 13) == 60 && Before(parts, 14) == 62;
  }

  lemma {:induction false} JoinLength(parts: seq<seq<Byte>>)
    ensures |Join(parts)| == Before(parts, |parts|)
    decreases |parts|
  {
    if parts != [] {
      JoinLength(parts[1..]);
      BeforeRest(parts, |parts|);
    }
  }

  lemma HeaderLengths(h: FileHeader, p: ProgramHeader)
    requires HeaderFits(h)
    ensures |PrintHeader(h)| == 64 && |PrintProgramHeader(p)| == 56
  {
    HeaderPlaces(h);
    JoinLength(HeaderParts(h));
    ProgramHeaderPlaces(p);
    JoinLength(ProgramHeaderParts(p));
  }

  lemma HeaderFields(file: seq<Byte>, h: FileHeader)
    requires HeaderFits(h) && LiesAt(file, 0, PrintHeader(h))
    ensures HasHeader(file) && EntryPoint(file) == h.entry && HeaderCount(file) == h.phnum
    ensures Field(file, 32, 8) == h.phoff
  {
    var parts := HeaderParts(h);
    HeaderPlaces(h);
    HeaderLengths(h, ProgramHeader(0, 0, 0, 0, 0, 0, 0, 0));
    PartLies(file, 0, parts, 0);
    MagicReads(file);
    SmallFits(h.entry);
    SmallFits(h.phoff);
    SmallFits(h.phnum);
    PartReads(file, 0, parts, 5, h.entry, 8);
    PartReads(file, 0, parts, 6, h.phoff, 8);
    PartReads(file, 0, parts, 11, h.phnum, 2);
  }

  lemma ProgramHeaderPlaces(p: ProgramHeader)
    ensures var parts := ProgramHeaderParts(p);
      && Before(parts, 0) == 0 && Before(parts, 1) == 4 && Before(parts, 2) == 8 && Before(parts, 3) == 16
      && Before(parts, 4) == 24 && Before(parts, 5) == 32 && Before(parts, 6) == 40 && Before(parts, 7) == 48
      && Before(parts, 8) == 56
  {
    var parts := ProgramHeaderParts(p);
    assert Before(parts, 1) == 4 && Before(parts, 2) == 8 && Before(parts, 3) == 16 && Before(parts, 4) == 24;
    assert Before(parts, 5) == 32 && Before(parts, 6) == 40 && Before(parts, 7) == 48;
  }

  lemma ProgramHeaderFields(file: seq<Byte>, at: nat, p: ProgramHeader)
    requires ProgramHeaderFits(p) && LiesAt(file, at, PrintProgramHeader(p))
    ensures at + 56 <= |file| && Field(file, at, 4) == p.kind
    ensures Field(file, at + 8, 8) == p.offset && Field(file, at + 16, 8) == p.virtaddr
    ensures Field(file, at + 32, 8) == p.filesize && Field(file, at + 40, 8) == p.memsize
  {
    var parts := ProgramHeaderParts(p);
    ProgramHeaderPlaces(p);
    JoinLength(parts);
    SmallFits(p.kind);
    SmallFits(p.offset);
    SmallFits(p.virtaddr);
    SmallFits(p.filesize);
    SmallFits(p.memsize);
    PartReads(file, at, parts, 0, p.kind, 4);
    PartReads(file, at, parts, 2, p.offset, 8);
    PartReads(file, at, parts, 3, p.virtaddr, 8);
    PartReads(file, at, parts, 5, p.filesize, 8);
    PartReads(file, at, parts, 6, p.memsize, 8);
  }

  // ---------------------------------------------------------------- the round trip

  /** The kernel reads from a file the header and the program headers it spells. */
  lemma HeadersReadBack(file: seq<Byte>, h: FileHeader, ps: seq<ProgramHeader>)
    requires Spells(file, h, ps)
    ensures HasHeader(file) && EntryPoint(file) == h.entry && HeaderCount(file) == h.phnum
    ensures forall i: nat {:trigger ps[i]} | i < |ps| ::
      && HeaderAt(file, i) == h.phoff + 56 * i && HeaderAt(file, i) + PROGRAM_HEADER_SIZE <= |file|
      && (IsLoad(file, i) <==> ps[i].kind == 1)
      && SegmentAt(file, i) == Segment(ps[i].offset, ps[i].virtaddr, ps[i].filesize, ps[i].memsize)
  {
    HeaderFields(file, h);
    forall i: nat | i < |ps|
      ensures HeaderAt(file, i) == h.phoff + 56 * i && HeaderAt(file, i) + PROGRAM_HEADER_SIZE <= |file|
      ensures IsLoad(file, i) <==> ps[i].kind == 1
      ensures SegmentAt(file, i) == Segment(ps[i].offset, ps[i].virtaddr, ps[i].filesize, ps[i].memsize)
    {
      ProgramHeaderFields(file, h.phoff + 56 * i, ps[i]);
    }
  }

  /** It loads exactly the segments of type 1, in their order. */
  lemma SegmentsReadBack(file: seq<Byte>, h: FileHeader, ps: seq<ProgramHeader>)
    requires Spells(file, h, ps)
    ensures HasHeader(file) && Segments(file, 0) == LoadSegments(ps)
  {
    SegmentsFrom(file, h, ps, 0);
    assert ps[0..] == ps;
  }

  lemma {:induction false} SegmentsFrom(file: seq<Byte>, h: FileHeader, ps: seq<ProgramHeader>, i: nat)
    requires Spells(file, h, ps) && i <= |ps|
    ensures HasHeader(file) && Segments(file, i) == LoadSegments(ps[i..])
    decreases |ps| - i
  {
    HeadersReadBack(file, h, ps);
    if i < |ps| {
      var p := ps[i];
      SegmentsFrom(file, h, ps, i + 1);
      assert ps[i..][0] == p && ps[i..][1..] == ps[i + 1..];
    } else {
      HeaderFields(file, h);
    }
  }

  // ---------------------------------------------------------------- a printer

  function ProgramHeaders(ps: seq<ProgramHeader>): (parts: seq<seq<Byte>>)
    ensures |parts| == |ps| && forall i: nat | i < |ps| :: parts[i] == PrintProgramHeader(ps[i])
  {
    seq(|ps|, i requires 0 <= i < |ps| => PrintProgramHeader(ps[i]))
  }

  /** A file with its program headers some way after the header, and whatever comes after them. */
  function PrintFile(h: FileHeader, gap: seq<Byte>, ps: seq<ProgramHeader>, body: seq<Byte>): seq<Byte> {
    PrintHeader(h) + (gap + (Join(ProgramHeaders(ps)) + body))
  }

  lemma {:induction false} HeadersPlaced(ps: seq<ProgramHeader>, i: nat)
    requires i <= |ps|
    ensures Before(ProgramHeaders(ps), i) == 56 * i
  {
    if i > 0 {
      HeadersPlaced(ps, i - 1);
      ProgramHeaderPlaces(ps[i - 1]);
      JoinLength(ProgramHeaderParts(ps[i - 1]));
    }
  }

  /** A printed file spells what was printed, so the kernel reads it back. */
  lemma PrintedSpells(h: FileHeader, gap: seq<Byte>, ps: seq<ProgramHeader>, body: seq<Byte>)
    requires HeaderFits(h) && h.phnum == |ps| && h.phoff == 64 + |gap|
    requires forall i: nat {:trigger ps[i]} | i < |ps| :: ProgramHeaderFits(ps[i])
    ensures Spells(PrintFile(h, gap, ps, body), h, ps)
  {
    var file, head, heads := PrintFile(h, gap, ps, body), PrintHeader(h), Join(ProgramHeaders(ps));
    HeaderLengths(h, ProgramHeader(0, 0, 0, 0, 0, 0, 0, 0));
    SplitLies(file, 0, head, gap + (heads + body));
    SplitLies(file, 64, gap, heads + body);
    SplitLies(file, 64 + |gap|, heads, body);
    forall i: nat | i < |ps| ensures LiesAt(file, h.phoff + 56 * i, PrintProgramHeader(ps[i])) {
      PartLies(file, h.phoff, ProgramHeaders(ps), i);
      HeadersPlaced(ps, i);
    }
  }

  // ---------------------------------------------------------------- every file is printed so

  lemma FirstDigit(b: Byte, w: nat)
    ensures (b + 256 * w) % 256 == b && (b + 256 * w) / 256 == w
  {
  }

  lemma {:induction false} DigitsBack(s: seq<Byte>)
    ensures ToBytes(Number(s), |s|) == s && Fits(Number(s), |s|)
    decreases |s|
  {
    if s != [] {
      var v := Number(s);
      DigitsBack(s[1..]);
      FirstDigit(s[0], Number(s[1..]));
      forall k | 0 <= k < |s| ensures ToBytes(v, |s|)[k] == s[k] {
        if k > 0 { assert s[1..][k - 1] == ToBytes(v / 256, |s| - 1)[k - 1]; }
      }
    }
  }

  /** The field, written again, is what is in the file. */
  lemma FieldPrints(file: seq<Byte>, at: nat, n: nat)
    requires at + n <= |file|
    ensures ToBytes(Field(file, at, n), n) == file[at..at + n] && Fits(Field(file, at, n), n)
  {
    DigitsBack(file[at..at + n]);
  }

  /** The parts lie in the file in their places. */
  predicate InPlace(file: seq<Byte>, at: nat, parts: seq<seq<Byte>>) {
    forall k: nat {:trigger parts[k]} | k < |parts| :: LiesAt(file, at + Before(parts, k), parts[k])
  }

  lemma RestInPlace(file: seq<Byte>, at: nat, parts: seq<seq<Byte>>)
    requires parts != [] && InPlace(file, at, parts)
    ensures LiesAt(file, at, parts[0]) && InPlace(file, at + |parts[0]|, parts[1..])
  {
    assert LiesAt(file, at + Before(parts, 0), parts[0]);
    forall k: nat | k < |parts| - 1
      ensures LiesAt(file, at + |parts[0]| + Before(parts[1..], k), parts[1..][k])
    {
      RestPart(file, at, parts, k);
    }
  }

  lemma RestPart(file: seq<Byte>, at: nat, parts: seq<seq<Byte>>, k: nat)
    requires k + 1 < |parts| && LiesAt(file, at + Before(parts, k + 1), parts[k + 1])
    ensures LiesAt(file, at + |parts[0]| + Before(parts[1..], k), parts[1..][k])
  {
    BeforeRest(parts, k + 1);
  }

  lemma TwoLie(file: seq<Byte>, at: nat, a: seq<Byte>, b: seq<Byte>)
    requires LiesAt(file, at, a) && LiesAt(file, at + |a|, b)
    ensures LiesAt(file, at, a + b)
  {
    var mid, end := at + |a|, at + |a| + |b|;
    assert file[at..end] == file[at..mid] + file[mid..end];
  }

  /** Then they lie there one after the other. */
  lemma {:induction false} PartsJoined(file: seq<Byte>, at: nat, parts: seq<seq<Byte>>)
    requires at <= |file| && InPlace(file, at, parts)
    ensures LiesAt(file, at, Join(parts))
    decreases |parts|
  {
    if parts != [] {
      RestInPlace(file, at, parts);
      PartsJoined(file, at + |parts[0]|, parts[1..]);
      TwoLie(file, at, parts[0], Join(parts[1..]));
    }
  }

  lemma EveryField(file: seq<Byte>, at: nat, n: nat)
    requires at + n <= |file| && (n == 2 || n == 4 || n == 8)
    ensures LiesAt(file, at, ToBytes(Field(file, at, n), n))
    ensures Field(file, at, n) < if n == 2 then HALF else if n == 4 then WORD else LONG
  {
    FieldPrints(file, at, n);
    SmallFits(Field(file, at, n));
  }

  lemma MagicOnly(file: seq<Byte>)
    requires 4 <= |file| && Field(file, 0, 4) == ELF_MAGIC
    ensures LiesAt(file, 0, [0x7F, 0x45, 0x4C, 0x46])
  {
    FieldPrints(file, 0, 4);
    var s := file[0..4];
    assert s[0] == Digit(ELF_MAGIC, 0) && s[1] == Digit(ELF_MAGIC, 1) && s[2] == Digit(ELF_MAGIC, 2)
      && s[3] == Digit(ELF_MAGIC, 3);
    assert Digit(0x464C457F, 1) == Digit(0x464C45, 0) && Digit(0x464C457F, 2) == Digit(0x464C45, 1) == Digit(0x464C, 0);
    assert Digit(0x464C457F, 3) == Digit(0x464C45, 2) == Digit(0x464C, 1) == Digit(0x46, 0);
  }

  /** The header of a file, field by field. */
  lemma EveryHeader(file: seq<Byte>) returns (h: FileHeader)
    requires HasHeader(file)
    ensures HeaderFits(h) && LiesAt(file, 0, PrintHeader(h))
  {
    h := FileHeader(file[4..16], Field(file, 16, 2), Field(file, 18, 2), Field(file, 20, 4), Field(file, 24, 8),
                    Field(file, 32, 8), Field(file, 40, 8), Field(file, 48, 4), Field(file, 52, 2),
                    Field(file, 54, 2), Field(file, 56, 2), Field(file, 58, 2), Field(file, 60, 2),
                    Field(file, 62, 2));
    MagicOnly(file);
    EveryField(file, 24, 8);
    EveryField(file, 32, 8);
    EveryField(file, 56, 2);
    HeaderLies(file, h);
  }

  /** h is what is in the file. */
  predicate IsHeader(file: seq<Byte>, h: FileHeader)
    requires 64 <= |file|
  {
    h == FileHeader(file[4..16], Field(file, 16, 2), Field(file, 18, 2), Field(file, 20, 4), Field(file, 24, 8),
                    Field(file, 32, 8), Field(file, 40, 8), Field(file, 48, 4), Field(file, 52, 2),
                    Field(file, 54, 2), Field(file, 56, 2), Field(file, 58, 2), Field(file, 60, 2),
                    Field(file, 62, 2))
  }

  lemma EarlyPart(file: seq<Byte>, h: FileHeader, k: nat)
    requires 64 <= |file| && IsHeader(file, h) && LiesAt(file, 0, [0x7F, 0x45, 0x4C, 0x46]) && k < 8
    ensures LiesAt(file, [0, 4, 16, 18, 20, 24, 32, 40][k], HeaderParts(h)[k])
  {
    if k >= 2 { FieldPrints(file, [0, 4, 16, 18, 20, 24, 32, 40][k], [4, 12, 2, 2, 4, 8, 8, 8][k]); }
  }

  lemma LatePart(file: seq<Byte>, h: FileHeader, k: nat)
    requires 64 <= |file| && IsHeader(file, h) && 8 <= k < 15
    ensures LiesAt(file, [48, 52, 54, 56, 58, 60, 62][k - 8], HeaderParts(h)[k])
  {
    FieldPrints(file, [48, 52, 54, 56, 58, 60, 62][k - 8], [4, 2, 2, 2, 2, 2, 2][k - 8]);
  }

  lemma HeaderLies(file: seq<Byte>, h: FileHeader)
    requires 64 <= |file| && IsHeader(file, h) && LiesAt(file, 0, [0x7F, 0x45, 0x4C, 0x46])
    ensures LiesAt(file, 0, PrintHeader(h))
  {
    var parts := HeaderParts(h);
    forall k: nat | k < |parts| ensures LiesAt(file, 0 + Before(parts, k), parts[k]) {
      HeaderPlaces(h);
      if k < 8 { EarlyPart(file, h, k); } else { LatePart(file, h, k); }
    }
    PartsJoined(file, 0, parts);
  }

  predicate IsProgramHeader(file: seq<Byte>, at: nat, p: ProgramHeader)
    requires at + 56 <= |file|
  {
    p == ProgramHeader(Field(file, at, 4), Field(file, at + 4, 4), Field(file, at + 8, 8), Field(file, at + 16, 8),
                       Field(file, at + 24, 8), Field(file, at + 32, 8), Field(file, at + 40, 8),
                       Field(file, at + 48, 8))
  }

  lemma ProgramPart(file: seq<Byte>, at: nat, p: ProgramHeader, k: nat)
    requires at + 56 <= |file| && IsProgramHeader(file, at, p) && k < 8
    ensures LiesAt(file, at + [0, 4, 8, 16, 24, 32, 40, 48][k], ProgramHeaderParts(p)[k])
  {
    FieldPrints(file, at + [0, 4, 8, 16, 24, 32, 40, 48][k], [4, 4, 8, 8, 8, 8, 8, 8][k]);
  }

  lemma EveryProgramHeader(file: seq<Byte>, at: nat) returns (p: ProgramHeader)
    requires at + 56 <= |file|
    ensures ProgramHeaderFits(p) && LiesAt(file, at, PrintProgramHeader(p))
  {
    p := ProgramHeader(Field(file, at, 4), Field(file, at + 4, 4), Field(file, at + 8, 8), Field(file, at + 16, 8),
                       Field(file, at + 24, 8), Field(file, at + 32, 8), Field(file, at + 40, 8),
                       Field(file, at + 48, 8));
    EveryField(file, at, 4);
    EveryField(file, at + 8, 8);
    EveryField(file, at + 16, 8);
    EveryField(file, at + 32, 8);
    EveryField(file, at + 40, 8);
    ProgramHeaderLies(file, at, p);
  }

  lemma ProgramHeaderLies(file: seq<Byte>, at: nat, p: ProgramHeader)
    requires at + 56 <= |file| && IsProgramHeader(file, at, p)
    ensures LiesAt(file, at, PrintProgramHeader(p))
  {
    var parts := ProgramHeaderParts(p);
    forall k: nat | k < |parts| ensures LiesAt(file, at + Before(parts, k), parts[k]) {
      ProgramHeaderPlaces(p);
      ProgramPart(file, at, p, k);
    }
    PartsJoined(file, at, parts);
  }

  /** Every file the kernel takes spells a header and program headers, so the round trip covers all of them: it takes a
      file exactly when one begins it. */
  lemma EveryFileSpells(file: seq<Byte>) returns (h: FileHeader, ps: seq<ProgramHeader>)
    requires HasHeader(file)
    ensures Spells(file, h, ps)
  {
    h := EveryHeader(file);
    ps := [];
    while |ps| < h.phnum && h.phoff + 56 * |ps| + 56 <= |file|
      invariant |ps| <= h.phnum
      invariant forall i: nat {:trigger ps[i]} | i < |ps| ::
        ProgramHeaderFits(ps[i]) && LiesAt(file, h.phoff + 56 * i, PrintProgramHeader(ps[i]))
    {
      var p := EveryProgramHeader(file, h.phoff + 56 * |ps|);
      ps := ps + [p];
    }
  }
}
