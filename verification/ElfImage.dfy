/** ELF files as the kernel reads them, and the memory image they describe. */
module ElfImage {
  import opened Words
  import opened Addresses
  import opened Bytes
  import opened PageTree
  import opened FreeFrames
  import opened TreeLoops
  import opened TreePaths
  import opened UserMemory

  const ELF_MAGIC: nat := 0x464C457F
  const HEADER_SIZE: nat := 64
  const PROGRAM_HEADER_SIZE: nat := 56
  const PT_LOAD: nat := 1

  /** The little-endian number of n bytes at an offset of the file. */
  function Field(file: seq<Byte>, at: nat, n: nat): nat
    requires at + n <= |file|
  {
    Number(file[at..at + n])
  }

  datatype Segment = Segment(offset: nat, va: nat, filesize: nat, memsize: nat) {
    function FileEnd(): nat { va + filesize }
    function End(): nat { va + memsize }
  }

  /** `Elf64Hdr::mkfrombytes`: is there a header? */
  predicate HasHeader(file: seq<Byte>) {
    |file| >= HEADER_SIZE && Field(file, 0, 4) == ELF_MAGIC
  }

  function EntryPoint(file: seq<Byte>): nat
    requires HasHeader(file)
  {
    Field(file, 24, 8)
  }

  /** Where program header i is. */
  function HeaderAt(file: seq<Byte>, i: nat): nat
    requires HasHeader(file)
  {
    Field(file, 32, 8) + i * PROGRAM_HEADER_SIZE
  }

  function HeaderCount(file: seq<Byte>): nat
    requires HasHeader(file)
  {
    Field(file, 56, 2)
  }

  /** Does program header i describe a segment to load? */
  predicate IsLoad(file: seq<Byte>, i: nat)
    requires HasHeader(file) && HeaderAt(file, i) + PROGRAM_HEADER_SIZE <= |file|
  {
    Field(file, HeaderAt(file, i), 4) == PT_LOAD
  }

  function SegmentAt(file: seq<Byte>, i: nat): Segment
    requires HasHeader(file) && HeaderAt(file, i) + PROGRAM_HEADER_SIZE <= |file|
  {
    var at := HeaderAt(file, i);
    Segment(Field(file, at + 8, 8), Field(file, at + 16, 8), Field(file, at + 32, 8), Field(file, at + 40, 8))
  }

  /** The segments to load among the headers from i on; the first header beyond the file ends them. */
  function Segments(file: seq<Byte>, i: nat): seq<Segment>
    requires HasHeader(file)
    decreases HeaderCount(file) - i
  {
    if i >= HeaderCount(file) || HeaderAt(file, i) + PROGRAM_HEADER_SIZE > |file| then []
    else (if IsLoad(file, i) then [SegmentAt(file, i)] else []) + Segments(file, i + 1)
  }

  // ---------------------------------------------------------------- pages

  /** The first and the last page number but one of a segment's pages. */
  function FirstPage(s: Segment): nat { s.va / PAGE_SIZE }

  function PageEnd(s: Segment): nat { (s.End() + PAGE_SIZE - 1) / PAGE_SIZE }

  /** Is the page of address a one of the segment's? */
  predicate Covers(s: Segment, a: nat) {
    FirstPage(s) <= a / PAGE_SIZE < PageEnd(s)
  }

  predicate Covered(segs: seq<Segment>, a: nat) {
    exists j :: 0 <= j < |segs| && Covers(segs[j], a)
  }

  ghost predicate NoSharedPage(segs: seq<Segment>) {
    forall i, j, a: nat | 0 <= i < j < |segs| && Covers(segs[i], a) :: !Covers(segs[j], a)
  }

  /** The end of the highest segment. */
  function Highest(segs: seq<Segment>): nat {
    if segs == [] then 0
    else
      var h, e := Highest(segs[..|segs| - 1]), segs[|segs| - 1].End();
      if e > h then e else h
  }

  lemma {:induction false} HighestBounds(segs: seq<Segment>, j: nat)
    requires j < |segs|
    ensures segs[j].End() <= Highest(segs)
    decreases |segs|
  {
    if j < |segs| - 1 { HighestBounds(segs[..|segs| - 1], j); }
  }

  lemma CoversBelow(s: Segment, a: nat)
    requires Covers(s, a)
    ensures a / PAGE_SIZE * PAGE_SIZE < s.End() || s.End() == 0
    ensures s.End() > 0 ==> a / PAGE_SIZE <= (s.End() - 1) / PAGE_SIZE
  {
  }

  const STACK_PAGES: nat := 14

  /** Just above the image, 16-byte aligned. */
  function StackTop(highest: nat): (top: nat)
    ensures top % 16 == 0 && highest + 0x16000 - 16 < top <= highest + 0x16000
  {
    (highest + 0x16000) / 16 * 16
  }

  /** Is a in one of the stack's pages? */
  predicate InStack(top: nat, a: nat)
    requires top > 0
  {
    (top - 1) / PAGE_SIZE < a / PAGE_SIZE + STACK_PAGES && a / PAGE_SIZE <= (top - 1) / PAGE_SIZE
  }

  /** The image ends more than a page below the stack's lowest page. */
  lemma GuardPage(segs: seq<Segment>, a: nat)
    requires Covered(segs, a)
    ensures var top := StackTop(Highest(segs));
      a / PAGE_SIZE + STACK_PAGES + 1 < (top - 1) / PAGE_SIZE && !InStack(top, a)
  {
    var j :| 0 <= j < |segs| && Covers(segs[j], a);
    HighestBounds(segs, j);
    CoversBelow(segs[j], a);
  }

  /** The page below a stack top is in the stack. */
  lemma ArgumentPage(top: nat, a: nat)
    requires 0x16000 - 16 < top && top - 4096 <= a < top
    ensures InStack(top, a)
  {
  }

  // ---------------------------------------------------------------- what is zeroed

  /** How much of [va, end) is in the page of va. */
  function FirstChunk(va: nat, end: nat): (n: nat)
    requires va < end
    ensures 0 < n <= end - va && va % PAGE_SIZE + n <= PAGE_SIZE
  {
    ChunkSize(va, end - va)
  }

  /** The addresses the zeroing loop zeroes: in the first page it adds the offset in the page twice. */
  predicate Zeroes(va: nat, end: nat, a: nat)
    requires va < end
  {
    var o, n := va % PAGE_SIZE, FirstChunk(va, end);
    va + o <= a < va + o + n || va + n <= a < end
  }

  /** Does the first, shifted, chunk leave its page? */
  predicate LeavesPage(va: nat, end: nat)
    requires va < end
  {
    2 * (va % PAGE_SIZE) + FirstChunk(va, end) > PAGE_SIZE
  }

  /** The loop zeroes what it is meant to zero exactly when the file's part ends on a page boundary. */
  lemma ZeroesRightly(va: nat, end: nat)
    requires va < end
    ensures (forall a: nat :: Zeroes(va, end, a) <==> va <= a < end) <==> va % PAGE_SIZE == 0
    ensures va % PAGE_SIZE == 0 ==> !LeavesPage(va, end)
  {
    var o, n := va % PAGE_SIZE, FirstChunk(va, end);
    if o > 0 {
      assert !Zeroes(va, end, va);
    }
  }

  // ---------------------------------------------------------------- the image in memory

  /** The byte of the file that belongs at an address. */
  function FileByte(file: seq<Byte>, s: Segment, a: nat): Option<Byte> {
    if s.va <= a && s.offset + (a - s.va) < |file| then Some(file[s.offset + (a - s.va)]) else None
  }

  /** Byte o of a frame popped while `rest` was left on the list, and not written since: the link it carried. */
  ghost function StaleByte(rest: seq<FrameNo>, o: nat): Byte
    requires o < PAGE_SIZE
  {
    ByteAt(FreeImage(Link(rest)), o)
  }

  /** The byte at address a of a loaded segment, on a page whose frame was popped while `rest` was left: the file's, a
      zero where the loop zeroes, or what the frame held. */
  ghost function Expected(file: seq<Byte>, s: Segment, rest: seq<FrameNo>, a: nat): Option<Byte> {
    if s.va <= a < s.FileEnd() then FileByte(file, s, a)
    else if s.FileEnd() < s.End() && Zeroes(s.FileEnd(), s.End(), a) then Some(0)
    else Some(StaleByte(rest, a % PAGE_SIZE))
  }

  /** Every byte of page n is the expected one. */
  ghost predicate PageReads(m: Memory, root: nat, file: seq<Byte>, s: Segment, n: nat, rest: seq<FrameNo>) {
    forall a: nat {:trigger UserByte(m, root, a)} | a < USER_TOP && a / PAGE_SIZE == n ::
      UserByte(m, root, a).Some? && UserByte(m, root, a) == Expected(file, s, rest, a)
  }

  /** spare: were frames left on the list when the page was taken? */
  ghost predicate PageLoaded(m: Memory, root: nat, file: seq<Byte>, s: Segment, n: nat, spare: bool) {
    exists rest: seq<FrameNo> :: PageReads(m, root, file, s, n, rest) && (spare ==> rest != [])
  }

  /** Every byte of every page of the segment is the expected one. */
  ghost predicate SegmentLoaded(m: Memory, root: nat, file: seq<Byte>, s: Segment, spare: bool) {
    forall n: nat {:trigger PageLoaded(m, root, file, s, n, spare)} | FirstPage(s) <= n < PageEnd(s) ::
      PageLoaded(m, root, file, s, n, spare)
  }

  /** Exactly the pages of the segments are mapped, and each segment is in place. */
  ghost predicate Image(m: Memory, root: nat, file: seq<Byte>, segs: seq<Segment>, spare: bool) {
    && (forall a: nat {:trigger UserByte(m, root, a)} | a < USER_TOP ::
          UserByte(m, root, a).Some? <==> Covered(segs, a))
    && (forall j {:trigger segs[j]} | 0 <= j < |segs| :: SegmentLoaded(m, root, file, segs[j], spare))
  }

  /** The image and the stack. */
  ghost predicate Program(m: Memory, root: nat, file: seq<Byte>, segs: seq<Segment>, top: nat)
    requires top > 0
  {
    && (forall a: nat {:trigger UserByte(m, root, a)} | a < USER_TOP ::
          UserByte(m, root, a).Some? <==> Covered(segs, a) || InStack(top, a))
    && (forall j {:trigger segs[j]} | 0 <= j < |segs| :: SegmentLoaded(m, root, file, segs[j], true))
  }

  // ---------------------------------------------------------------- what a program reads past the file's part

  /** The bytes of a stale frame: a tag, then a kernel address where frames were left, then zeros. */
  lemma StaleBytes(rest: seq<FrameNo>, o: nat)
    requires o < PAGE_SIZE
    ensures o >= 16 || 1 <= o <= 8 ==> StaleByte(rest, o) == 0
    ensures o == 0 && rest != [] ==> StaleByte(rest, o) == 1
    ensures 12 <= o < 16 && rest != [] ==> StaleByte(rest, o) != 0
    ensures 8 <= o < 16 && rest != [] ==> StaleByte(rest, o) == Digit(ToVa(PAGE_SIZE * rest[0]), o - 8)
  {
    if rest == [] || o >= 16 {
      StaleRest(rest, o);
    } else if o < 8 {
      StaleTag(rest, o);
    } else {
      StaleLink(rest, o);
    }
  }

  lemma StaleRest(rest: seq<FrameNo>, o: nat)
    requires o < PAGE_SIZE && (rest == [] || o >= 16)
    ensures StaleByte(rest, o) == 0
  {
    StaleWord(rest, o / 8);
    SmallStale(rest, o, FreeImage(Link(rest))[o / 8]);
  }

  lemma StaleTag(rest: seq<FrameNo>, o: nat)
    requires o < 8 && rest != []
    ensures StaleByte(rest, o) == if o == 0 then 1 else 0
  {
    StaleWord(rest, 0);
    SmallStale(rest, o, FreeImage(Link(rest))[0]);
  }

  lemma StaleLink(rest: seq<FrameNo>, o: nat)
    requires 8 <= o < 16 && rest != []
    ensures StaleByte(rest, o) == Digit(ToVa(PAGE_SIZE * rest[0]), o - 8)
    ensures o == 8 ==> StaleByte(rest, o) == 0
    ensures o >= 12 ==> StaleByte(rest, o) != 0
  {
    StaleWord(rest, 1);
    StaleDigit(rest, o, FrameVa(rest[0]));
    VaDigits(rest[0], o - 8);
  }

  lemma StaleDigit(rest: seq<FrameNo>, o: nat, w: Word)
    requires o < PAGE_SIZE && FreeImage(Link(rest))[o / 8] == w
    ensures StaleByte(rest, o) == Digit(Val(w), o % 8)
  {
  }

  lemma SmallStale(rest: seq<FrameNo>, o: nat, w: Word)
    requires o < PAGE_SIZE && FreeImage(Link(rest))[o / 8] == w && w.high == 0 && w.addr == 0 && w.low == 0
    ensures StaleByte(rest, o) == if o % 8 == 0 then w.kind else 0
  {
    StaleDigit(rest, o, w);
    SmallDigits(w, o % 8);
  }

  /** The bytes of a word that holds no more than its two lowest bits. */
  lemma SmallDigits(w: Word, k: nat)
    requires w.high == 0 && w.addr == 0 && w.low == 0
    ensures Digit(Val(w), k) == if k == 0 then w.kind else 0
  {
    if k > 0 { ZeroDigit(k - 1); }
  }

  lemma StaleWord(rest: seq<FrameNo>, i: nat)
    requires i < PAGE_ENTRIES
    ensures FreeImage(Link(rest))[i] ==
      if rest == [] || i >= 2 then ZERO else if i == 0 then SOME_TAG else FrameVa(rest[0])
  {
    if rest != [] {
      var head, tail := [SOME_TAG, FrameVa(rest[0])], Zeros(PAGE_ENTRIES - 2);
      assert i >= 2 ==> (head + tail)[i] == tail[i - 2];
    }
  }

  lemma {:induction false} ZeroDigit(k: nat)
    ensures Digit(0, k) == 0
  {
    if k > 0 { ZeroDigit(k - 1); }
  }

  /** The lowest byte of a frame's kernel address is zero, and its upper four are not. */
  lemma VaDigits(f: FrameNo, k: nat)
    requires k < 8
    ensures k == 0 ==> Digit(Val(FrameVa(f)), k) == 0
    ensures k >= 4 ==> Digit(Val(FrameVa(f)), k) != 0
  {
    var v := Val(FrameVa(f));
    var h, l := f * 0x1000 / 0x1_0000_0000, f * 0x1000 % 0x1_0000_0000;
    assert v == (0xffff_ff80 + h) * 0x1_0000_0000 + l && h < 0x80;
    if k >= 4 {
      var d := 0xffff_ff80 + h;
      HighDigits(v, d, l, k);
      assert d / 256 == 0xff_ffff && d % 256 == 0x80 + h;
      if k == 4 {
      } else if k == 5 {
        assert Digit(d, 1) == 0xff;
      } else {
        assert Digit(d, k - 4) == Digit(0xff_ffff, k - 5);
        assert Digit(0xff_ffff, k - 5) == Digit(0xffff, k - 6) == 0xff;
      }
    }
  }

  /** The digits above the lowest four. */
  lemma HighDigits(v: nat, d: nat, l: nat, k: nat)
    requires v == d * 0x1_0000_0000 + l && l < 0x1_0000_0000 && k >= 4
    ensures Digit(v, k) == Digit(d, k - 4)
  {
    var a := v / 256;
    var b := a / 256;
    var c := b / 256;
    assert c / 256 == d;
    assert Digit(v, k) == Digit(a, k - 1) == Digit(b, k - 2) == Digit(c, k - 3) == Digit(d, k - 4);
  }

  /** Is k the offset, in the page where the file's part ends, of a byte meant to be zero that the loop leaves alone? */
  predicate LeftAlone(s: Segment, k: nat)
    requires s.FileEnd() < s.End()
  {
    var o := s.FileEnd() % PAGE_SIZE;
    o <= k < o + FirstChunk(s.FileEnd(), s.End()) && k < 2 * o
  }

  /** A byte meant to be zero reads zero, unless the loop leaves it alone: then it reads what the frame held. */
  lemma RestReads(m: Memory, root: nat, file: seq<Byte>, s: Segment, n: nat, rest: seq<FrameNo>, a: nat)
    requires Safe(s) && s.FileEnd() <= a < s.End() && a / PAGE_SIZE == n && PageReads(m, root, file, s, n, rest)
    ensures UserByte(m, root, a) ==
      Some(if n == s.FileEnd() / PAGE_SIZE && LeftAlone(s, a % PAGE_SIZE) then StaleByte(rest, a % PAGE_SIZE) else 0)
  {
    var va, end := s.FileEnd(), s.End();
    CoversWhole(s, a);
    CoversInside(s, a);
    if n == va / PAGE_SIZE {
      InPage(a, va);
      assert Zeroes(va, end, a) <==> !LeftAlone(s, a % PAGE_SIZE) by { ZeroesInPage(va, end, a); }
    } else {
      ChunkEnds(va, end);
      assert a >= va + FirstChunk(va, end) by { BeyondChunk(va, end, a); }
    }
  }

  /** In the page of va the loop zeroes, of [va, end), what lies at twice the offset or above. */
  lemma ZeroesInPage(va: nat, end: nat, a: nat)
    requires va <= a < end && a / PAGE_SIZE == va / PAGE_SIZE && !LeavesPage(va, end)
    ensures Zeroes(va, end, a) <==>
      !(a % PAGE_SIZE < va % PAGE_SIZE + FirstChunk(va, end) && a % PAGE_SIZE < 2 * (va % PAGE_SIZE))
  {
    InPage(a, va);
  }

  lemma BeyondChunk(va: nat, end: nat, a: nat)
    requires va <= a < end && a / PAGE_SIZE != va / PAGE_SIZE
    ensures a >= va + FirstChunk(va, end)
  {
    if a < va + FirstChunk(va, end) { InChunk(a, va, FirstChunk(va, end)); }
  }

  /** Everything past the file's part reads zero. */
  ghost predicate RestIsZero(m: Memory, root: nat, s: Segment) {
    forall a: nat {:trigger UserByte(m, root, a)} | s.FileEnd() <= a < s.End() :: UserByte(m, root, a) == Some(0)
  }

  /** The bytes left alone that held the kernel address of frame f are all zero. */
  ghost predicate LinkReadsZero(s: Segment, f: FrameNo)
    requires s.FileEnd() < s.End()
  {
    forall k: nat {:trigger LeftAlone(s, k)} | 8 <= k < 16 && LeftAlone(s, k) :: Digit(ToVa(PAGE_SIZE * f), k - 8) == 0
  }

  /** A segment's memory past the file's part reads zero exactly when the loop leaves alone no nonzero byte of the
      kernel address that the frame held: that of the frame next on the list when this one was popped. */
  lemma BssIsZero(m: Memory, root: nat, file: seq<Byte>, s: Segment, rest: seq<FrameNo>)
    requires Safe(s) && s.FileEnd() < s.End() && SegmentLoaded(m, root, file, s, true)
    requires PageReads(m, root, file, s, s.FileEnd() / PAGE_SIZE, rest) && rest != []
    ensures RestIsZero(m, root, s) <==> LinkReadsZero(s, rest[0])
  {
    var va := s.FileEnd();
    if RestIsZero(m, root, s) {
      forall k: nat | 8 <= k < 16 && LeftAlone(s, k) ensures Digit(ToVa(PAGE_SIZE * rest[0]), k - 8) == 0 {
        var a := va - va % PAGE_SIZE + k;
        AtOffset(s, k, a);
        RestReads(m, root, file, s, va / PAGE_SIZE, rest, a);
        StaleBytes(rest, k);
      }
    }
    if LinkReadsZero(s, rest[0]) {
      forall a: nat | va <= a < s.End() ensures UserByte(m, root, a) == Some(0) {
        RestByteIsZero(m, root, file, s, rest, a);
      }
    }
  }

  /** The address at offset k of the page where the file's part ends. */
  lemma AtOffset(s: Segment, k: nat, a: nat)
    requires s.FileEnd() < s.End() && LeftAlone(s, k) && a == s.FileEnd() - s.FileEnd() % PAGE_SIZE + k
    ensures a / PAGE_SIZE == s.FileEnd() / PAGE_SIZE && a % PAGE_SIZE == k && s.FileEnd() <= a < s.End()
  {
    InChunk(a, s.FileEnd(), FirstChunk(s.FileEnd(), s.End()));
  }

  lemma RestByteIsZero(m: Memory, root: nat, file: seq<Byte>, s: Segment, rest: seq<FrameNo>, a: nat)
    requires Safe(s) && s.FileEnd() <= a < s.End() && SegmentLoaded(m, root, file, s, true)
    requires PageReads(m, root, file, s, s.FileEnd() / PAGE_SIZE, rest) && rest != [] && LinkReadsZero(s, rest[0])
    ensures UserByte(m, root, a) == Some(0)
  {
    var n, k := a / PAGE_SIZE, a % PAGE_SIZE;
    CoversWhole(s, a);
    if n == s.FileEnd() / PAGE_SIZE {
      RestReads(m, root, file, s, n, rest, a);
      StaleBytes(rest, k);
      assert LeftAlone(s, k) ==> k > 0;
    } else {
      assert PageLoaded(m, root, file, s, n, true);
      var other: seq<FrameNo> :| PageReads(m, root, file, s, n, other);
      RestReads(m, root, file, s, n, other, a);
    }
  }

  /** Does the loop leave none of bytes 9 to 15 of the page alone? */
  predicate ClearOfLink(s: Segment)
    requires s.FileEnd() < s.End()
  {
    var o, n := s.FileEnd() % PAGE_SIZE, FirstChunk(s.FileEnd(), s.End());
    o >= 16 || 2 * o <= 9 || o + n <= 9
  }

  /** The memory reads zero whatever frames were free exactly when the file's part ends 16 bytes or more past a page
      boundary, or the bytes left alone are among the first nine of the page. */
  lemma BssAlwaysZero(s: Segment)
    requires s.FileEnd() < s.End()
    ensures ClearOfLink(s) <==> forall f: FrameNo {:trigger LinkReadsZero(s, f)} :: LinkReadsZero(s, f)
  {
    var o, n := s.FileEnd() % PAGE_SIZE, FirstChunk(s.FileEnd(), s.End());
    if ClearOfLink(s) {
      forall f: FrameNo ensures LinkReadsZero(s, f) { VaDigits(f, 0); }
    } else {
      var k := if o < 9 then 9 else o;
      assert LeftAlone(s, k);
      HighestFrame(k - 8);
      assert !LinkReadsZero(s, MAX_FRAMES - 1);
    }
  }

  /** But the lowest, no byte of the highest frame's kernel address is zero. */
  lemma HighestFrame(k: nat)
    requires 1 <= k < 8
    ensures Digit(ToVa(PAGE_SIZE * (MAX_FRAMES - 1)), k) != 0
  {
    if k >= 4 { VaDigits(MAX_FRAMES - 1, k); } else { LowDigits(Val(FrameVa(MAX_FRAMES - 1)), k); }
  }

  lemma LowDigits(v: nat, k: nat)
    requires v == 0xffff_ffff_ffff_f000 && 1 <= k < 4
    ensures Digit(v, k) != 0
  {
    var a, b, c := 0xff_ffff_ffff_fff0, 0xffff_ffff_ffff, 0xff_ffff_ffff;
    assert v / 256 == a && a / 256 == b && b / 256 == c;
    assert Digit(v, k) == Digit(a, k - 1);
    if k == 2 { assert Digit(a, 1) == Digit(b, 0); }
    if k == 3 { assert Digit(a, 2) == Digit(b, 1) == Digit(c, 0); }
  }

  /** Does the loop leave one of bytes 12 to 15 of the page alone? */
  predicate MeetsLink(s: Segment)
    requires s.FileEnd() < s.End()
  {
    var o, n := s.FileEnd() % PAGE_SIZE, FirstChunk(s.FileEnd(), s.End());
    6 < o < 16 && o + n > 12
  }

  lemma BssNeverZero(s: Segment, f: FrameNo)
    requires s.FileEnd() < s.End() && MeetsLink(s)
    ensures !LinkReadsZero(s, f)
  {
    var o := s.FileEnd() % PAGE_SIZE;
    var k := if o < 12 then 12 else o;
    assert LeftAlone(s, k);
    VaDigits(f, k - 8);
  }

  /** In a loaded program a segment's memory past the file's part reads zero in the first case, whatever frames were
      free, and never in the second. */
  lemma BssOfProgram(m: Memory, root: nat, file: seq<Byte>, segs: seq<Segment>, top: nat, j: nat)
    requires top > 0 && Program(m, root, file, segs, top) && j < |segs| && Safe(segs[j])
    requires segs[j].FileEnd() < segs[j].End()
    ensures ClearOfLink(segs[j]) ==> RestIsZero(m, root, segs[j])
    ensures MeetsLink(segs[j]) ==> !RestIsZero(m, root, segs[j])
  {
    var s := segs[j];
    CoversWhole(s, s.FileEnd());
    assert PageLoaded(m, root, file, s, s.FileEnd() / PAGE_SIZE, true);
    var rest: seq<FrameNo> :| PageReads(m, root, file, s, s.FileEnd() / PAGE_SIZE, rest) && rest != [];
    BssIsZero(m, root, file, s, rest);
    BssAlwaysZero(s);
    if MeetsLink(s) { BssNeverZero(s, rest[0]); }
  }

  /** Eight bytes of file in sixteen of memory: the last eight are meant to be zero. */
  const UNALIGNED: Segment := Segment(120, 0x40_0000, 8, 16)

  /** What a program reads there is the kernel's address of a frame. */
  lemma KernelAddressLeft(m: Memory, root: nat, file: seq<Byte>, segs: seq<Segment>, top: nat, j: nat, word: seq<Byte>)
    requires top > 0 && Program(m, root, file, segs, top) && j < |segs| && segs[j] == UNALIGNED && |word| == 8
    requires forall i: nat | i < 8 :: UserByte(m, root, 0x40_0008 + i) == Some(word[i])
    ensures exists f: FrameNo :: Number(word) == ToVa(PAGE_SIZE * f)
    ensures !RestIsZero(m, root, UNALIGNED)
  {
    assert PageLoaded(m, root, file, UNALIGNED, 0x400, true);
    var rest: seq<FrameNo> :| PageReads(m, root, file, UNALIGNED, 0x400, rest) && rest != [];
    var row := FreeImage(Link(rest));
    forall i: nat | i < 8 ensures word[i] == ByteAt(row, 8 + i) {
      assert LeftAlone(UNALIGNED, 8 + i);
      RestReads(m, root, file, UNALIGNED, 0x400, rest, 0x40_0008 + i);
    }
    WordIsItsBytes(row, 8, word);
    BssOfProgram(m, root, file, segs, top, j);
  }
  // ---------------------------------------------------------------- steps

  /** Every byte of page n is as its frame held it, popped while `rest` was left on the list. */
  ghost predicate StalePage(m: Memory, root: nat, n: nat, rest: seq<FrameNo>) {
    forall a: nat {:trigger UserByte(m, root, a)} | a < USER_TOP && a / PAGE_SIZE == n ::
      UserByte(m, root, a) == Some(StaleByte(rest, a % PAGE_SIZE))
  }

  ghost predicate FreshPage(m: Memory, root: nat, n: nat, spare: bool) {
    exists rest: seq<FrameNo> :: StalePage(m, root, n, rest) && (spare ==> rest != [])
  }

  /** Pages [from, to) are mapped, to frames not written since; the rest of the space reads as before. */
  ghost predicate PagesAdded(m: Memory, m': Memory, root: nat, from: nat, to: nat, spare: bool) {
    && (forall a: nat {:trigger UserByte(m', root, a)} | a < USER_TOP ::
          if from <= a / PAGE_SIZE < to then UserByte(m, root, a).None? && UserByte(m', root, a).Some?
          else UserByte(m', root, a) == UserByte(m, root, a))
    && (forall n: nat {:trigger FreshPage(m', root, n, spare)} | from <= n < to :: FreshPage(m', root, n, spare))
  }

  /** A page not written since is as fresh as before, with fewer frames left. */
  lemma StaysFresh(m: Memory, m': Memory, root: nat, n: nat, spare: bool, spare': bool)
    requires FreshPage(m, root, n, spare) && (spare' ==> spare)
    requires forall a: nat {:trigger UserByte(m', root, a)} | a < USER_TOP && a / PAGE_SIZE == n ::
      UserByte(m', root, a) == UserByte(m, root, a)
    ensures FreshPage(m', root, n, spare')
  {
    var rest: seq<FrameNo> :| StalePage(m, root, n, rest) && (spare ==> rest != []);
    assert StalePage(m', root, n, rest);
  }

  /** The leaves of a table lead to frames of the memory. */
  lemma LeavesInside(m: Memory, root: nat, q: seq<nat>)
    requires Proper(m, root, 1) && |q| == 3 && LeafAt(m, root, q).Some?
    requires forall g: nat {:trigger Owns(m, root, 1, g)} :: Owns(m, root, 1, g) > 0 ==> g < |m|
    ensures FrameOf(LeafAt(m, root, q).value) < |m|
  {
    LeafOwned(m, root, q, 1);
  }

  /** An allocated page is one more page of the space. */
  lemma PageAdded(m: Memory, free: seq<FrameNo>, m': Memory, free': seq<FrameNo>, root: nat, va: nat, r: AllocResult)
    requires AllocPost(m, free, m', free', root, PathOf(va), r) && r.Allocated? && va < USER_TOP
    requires Proper(m, root, 1) && forall g: nat {:trigger Owns(m, root, 1, g)} :: Owns(m, root, 1, g) > 0 ==> g < |m|
    ensures PagesAdded(m, m', root, va / PAGE_SIZE, va / PAGE_SIZE + 1, free' != [])
  {
    forall a: nat | a < USER_TOP
      ensures if a / PAGE_SIZE == va / PAGE_SIZE
              then UserByte(m, root, a).None? && UserByte(m', root, a) == Some(StaleByte(free', a % PAGE_SIZE))
              else UserByte(m', root, a) == UserByte(m, root, a)
    {
      SamePage(a, va);
      var q := PathOf(a);
      if a / PAGE_SIZE != va / PAGE_SIZE && LeafAt(m, root, q).Some? {
        LeavesInside(m, root, q);
        assert LeafAt(m', root, q) == LeafAt(m, root, q);
      }
    }
    assert StalePage(m', root, va / PAGE_SIZE, free');
  }

  /** Page n lies just above or just below the pages [from, to), and makes them [lo, hi). */
  predicate Beside(n: nat, from: nat, to: nat, lo: nat, hi: nat) {
    from <= to && ((n == to && lo == from && hi == n + 1) || (n + 1 == from && lo == n && hi == to))
  }

  /** A page added beside those added before. */
  lemma PageAddedBeside(m: Memory, m1: Memory, m2: Memory, root: nat, from: nat, to: nat, n: nat, lo: nat, hi: nat,
                        spare: bool, spare': bool)
    requires Beside(n, from, to, lo, hi) && (spare' ==> spare)
    requires PagesAdded(m, m1, root, from, to, spare) && PagesAdded(m1, m2, root, n, n + 1, spare')
    ensures PagesAdded(m, m2, root, lo, hi, spare')
  {
    forall a: nat | a < USER_TOP
      ensures if lo <= a / PAGE_SIZE < hi then UserByte(m, root, a).None? && UserByte(m2, root, a).Some?
              else UserByte(m2, root, a) == UserByte(m, root, a)
    {
      if a / PAGE_SIZE == n {
        assert UserByte(m2, root, a).Some? && UserByte(m1, root, a).None?;
      } else {
        assert UserByte(m2, root, a) == UserByte(m1, root, a);
      }
    }
    forall k: nat | lo <= k < hi ensures FreshPage(m2, root, k, spare') {
      if k != n {
        assert FreshPage(m1, root, k, spare);
        StaysFresh(m1, m2, root, k, spare, spare');
      } else {
        assert FreshPage(m2, root, k, spare');
      }
    }
  }

  function ZeroBytes(n: nat): (s: seq<Byte>)
    ensures |s| == n && forall i | 0 <= i < n :: s[i] == 0
  {
    seq<Byte>(n, i => 0)
  }

  /** What the zeroing has done when it has come to `at`, past the first page. */
  ghost predicate ZeroedTo(m: Memory, m': Memory, root: nat, va: nat, end: nat, at: nat)
    requires va < end
  {
    var o, n := va % PAGE_SIZE, FirstChunk(va, end);
    forall a: nat {:trigger UserByte(m', root, a)} | a < USER_TOP ::
      UserByte(m', root, a) == if va + o <= a < va + o + n || va + n <= a < at then Some(0) else UserByte(m, root, a)
  }

  lemma ZeroedFirst(m: Memory, m': Memory, root: nat, va: nat, end: nat)
    requires va < end <= USER_TOP && BytesWritten(m, m', root, va + va % PAGE_SIZE, ZeroBytes(FirstChunk(va, end)))
    ensures ZeroedTo(m, m', root, va, end, va + FirstChunk(va, end))
  {
  }

  lemma ZeroedNext(m: Memory, m1: Memory, m2: Memory, root: nat, va: nat, end: nat, at: nat)
    requires va < end && va + FirstChunk(va, end) <= at < end && at % PAGE_SIZE == 0
    requires ZeroedTo(m, m1, root, va, end, at) && BytesWritten(m1, m2, root, at, ZeroBytes(FirstChunk(at, end)))
    ensures ZeroedTo(m, m2, root, va, end, at + FirstChunk(at, end))
  {
    forall a: nat | a < USER_TOP
      ensures UserByte(m2, root, a) ==
        if va + va % PAGE_SIZE <= a < va + va % PAGE_SIZE + FirstChunk(va, end)
           || va + FirstChunk(va, end) <= a < at + FirstChunk(at, end)
        then Some(0) else UserByte(m, root, a)
    {
      var between := UserByte(m1, root, a);
    }
  }

  /** A chunk that does not come to the end comes to a page boundary. */
  lemma ChunkEnds(va: nat, end: nat)
    requires va < end
    ensures var next := va + FirstChunk(va, end); next == end || next % PAGE_SIZE == 0
  {
    if FirstChunk(va, end) < end - va {
      assert va + (PAGE_SIZE - va % PAGE_SIZE) == (va / PAGE_SIZE + 1) * PAGE_SIZE;
    }
  }

  // ---------------------------------------------------------------- a segment, and the next

  /** The effect of loading one segment on the space: its pages appear, with their bytes in place. */
  ghost predicate SegmentAdded(m: Memory, m': Memory, root: nat, file: seq<Byte>, s: Segment, spare: bool) {
    && (forall a: nat {:trigger UserByte(m', root, a)} | a < USER_TOP ::
          if Covers(s, a) then UserByte(m, root, a).None? && UserByte(m', root, a).Some?
          else UserByte(m', root, a) == UserByte(m, root, a))
    && SegmentLoaded(m', root, file, s, spare)
  }

  /** Is the segment within user space, its file part not longer than its memory? */
  predicate InRange(s: Segment) {
    s.filesize <= s.memsize && s.End() + 0x20000 <= USER_TOP
  }

  lemma CoversWhole(s: Segment, a: nat)
    requires s.va <= a < s.End()
    ensures Covers(s, a)
  {
  }

  /** A chunk zeroed inside its page stays inside the segment's pages. */
  lemma ZeroesCovered(s: Segment, a: nat)
    requires InRange(s) && s.FileEnd() < s.End() && !LeavesPage(s.FileEnd(), s.End()) && Zeroes(s.FileEnd(), s.End(), a)
    ensures Covers(s, a) && a >= s.FileEnd()
  {
    var va, o, n := s.FileEnd(), s.FileEnd() % PAGE_SIZE, FirstChunk(s.FileEnd(), s.End());
    CoversWhole(s, va);
    if va + n <= a < s.End() {
      CoversWhole(s, a);
    } else {
      assert a / PAGE_SIZE == va / PAGE_SIZE by { InChunk(a, va, 2 * o + n - o); }
    }
  }

  /** What the three parts of a load make of one address. */
  lemma ByteComposed(m1: Memory, m2: Memory, m3: Memory, root: nat, file: seq<Byte>, s: Segment, rest: seq<FrameNo>,
                     a: nat)
    requires Safe(s) && (s.filesize > 0 ==> s.offset + s.filesize <= |file|) && a < USER_TOP
    requires UserByte(m1, root, a) == Some(StaleByte(rest, a % PAGE_SIZE))
    requires BytesWritten(m1, m2, root, s.va, FilePart(file, s))
    requires if s.FileEnd() < s.End() then ZeroedTo(m2, m3, root, s.FileEnd(), s.End(), s.End()) else m3 == m2
    ensures UserByte(m3, root, a).Some? && UserByte(m3, root, a) == Expected(file, s, rest, a)
  {
    var b2, b3 := UserByte(m2, root, a), UserByte(m3, root, a);
    assert b2 == if s.va <= a < s.FileEnd() then Some(FilePart(file, s)[a - s.va]) else UserByte(m1, root, a);
    if s.FileEnd() < s.End() && Zeroes(s.FileEnd(), s.End(), a) { ZeroesCovered(s, a); }
  }

  /** Mapping the pages, copying the file's part and zeroing the rest add the segment and change nothing else. */
  lemma SegmentComposed(m: Memory, m1: Memory, m2: Memory, m3: Memory, root: nat, file: seq<Byte>, s: Segment,
                        spare: bool)
    requires Safe(s) && (s.filesize > 0 ==> s.offset + s.filesize <= |file|)
    requires PagesAdded(m, m1, root, FirstPage(s), PageEnd(s), spare)
    requires BytesWritten(m1, m2, root, s.va, FilePart(file, s))
    requires if s.FileEnd() < s.End() then ZeroedTo(m2, m3, root, s.FileEnd(), s.End(), s.End()) else m3 == m2
    ensures SegmentAdded(m, m3, root, file, s, spare)
  {
    forall a: nat | a < USER_TOP
      ensures if Covers(s, a) then UserByte(m, root, a).None? && UserByte(m3, root, a).Some?
              else UserByte(m3, root, a) == UserByte(m, root, a)
    {
      var b1, b2, b3 := UserByte(m1, root, a), UserByte(m2, root, a), UserByte(m3, root, a);
      if s.va <= a < s.End() { CoversWhole(s, a); }
      if s.FileEnd() < s.End() && Zeroes(s.FileEnd(), s.End(), a) { ZeroesCovered(s, a); }
      assert b1.Some? ==> b2.Some? && b3.Some?;
    }
    forall n: nat | FirstPage(s) <= n < PageEnd(s) ensures PageLoaded(m3, root, file, s, n, spare) {
      assert FreshPage(m1, root, n, spare);
      var rest: seq<FrameNo> :| StalePage(m1, root, n, rest) && (spare ==> rest != []);
      forall a: nat | a < USER_TOP && a / PAGE_SIZE == n
        ensures UserByte(m3, root, a).Some? && UserByte(m3, root, a) == Expected(file, s, rest, a)
      {
        assert UserByte(m1, root, a) == Some(StaleByte(rest, a % PAGE_SIZE));
        ByteComposed(m1, m2, m3, root, file, s, rest, a);
      }
      assert PageReads(m3, root, file, s, n, rest);
    }
  }

  /** The bytes of the file that a segment takes. */
  function FilePart(file: seq<Byte>, s: Segment): seq<Byte>
    requires s.filesize > 0 ==> s.offset + s.filesize <= |file|
  {
    if s.filesize > 0 then file[s.offset..s.offset + s.filesize] else []
  }

  lemma CoversInside(s: Segment, a: nat)
    requires InRange(s) && Covers(s, a)
    ensures a < USER_TOP
  {
  }

  /** One more segment in the image. */
  lemma ImageStep(m: Memory, m': Memory, root: nat, file: seq<Byte>, segs: seq<Segment>, s: Segment, spare: bool,
                  spare': bool)
    requires Image(m, root, file, segs, spare) && SegmentAdded(m, m', root, file, s, spare') && (spare' ==> spare)
    requires forall j | 0 <= j < |segs| :: Safe(segs[j])
    ensures Image(m', root, file, segs + [s], spare')
  {
    var all := segs + [s];
    forall a: nat | a < USER_TOP
      ensures UserByte(m', root, a).Some? <==> Covered(all, a)
    {
      if Covered(segs, a) {
        var j :| 0 <= j < |segs| && Covers(segs[j], a);
        assert Covers(all[j], a);
      }
      assert Covers(s, a) ==> Covers(all[|segs|], a);
      assert UserByte(m, root, a).Some? <==> Covered(segs, a);
      assert UserByte(m', root, a).Some? <==> Covers(s, a) || UserByte(m, root, a).Some?;
    }
    forall j | 0 <= j < |all|
      ensures SegmentLoaded(m', root, file, all[j], spare')
    {
      if j < |segs| {
        forall a: nat | a < USER_TOP && Covers(segs[j], a)
          ensures UserByte(m', root, a) == UserByte(m, root, a)
        {
          assert Covered(segs, a) && UserByte(m, root, a).Some?;
        }
        EarlierSegmentKept(m, m', root, file, segs[j], spare, spare');
      }
    }
  }

  /** A segment within user space whose zeroing stays in its pages. */
  predicate Safe(s: Segment) {
    InRange(s) && (s.FileEnd() < s.End() ==> !LeavesPage(s.FileEnd(), s.End()))
  }

  /** The stack completes the program. */
  lemma StackStep(m: Memory, m': Memory, root: nat, file: seq<Byte>, segs: seq<Segment>, top: nat, spare: bool)
    requires Image(m, root, file, segs, true) && top == StackTop(Highest(segs))
    requires PagesAdded(m, m', root, (top - 1) / PAGE_SIZE + 1 - STACK_PAGES, (top - 1) / PAGE_SIZE + 1, spare)
    requires forall j | 0 <= j < |segs| :: Safe(segs[j])
    ensures Program(m', root, file, segs, top) && StackFresh(m', root, top, top)
  {
    forall a: nat | a < USER_TOP
      ensures UserByte(m', root, a).Some? <==> Covered(segs, a) || InStack(top, a)
    {
      assert UserByte(m', root, a).Some? <==> InStack(top, a) || UserByte(m, root, a).Some?;
    }
    forall j | 0 <= j < |segs|
      ensures SegmentLoaded(m', root, file, segs[j], true)
    {
      StackKeeps(m, m', root, segs, j, top, spare);
      EarlierSegmentKept(m, m', root, file, segs[j], true, true);
    }
    forall n: nat | (top - 1) / PAGE_SIZE < n + STACK_PAGES && n <= (top - 1) / PAGE_SIZE
      ensures StackPageFresh(m', root, n, top, top)
    {
      assert FreshPage(m', root, n, spare);
      var rest: seq<FrameNo> :| StalePage(m', root, n, rest);
      assert StackPageReads(m', root, n, rest, top, top);
    }
  }

  /** Page n of the stack reads as its frame held it, but for [from, top). */
  ghost predicate StackPageReads(m: Memory, root: nat, n: nat, rest: seq<FrameNo>, from: nat, top: nat) {
    forall a: nat {:trigger UserByte(m, root, a)} | a < USER_TOP && a / PAGE_SIZE == n && !(from <= a < top) ::
      UserByte(m, root, a) == Some(StaleByte(rest, a % PAGE_SIZE))
  }

  ghost predicate StackPageFresh(m: Memory, root: nat, n: nat, from: nat, top: nat) {
    exists rest: seq<FrameNo> :: StackPageReads(m, root, n, rest, from, top)
  }

  /** Below `from` nothing has been written on the stack: its bytes are those of frames from the list. */
  ghost predicate StackFresh(m: Memory, root: nat, from: nat, top: nat)
    requires top > 0
  {
    forall n: nat | (top - 1) / PAGE_SIZE < n + STACK_PAGES && n <= (top - 1) / PAGE_SIZE ::
      StackPageFresh(m, root, n, from, top)
  }

  lemma StackKeeps(m: Memory, m': Memory, root: nat, segs: seq<Segment>, j: nat, top: nat, spare: bool)
    requires j < |segs| && top == StackTop(Highest(segs))
    requires PagesAdded(m, m', root, (top - 1) / PAGE_SIZE + 1 - STACK_PAGES, (top - 1) / PAGE_SIZE + 1, spare)
    ensures SegmentUntouched(m, m', root, segs[j])
  {
    forall a: nat | a < USER_TOP && Covers(segs[j], a)
      ensures UserByte(m', root, a) == UserByte(m, root, a)
    {
      assert Covered(segs, a);
      GuardPage(segs, a);
    }
  }

  /** The segment's pages read as before. */
  ghost predicate SegmentUntouched(m: Memory, m': Memory, root: nat, s: Segment) {
    forall a: nat {:trigger UserByte(m', root, a)} | a < USER_TOP && Covers(s, a) ::
      UserByte(m', root, a) == UserByte(m, root, a)
  }

  lemma EarlierSegmentKept(m: Memory, m': Memory, root: nat, file: seq<Byte>, s: Segment, spare: bool, spare': bool)
    requires SegmentLoaded(m, root, file, s, spare) && SegmentUntouched(m, m', root, s) && (spare' ==> spare)
    ensures SegmentLoaded(m', root, file, s, spare')
  {
    forall n: nat | FirstPage(s) <= n < PageEnd(s) ensures PageLoaded(m', root, file, s, n, spare') {
      assert PageLoaded(m, root, file, s, n, spare);
      var rest: seq<FrameNo> :| PageReads(m, root, file, s, n, rest) && (spare ==> rest != []);
      forall a: nat | a < USER_TOP && a / PAGE_SIZE == n
        ensures UserByte(m', root, a) == UserByte(m, root, a)
      {
        assert Covers(s, a);
      }
      assert PageReads(m', root, file, s, n, rest);
    }
  }
}
