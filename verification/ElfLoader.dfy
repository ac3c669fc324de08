/** `load_elf`: a new space built from an ELF file. */
module ElfLoading {
  import opened Words
  import opened Addresses
  import opened Bytes
  import opened PageTree
  import opened FreeFrames
  import opened TreeLoops
  import opened TreePaths
  import opened UserMemory
  import opened FrameCounts
  import opened ElfImage
  import PageAllocation

  /** Why a step of the loader does not come back: the kernel panics in `alloc_page` or over a slice, or, zeroing,
      writes past the end of a frame, which the model does not follow. */
  datatype Step = Done | NoFrame | PageClash | BadRange | MissingPage | PastFrame

  /** The tree at root is made of frames that were free, and no other frame changed. */
  ghost predicate Confined(m0: Memory, free0: seq<FrameNo>, m: Memory, free: seq<FrameNo>, root: nat) {
    && |m| == |m0|
    && (forall g: nat {:trigger In(free, g)} {:trigger Owns(m, root, 1, g)} ::
          In(free, g) + Owns(m, root, 1, g) == In(free0, g))
    && (forall g: nat {:trigger m[g]} :: g < |m0| && In(free0, g) == 0 ==> m[g] == m0[g])
  }

  lemma ConfinedExchange(m0: Memory, free0: seq<FrameNo>, m: Memory, free: seq<FrameNo>, m': Memory,
                         free': seq<FrameNo>, root: nat)
    requires Confined(m0, free0, m, free, root) && Exchanged(m, free, m', free', root)
    ensures Confined(m0, free0, m', free', root)
  {
    forall g: nat ensures In(free', g) + Owns(m', root, 1, g) == In(free0, g) {
      assert In(free, g) + Owns(m, root, 1, g) == In(free0, g);
    }
    forall g: nat | g < |m0| && In(free0, g) == 0 ensures m'[g] == m0[g] {
      assert In(free, g) + Owns(m, root, 1, g) == In(free0, g);
    }
  }

  lemma ConfinedWrite(m0: Memory, free0: seq<FrameNo>, m: Memory, free: seq<FrameNo>, m': Memory, root: nat)
    requires Confined(m0, free0, m, free, root) && PagesWritten(m, m', root)
    ensures Confined(m0, free0, m', free, root)
  {
    forall g: nat ensures In(free, g) + Owns(m', root, 1, g) == In(free0, g) {
      assert In(free, g) + Owns(m, root, 1, g) == In(free0, g);
    }
    forall g: nat | g < |m0| && In(free0, g) == 0 ensures m'[g] == m0[g] {
      assert In(free, g) + Owns(m, root, 1, g) == In(free0, g);
    }
  }

  /** The pages in `done` have been mapped in the new space: the frames they take are gone from the list, free0 before
      its first table was taken. */
  ghost predicate Counted(free0: seq<FrameNo>, m: Memory, free: seq<FrameNo>, root: nat, done: seq<nat>) {
    forall frames: nat {:trigger Takes(NO_TABLES, done, frames)} | Takes(NO_TABLES, done, frames) ::
      Grown(NO_TABLES, m, root, done) && |free| + 1 + frames == |free0|
  }

  /** There are too few frames for the root, these pages and their tables. */
  ghost predicate Lacking(free0: seq<FrameNo>, done: seq<nat>) {
    forall frames: nat {:trigger Takes(NO_TABLES, done, frames)} | Takes(NO_TABLES, done, frames) ::
      |free0| < 1 + frames
  }

  lemma LackingMore(free0: seq<FrameNo>, done: seq<nat>, more: seq<nat>)
    requires Lacking(free0, done)
    ensures Lacking(free0, done + more)
  {
    assert Takes(NO_TABLES, done, FramesOf(NO_TABLES, done));
    FramesOfMore(NO_TABLES, done, more);
  }

  lemma CountedNext(free0: seq<FrameNo>, m: Memory, free: seq<FrameNo>, m': Memory, free': seq<FrameNo>, root: nat,
                    done: seq<nat>, va: nat, got: AllocResult)
    requires Counted(free0, m, free, root, done) && va < USER_TOP && root < |m| && Proper(m, root, 1)
    requires AllocPost(m, free, m', free', root, PathOf(va), got)
    ensures got.Allocated? ==> Counted(free0, m', free', root, done + [va / PAGE_SIZE])
    ensures got.OutOfFrames? ==> Lacking(free0, done + [va / PAGE_SIZE])
  {
    var n := va / PAGE_SIZE;
    PageOf(va);
    assert Takes(NO_TABLES, done, FramesOf(NO_TABLES, done));
    if !got.AlreadyMapped? { CountNext(NO_TABLES, m, free, m', free', root, done, n, got); }
  }

  lemma CountedWrite(free0: seq<FrameNo>, m: Memory, free: seq<FrameNo>, m': Memory, root: nat, done: seq<nat>)
    requires Counted(free0, m, free, root, done) && PagesWritten(m, m', root)
    ensures Counted(free0, m', free, root, done)
  {
    assert Takes(NO_TABLES, done, FramesOf(NO_TABLES, done));
    GrownKept(NO_TABLES, m, m', root, done);
  }

  /** An address whose page is mapped. */
  ghost predicate MappedAt(m: Memory, root: nat, a: nat) {
    a < USER_TOP && UserByte(m, root, a).Some?
  }

  /** One page, as a step of the loader. */
  method AddPage(pages: PageAllocation.PageAllocator, va: nat, root: nat, ghost n: nat, ghost m0: Memory,
                 ghost free0: seq<FrameNo>, ghost done: seq<nat>) returns (r: Step)
    requires pages.Valid() && root in pages.roots && va < USER_TOP && n == va / PAGE_SIZE
    requires Confined(m0, free0, pages.Mem(), pages.free, root)
    requires Counted(free0, pages.Mem(), pages.free, root, done)
    modifies pages.ram, pages`head, pages`count, pages`free
    ensures pages.Valid() && Confined(m0, free0, pages.Mem(), pages.free, root)
    ensures r == Done || r == NoFrame || r == PageClash
    ensures r == Done ==>
      old(pages.free) != []
      && PagesAdded(old(pages.Mem()), pages.Mem(), root, n, n + 1, pages.free != [])
    ensures r == PageClash <==> MappedAt(old(pages.Mem()), root, va)
    ensures r == Done ==> Counted(free0, pages.Mem(), pages.free, root, done + [n])
    ensures r == NoFrame ==> Lacking(free0, done + [n])
  {
    ghost var m, free := pages.Mem(), pages.free;
    RootInPartition(m, free, pages.roots, pages.managed, root);
    assert LeafAt(m, root, PathOf(va)).Some? ==> FrameOf(LeafAt(m, root, PathOf(va)).value) < |m| by {
      if LeafAt(m, root, PathOf(va)).Some? { LeavesInside(m, root, PathOf(va)); }
    }
    var got := pages.AllocPage(va, root);
    ConfinedExchange(m0, free0, m, free, pages.Mem(), pages.free, root);
    CountedNext(free0, m, free, pages.Mem(), pages.free, root, done, va, got);
    match got
    case Allocated(f) =>
      ChainFrames(m, free);
      PageAdded(m, free, pages.Mem(), pages.free, root, va, got);
      r := Done;
    case AlreadyMapped => r := PageClash;
    case OutOfFrames => r := NoFrame;
  }

  /** A page above or below the pages [from, to) added so far, n being its number; then they are [lo, hi). */
  method AddBeside(pages: PageAllocation.PageAllocator, va: nat, root: nat, ghost n: nat, ghost from: nat,
                   ghost to: nat, ghost lo: nat, ghost hi: nat, ghost m: Memory, ghost m0: Memory,
                   ghost free0: seq<FrameNo>, ghost done: seq<nat>) returns (r: Step)
    requires pages.Valid() && root in pages.roots && va < USER_TOP && n == va / PAGE_SIZE
    requires Beside(n, from, to, lo, hi)
    requires Confined(m0, free0, pages.Mem(), pages.free, root)
    requires PagesAdded(m, pages.Mem(), root, from, to, pages.free != [])
    requires Counted(free0, pages.Mem(), pages.free, root, done)
    modifies pages.ram, pages`head, pages`count, pages`free
    ensures pages.Valid() && Confined(m0, free0, pages.Mem(), pages.free, root)
    ensures r == Done || r == NoFrame || r == PageClash
    ensures r == PageClash <==> MappedAt(old(pages.Mem()), root, va)
    ensures r == Done ==> old(pages.free) != [] && PagesAdded(m, pages.Mem(), root, lo, hi, pages.free != [])
    ensures r == Done ==> Counted(free0, pages.Mem(), pages.free, root, done + [n])
    ensures r == NoFrame ==> Lacking(free0, done + [n])
  {
    ghost var m1, spare := pages.Mem(), pages.free != [];
    r := AddPage(pages, va, root, n, m0, free0, done);
    if r == Done {
      PageAddedBeside(m, m1, pages.Mem(), root, from, to, n, lo, hi, spare, pages.free != []);
    }
  }

  lemma LackingUpward(free0: seq<FrameNo>, done: seq<nat>, a: nat, b: nat, c: nat)
    requires a <= b <= c && Lacking(free0, done + Upward(a, b))
    ensures Lacking(free0, done + Upward(a, c))
  {
    UpwardSplit(done, a, b, c);
    LackingMore(free0, done + Upward(a, b), Upward(b, c));
  }

  lemma LackingDownward(free0: seq<FrameNo>, done: seq<nat>, a: nat, j: nat, k: nat)
    requires j <= k <= a + 1 && Lacking(free0, done + Downward(a, j))
    ensures Lacking(free0, done + Downward(a, k))
  {
    DownwardSplit(done, a, j, k);
    LackingMore(free0, done + Downward(a, j), Downward(a, k)[j..]);
  }

  lemma NothingAdded(m: Memory, root: nat, n: nat, spare: bool)
    ensures PagesAdded(m, m, root, n, n, spare)
  {
  }

  /** The n-th page of user space, one of the segment's, after those before it. */
  method AddNextPage(pages: PageAllocation.PageAllocator, s: Segment, n: nat, root: nat, ghost m: Memory,
                     ghost m0: Memory, ghost free0: seq<FrameNo>, ghost done: seq<nat>) returns (r: Step)
    requires pages.Valid() && root in pages.roots && FirstPage(s) <= n < PageEnd(s) && n * PAGE_SIZE < USER_TOP
    requires Confined(m0, free0, pages.Mem(), pages.free, root)
    requires PagesAdded(m, pages.Mem(), root, FirstPage(s), n, pages.free != [])
    requires Counted(free0, pages.Mem(), pages.free, root, done + Upward(FirstPage(s), n))
    modifies pages.ram, pages`head, pages`count, pages`free
    ensures pages.Valid() && Confined(m0, free0, pages.Mem(), pages.free, root)
    ensures r == Done || r == NoFrame || r == PageClash
    ensures r == Done ==>
      old(pages.free) != [] && PagesAdded(m, pages.Mem(), root, FirstPage(s), n + 1, pages.free != [])
    ensures r == PageClash ==> Covers(s, n * PAGE_SIZE) && MappedAt(m, root, n * PAGE_SIZE)
    ensures r == Done ==> Counted(free0, pages.Mem(), pages.free, root, done + Upward(FirstPage(s), n + 1))
    ensures r == NoFrame ==> Lacking(free0, done + Upward(FirstPage(s), PageEnd(s)))
  {
    ghost var m1 := pages.Mem();
    UpwardNext(done, FirstPage(s), n);
    r := AddBeside(pages, n * PAGE_SIZE, root, n, FirstPage(s), n, FirstPage(s), n + 1, m, m0, free0,
                   done + Upward(FirstPage(s), n));
    if r == NoFrame {
      LackingUpward(free0, done, FirstPage(s), n + 1, PageEnd(s));
    }
  }

  /** The pages of a segment. */
  method AddPages(pages: PageAllocation.PageAllocator, s: Segment, root: nat, ghost m0: Memory,
                  ghost free0: seq<FrameNo>, ghost done: seq<nat>)
    returns (r: Step)
    requires pages.Valid() && root in pages.roots && InRange(s)
    requires Confined(m0, free0, pages.Mem(), pages.free, root)
    requires Counted(free0, pages.Mem(), pages.free, root, done)
    modifies pages.ram, pages`head, pages`count, pages`free
    ensures pages.Valid() && Confined(m0, free0, pages.Mem(), pages.free, root)
    ensures r == Done || r == NoFrame || r == PageClash
    ensures r == Done ==>
      (pages.free != [] ==> old(pages.free) != [])
      && PagesAdded(old(pages.Mem()), pages.Mem(), root, FirstPage(s), PageEnd(s), pages.free != [])
    ensures r == PageClash ==> exists a: nat :: Covers(s, a) && MappedAt(old(pages.Mem()), root, a)
    ensures r == Done ==>
      Counted(free0, pages.Mem(), pages.free, root, done + Upward(FirstPage(s), PageEnd(s)))
    ensures r == NoFrame ==> Lacking(free0, done + Upward(FirstPage(s), PageEnd(s)))
  {
    ghost var m := pages.Mem();
    var n := s.va / PAGE_SIZE;
    LastPage(s, n);
    UpwardNext(done, n, n);
    NothingAdded(m, root, n, pages.free != []);
    while n * PAGE_SIZE < s.End()
      invariant FirstPage(s) <= n <= PageEnd(s)
      invariant pages.Valid() && root in pages.roots && Confined(m0, free0, pages.Mem(), pages.free, root)
      invariant pages.free != [] ==> old(pages.free) != []
      invariant PagesAdded(m, pages.Mem(), root, FirstPage(s), n, pages.free != [])
      invariant Counted(free0, pages.Mem(), pages.free, root, done + Upward(FirstPage(s), n))
    {
      LastPage(s, n);
      r := AddNextPage(pages, s, n, root, m, m0, free0, done);
      if r != Done {
        return;
      }
      n := n + 1;
    }
    LastPage(s, n);
    assert n == PageEnd(s);
    r := Done;
  }

  lemma LastPage(s: Segment, n: nat)
    ensures n * PAGE_SIZE < s.End() <==> n < PageEnd(s)
    ensures FirstPage(s) <= PageEnd(s) && PageEnd(s) * PAGE_SIZE < s.End() + PAGE_SIZE
  {
  }

  /** One turn of the zeroing loop, with its offset added twice. */
  method ZeroChunk(pages: PageAllocation.PageAllocator, va: nat, end: nat, root: nat) returns (r: Step)
    requires pages.Valid() && root in pages.roots && va < end <= USER_TOP
    modifies pages.ram
    ensures pages.Valid() && (r == Done || r == MissingPage || r == PastFrame)
    ensures r == MissingPage <==> !MappedAt(old(pages.Mem()), root, va)
    ensures r == PastFrame <==> MappedAt(old(pages.Mem()), root, va) && LeavesPage(va, end)
    ensures PagesWritten(old(pages.Mem()), pages.Mem(), root)
    ensures r == Done ==> BytesWritten(old(pages.Mem()), pages.Mem(), root, va + va % PAGE_SIZE,
      ZeroBytes(FirstChunk(va, end)))
  {
    ghost var m := pages.Mem();
    RootInPartition(m, pages.free, pages.roots, pages.managed, root);
    var pa := pages.Translate(va, root);
    if pa == None {
      return MissingPage;
    }
    LeavesInside(m, root, PathOf(va));
    FrameOfPa(FrameOf(LeafAt(m, root, PathOf(va)).value), va);
    var o, n := va % PAGE_SIZE, FirstChunk(va, end);
    if 2 * o + n > PAGE_SIZE {
      return PastFrame;
    }
    ShiftedChunk(va, n);
    pages.WriteChunk(root, va + o, ZeroBytes(n), pa.value / PAGE_SIZE);
    r := Done;
  }

  /** The shifted chunk starts in the same page, at twice the offset. */
  lemma ShiftedChunk(va: nat, n: nat)
    requires va < USER_TOP && 0 < n && 2 * (va % PAGE_SIZE) + n <= PAGE_SIZE
    ensures var at := va + va % PAGE_SIZE;
      PathOf(at) == PathOf(va) && at % PAGE_SIZE == 2 * (va % PAGE_SIZE) && at + n <= USER_TOP
  {
    InChunk(va + va % PAGE_SIZE, va, va % PAGE_SIZE + 1);
    assert USER_TOP == 0x800_0000 * PAGE_SIZE;
    SamePage(va + va % PAGE_SIZE, va);
  }

  /** A turn after the first: at a page boundary, where the doubled offset is zero. */
  method ZeroNext(pages: PageAllocation.PageAllocator, va: nat, end: nat, at: nat, root: nat, ghost m: Memory)
    requires pages.Valid() && root in pages.roots && va < end <= USER_TOP
    requires va + FirstChunk(va, end) <= at < end && at % PAGE_SIZE == 0 && MappedAt(m, root, at)
    requires PagesWritten(m, pages.Mem(), root) && ZeroedTo(m, pages.Mem(), root, va, end, at)
    modifies pages.ram
    ensures pages.Valid() && PagesWritten(m, pages.Mem(), root)
    ensures ZeroedTo(m, pages.Mem(), root, va, end, at + FirstChunk(at, end))
  {
    ghost var m1 := pages.Mem();
    assert MappedAt(m1, root, at);
    var r := ZeroChunk(pages, at, end, root);
    ZeroesRightly(at, end);
    PagesWrittenTwice(m, m1, pages.Mem(), root);
    ZeroedNext(m, m1, pages.Mem(), root, va, end, at);
  }

  /** The turns after the first. */
  method ZeroAfter(pages: PageAllocation.PageAllocator, va: nat, end: nat, root: nat, ghost m: Memory)
    requires pages.Valid() && root in pages.roots && va < end <= USER_TOP
    requires forall a: nat | va <= a < end :: MappedAt(m, root, a)
    requires PagesWritten(m, pages.Mem(), root) && ZeroedTo(m, pages.Mem(), root, va, end, va + FirstChunk(va, end))
    modifies pages.ram
    ensures pages.Valid() && PagesWritten(m, pages.Mem(), root) && ZeroedTo(m, pages.Mem(), root, va, end, end)
  {
    var at := va + FirstChunk(va, end);
    ChunkEnds(va, end);
    while at < end
      invariant va + FirstChunk(va, end) <= at <= end && (at == end || at % PAGE_SIZE == 0)
      invariant pages.Valid() && root in pages.roots && PagesWritten(m, pages.Mem(), root)
      invariant ZeroedTo(m, pages.Mem(), root, va, end, at)
    {
      ZeroNext(pages, va, end, at, root, m);
      ChunkEnds(at, end);
      at := at + FirstChunk(at, end);
    }
  }

  /** The zeroing loop over a segment's memory past the file's part, all of whose pages are mapped. */
  method ZeroRest(pages: PageAllocation.PageAllocator, va: nat, end: nat, root: nat) returns (r: Step)
    requires pages.Valid() && root in pages.roots && va < end <= USER_TOP
    requires forall a: nat | va <= a < end :: MappedAt(pages.Mem(), root, a)
    modifies pages.ram
    ensures pages.Valid() && PagesWritten(old(pages.Mem()), pages.Mem(), root)
    ensures r == if LeavesPage(va, end) then PastFrame else Done
    ensures r == Done ==> ZeroedTo(old(pages.Mem()), pages.Mem(), root, va, end, end)
  {
    ghost var m := pages.Mem();
    assert MappedAt(m, root, va);
    r := ZeroChunk(pages, va, end, root);
    if r == Done {
      ZeroedFirst(m, pages.Mem(), root, va, end);
      ZeroAfter(pages, va, end, root, m);
    }
  }

  // ---------------------------------------------------------------- segments and the whole file

  lemma SegmentMapped(m: Memory, m1: Memory, root: nat, s: Segment, a: nat, spare: bool)
    requires InRange(s) && PagesAdded(m, m1, root, FirstPage(s), PageEnd(s), spare) && s.va <= a < s.End()
    ensures MappedAt(m1, root, a)
  {
    CoversWhole(s, a);
    assert UserByte(m1, root, a).Some?;
  }

  /** Copying the file's part of a segment; every page it needs is mapped. */
  method CopyFilePart(pages: PageAllocation.PageAllocator, file: seq<Byte>, s: Segment, root: nat, ghost m: Memory)
    requires pages.Valid() && root in pages.roots && InRange(s)
    requires s.filesize > 0 ==> s.offset + s.filesize <= |file|
    requires PagesAdded(m, pages.Mem(), root, FirstPage(s), PageEnd(s), pages.free != [])
    modifies pages.ram
    ensures pages.Valid() && PagesWritten(old(pages.Mem()), pages.Mem(), root)
    ensures BytesWritten(old(pages.Mem()), pages.Mem(), root, s.va, FilePart(file, s))
  {
    ghost var m1 := pages.Mem();
    if s.filesize > 0 {
      var src := file[s.offset..s.offset + s.filesize];
      var ok, done := pages.CopyToPages(src, s.va, root);
      if !ok {
        SegmentMapped(m, m1, root, s, s.va + done, pages.free != []);
        assert false;
      }
      assert src[..done] == src;
    }
  }

  /** A segment after `alloc_page` has mapped its pages. */
  method FillSegment(pages: PageAllocation.PageAllocator, file: seq<Byte>, s: Segment, root: nat, ghost m: Memory)
    returns (r: Step)
    requires pages.Valid() && root in pages.roots && InRange(s)
    requires PagesAdded(m, pages.Mem(), root, FirstPage(s), PageEnd(s), pages.free != [])
    modifies pages.ram
    ensures pages.Valid() && PagesWritten(old(pages.Mem()), pages.Mem(), root)
    ensures r == BadRange <==> s.filesize > 0 && s.offset + s.filesize > |file|
    ensures r == PastFrame ==> !Safe(s)
    ensures r == Done || r == BadRange || r == PastFrame
    ensures r == Done ==> Safe(s) && SegmentAdded(m, pages.Mem(), root, file, s, pages.free != [])
  {
    ghost var m1 := pages.Mem();
    if s.filesize > 0 && s.offset + s.filesize > |file| {
      return BadRange;
    }
    CopyFilePart(pages, file, s, root, m);
    ghost var m2 := pages.Mem();
    r := Done;
    if s.FileEnd() < s.End() {
      forall a: nat | s.FileEnd() <= a < s.End()
        ensures MappedAt(m2, root, a)
      {
        SegmentMapped(m, m1, root, s, a, pages.free != []);
        assert UserByte(m2, root, a) == UserByte(m1, root, a);
      }
      r := ZeroRest(pages, s.FileEnd(), s.End(), root);
      PagesWrittenTwice(m1, m2, pages.Mem(), root);
    }
    if r == Done {
      SegmentComposed(m, m1, m2, pages.Mem(), root, file, s, pages.free != []);
    }
  }

  /** The pages of the segments, in the order in which they are mapped. */
  function PagesOf(segs: seq<Segment>): seq<nat> {
    if segs == [] then []
    else
      var s := segs[|segs| - 1];
      LastPage(s, 0);
      PagesOf(segs[..|segs| - 1]) + Upward(FirstPage(s), PageEnd(s))
  }

  lemma PagesOfNext(segs: seq<Segment>, s: Segment)
    ensures FirstPage(s) <= PageEnd(s) && PagesOf(segs + [s]) == PagesOf(segs) + Upward(FirstPage(s), PageEnd(s))
  {
    LastPage(s, 0);
    assert (segs + [s])[..|segs|] == segs;
  }

  lemma {:induction false} PagesOfCovered(segs: seq<Segment>, n: nat)
    ensures n in PagesOf(segs) <==> Covered(segs, n * PAGE_SIZE)
    decreases |segs|
  {
    if segs != [] {
      var init, s := segs[..|segs| - 1], segs[|segs| - 1];
      PagesOfCovered(init, n);
      assert segs == init + [s];
      PagesOfNext(init, s);
      UpwardHas(FirstPage(s), PageEnd(s), n);
      assert n * PAGE_SIZE / PAGE_SIZE == n;
      if Covered(init, n * PAGE_SIZE) {
        var j :| 0 <= j < |init| && Covers(init[j], n * PAGE_SIZE);
        assert Covers(segs[j], n * PAGE_SIZE);
      }
      assert Covers(s, n * PAGE_SIZE) ==> Covers(segs[|segs| - 1], n * PAGE_SIZE);
    }
  }

  /** The pages of all segments begin with those of the first k. */
  lemma {:induction false} PagesOfPart(segs: seq<Segment>, k: nat)
    requires k <= |segs|
    ensures PagesOf(segs[..k]) <= PagesOf(segs)
    decreases |segs|
  {
    if k < |segs| {
      PagesOfPart(segs[..|segs| - 1], k);
      assert segs[..|segs| - 1][..k] == segs[..k];
    } else {
      assert segs[..k] == segs;
    }
  }

  /** Segment s is safe, its file part lies in the file, and it shares no page with the segments before it. */
  ghost predicate FitsAfter(file: seq<Byte>, segs: seq<Segment>, s: Segment) {
    && Safe(s) && (s.filesize > 0 ==> s.offset + s.filesize <= |file|)
    && forall a: nat {:trigger Covers(s, a)} | Covers(s, a) :: !Covered(segs, a)
  }

  ghost predicate Fit(file: seq<Byte>, segs: seq<Segment>) {
    forall j {:trigger segs[j]} | 0 <= j < |segs| :: FitsAfter(file, segs[..j], segs[j])
  }

  lemma FitNext(file: seq<Byte>, segs: seq<Segment>, s: Segment)
    requires Fit(file, segs) && FitsAfter(file, segs, s)
    ensures Fit(file, segs + [s])
  {
    var all := segs + [s];
    forall j | 0 <= j < |all| ensures FitsAfter(file, all[..j], all[j]) {
      if j < |segs| {
        assert all[..j] == segs[..j] && all[j] == segs[j];
      } else {
        assert all[..j] == segs;
      }
    }
  }

  /** What was mapped for s was not mapped before. */
  lemma PagesWereFree(m: Memory, m': Memory, root: nat, file: seq<Byte>, segs: seq<Segment>, s: Segment, spare: bool,
                      spare': bool)
    requires Image(m, root, file, segs, spare) && SegmentAdded(m, m', root, file, s, spare') && InRange(s)
    ensures forall a: nat {:trigger Covers(s, a)} | Covers(s, a) :: !Covered(segs, a)
  {
    forall a: nat | Covers(s, a) ensures !Covered(segs, a) {
      CoversInside(s, a);
      assert UserByte(m', root, a).Some? && UserByte(m, root, a).None?;
    }
  }

  /** One turn of the loop over the program headers. */
  method LoadSegment(pages: PageAllocation.PageAllocator, file: seq<Byte>, s: Segment, root: nat,
                     ghost m0: Memory, ghost free0: seq<FrameNo>, ghost segs: seq<Segment>) returns (r: Step)
    requires pages.Valid() && root in pages.roots && InRange(s) && (forall j | 0 <= j < |segs| :: Safe(segs[j]))
    requires Confined(m0, free0, pages.Mem(), pages.free, root)
    requires Image(pages.Mem(), root, file, segs, pages.free != [])
    requires Counted(free0, pages.Mem(), pages.free, root, PagesOf(segs))
    modifies pages.ram, pages`head, pages`count, pages`free
    ensures pages.Valid() && r != MissingPage
    ensures r == BadRange ==> s.filesize > 0 && s.offset + s.filesize > |file|
    ensures r == PastFrame ==> !Safe(s)
    ensures r == PageClash ==> exists a: nat :: Covers(s, a) && Covered(segs, a)
    ensures r == Done ==> FitsAfter(file, segs, s) && Confined(m0, free0, pages.Mem(), pages.free, root)
    ensures r == Done ==> Image(pages.Mem(), root, file, segs + [s], pages.free != [])
    ensures r == Done ==> Counted(free0, pages.Mem(), pages.free, root, PagesOf(segs + [s]))
    ensures r == NoFrame ==> Lacking(free0, PagesOf(segs + [s]))
  {
    PagesOfNext(segs, s);
    ghost var m, spare := pages.Mem(), pages.free != [];
    r := AddPages(pages, s, root, m0, free0, PagesOf(segs));
    if r == Done {
      ghost var m1 := pages.Mem();
      r := FillSegment(pages, file, s, root, m);
      if r == Done {
        ConfinedWrite(m0, free0, m1, pages.free, pages.Mem(), root);
        CountedWrite(free0, m1, pages.free, pages.Mem(), root, PagesOf(segs + [s]));
        ImageStep(m, pages.Mem(), root, file, segs, s, spare, pages.free != []);
        PagesWereFree(m, pages.Mem(), root, file, segs, s, spare, pages.free != []);
      }
    } else if r == PageClash {
      ghost var a: nat :| Covers(s, a) && MappedAt(m, root, a);
      assert Covered(segs, a);
    }
  }

  /** Address i pages below the stack top's last byte, and its page. */
  lemma StackPage(top: nat, last: nat, i: nat)
    requires i < STACK_PAGES && last == (top - 1) / PAGE_SIZE && last >= STACK_PAGES
    ensures i * PAGE_SIZE + 1 <= top && (top - i * PAGE_SIZE - 1) / PAGE_SIZE == last - i
    ensures top > 0 && InStack(top, top - i * PAGE_SIZE - 1)
  {
  }

  /** No page of the stack is mapped. */
  ghost predicate StackClear(m: Memory, root: nat, top: nat)
    requires top > 0
  {
    forall a: nat {:trigger UserByte(m, root, a)} | a < USER_TOP && InStack(top, a) :: UserByte(m, root, a).None?
  }

  /** The pages of the image end below the stack. */
  lemma ImageBelowStack(m: Memory, root: nat, file: seq<Byte>, segs: seq<Segment>, top: nat, spare: bool)
    requires Image(m, root, file, segs, spare) && top == StackTop(Highest(segs)) <= USER_TOP
    ensures StackClear(m, root, top)
  {
    forall a: nat | a < USER_TOP && InStack(top, a) ensures UserByte(m, root, a).None? {
      if Covered(segs, a) { GuardPage(segs, a); }
    }
  }

  lemma NextStackPage(m: Memory, m1: Memory, root: nat, top: nat, last: nat, i: nat, n: nat, spare: bool)
    requires 0 < top <= USER_TOP && StackClear(m, root, top)
    requires i < STACK_PAGES <= last && last == (top - 1) / PAGE_SIZE && n == last + 1 - i
    requires PagesAdded(m, m1, root, n, last + 1, spare)
    ensures i * PAGE_SIZE < top && (top - i * PAGE_SIZE - 1) / PAGE_SIZE == n - 1
    ensures !MappedAt(m1, root, top - i * PAGE_SIZE - 1)
  {
    StackPage(top, last, i);
    var va: nat := top - i * PAGE_SIZE - 1;
    assert UserByte(m1, root, va) == UserByte(m, root, va);
  }

  function StackPages(top: nat): seq<nat>
    requires (top - 1) / PAGE_SIZE >= STACK_PAGES
  {
    Downward((top - 1) / PAGE_SIZE, STACK_PAGES)
  }

  /** The next page of the stack, downwards: number n - 1. */
  method AddStackPage(pages: PageAllocation.PageAllocator, top: nat, i: nat, root: nat, ghost last: nat, ghost n: nat,
                      ghost m: Memory, ghost m0: Memory, ghost free0: seq<FrameNo>, ghost done: seq<nat>)
    returns (r: Step)
    requires pages.Valid() && root in pages.roots && 0 < top <= USER_TOP && StackClear(m, root, top)
    requires i < STACK_PAGES <= last && last == (top - 1) / PAGE_SIZE && n == last + 1 - i
    requires Confined(m0, free0, pages.Mem(), pages.free, root)
    requires PagesAdded(m, pages.Mem(), root, n, last + 1, pages.free != [])
    requires Counted(free0, pages.Mem(), pages.free, root, done + Downward(last, i))
    modifies pages.ram, pages`head, pages`count, pages`free
    ensures pages.Valid() && Confined(m0, free0, pages.Mem(), pages.free, root) && (r == Done || r == NoFrame)
    ensures r == Done ==> PagesAdded(m, pages.Mem(), root, n - 1, last + 1, pages.free != [])
    ensures r == Done ==> Counted(free0, pages.Mem(), pages.free, root, done + Downward(last, i + 1))
    ensures r == NoFrame ==> Lacking(free0, done + Downward(last, STACK_PAGES))
  {
    ghost var now := done + Downward(last, i);
    DownwardNext(done, last, i);
    NextStackPage(m, pages.Mem(), root, top, last, i, n, pages.free != []);
    var va: nat := top - i * PAGE_SIZE - 1;
    r := AddBeside(pages, va, root, n - 1, n, last + 1, n - 1, last + 1, m, m0, free0, now);
    if r == NoFrame {
      LackingDownward(free0, done, last, i + 1, STACK_PAGES);
    }
  }

  /** The pages of the stack, from the top down; n is the number of the lowest so far. */
  method AddStackPages(pages: PageAllocation.PageAllocator, top: nat, ghost last: nat, root: nat, ghost m0: Memory,
                       ghost free0: seq<FrameNo>, ghost done: seq<nat>)
    returns (r: Step)
    requires pages.Valid() && root in pages.roots && 0 < top <= USER_TOP
    requires last == (top - 1) / PAGE_SIZE && last >= STACK_PAGES
    requires Confined(m0, free0, pages.Mem(), pages.free, root) && StackClear(pages.Mem(), root, top)
    requires Counted(free0, pages.Mem(), pages.free, root, done + Downward(last, 0))
    modifies pages.ram, pages`head, pages`count, pages`free
    ensures pages.Valid() && (r == Done || r == NoFrame) && Confined(m0, free0, pages.Mem(), pages.free, root)
    ensures r == Done ==> Counted(free0, pages.Mem(), pages.free, root, done + Downward(last, STACK_PAGES))
    ensures r == NoFrame ==> Lacking(free0, done + Downward(last, STACK_PAGES))
    ensures r == Done ==>
      PagesAdded(old(pages.Mem()), pages.Mem(), root, last + 1 - STACK_PAGES, last + 1, pages.free != [])
  {
    ghost var m, n := pages.Mem(), last + 1;
    var i := 0;
    NothingAdded(m, root, n, pages.free != []);
    while i < STACK_PAGES
      invariant i <= STACK_PAGES && n == last + 1 - i && pages.Valid() && root in pages.roots
      invariant Confined(m0, free0, pages.Mem(), pages.free, root)
      invariant PagesAdded(m, pages.Mem(), root, n, last + 1, pages.free != [])
      invariant Counted(free0, pages.Mem(), pages.free, root, done + Downward(last, i))
    {
      r := AddStackPage(pages, top, i, root, last, n, m, m0, free0, done);
      if r != Done {
        return;
      }
      i, n := i + 1, n - 1;
    }
    r := Done;
  }

  /** Where pages have been mapped there were frames. */
  lemma FramesWereLeft(free0: seq<FrameNo>, m: Memory, free: seq<FrameNo>, m': Memory, free': seq<FrameNo>, root: nat,
                       done: seq<nat>, more: seq<nat>)
    requires Counted(free0, m, free, root, done) && Counted(free0, m', free', root, done + more) && more != []
    ensures free != []
  {
    assert Takes(NO_TABLES, done, FramesOf(NO_TABLES, done));
    assert Takes(NO_TABLES, done + more, FramesOf(NO_TABLES, done + more));
    FramesOfMore(NO_TABLES, done, more);
  }

  /** Fourteen pages of stack above the image. */
  method AddStack(pages: PageAllocation.PageAllocator, top: nat, root: nat, file: seq<Byte>, ghost segs: seq<Segment>,
                  ghost m0: Memory, ghost free0: seq<FrameNo>) returns (r: Step)
    requires pages.Valid() && root in pages.roots && top == StackTop(Highest(segs)) <= USER_TOP
    requires (forall j | 0 <= j < |segs| :: Safe(segs[j]))
    requires Confined(m0, free0, pages.Mem(), pages.free, root)
    requires Image(pages.Mem(), root, file, segs, pages.free != [])
    requires Counted(free0, pages.Mem(), pages.free, root, PagesOf(segs))
    modifies pages.ram, pages`head, pages`count, pages`free
    ensures pages.Valid() && (r == Done || r == NoFrame)
    ensures r == Done ==> Counted(free0, pages.Mem(), pages.free, root, PagesOf(segs) + StackPages(top))
    ensures r == NoFrame ==> Lacking(free0, PagesOf(segs) + StackPages(top))
    ensures r == Done ==>
      Confined(m0, free0, pages.Mem(), pages.free, root)
      && Program(pages.Mem(), root, file, segs, top) && StackFresh(pages.Mem(), root, top, top)
  {
    ghost var m, free := pages.Mem(), pages.free;
    ImageBelowStack(m, root, file, segs, top, pages.free != []);
    DownwardNext(PagesOf(segs), (top - 1) / PAGE_SIZE, 0);
    r := AddStackPages(pages, top, (top - 1) / PAGE_SIZE, root, m0, free0, PagesOf(segs));
    if r == Done {
      FramesWereLeft(free0, m, free, pages.Mem(), pages.free, root, PagesOf(segs), StackPages(top));
      StackStep(m, pages.Mem(), root, file, segs, top, pages.free != []);
    }
  }

  // ---------------------------------------------------------------- load_elf

  datatype LoadResult =
    | BadHeader
    | NoSegments(root: nat)
    | Panicked(why: Step)
    | Loaded(entry: nat, top: nat, root: nat)

  /** Are the program headers of the file in range? */
  ghost predicate Sane(file: seq<Byte>) {
    HasHeader(file) ==> forall j | 0 <= j < |Segments(file, 0)| :: InRange(Segments(file, 0)[j])
  }

  ghost predicate SomeUnsafe(segs: seq<Segment>) {
    exists j :: 0 <= j < |segs| && !Safe(segs[j])
  }

  ghost predicate SomeBeyond(segs: seq<Segment>, n: nat) {
    exists j :: 0 <= j < |segs| && segs[j].filesize > 0 && segs[j].offset + segs[j].filesize > n
  }

  /** Why loading these segments may panic: each panic but that for frames has its cause in the file. */
  ghost predicate Blamed(why: Step, file: seq<Byte>, segs: seq<Segment>) {
    match why
    case PageClash => !NoSharedPage(segs)
    case PastFrame => SomeUnsafe(segs)
    case BadRange => SomeBeyond(segs, |file|)
    case NoFrame => true
    case _ => false
  }

  lemma BlameFound(why: Step, file: seq<Byte>, segs: seq<Segment>, j: nat)
    requires j < |segs|
    requires why == BadRange ==> segs[j].filesize > 0 && segs[j].offset + segs[j].filesize > |file|
    requires why == PastFrame ==> !Safe(segs[j])
    requires why == PageClash ==> exists a: nat :: Covers(segs[j], a) && Covered(segs[..j], a)
    requires why != Done && why != MissingPage
    ensures Blamed(why, file, segs)
  {
    if why == PageClash {
      var a: nat :| Covers(segs[j], a) && Covered(segs[..j], a);
      var i :| 0 <= i < |segs[..j]| && Covers(segs[..j][i], a);
      assert Covers(segs[i], a);
    }
  }

  /** The header at i is the next segment, or is none. */
  lemma NextHeader(file: seq<Byte>, i: nat, segs: seq<Segment>)
    requires HasHeader(file) && i < HeaderCount(file) && HeaderAt(file, i) + PROGRAM_HEADER_SIZE <= |file|
    requires Segments(file, 0) == segs + Segments(file, i)
    ensures !IsLoad(file, i) ==> Segments(file, 0) == segs + Segments(file, i + 1)
    ensures IsLoad(file, i) ==>
      var all, s := Segments(file, 0), SegmentAt(file, i);
      all == segs + [s] + Segments(file, i + 1) && |segs| < |all| && all[|segs|] == s && all[..|segs|] == segs
  {
    if IsLoad(file, i) {
      Regrouped(Segments(file, 0), segs, SegmentAt(file, i), Segments(file, i + 1));
    } else {
      assert Segments(file, i) == Segments(file, i + 1);
    }
  }

  lemma Regrouped(all: seq<Segment>, segs: seq<Segment>, s: Segment, rest: seq<Segment>)
    requires all == segs + ([s] + rest)
    ensures all == segs + [s] + rest && |segs| < |all| && all[|segs|] == s && all[..|segs|] == segs
  {
  }

  /** segs are loaded, and the headers from i on are still to come. */
  ghost predicate Upto(file: seq<Byte>, i: nat, segs: seq<Segment>, max: nat)
    requires HasHeader(file)
  {
    && Segments(file, 0) == segs + Segments(file, i) && (forall j | 0 <= j < |segs| :: Safe(segs[j]))
    && Fit(file, segs) && max == Highest(segs)
  }

  lemma UptoNext(file: seq<Byte>, i: nat, segs: seq<Segment>, s: Segment, max: nat)
    requires HasHeader(file) && Upto(file, i, segs, max) && FitsAfter(file, segs, s)
    requires Segments(file, 0) == segs + [s] + Segments(file, i + 1)
    ensures Upto(file, i + 1, segs + [s], if s.End() > max then s.End() else max)
  {
    assert (segs + [s])[..|segs|] == segs;
    FitNext(file, segs, s);
  }

  lemma LackingWhole(free0: seq<FrameNo>, all: seq<Segment>, segs: seq<Segment>, s: Segment)
    requires |segs| < |all| && all[|segs|] == s && all[..|segs|] == segs
    requires Lacking(free0, PagesOf(segs + [s]))
    ensures Lacking(free0, PagesOf(all))
  {
    assert all[..|segs| + 1] == segs + [s];
    LackingPart(free0, all, |segs| + 1);
  }

  lemma LackingPart(free0: seq<FrameNo>, all: seq<Segment>, k: nat)
    requires k <= |all| && Lacking(free0, PagesOf(all[..k]))
    ensures Lacking(free0, PagesOf(all))
  {
    PagesOfPart(all, k);
    LackingPrefix(free0, PagesOf(all[..k]), PagesOf(all));
  }

  lemma LackingPrefix(free0: seq<FrameNo>, part: seq<nat>, whole: seq<nat>)
    requires part <= whole && Lacking(free0, part)
    ensures Lacking(free0, whole)
  {
    LackingMore(free0, part, whole[|part|..]);
    assert part + whole[|part|..] == whole;
  }

  /** The loop over the program headers: one header. */
  method LoadHeader(pages: PageAllocation.PageAllocator, file: seq<Byte>, i: nat, root: nat, max: nat,
                    ghost segs: seq<Segment>,
                    ghost m0: Memory, ghost free0: seq<FrameNo>)
                      returns (r: Step, end: nat, loaded: bool, ghost now: seq<Segment>)
    requires pages.Valid() && root in pages.roots && HasHeader(file) && Sane(file)
    requires i < HeaderCount(file) && HeaderAt(file, i) + PROGRAM_HEADER_SIZE <= |file| && Upto(file, i, segs, max)
    requires Confined(m0, free0, pages.Mem(), pages.free, root)
    requires Image(pages.Mem(), root, file, segs, pages.free != [])
    requires Counted(free0, pages.Mem(), pages.free, root, PagesOf(segs))
    modifies pages.ram, pages`head, pages`count, pages`free
    ensures pages.Valid() && (r != Done ==> Blamed(r, file, Segments(file, 0)))
    ensures r == Done ==> Upto(file, i + 1, now, end)
    ensures r == Done ==>
      Confined(m0, free0, pages.Mem(), pages.free, root)
      && Image(pages.Mem(), root, file, now, pages.free != [])
      && Counted(free0, pages.Mem(), pages.free, root, PagesOf(now))
    ensures r == NoFrame ==> Segments(file, 0) != [] && Lacking(free0, PagesOf(Segments(file, 0)))
    ensures loaded <==> now != segs
    ensures loaded ==> now != []
  {
    NextHeader(file, i, segs);
    r, end, loaded, now := Done, max, false, segs;
    if IsLoad(file, i) {
      var s := SegmentAt(file, i);
      assert InRange(Segments(file, 0)[|segs|]);
      r := LoadSegment(pages, file, s, root, m0, free0, segs);
      if r == Done {
        UptoNext(file, i, segs, s, max);
        end, loaded, now := if s.End() > max then s.End() else max, true, segs + [s];
        assert |now| != |segs|;
      } else {
        BlameFound(r, file, Segments(file, 0), |segs|);
        if r == NoFrame { LackingWhole(free0, Segments(file, 0), segs, s); }
      }
    }
  }

  /** The loop over the program headers, up to the last, or the first beyond the file. */
  method LoadHeaders(pages: PageAllocation.PageAllocator, file: seq<Byte>, root: nat, ghost m0: Memory,
                     ghost free0: seq<FrameNo>)
    returns (r: Step, max: nat, any: bool)
    requires pages.Valid() && root in pages.roots && HasHeader(file) && Sane(file)
    requires Confined(m0, free0, pages.Mem(), pages.free, root) && Image(pages.Mem(), root, file, [], pages.free != [])
    requires Counted(free0, pages.Mem(), pages.free, root, [])
    modifies pages.ram, pages`head, pages`count, pages`free
    ensures pages.Valid() && (r != Done ==> Blamed(r, file, Segments(file, 0)))
    ensures r == Done ==>
      Confined(m0, free0, pages.Mem(), pages.free, root)
      && Image(pages.Mem(), root, file, Segments(file, 0), pages.free != [])
      && Counted(free0, pages.Mem(), pages.free, root, PagesOf(Segments(file, 0)))
    ensures r == NoFrame ==> Segments(file, 0) != [] && Lacking(free0, PagesOf(Segments(file, 0)))
    ensures r == Done ==> max == Highest(Segments(file, 0)) && (any <==> Segments(file, 0) != [])
    ensures r == Done ==> forall j | 0 <= j < |Segments(file, 0)| :: Safe(Segments(file, 0)[j])
    ensures r == Done ==> Fit(file, Segments(file, 0))
  {
    var i := 0;
    max, any, r := 0, false, Done;
    ghost var segs: seq<Segment> := [];
    assert Segments(file, 0) == segs + Segments(file, 0);
    while i < HeaderCount(file) && HeaderAt(file, i) + PROGRAM_HEADER_SIZE <= |file|
      invariant pages.Valid() && root in pages.roots && Upto(file, i, segs, max) && (any <==> segs != []) && r == Done
      invariant Confined(m0, free0, pages.Mem(), pages.free, root)
      invariant Image(pages.Mem(), root, file, segs, pages.free != [])
      invariant Counted(free0, pages.Mem(), pages.free, root, PagesOf(segs))
      decreases HeaderCount(file) - i
    {
      var loaded;
      r, max, loaded, segs := LoadHeader(pages, file, i, root, max, segs, m0, free0);
      if r != Done {
        return;
      }
      any := any || loaded;
      i := i + 1;
    }
    assert Segments(file, i) == [] && segs == Segments(file, 0);
  }

  /** The pages of a program: those of its segments and of its stack. */
  function ProgramPages(segs: seq<Segment>): seq<nat> {
    PagesOf(segs) + StackPages(StackTop(Highest(segs)))
  }

  /** The frames a load takes: the first table, and with segments the pages and their tables. */
  ghost function FramesToLoad(segs: seq<Segment>): (n: nat)
    ensures n > 0
  {
    if segs == [] then 1 else 1 + FramesOf(NO_TABLES, ProgramPages(segs))
  }

  /** Nothing in the file stands against loading it. */
  ghost predicate Loadable(file: seq<Byte>, segs: seq<Segment>) {
    segs != [] && NoSharedPage(segs) && !SomeUnsafe(segs) && !SomeBeyond(segs, |file|)
  }

  lemma FitIsLoadable(file: seq<Byte>, segs: seq<Segment>)
    requires Fit(file, segs) && segs != []
    ensures Loadable(file, segs)
  {
    forall i, j, a: nat | 0 <= i < j < |segs| && Covers(segs[i], a) ensures !Covers(segs[j], a) {
      assert FitsAfter(file, segs[..j], segs[j]) && Covers(segs[..j][i], a);
      assert Covered(segs[..j], a);
    }
  }

  /** A load that succeeds takes just the frames it needs; one that fails for want of frames had fewer. */
  ghost predicate FramesCounted(r: LoadResult, before: nat, after: nat, segs: seq<Segment>) {
    match r
    case Loaded(_, _, _) => before == after + FramesToLoad(segs)
    case NoSegments(_) => before == after + 1
    case Panicked(why) => why == NoFrame ==> before < FramesToLoad(segs)
    case BadHeader => false
  }

  lemma FramesOfLoaded(r: LoadResult, free0: seq<FrameNo>, m: Memory, free: seq<FrameNo>, root: nat,
                       segs: seq<Segment>)
    requires r.Loaded? && segs != [] && Counted(free0, m, free, root, ProgramPages(segs))
    ensures FramesCounted(r, |free0|, |free|, segs)
  {
    assert Takes(NO_TABLES, ProgramPages(segs), FramesOf(NO_TABLES, ProgramPages(segs)));
  }

  lemma FramesOfNothing(r: LoadResult, free0: seq<FrameNo>, m: Memory, free: seq<FrameNo>, root: nat,
                        segs: seq<Segment>)
    requires r.NoSegments? && Counted(free0, m, free, root, [])
    ensures FramesCounted(r, |free0|, |free|, segs)
  {
    NoPagesNoFrames(NO_TABLES);
    assert Takes(NO_TABLES, [], FramesOf(NO_TABLES, []));
  }

  lemma FramesLacked(r: LoadResult, free0: seq<FrameNo>, free: seq<FrameNo>, segs: seq<Segment>, done: seq<nat>)
    requires r.Panicked? && (r.why == NoFrame ==> segs != [] && done <= ProgramPages(segs) && Lacking(free0, done))
    ensures FramesCounted(r, |free0|, |free|, segs)
  {
    if r.why == NoFrame {
      LackingPrefix(free0, done, ProgramPages(segs));
      assert Takes(NO_TABLES, ProgramPages(segs), FramesOf(NO_TABLES, ProgramPages(segs)));
    }
  }

  /** These are exactly the pages that are mapped in a loaded program. */
  lemma ProgramPagesAre(segs: seq<Segment>, n: nat)
    ensures n in ProgramPages(segs) <==>
      Covered(segs, n * PAGE_SIZE) || InStack(StackTop(Highest(segs)), n * PAGE_SIZE)
  {
    PagesOfCovered(segs, n);
    DownwardHas((StackTop(Highest(segs)) - 1) / PAGE_SIZE, STACK_PAGES, n);
    assert n * PAGE_SIZE / PAGE_SIZE == n;
  }

  /** The rest of `load_elf`, in the new space. */
  method LoadInto(pages: PageAllocation.PageAllocator, file: seq<Byte>, root: nat, ghost m0: Memory,
                  ghost free0: seq<FrameNo>)
    returns (r: LoadResult)
    requires pages.Valid() && root in pages.roots && HasHeader(file) && Sane(file)
    requires Confined(m0, free0, pages.Mem(), pages.free, root) && Image(pages.Mem(), root, file, [], pages.free != [])
    requires Counted(free0, pages.Mem(), pages.free, root, [])
    modifies pages.ram, pages`head, pages`count, pages`free
    ensures pages.Valid() && !r.BadHeader?
    ensures FramesCounted(r, |free0|, |pages.free|, Segments(file, 0))
    ensures r.Panicked? ==> Blamed(r.why, file, Segments(file, 0))
    ensures r.NoSegments? ==>
      Segments(file, 0) == [] && r.root == root && Confined(m0, free0, pages.Mem(), pages.free, root)
    ensures r.Loaded? ==>
      && Loadable(file, Segments(file, 0)) && r.root == root && Confined(m0, free0, pages.Mem(), pages.free, root)
      && r.entry == EntryPoint(file) && r.top == StackTop(Highest(Segments(file, 0)))
      && Program(pages.Mem(), root, file, Segments(file, 0), r.top) && StackFresh(pages.Mem(), root, r.top, r.top)
      && forall j | 0 <= j < |Segments(file, 0)| :: Safe(Segments(file, 0)[j])
  {
    ghost var segs := Segments(file, 0);
    var step, max, any := LoadHeaders(pages, file, root, m0, free0);
    if step != Done {
      r := Panicked(step);
      FramesLacked(r, free0, pages.free, segs, PagesOf(segs));
      return;
    }
    if !any {
      r := NoSegments(root);
      FramesOfNothing(r, free0, pages.Mem(), pages.free, root, segs);
      return;
    }
    var top := StackTop(max);
    HighestInRange(segs);
    step := AddStack(pages, top, root, file, segs, m0, free0);
    if step == Done {
      r := Loaded(EntryPoint(file), top, root);
      FramesOfLoaded(r, free0, pages.Mem(), pages.free, root, segs);
      FitIsLoadable(file, segs);
    } else {
      r := Panicked(step);
      FramesLacked(r, free0, pages.free, segs, ProgramPages(segs));
    }
  }

  /** What a load promises of the spaces and of their contents. */
  ghost predicate LoadedRightly(r: LoadResult, m0: Memory, free0: seq<FrameNo>, roots: seq<nat>, m: Memory,
                                free: seq<FrameNo>, roots': seq<nat>, file: seq<Byte>)
    requires HasHeader(file)
  {
    var segs := Segments(file, 0);
    match r
    case BadHeader => false
    case Panicked(why) => Blamed(why, file, segs)
    case NoSegments(root) => segs == [] && roots' == roots + [root] && Confined(m0, free0, m, free, root)
    case Loaded(entry, top, root) =>
      && Loadable(file, segs) && roots' == roots + [root] && Confined(m0, free0, m, free, root)
      && entry == EntryPoint(file) && top == StackTop(Highest(segs))
      && Program(m, root, file, segs, top) && StackFresh(m, root, top, top)
      && forall j | 0 <= j < |segs| :: Safe(segs[j])
  }

  /** `load_elf` past the check of the header. */
  method LoadFile(pages: PageAllocation.PageAllocator, file: seq<Byte>) returns (r: LoadResult)
    requires pages.Valid() && Sane(file) && HasHeader(file)
    modifies pages.ram, pages`head, pages`count, pages`free, pages`roots
    ensures pages.Valid() && pages.managed == old(pages.managed)
    ensures LoadedRightly(r, old(pages.Mem()), old(pages.free), old(pages.roots), pages.Mem(), pages.free, pages.roots,
                          file)
    ensures FramesCounted(r, |old(pages.free)|, |pages.free|, Segments(file, 0))
  {
    ghost var m0, free0 := pages.Mem(), pages.free;
    var taken := pages.TakeRoot();
    if taken == None {
      return Panicked(NoFrame);
    }
    EmptySpace(m0, free0, pages.free, taken.value, file);
    EmptyCounted(m0, free0, pages.free, taken.value);
    r := LoadInto(pages, file, taken.value, m0, free0);
  }

  /** `load_elf`: a new space whose frames were free, holding exactly the segments and a stack; or why not. Without a
      segment to load, the L1 table taken stays behind, a space nobody uses. A file is loaded exactly when it has a
      header and nothing in it stands against that, and there are as many free frames as it takes. */
  method LoadElf(pages: PageAllocation.PageAllocator, file: seq<Byte>) returns (r: LoadResult)
    requires pages.Valid() && Sane(file)
    modifies pages.ram, pages`head, pages`count, pages`free, pages`roots
    ensures pages.Valid() && pages.managed == old(pages.managed)
    ensures r.BadHeader? <==> !HasHeader(file)
    ensures r.BadHeader? ==>
      pages.Mem() == old(pages.Mem()) && pages.free == old(pages.free)
      && pages.roots == old(pages.roots)
    ensures HasHeader(file) ==>
      LoadedRightly(r, old(pages.Mem()), old(pages.free), old(pages.roots), pages.Mem(), pages.free, pages.roots, file)
      && FramesCounted(r, |old(pages.free)|, |pages.free|, Segments(file, 0))
    ensures r.Loaded? <==>
      HasHeader(file) && Loadable(file, Segments(file, 0)) && FramesToLoad(Segments(file, 0)) <= |old(pages.free)|
  {
    if !(|file| >= HEADER_SIZE && Field(file, 0, 4) == ELF_MAGIC) {
      return BadHeader;
    }
    r := LoadFile(pages, file);
    LoadedExactly(r, |old(pages.free)|, |pages.free|, file, Segments(file, 0));
  }

  lemma EmptyCounted(m: Memory, free0: seq<FrameNo>, free: seq<FrameNo>, root: nat)
    requires free0 != [] && free == free0[1..]
    requires forall path | |path| > 0 :: LeafAt(m, root, path) == None
    ensures Counted(free0, m, free, root, [])
  {
    NoPagesNoFrames(NO_TABLES);
  }

  /** A load succeeds exactly when nothing in the file stands against it and the frames suffice. */
  lemma LoadedExactly(r: LoadResult, before: nat, after: nat, file: seq<Byte>, segs: seq<Segment>)
    requires FramesCounted(r, before, after, segs)
    requires match r
             case Panicked(why) => Blamed(why, file, segs)
             case NoSegments(_) => segs == []
             case Loaded(_, _, _) => Loadable(file, segs)
             case BadHeader => false
    ensures r.Loaded? <==> Loadable(file, segs) && FramesToLoad(segs) <= before
  {
  }

  lemma EmptySpace(m: Memory, free0: seq<FrameNo>, free: seq<FrameNo>, root: nat, file: seq<Byte>)
    requires free0 != [] && root == free0[0] && free == free0[1..] && Chain(m, free0)
    requires forall g: nat {:trigger Owns(m, root, 1, g)} :: Owns(m, root, 1, g) == if g == root then 1 else 0
    requires forall path | |path| > 0 :: LeafAt(m, root, path) == None
    ensures Confined(m, free0, m, free, root) && Image(m, root, file, [], free != [])
  {
    forall g: nat ensures In(free, g) + Owns(m, root, 1, g) == In(free0, g) {
      ChainFrames(m, free0);
    }
    forall a: nat ensures UserByte(m, root, a).None? && !Covered([], a) {
      assert |PathOf(a)| == 3;
    }
  }

  lemma {:induction false} HighestInRange(segs: seq<Segment>)
    requires forall j | 0 <= j < |segs| :: Safe(segs[j])
    ensures Highest(segs) + 0x20000 <= USER_TOP
    decreases |segs|
  {
    if segs != [] {
      HighestInRange(segs[..|segs| - 1]);
      assert Safe(segs[|segs| - 1]);
    }
  }
}
