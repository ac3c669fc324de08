/** The pages of the kernel stacks: each slot has pages of its own, and a page never mapped below them. */
module KernelStackPages {
  import opened Words
  import opened Addresses
  import opened Lifecycle
  import opened PageTree
  import opened FreeFrames
  import opened TreePaths
  import opened FrameCounts
  import PageAllocation

  // As many slots as fit between the region's start and the top of the address space.
  const MAX_SLOTS: nat := 0x123_6DB6

  const STACK_PAGES: nat := 7

  /** Page n of a slot, counted from its lowest. */
  function PageVa(slot: nat, n: nat): nat {
    StackStart(slot) + n * PAGE_SIZE
  }

  /** Its number among the pages of the kernel's table. */
  function SlotPage(slot: nat, n: nat): nat {
    0x8_0000 + slot * STACK_PAGES + n
  }

  /** No two pages of slots, the unmapped ones included, share an entry of the kernel's table. */
  lemma PagesDistinct(j: nat, a: nat, k: nat, b: nat)
    requires j < MAX_SLOTS && k < MAX_SLOTS && a < STACK_PAGES && b < STACK_PAGES
    requires PathOf(PageVa(j, a)) == PathOf(PageVa(k, b))
    ensures j == k && a == b
  {
    PathIsPageNumber(PageVa(j, a), PageVa(k, b));
    PageNumber(j, a);
    PageNumber(k, b);
  }

  lemma PageNumber(slot: nat, n: nat)
    requires slot < MAX_SLOTS && n < STACK_PAGES
    ensures PageVa(slot, n) / 0x1000 % 0x800_0000 == SlotPage(slot, n) < TREE_SPAN
  {
    assert PageVa(slot, n) == (0xf_ffff_f808_0000 + slot * STACK_PAGES + n) * 0x1000;
    assert 0xf_ffff_f808_0000 == 0x1ff_ffff * 0x800_0000 + 0x8_0000;
  }

  lemma SlotPageOf(slot: nat, n: nat)
    requires slot < MAX_SLOTS && n < STACK_PAGES
    ensures PathOfPage(SlotPage(slot, n)) == PathOf(PageVa(slot, n)) && SlotPage(slot, n) < TREE_SPAN
  {
    PageNumber(slot, n);
    var p := SlotPage(slot, n);
    assert p * PAGE_SIZE / 0x1000 % 0x800_0000 == p;
    PathIsPageNumber(p * PAGE_SIZE, PageVa(slot, n));
  }

  /** The pages that are mapped while a slot is in use. */
  function SlotPages(k: nat): seq<nat> {
    Upward(SlotPage(k, 1), SlotPage(k, STACK_PAGES))
  }

  /** The frames it takes to map them. */
  ghost function StackFrames(m: Memory, root: nat, k: nat): nat {
    FramesOf(TablesOf(m, root), SlotPages(k))
  }

  /** A stack takes its six pages, and at most two tables at each level. */
  lemma AtMostTenFrames(m: Memory, root: nat, k: nat)
    ensures 6 <= StackFrames(m, root, k) <= 10
  {
    TwoSpans(TablesOf(m, root), k, 2, L3_SPAN);
    TwoSpans(TablesOf(m, root), k, 1, L2_SPAN);
  }

  lemma TwoSpans(base: iset<seq<nat>>, k: nat, depth: nat, size: nat)
    requires depth <= 3 && (size == L2_SPAN || size == L3_SPAN)
    ensures |Spans(base, SlotPages(k), depth, size)| <= 2
  {
    var a := SlotPage(k, 1) / size;
    forall s | s in Spans(base, SlotPages(k), depth, size) ensures s in {a, a + 1} {
      var n :| n in SlotPages(k) && n / size == s;
      NextSpan(SlotPage(k, 1), n);
    }
    Fewer(Spans(base, SlotPages(k), depth, size), {a, a + 1});
  }

  lemma NextSpan(a: nat, n: nat)
    requires a <= n < a + STACK_PAGES
    ensures n / L2_SPAN == a / L2_SPAN || n / L2_SPAN == a / L2_SPAN + 1
    ensures n / L3_SPAN == a / L3_SPAN || n / L3_SPAN == a / L3_SPAN + 1
  {
  }

  lemma Fewer(s: set<nat>, t: set<nat>)
    requires s <= t
    ensures |s| <= |t|
  {
    assert t == s + (t - s);
  }

  ghost predicate PageMapped(m: Memory, root: nat, slot: nat, n: nat) {
    LeafAt(m, root, PathOf(PageVa(slot, n))).Some?
  }

  /** The pages of a slot in use are mapped, but for the lowest; those of a free one are not. */
  ghost predicate SlotMapped(m: Memory, root: nat, slot: nat, used: bool) {
    forall n: nat {:trigger PageMapped(m, root, slot, n)} | n < STACK_PAGES ::
      PageMapped(m, root, slot, n) <==> used && n > 0
  }

  /** The pages of every slot but k are mapped as before. */
  ghost predicate OthersMapped(m: Memory, m': Memory, root: nat, k: nat) {
    forall j: nat, i: nat {:trigger PageMapped(m', root, j, i)} | j < MAX_SLOTS && j != k && i < STACK_PAGES ::
      PageMapped(m', root, j, i) <==> PageMapped(m, root, j, i)
  }

  /** Of slot k pages 1 to n - 1 are mapped. */
  ghost predicate MappedUpto(m: Memory, root: nat, k: nat, n: nat) {
    forall i: nat {:trigger PageMapped(m, root, k, i)} | i < STACK_PAGES :: PageMapped(m, root, k, i) <==> 0 < i < n
  }

  lemma MappedOne(m: Memory, m1: Memory, m2: Memory, root: nat, k: nat, n: nat, leaf: Word)
    requires k < MAX_SLOTS && 0 < n < STACK_PAGES && MappedUpto(m1, root, k, n) && OthersMapped(m, m1, root, k)
    requires Rebound(m1, m2, root, PathOf(PageVa(k, n)), Some(leaf))
    ensures MappedUpto(m2, root, k, n + 1) && OthersMapped(m, m2, root, k)
  {
    forall j: nat, i: nat | j < MAX_SLOTS && i < STACK_PAGES && !(j == k && i == n)
      ensures PageMapped(m2, root, j, i) <==> PageMapped(m1, root, j, i)
    {
      if PathOf(PageVa(j, i)) == PathOf(PageVa(k, n)) { PagesDistinct(j, i, k, n); }
    }
  }

  /** Since memory m and list free0, when the tables of the tree were those in `base`, pages 1 to n - 1 of slot k have
      been mapped, and nothing else. */
  ghost predicate Mapping(base: iset<seq<nat>>, m: Memory, free0: seq<FrameNo>, m1: Memory, free: seq<FrameNo>,
                          root: nat, k: nat, n: nat)
    requires n > 0
  {
    var done := Upward(SlotPage(k, 1), SlotPage(k, n));
    && MappedUpto(m1, root, k, n) && OthersMapped(m, m1, root, k)
    && Shifted(m, free0, m1, free, root)
    && (forall frames: nat {:trigger Takes(base, done, frames)} | Takes(base, done, frames) ::
          Grown(base, m1, root, done) && |free| + frames == |free0|)
  }

  /** There are too few frames for the stack in slot k. */
  ghost predicate Lacking(base: iset<seq<nat>>, free: seq<FrameNo>, k: nat) {
    var whole := SlotPages(k);
    forall frames: nat {:trigger Takes(base, whole, frames)} | Takes(base, whole, frames) :: |free| < frames
  }

  lemma MappingStart(m: Memory, free: seq<FrameNo>, root: nat, k: nat)
    requires SlotMapped(m, root, k, false)
    ensures Mapping(TablesOf(m, root), m, free, m, free, root, k, 1)
  {
    assert Upward(SlotPage(k, 1), SlotPage(k, 1)) == [];
    NotGrownYet(m, root);
    NoPagesNoFrames(TablesOf(m, root));
  }

  lemma MappingNext(base: iset<seq<nat>>, m: Memory, free0: seq<FrameNo>, m1: Memory, free1: seq<FrameNo>, m2: Memory,
                    free2: seq<FrameNo>, root: nat, k: nat, n: nat, got: AllocResult)
    requires k < MAX_SLOTS && 0 < n < STACK_PAGES && root < |m1| && Proper(m1, root, 1)
    requires Mapping(base, m, free0, m1, free1, root, k, n)
    requires AllocPost(m1, free1, m2, free2, root, PathOf(PageVa(k, n)), got)
    ensures !got.AlreadyMapped? && Shifted(m, free0, m2, free2, root)
    ensures got.Allocated? ==> Mapping(base, m, free0, m2, free2, root, k, n + 1)
    ensures got.OutOfFrames? ==> Lacking(base, free0, k)
  {
    var done := Upward(SlotPage(k, 1), SlotPage(k, n));
    assert !PageMapped(m1, root, k, n) && Takes(base, done, FramesOf(base, done));
    SlotPageOf(k, n);
    ShiftedTrans(m, free0, m1, free1, m2, free2, root);
    CountNext(base, m1, free1, m2, free2, root, done, SlotPage(k, n), got);
    MorePages(base, k, n);
    if got.Allocated? { MappedOne(m, m1, m2, root, k, n, Entry(got.frame, PAGE_FLAGS)); }
  }

  lemma MorePages(base: iset<seq<nat>>, k: nat, n: nat)
    requires 0 < n < STACK_PAGES
    ensures Upward(SlotPage(k, 1), SlotPage(k, n)) + [SlotPage(k, n)] == Upward(SlotPage(k, 1), SlotPage(k, n + 1))
    ensures FramesOf(base, Upward(SlotPage(k, 1), SlotPage(k, n + 1))) <= FramesOf(base, SlotPages(k))
  {
    FewerPages(base, SlotPage(k, 1), SlotPage(k, n + 1), SlotPage(k, STACK_PAGES));
  }

  lemma FewerPages(base: iset<seq<nat>>, a: nat, b: nat, c: nat)
    requires a <= b <= c
    ensures FramesOf(base, Upward(a, b)) <= FramesOf(base, Upward(a, c))
  {
    FramesOfMore(base, Upward(a, b), Upward(b, c));
    assert Upward(a, b) + Upward(b, c) == Upward(a, c);
  }

  lemma MappingDone(base: iset<seq<nat>>, m: Memory, free0: seq<FrameNo>, m1: Memory, free: seq<FrameNo>, root: nat,
                    k: nat)
    requires Mapping(base, m, free0, m1, free, root, k, STACK_PAGES)
    ensures Shifted(m, free0, m1, free, root) && |free| + FramesOf(base, SlotPages(k)) == |free0|
    ensures SlotMapped(m1, root, k, true) && OthersMapped(m, m1, root, k)
  {
    assert Takes(base, SlotPages(k), FramesOf(base, SlotPages(k)));
  }

  lemma LackingIs(base: iset<seq<nat>>, free: seq<FrameNo>, k: nat)
    requires Lacking(base, free, k)
    ensures |free| < FramesOf(base, SlotPages(k))
  {
    assert Takes(base, SlotPages(k), FramesOf(base, SlotPages(k)));
  }

  datatype StackResult = Mapped | FoundMapped | FramesLacking

  /** The loop of `alloc_stack`: a free slot's pages are mapped one after the other. That succeeds exactly with as many
      free frames as its pages and the tables missing for them take, and just these are taken. `alloc_page` never finds
      a page mapped already. */
  method MapStack(pages: PageAllocation.PageAllocator, root: nat, k: nat) returns (r: StackResult)
    requires pages.Valid() && root in pages.roots && k < MAX_SLOTS && SlotMapped(pages.Mem(), root, k, false)
    modifies pages.ram, pages`head, pages`count, pages`free
    ensures pages.Valid() && Shifted(old(pages.Mem()), old(pages.free), pages.Mem(), pages.free, root)
    ensures r != FoundMapped
    ensures r.Mapped? <==> StackFrames(old(pages.Mem()), root, k) <= |old(pages.free)|
    ensures r.Mapped? ==> |pages.free| + StackFrames(old(pages.Mem()), root, k) == |old(pages.free)|
    ensures r.Mapped? ==>
      SlotMapped(pages.Mem(), root, k, true) && OthersMapped(old(pages.Mem()), pages.Mem(), root, k)
  {
    ghost var m, free0 := pages.Mem(), pages.free;
    ghost var base := TablesOf(m, root);
    MappingStart(m, free0, root, k);
    r := MapPages(pages, root, k, base, m, free0);
    if r.Mapped? {
      MappingDone(base, m, free0, pages.Mem(), pages.free, root, k);
    } else {
      LackingIs(base, free0, k);
    }
  }

  method MapPages(pages: PageAllocation.PageAllocator, root: nat, k: nat, ghost base: iset<seq<nat>>, ghost m: Memory,
                  ghost free0: seq<FrameNo>) returns (r: StackResult)
    requires pages.Valid() && root in pages.roots && k < MAX_SLOTS
    requires Mapping(base, m, free0, pages.Mem(), pages.free, root, k, 1)
    modifies pages.ram, pages`head, pages`count, pages`free
    ensures pages.Valid() && r != FoundMapped && Shifted(m, free0, pages.Mem(), pages.free, root)
    ensures r.Mapped? ==> Mapping(base, m, free0, pages.Mem(), pages.free, root, k, STACK_PAGES)
    ensures r.FramesLacking? ==> Lacking(base, free0, k)
  {
    var n := 1;
    while n < STACK_PAGES
      invariant 1 <= n <= STACK_PAGES && pages.Valid() && root in pages.roots
      invariant Mapping(base, m, free0, pages.Mem(), pages.free, root, k, n)
    {
      r := MapPage(pages, root, k, n, base, m, free0);
      if r != Mapped {
        return;
      }
      n := n + 1;
    }
    r := Mapped;
  }

  /** One turn of that loop. */
  method MapPage(pages: PageAllocation.PageAllocator, root: nat, k: nat, n: nat, ghost base: iset<seq<nat>>,
                 ghost m: Memory, ghost free0: seq<FrameNo>) returns (r: StackResult)
    requires pages.Valid() && root in pages.roots && k < MAX_SLOTS && 0 < n < STACK_PAGES
    requires Mapping(base, m, free0, pages.Mem(), pages.free, root, k, n)
    modifies pages.ram, pages`head, pages`count, pages`free
    ensures pages.Valid() && r != FoundMapped && Shifted(m, free0, pages.Mem(), pages.free, root)
    ensures r.Mapped? ==> Mapping(base, m, free0, pages.Mem(), pages.free, root, k, n + 1)
    ensures r.FramesLacking? ==> Lacking(base, free0, k)
  {
    ghost var m1, free1 := pages.Mem(), pages.free;
    RootInPartition(m1, free1, pages.roots, pages.managed, root);
    var got := pages.AllocPage(PageVa(k, n), root);
    MappingNext(base, m, free0, m1, free1, pages.Mem(), pages.free, root, k, n, got);
    match got
    case Allocated(_) => r := Mapped;
    case AlreadyMapped => r := FoundMapped;
    case OutOfFrames => r := FramesLacking;
  }

  lemma UnmappedOne(m: Memory, m1: Memory, m2: Memory, root: nat, k: nat, n: nat)
    requires k < MAX_SLOTS && 0 < n < STACK_PAGES && MappedFrom(m1, root, k, n) && OthersMapped(m, m1, root, k)
    requires Rebound(m1, m2, root, PathOf(PageVa(k, n)), None)
    ensures MappedFrom(m2, root, k, n + 1) && OthersMapped(m, m2, root, k)
  {
    forall j: nat, i: nat | j < MAX_SLOTS && i < STACK_PAGES && !(j == k && i == n)
      ensures PageMapped(m2, root, j, i) <==> PageMapped(m1, root, j, i)
    {
      if PathOf(PageVa(j, i)) == PathOf(PageVa(k, n)) { PagesDistinct(j, i, k, n); }
    }
  }

  /** Of slot k pages n and above are mapped. */
  ghost predicate MappedFrom(m: Memory, root: nat, k: nat, n: nat) {
    forall i: nat {:trigger PageMapped(m, root, k, i)} | i < STACK_PAGES :: PageMapped(m, root, k, i) <==> n <= i
  }

  /** The loop of `free_stack`: a slot in use becomes a free one, and its six frames go back to the list. */
  method UnmapStack(pages: PageAllocation.PageAllocator, root: nat, k: nat)
    requires pages.Valid() && root in pages.roots && k < MAX_SLOTS && SlotMapped(pages.Mem(), root, k, true)
    modifies pages.ram, pages`head, pages`count, pages`free
    ensures pages.Valid() && Shifted(old(pages.Mem()), old(pages.free), pages.Mem(), pages.free, root)
    ensures SlotMapped(pages.Mem(), root, k, false) && OthersMapped(old(pages.Mem()), pages.Mem(), root, k)
    ensures |pages.free| == |old(pages.free)| + 6 && SameTables(old(pages.Mem()), pages.Mem(), root)
  {
    ghost var m, free0 := pages.Mem(), pages.free;
    var n := 1;
    while n < STACK_PAGES
      invariant 1 <= n <= STACK_PAGES && pages.Valid() && root in pages.roots
      invariant MappedFrom(pages.Mem(), root, k, n) && OthersMapped(m, pages.Mem(), root, k)
      invariant Shifted(m, free0, pages.Mem(), pages.free, root) && |pages.free| == |free0| + n - 1
      invariant SameTables(m, pages.Mem(), root)
    {
      ghost var m1, free1 := pages.Mem(), pages.free;
      assert PageMapped(m1, root, k, n);
      pages.FreePage(PageVa(k, n), root);
      UnmappedOne(m, m1, pages.Mem(), root, k, n);
      ShiftedTrans(m, free0, m1, free1, pages.Mem(), pages.free, root);
      SameTablesTrans(m, m1, pages.Mem(), root);
      n := n + 1;
    }
  }
}
