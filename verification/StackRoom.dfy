/** A user space always has the fourteen pages of its stack: torn down, it leaves room for a kernel stack. */
module StackRoom {
  import opened Words
  import opened Addresses
  import opened Bytes
  import opened PageTree
  import opened FreeFrames
  import opened TreeLoops
  import opened TreeCopy
  import opened TreePaths
  import opened UserMemory
  import opened FrameCounts
  import opened ElfImage
  import KernelStackPages
  import AddressSpaces
  import PageAllocation

  /** Fourteen pages from page lo on are mapped. */
  ghost predicate StackAt(m: Memory, r: nat, lo: nat) {
    forall n: nat {:trigger PageBound(m, r, n)} | lo <= n < lo + STACK_PAGES :: PageBound(m, r, n)
  }

  ghost predicate HasStack(m: Memory, r: nat) {
    exists lo: nat :: StackAt(m, r, lo)
  }

  // ---------------------------------------------------------------- every space has a stack

  lemma ProgramHasStack(m: Memory, root: nat, file: seq<Byte>, segs: seq<Segment>, top: nat)
    requires top == StackTop(Highest(segs)) <= USER_TOP && Program(m, root, file, segs, top)
    ensures HasStack(m, root)
  {
    var last := (top - 1) / PAGE_SIZE;
    forall n: nat | last + 1 - STACK_PAGES <= n <= last ensures PageBound(m, root, n) {
      assert InStack(top, n * PAGE_SIZE) && n * PAGE_SIZE < USER_TOP;
      assert UserByte(m, root, n * PAGE_SIZE).Some?;
    }
    assert StackAt(m, root, last + 1 - STACK_PAGES);
  }

  lemma SamePagesHasStack(m: Memory, r: nat, m': Memory, r': nat)
    requires HasStack(m, r)
    requires forall n: nat {:trigger PageBound(m', r', n)} :: PageBound(m, r, n) ==> PageBound(m', r', n)
    ensures HasStack(m', r')
  {
    var lo: nat :| StackAt(m, r, lo);
    assert StackAt(m', r', lo);
  }

  lemma CopyHasStack(m: Memory, s: nat, m': Memory, d: nat)
    requires CopyOf(m, s, m', d, 1) && HasStack(m, s)
    ensures HasStack(m', d)
  {
    forall n: nat | PageBound(m, s, n) ensures PageBound(m', d, n) {
      CopyTranslates(m, s, m', d, 1, PathOfPage(n));
    }
    SamePagesHasStack(m, s, m', d);
  }

  lemma AgreeHasStack(m: Memory, m': Memory, r: nat)
    requires Agree(m, m', r, 1) && HasStack(m, r)
    ensures HasStack(m', r)
  {
    forall n: nat | PageBound(m, r, n) ensures PageBound(m', r, n) {
      WalkFrame(m, m', r, PathOfPage(n), 1);
    }
    SamePagesHasStack(m, r, m', r);
  }

  lemma WrittenHasStack(m: Memory, m': Memory, r: nat)
    requires SameLeaves(m, m', r) && HasStack(m, r)
    ensures HasStack(m', r)
  {
    forall n: nat | PageBound(m, r, n) ensures PageBound(m', r, n) {
      assert LeafAt(m', r, PathOfPage(n)) == LeafAt(m, r, PathOfPage(n));
    }
    SamePagesHasStack(m, r, m', r);
  }

  // ---------------------------------------------------------------- its frames

  /** The frame of page n. */
  ghost function PageFrameOf(m: Memory, r: nat, n: nat): nat
    requires PageBound(m, r, n)
  {
    FrameOf(LeafAt(m, r, PathOfPage(n)).value)
  }

  lemma PagePathsDiffer(n: nat, x: nat)
    requires n < TREE_SPAN && x < TREE_SPAN && PathOfPage(n) == PathOfPage(x)
    ensures n == x
  {
    PathIsPageNumber(n * PAGE_SIZE, x * PAGE_SIZE);
    assert n * PAGE_SIZE / 0x1000 == n && x * PAGE_SIZE / 0x1000 == x;
  }

  /** The frames of k pages from page lo on: as many, and all owned by the space. */
  lemma {:induction false} PageFrames(m: Memory, r: nat, lo: nat, k: nat) returns (frames: set<nat>)
    requires Proper(m, r, 1) && forall n: nat {:trigger PageBound(m, r, n)} | lo <= n < lo + k :: PageBound(m, r, n)
    ensures |frames| == k && forall g | g in frames :: Owns(m, r, 1, g) > 0
    ensures forall g | g in frames ::
      exists n: nat :: lo <= n < lo + k && PageBound(m, r, n) && PageFrameOf(m, r, n) == g
    decreases k
  {
    frames := {};
    if k > 0 {
      var last := lo + k - 1;
      assert PageBound(m, r, last);
      var rest := PageFrames(m, r, lo, k - 1);
      var g := PageFrameOf(m, r, last);
      LeafOwned(m, r, PathOfPage(last), 1);
      if g in rest {
        var n: nat :| lo <= n < lo + k - 1 && PageBound(m, r, n) && PageFrameOf(m, r, n) == g;
        LeafInjective(m, r, PathOfPage(n), PathOfPage(last), 1);
        PagePathsDiffer(n, last);
        assert false;
      }
      frames := rest + {g};
    }
  }

  lemma MoreFrames(m: Memory, free: seq<FrameNo>, free': seq<FrameNo>, r: nat, frames: set<nat>)
    requires |Elements(free)| == |free| && |Elements(free')| == |free'|
    requires forall g: nat {:trigger Owns(m, r, 1, g)} :: In(free, g) + Owns(m, r, 1, g) <= 1
    requires forall g: nat {:trigger In(free', g)} :: In(free', g) == In(free, g) + Owns(m, r, 1, g)
    requires forall g | g in frames :: Owns(m, r, 1, g) > 0
    ensures |free'| >= |free| + |frames|
  {
    var all := Elements(free) + frames;
    forall g | g in all ensures g in Elements(free') {
      assert In(free', g) == In(free, g) + Owns(m, r, 1, g);
    }
    forall g | g in frames ensures g !in Elements(free) {
      assert In(free, g) + Owns(m, r, 1, g) <= 1;
    }
    assert Elements(free) !! frames;
    KernelStackPages.Fewer(all, Elements(free'));
  }

  /** Torn down, a space leaves at least the frames of its stack on the list. */
  lemma RoomAfterTeardown(m: Memory, free: seq<FrameNo>, m': Memory, free': seq<FrameNo>, r: nat)
    requires Proper(m, r, 1) && HasStack(m, r) && Chain(m, free) && Chain(m', free')
    requires forall g: nat {:trigger Owns(m, r, 1, g)} :: In(free, g) + Owns(m, r, 1, g) <= 1
    requires forall g: nat {:trigger In(free', g)} :: In(free', g) == In(free, g) + Owns(m, r, 1, g)
    ensures |free'| >= |free| + STACK_PAGES
  {
    var lo: nat :| StackAt(m, r, lo);
    var frames := PageFrames(m, r, lo, STACK_PAGES);
    ChainLength(m, free);
    ChainLength(m', free');
    MoreFrames(m, free, free', r, frames);
  }

  // ---------------------------------------------------------------- what an operation on one space leaves alone

  /** What happens in the space of root i and to free frames leaves every other space as it was. */
  lemma OtherAgrees(m: Memory, free: seq<FrameNo>, m': Memory, roots: seq<nat>, managed: set<nat>, i: nat, r: nat)
    requires Partition(m, free, roots, managed) && i < |roots| && r in roots && r != roots[i] && |m'| == |m|
    requires forall g: nat | g < |m| && In(free, g) == 0 && Owns(m, roots[i], 1, g) == 0 :: m'[g] == m[g]
    ensures Agree(m, m', r, 1)
  {
    var j :| 0 <= j < |roots| && roots[j] == r;
    OthersAgree(m, free, m', roots, managed, i);
    var k := AddressSpaces.OneOfTheRest(roots, i, j);
  }

  lemma ShiftedOthers(m: Memory, free: seq<FrameNo>, m': Memory, free': seq<FrameNo>, roots: seq<nat>,
                      managed: set<nat>, root: nat, r: nat)
    requires Partition(m, free, roots, managed) && root in roots && r in roots && r != root
    requires Shifted(m, free, m', free', root)
    ensures Agree(m, m', r, 1)
  {
    var i :| 0 <= i < |roots| && roots[i] == root;
    OtherAgrees(m, free, m', roots, managed, i, r);
  }

  lemma AgreeTrans(m: Memory, m1: Memory, m2: Memory, r: nat)
    requires Agree(m, m1, r, 1) && Agree(m1, m2, r, 1)
    ensures Agree(m, m2, r, 1)
  {
    forall g: nat | g < |m| && Owns(m, r, 1, g) > 0 ensures m2[g] == m[g] {
      OwnsFrame(m, m1, r, 1, g);
    }
  }

  /** What the kernel's table maps and which tables it has. */
  lemma AgreeMaps(m: Memory, m': Memory, root: nat)
    requires Agree(m, m', root, 1)
    ensures TablesOf(m', root) == TablesOf(m, root)
    ensures forall k: nat, n: nat {:trigger KernelStackPages.PageMapped(m', root, k, n)} ::
      KernelStackPages.PageMapped(m', root, k, n) <==> KernelStackPages.PageMapped(m, root, k, n)
  {
    forall q | IsTablePath(q) ensures LeafAt(m', root, q) == LeafAt(m, root, q) {
      WalkFrame(m, m', root, q, 1);
    }
    forall k: nat, n: nat
      ensures KernelStackPages.PageMapped(m', root, k, n) <==> KernelStackPages.PageMapped(m, root, k, n)
    {
      WalkFrame(m, m', root, PathOf(KernelStackPages.PageVa(k, n)), 1);
    }
  }

  // ---------------------------------------------------------------- exec's stack

  /** `exec` from freeing the old space to mapping the new kernel stack: however few frames were free, those of the old
      space are enough. */
  method StackAfterTeardown(pages: PageAllocation.PageAllocator, root: nat, ghost i: nat, space: nat, k: nat)
    requires pages.Valid() && i < |pages.roots| && pages.roots[i] == space && root in pages.roots && root != space
    requires HasStack(pages.Mem(), space)
    requires k < KernelStackPages.MAX_SLOTS && KernelStackPages.SlotMapped(pages.Mem(), root, k, false)
    modifies pages.ram, pages`head, pages`count, pages`free, pages`roots
    ensures pages.Valid() && pages.managed == old(pages.managed)
    ensures pages.roots == old(pages.roots[..i] + pages.roots[i + 1..])
    ensures KernelStackPages.SlotMapped(pages.Mem(), root, k, true)
    ensures KernelStackPages.OthersMapped(old(pages.Mem()), pages.Mem(), root, k)
    ensures |pages.free| + KernelStackPages.StackFrames(old(pages.Mem()), root, k)
         == |old(pages.free)| + old(Size(pages.Mem(), space, 1))
    ensures forall r | r in old(pages.roots) && r != space && r != root :: Agree(old(pages.Mem()), pages.Mem(), r, 1)
  {
    ghost var m, free0, roots := pages.Mem(), pages.free, pages.roots;
    RootInPartition(m, free0, roots, pages.managed, space);
    pages.FreePageTable(space, i);
    ghost var m1, free1 := pages.Mem(), pages.free;
    RoomAfterTeardown(m, free0, m1, free1, space);
    forall r | r in roots && r != space ensures Agree(m, m1, r, 1) && r in pages.roots {
      OtherAgrees(m, free0, m1, roots, pages.managed, i, r);
    }
    AgreeMaps(m, m1, root);
    KernelStackPages.AtMostTenFrames(m1, root, k);
    var r := KernelStackPages.MapStack(pages, root, k);
    forall r | r in roots && r != space && r != root ensures Agree(m, pages.Mem(), r, 1) {
      ShiftedOthers(m1, free1, pages.Mem(), pages.free, pages.roots, pages.managed, root, r);
      AgreeTrans(m, m1, pages.Mem(), r);
    }
  }
}
