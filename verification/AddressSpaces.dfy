/** What programs see of the page allocator: separate address spaces, copied by fork and replaced by exec. */
module AddressSpaces {
  import opened Words
  import opened Addresses
  import opened Bytes
  import opened PageTree
  import opened FreeFrames
  import opened TreeLoops
  import opened TreeCopy
  import opened TreePaths
  import opened UserMemory
  import opened ElfImage
  import opened ElfLoading
  import opened ArgumentLayout
  import opened ArgumentPassing
  import PageAllocation

  /** A program reads the same bytes at the same addresses. */
  ghost predicate ReadsTheSame(m: Memory, r: nat, m': Memory, r': nat) {
    forall a: nat {:trigger UserByte(m', r', a)} | a < USER_TOP :: UserByte(m', r', a) == UserByte(m, r, a)
  }

  /** What a program reads depends on the frames of its own space only. */
  lemma AgreeReads(m: Memory, m': Memory, r: nat)
    requires Agree(m, m', r, 1)
    ensures ReadsTheSame(m, r, m', r)
  {
    forall a: nat | a < USER_TOP
      ensures UserByte(m', r, a) == UserByte(m, r, a)
    {
      WalkFrame(m, m', r, PathOf(a), 1);
      if LeafAt(m, r, PathOf(a)).Some? {
        LeafOwned(m, r, PathOf(a), 1);
      }
    }
  }

  /** Whatever happens in the space of root k and to free frames, every other program reads what it read. */
  lemma OthersReadTheSame(m: Memory, free: seq<FrameNo>, m': Memory, roots: seq<nat>, managed: set<nat>, k: nat, j: nat)
    requires Partition(m, free, roots, managed) && k < |roots| && j < |roots| && j != k && |m'| == |m|
    requires forall g: nat | g < |m| && In(free, g) == 0 && Owns(m, roots[k], 1, g) == 0 :: m'[g] == m[g]
    ensures ReadsTheSame(m, roots[j], m', roots[j])
  {
    OthersAgree(m, free, m', roots, managed, k);
    var i := OneOfTheRest(roots, k, j);
    AgreeReads(m, m', roots[j]);
  }

  lemma OneOfTheRest(roots: seq<nat>, k: nat, j: nat) returns (i: nat)
    requires k < |roots| && j < |roots| && j != k
    ensures i < |roots| - 1 && (roots[..k] + roots[k + 1..])[i] == roots[j]
  {
    i := if j < k then j else j - 1;
  }

  /** No two pages, of one space or of two, lie in the same frame. */
  lemma FramesNotShared(m: Memory, free: seq<FrameNo>, roots: seq<nat>, managed: set<nat>, j: nat, a: nat,
                        k: nat, b: nat)
    requires Partition(m, free, roots, managed) && j < |roots| && k < |roots| && a < USER_TOP && b < USER_TOP
    requires forall g | g in managed :: g < |m|
    requires LeafAt(m, roots[j], PathOf(a)).Some? && LeafAt(m, roots[k], PathOf(b)).Some?
    requires FrameOf(LeafAt(m, roots[j], PathOf(a)).value) == FrameOf(LeafAt(m, roots[k], PathOf(b)).value)
    ensures j == k && a / PAGE_SIZE == b / PAGE_SIZE
  {
    var g := FrameOf(LeafAt(m, roots[j], PathOf(a)).value);
    LeafOwned(m, roots[j], PathOf(a), 1);
    LeafOwned(m, roots[k], PathOf(b), 1);
    if j != k {
      var i := OneOfTheRest(roots, k, j);
      OtherRoot(m, free, roots, managed, k, i, g);
      assert false;
    }
    RootInPartition(m, free, roots, managed, roots[k]);
    LeafInjective(m, roots[k], PathOf(a), PathOf(b), 1);
    SamePage(a, b);
  }

  /** A forked child is mapped exactly where its parent is, with the same attribute bits, and reads the same bytes. */
  lemma ForkedReads(m: Memory, s: nat, m': Memory, d: nat)
    requires CopyOf(m, s, m', d, 1)
    ensures ReadsTheSame(m, s, m', d)
    ensures forall a: nat {:trigger LeafAt(m', d, PathOf(a))} ::
      LeafAt(m', d, PathOf(a)).Some? <==> LeafAt(m, s, PathOf(a)).Some?
    ensures forall a: nat {:trigger LeafAt(m', d, PathOf(a))} | LeafAt(m, s, PathOf(a)).Some? ::
      LeafAt(m', d, PathOf(a)).Some? && Flags(LeafAt(m', d, PathOf(a)).value) == Flags(LeafAt(m, s, PathOf(a)).value)
  {
    forall a: nat
      ensures LeafAt(m', d, PathOf(a)).Some? <==> LeafAt(m, s, PathOf(a)).Some?
      ensures LeafAt(m, s, PathOf(a)).Some? ==>
        LeafAt(m', d, PathOf(a)).Some? && Flags(LeafAt(m', d, PathOf(a)).value) == Flags(LeafAt(m, s, PathOf(a)).value)
      ensures UserByte(m', d, a) == UserByte(m, s, a)
    {
      CopyTranslates(m, s, m', d, 1, PathOf(a));
    }
  }

  /** The same spaces out of the same frames leave the same frames free. */
  lemma SameSpacesSameFree(m: Memory, free: seq<FrameNo>, m': Memory, free': seq<FrameNo>, roots: seq<nat>,
                           managed: set<nat>)
    requires Partition(m, free, roots, managed) && Partition(m', free', roots, managed)
    requires forall k | 0 <= k < |roots| :: Agree(m, m', roots[k], 1)
    ensures forall g: nat {:trigger In(free', g)} :: In(free', g) == In(free, g)
  {
    forall g: nat
      ensures In(free', g) == In(free, g)
    {
      HeldFrame(m, m', roots, g);
      assert In(free, g) + Held(m, roots, g) == if g in managed then 1 else 0;
      assert In(free', g) + Held(m', roots, g) == if g in managed then 1 else 0;
    }
  }

  /** A space copied by fork and given back by the child's exit: the same frames are free as before. */
  method CopyThenTeardown(pages: PageAllocation.PageAllocator, src: nat) returns (copied: bool)
    requires pages.Valid() && src in pages.roots
    modifies pages.ram, pages`head, pages`count, pages`free, pages`roots
    ensures pages.Valid() && pages.roots == old(pages.roots) && pages.managed == old(pages.managed)
    ensures copied <==> old(Size(pages.Mem(), src, 1)) <= |old(pages.free)|
    ensures forall g: nat {:trigger In(pages.free, g)} :: In(pages.free, g) == In(old(pages.free), g)
    ensures forall g: nat | g < |pages.Mem()| && g !in old(pages.free) :: pages.Mem()[g] == old(pages.Mem())[g]
  {
    ghost var m, free, roots := pages.Mem(), pages.free, pages.roots;
    var child := pages.DuplicateVaSpace(src);
    copied := child.Some?;
    if copied {
      ghost var m1 := pages.Mem();
      pages.FreePageTable(child.value, |roots|);
      assert (roots + [child.value])[..|roots|] + (roots + [child.value])[|roots| + 1..] == roots;
      forall g: nat | g < |m| && g !in free
        ensures pages.Mem()[g] == m[g]
      {
        assert m1[g] == m[g] && Owns(m1, child.value, 1, g) == 0;
      }
      TreesKept(m, free, pages.Mem(), roots, pages.managed);
      SameSpacesSameFree(m, free, pages.Mem(), pages.free, roots, pages.managed);
    }
  }

  // ---------------------------------------------------------------- exec

  /** The page below the stack top is mapped in a loaded program. */
  lemma ArgumentsFit(m: Memory, root: nat, file: seq<Byte>, segs: seq<Segment>, top: nat)
    requires top == StackTop(Highest(segs)) <= USER_TOP && Program(m, root, file, segs, top)
    ensures forall a: nat :: !Unmapped(m, root, a, top)
  {
    forall a: nat | top - STACK_BUF_SIZE <= a < top
      ensures LeafAt(m, root, PathOf(a)).Some?
    {
      ArgumentPage(top, a);
      assert UserByte(m, root, a).Some?;
    }
  }

  /** The image lies below the arguments. */
  lemma ImageBelowArguments(segs: seq<Segment>, j: nat, a: nat, newSp: nat)
    requires j < |segs| && Safe(segs[j]) && Covers(segs[j], a) && StackTop(Highest(segs)) - STACK_BUF_SIZE <= newSp
    ensures a < newSp
  {
    assert Covered(segs, a);
    GuardPage(segs, a);
  }

  /** Bytes written from newSp on leave the program as it was, arguments apart. */
  lemma ProgramKept(m: Memory, m': Memory, root: nat, file: seq<Byte>, segs: seq<Segment>, top: nat, newSp: nat)
    requires top == StackTop(Highest(segs)) && Program(m, root, file, segs, top) && top - STACK_BUF_SIZE <= newSp <= top
    requires forall j | 0 <= j < |segs| :: Safe(segs[j])
    requires forall a: nat | a < newSp || top <= a < USER_TOP :: UserByte(m', root, a) == UserByte(m, root, a)
    requires SameLeaves(m, m', root) && |m'| == |m|
    ensures Program(m', root, file, segs, top)
    ensures StackFresh(m, root, top, top) ==> StackFresh(m', root, newSp, top)
  {
    if StackFresh(m, root, top, top) { StackFreshKept(m, m', root, top, newSp, top); }
    forall a: nat | a < USER_TOP
      ensures UserByte(m', root, a).Some? <==> UserByte(m, root, a).Some?
    {
      assert LeafAt(m', root, PathOf(a)) == LeafAt(m, root, PathOf(a));
    }
    forall j | 0 <= j < |segs|
      ensures SegmentLoaded(m', root, file, segs[j], true)
    {
      forall a: nat | a < USER_TOP && Covers(segs[j], a)
        ensures UserByte(m', root, a) == UserByte(m, root, a)
      {
        ImageBelowArguments(segs, j, a, newSp);
      }
      EarlierSegmentKept(m, m', root, file, segs[j], true, true);
    }
  }

  /** A stack written from `from'` on is as it was below. */
  lemma StackFreshKept(m: Memory, m': Memory, root: nat, from: nat, from': nat, top: nat)
    requires top > 0 && from' <= from <= top && StackFresh(m, root, from, top)
    requires forall a: nat | a < USER_TOP && (a < from' || top <= a) :: UserByte(m', root, a) == UserByte(m, root, a)
    ensures StackFresh(m', root, from', top)
  {
    forall n: nat | (top - 1) / PAGE_SIZE < n + STACK_PAGES && n <= (top - 1) / PAGE_SIZE
      ensures StackPageFresh(m', root, n, from', top)
    {
      assert StackPageFresh(m, root, n, from, top);
      var rest: seq<FrameNo> :| StackPageReads(m, root, n, rest, from, top);
      assert StackPageReads(m', root, n, rest, from', top);
    }
  }

  /** What a program reads does not change when another space is torn down. */
  lemma ProgramAgrees(m: Memory, m': Memory, root: nat, file: seq<Byte>, segs: seq<Segment>, top: nat)
    requires top > 0 && Program(m, root, file, segs, top) && ReadsTheSame(m, root, m', root)
    requires forall j | 0 <= j < |segs| :: Safe(segs[j])
    ensures Program(m', root, file, segs, top)
    ensures StackFresh(m, root, top, top) ==> StackFresh(m', root, top, top)
  {
    if StackFresh(m, root, top, top) { StackFreshKept(m, m', root, top, top, top); }
    forall a: nat | a < USER_TOP
      ensures UserByte(m', root, a).Some? <==> Covered(segs, a) || InStack(top, a)
    {
      assert UserByte(m', root, a) == UserByte(m, root, a);
    }
    forall j | 0 <= j < |segs|
      ensures SegmentLoaded(m', root, file, segs[j], true)
    {
      EarlierSegmentKept(m, m', root, file, segs[j], true, true);
    }
  }

  datatype ExecResult =
    | Refused(load: LoadResult)
    | Halted(why: Step)
    | BadArguments
    | Replaced(root: nat, entry: nat, args: PushResult)

  /** What a program that starts finds: its image, its arguments, and below them a stack not written yet. */
  ghost predicate Started(m: Memory, root: nat, file: seq<Byte>, segs: seq<Segment>, pushed: PushResult, args: Args) {
    && pushed.Pushed? && pushed.top == StackTop(Highest(segs))
    && Program(m, root, file, segs, pushed.top) && ProgramReads(m, root, pushed, args)
    && StackFresh(m, root, pushed.newSp, pushed.top)
  }

  /** The arguments of a loaded program: they always find their page mapped, and leave the image as it was. */
  method StartArguments(pages: PageAllocation.PageAllocator, root: nat, top: nat, args: Args,
                        ghost file: seq<Byte>, ghost segs: seq<Segment>) returns (pushed: PushResult)
    requires pages.Valid() && root in pages.roots
    requires top == StackTop(Highest(segs)) <= USER_TOP && Program(pages.Mem(), root, file, segs, top)
    requires StackFresh(pages.Mem(), root, top, top) && forall j | 0 <= j < |segs| :: Safe(segs[j])
    modifies pages.ram
    ensures pages.Valid() && PagesWritten(old(pages.Mem()), pages.Mem(), root)
    ensures pushed.Pushed? <==> |args| <= MAX_ARGS && Accepted(args)
    ensures pushed.Pushed? ==> Started(pages.Mem(), root, file, segs, pushed, args)
  {
    ghost var m := pages.Mem();
    ArgumentsFit(m, root, file, segs, top);
    pushed := PushArgs(pages, root, top, args);
    if pushed.Pushed? {
      ProgramKept(m, pages.Mem(), root, file, segs, top, pushed.newSp);
    }
  }

  /** The old space goes; the new one, the last of the roots, holds the program as before. */
  method DropOldSpace(pages: PageAllocation.PageAllocator, ghost k: nat, space: nat, root: nat, top: nat,
                      ghost file: seq<Byte>, ghost segs: seq<Segment>, ghost rest: seq<nat>)
    requires pages.Valid() && k < |rest| && pages.roots == rest + [root] && rest[k] == space
    requires top > 0 && Program(pages.Mem(), root, file, segs, top) && forall j | 0 <= j < |segs| :: Safe(segs[j])
    requires StackFresh(pages.Mem(), root, top, top)
    modifies pages.ram, pages`head, pages`count, pages`free, pages`roots
    ensures pages.Valid() && pages.managed == old(pages.managed)
    ensures pages.roots == rest[..k] + rest[k + 1..] + [root] && Program(pages.Mem(), root, file, segs, top)
    ensures StackFresh(pages.Mem(), root, top, top)
  {
    ghost var m, free, before := pages.Mem(), pages.free, pages.roots;
    pages.FreePageTable(space, k);
    OthersReadTheSame(m, free, pages.Mem(), before, pages.managed, k, |rest|);
    ProgramAgrees(m, pages.Mem(), root, file, segs, top);
  }

  /** The L1 table that a file without segments leaves behind. */
  function Abandoned(load: LoadResult): seq<nat> {
    if load.NoSegments? then [load.root] else []
  }

  /** `Process::exec` on the address spaces: the old space is replaced by one that holds the program and its
      arguments; every frame stays in its one place. The new space is built while the old one is still there, so
      it succeeds exactly with a file that can be loaded, as many free frames as that takes, and arguments that fit. */
  method ReplaceSpace(pages: PageAllocation.PageAllocator, ghost k: nat, space: nat, file: seq<Byte>, args: Args)
    returns (r: ExecResult)
    requires pages.Valid() && k < |pages.roots| && pages.roots[k] == space && Sane(file)
    modifies pages.ram, pages`head, pages`count, pages`free, pages`roots
    ensures pages.Valid() && pages.managed == old(pages.managed)
    ensures r.Refused? ==>
      (r.load.BadHeader? || r.load.NoSegments?)
      && pages.roots == old(pages.roots) + Abandoned(r.load)
    ensures r.Halted? ==> HasHeader(file) && Blamed(r.why, file, Segments(file, 0))
    ensures r.BadArguments? ==> !(|args| <= MAX_ARGS && Accepted(args))
    ensures r.Replaced? ==> pages.roots == old(pages.roots[..k] + pages.roots[k + 1..]) + [r.root]
    ensures r.Replaced? <==>
      && HasHeader(file) && Loadable(file, Segments(file, 0)) && FramesToLoad(Segments(file, 0)) <= |old(pages.free)|
      && |args| <= MAX_ARGS && Accepted(args)
    ensures r.Replaced? ==> HasHeader(file) && r.entry == EntryPoint(file)
                            && Started(pages.Mem(), r.root, file, Segments(file, 0), r.args, args)
  {
    ghost var roots := pages.roots;
    var load := LoadElf(pages, file);
    match load
    case BadHeader => r := Refused(load);
    case NoSegments(_) => r := Refused(load);
    case Panicked(why) => r := Halted(why);
    case Loaded(entry, top, root) =>
      ghost var segs := Segments(file, 0);
      HighestInRange(segs);
      DropOldSpace(pages, k, space, root, top, file, segs, roots);
      var pushed := StartArguments(pages, root, top, args, file, segs);
      r := if pushed.Pushed? then Replaced(root, entry, pushed) else BadArguments;
  }

  // ---------------------------------------------------------------- whole runs

  /** What the kernel does with address spaces; k says which. */
  datatype Operation =
    | Map(k: nat, va: nat)
    | Unmap(k: nat, va: nat)
    | Write(k: nat, va: nat, bytes: seq<Byte>)
    | Fork(k: nat)
    | Exit(k: nat)
    | Exec(k: nat, file: seq<Byte>, args: Args)

  ghost predicate AllowedOperation(o: Operation) {
    match o
    case Write(_, va, bytes) => va + |bytes| <= USER_TOP
    case Exec(_, file, _) => Sane(file)
    case _ => true
  }

  /** One operation; `on` is false when the kernel panics, or exec leaves a process half changed. */
  method Operate(pages: PageAllocation.PageAllocator, spaces: seq<nat>, o: Operation) returns (left: seq<nat>, on: bool)
    requires pages.Valid() && pages.roots == spaces && AllowedOperation(o)
    modifies pages.ram, pages`head, pages`count, pages`free, pages`roots
    ensures pages.Valid() && pages.managed == old(pages.managed) && (on ==> pages.roots == left)
  {
    left, on := spaces, true;
    if o.k >= |spaces| {
      return;
    }
    var space := spaces[o.k];
    match o
    case Map(_, va) =>
      var r := pages.AllocPage(va, space);
      on := r.Allocated?;
    case Unmap(_, va) =>
      pages.FreePage(va, space);
    case Write(_, va, bytes) =>
      var ok, done := pages.CopyToPages(bytes, va, space);
    case Fork(_) =>
      var child := pages.DuplicateVaSpace(space);
      if child.Some? { left := spaces + [child.value]; }
    case Exit(k) =>
      pages.FreePageTable(space, k);
      left := spaces[..k] + spaces[k + 1..];
    case Exec(k, file, args) =>
      var r := ReplaceSpace(pages, k, space, file, args);
      on := r.Replaced? || r.Refused?;
      left := if r.Replaced? then spaces[..k] + spaces[k + 1..] + [r.root]
              else if r.Refused? then spaces + Abandoned(r.load) else spaces;
  }

  /** In every state of every run each managed frame is in exactly one place, and the count is that of the free list. */
  method OperateAll(pages: PageAllocation.PageAllocator, spaces: seq<nat>, ops: seq<Operation>)
    requires pages.Valid() && pages.roots == spaces && forall i | 0 <= i < |ops| :: AllowedOperation(ops[i])
    modifies pages.ram, pages`head, pages`count, pages`free, pages`roots
    ensures pages.managed == old(pages.managed) && pages.count == |pages.free|
    ensures forall g: nat {:trigger In(pages.free, g)} ::
      In(pages.free, g) + Held(pages.Mem(), pages.roots, g) == if g in pages.managed then 1 else 0
  {
    var i, left, on := 0, spaces, true;
    while i < |ops| && on
      invariant 0 <= i <= |ops| && pages.Valid() && pages.managed == old(pages.managed) && (on ==> pages.roots == left)
    {
      left, on := Operate(pages, left, ops[i]);
      i := i + 1;
    }
  }
}
