/** The page allocator: frames, free list and translation tables changed in place. */
module PageAllocation {
  import opened Words
  import opened Addresses
  import opened PageTree
  import opened FreeFrames
  import opened TreeLoops
  import opened TreeCopy
  import opened TreePaths
  import opened Bytes
  import opened UserMemory

  class PageAllocator {
    // Physical memory: one row of PAGE_ENTRIES words for each frame.
    const ram: array2<Word>

    // FREE_FRAME_LIST, FREE_FRAME_COUNT and TOTAL_FRAME_COUNT.
    var head: Option<Word>
    var count: nat
    var total: nat

    // The frames on the list, first to last; the L1 tables in use; all frames owned by either.
    ghost var free: seq<FrameNo>
    ghost var roots: seq<nat>
    ghost var managed: set<nat>

    ghost predicate Sized() {
      ram.Length0 <= MAX_FRAMES && ram.Length1 == PAGE_ENTRIES
    }

    ghost function Row(f: nat): seq<Word>
      requires Sized() && f < ram.Length0
      reads ram
    {
      seq(PAGE_ENTRIES, i requires 0 <= i < PAGE_ENTRIES reads ram => ram[f, i])
    }

    /** Physical memory as a value. */
    ghost function Mem(): (m: Memory)
      requires Sized()
      reads ram
      ensures |m| == ram.Length0
    {
      seq(ram.Length0, f requires 0 <= f < ram.Length0 reads ram => Row(f))
    }

    /** The free list is intact and counted. */
    ghost predicate ListOk()
      reads this, ram
    {
      Sized() && count == |free| && head == Link(free) && Chain(Mem(), free)
    }

    /** Every managed frame is free or in exactly one place of exactly one tree. */
    ghost predicate Valid()
      reads this, ram
    {
      && ListOk()
      && Partition(Mem(), free, roots, managed)
      && forall g | g in managed :: g < ram.Length0
    }

    /** Before boot: no frame is managed yet. */
    constructor (memory: array2<Word>)
      requires memory.Length0 <= MAX_FRAMES && memory.Length1 == PAGE_ENTRIES
      ensures Valid() && ram == memory && free == [] && roots == [] && managed == {} && total == 0
    {
      ram := memory;
      head, count, total := None, 0, 0;
      free, roots, managed := [], [], {};
    }

    /** The kernel's own table, prepared before boot in frames of its own, counts as a tree in use. */
    ghost method AdoptRoot(root: nat)
      requires Valid() && root < ram.Length0 && Proper(Mem(), root, 1)
      requires forall g: nat {:trigger Owns(Mem(), root, 1, g)} :: Owns(Mem(), root, 1, g) > 0 ==> g !in managed
      modifies this`roots, this`managed
      ensures Valid() && roots == old(roots) + [root]
      ensures managed == old(managed) + set g | 0 <= g < ram.Length0 && Owns(Mem(), root, 1, g) > 0
    {
      managed := managed + set g | 0 <= g < ram.Length0 && Owns(Mem(), root, 1, g) > 0;
      forall g: nat
        ensures In(free, g) + Held(Mem(), roots + [root], g) == if g in managed then 1 else 0
      {
        HeldAppend(Mem(), roots, root, g);
      }
      roots := roots + [root];
    }

    // -------------------------------------------------------------- words and frames

    method Load(f: nat, i: nat) returns (w: Word)
      requires Sized() && f < ram.Length0 && i < PAGE_ENTRIES
      ensures w == Mem()[f][i]
    {
      w := ram[f, i];
    }

    method Store(f: nat, i: nat, w: Word)
      requires Sized() && f < ram.Length0 && i < PAGE_ENTRIES
      modifies ram
      ensures Mem() == Put(old(Mem()), f, i, w)
    {
      ram[f, i] := w;
      assert Row(f) == old(Row(f))[i := w];
      assert forall g | 0 <= g < ram.Length0 && g != f :: Row(g) == old(Row(g));
    }

    method ZeroFrame(f: nat)
      requires Sized() && f < ram.Length0
      modifies ram
      ensures Mem() == old(Mem())[f := Zeros(PAGE_ENTRIES)]
    {
      for i := 0 to PAGE_ENTRIES
        invariant forall g, k | 0 <= g < ram.Length0 && 0 <= k < PAGE_ENTRIES ::
          ram[g, k] == if g == f && k < i then ZERO else old(ram[g, k])
      {
        ram[f, i] := ZERO;
      }
      assert Row(f) == Zeros(PAGE_ENTRIES);
      assert forall g | 0 <= g < ram.Length0 && g != f :: Row(g) == old(Row(g));
    }

    method CopyFrame(src: nat, dst: nat)
      requires Sized() && src < ram.Length0 && dst < ram.Length0 && src != dst
      modifies ram
      ensures Mem() == old(Mem())[dst := old(Mem())[src]]
    {
      for i := 0 to PAGE_ENTRIES
        invariant forall g, k | 0 <= g < ram.Length0 && 0 <= k < PAGE_ENTRIES ::
          ram[g, k] == if g == dst && k < i then old(ram[src, k]) else old(ram[g, k])
      {
        ram[dst, i] := ram[src, i];
      }
      assert Row(dst) == old(Row(src));
      assert forall g | 0 <= g < ram.Length0 && g != dst :: Row(g) == old(Row(g));
    }

    // -------------------------------------------------------------- the free list

    /** `get_free_frame_pa`; the frame at physical address pa is pa / 4096. */
    method GetFreeFrame() returns (r: Option<FrameNo>)
      requires ListOk()
      modifies this`head, this`count, this`free
      ensures ListOk()
      ensures old(free) == [] ==> r == None && free == []
      ensures old(free) != [] ==> r == Some(old(free)[0]) && free == old(free)[1..]
    {
      match head {
        case None =>
          r := None;
        case Some(va) =>
          var f := ToPa(Val(va)) / PAGE_SIZE;
          assert f == free[0];
          var tag := Load(f, 0);
          var next := Load(f, 1);
          assert Mem()[f] == FreeImage(Link(free[1..]));
          head := if tag == SOME_TAG then Some(next) else None;
          count := count - 1;
          free := free[1..];
          r := Some(f);
      }
    }

    /** Zeroes a frame and stores the list head in it. */
    method StoreLink(n: nat)
      requires Sized() && n < ram.Length0
      modifies ram
      ensures Mem() == old(Mem())[n := FreeImage(head)]
    {
      ZeroFrame(n);
      if head != None {
        Store(n, 0, SOME_TAG);
        Store(n, 1, head.value);
      }
      assert Mem()[n] == FreeImage(head);
    }

    /** `add_free_frame`, for any kernel address inside the frame. */
    method AddFreeFrame(va: nat, ghost f: FrameNo)
      requires ListOk() && f == ToPa(va) / PAGE_SIZE
      requires f < ram.Length0 && f !in free
      modifies ram, this`head, this`count, this`free
      ensures ListOk() && free == [f] + old(free)
      ensures Mem() == old(Mem())[f := FreeImage(Link(old(free)))]
    {
      var n := ToPa(va) / PAGE_SIZE;
      StoreLink(n);
      ChainFrame(old(Mem()), Mem(), free);
      head := Some(FrameVa(n));
      count := count + 1;
      free := [f] + free;
      assert free[1..] == old(free);
    }

    // -------------------------------------------------------------- teardown

    /** Invalidates an entry, then frees the page it mapped. */
    method FreeEntry(t: nat, i: nat, c: nat)
      requires ListOk()
      requires t < ram.Length0 && i < PAGE_ENTRIES && c < ram.Length0
      requires t !in free && c !in free && c != t
      modifies ram, this`head, this`count, this`free
      ensures ListOk() && free == [c] + old(free)
      ensures Mem() == Put(old(Mem()), t, i, ZERO)[c := FreeImage(Link(old(free)))]
    {
      Store(t, i, ZERO);
      ChainFrame(old(Mem()), Mem(), free);
      VaOfFrame(c);
      AddFreeFrame(ToVa(c * PAGE_SIZE), c);
    }

    /** `do_free_table_recursive`: the frames of the tree, each once, join the free list; no other frame changes. */
    method FreeTree(f: nat, level: nat)
      requires ListOk() && 1 <= level <= 3
      requires Separate(Mem(), free, f, level)
      modifies ram, this`head, this`count, this`free
      ensures ListOk()
      ensures forall g: nat {:trigger In(free, g)} :: In(free, g) == In(old(free), g) + old(Owns(Mem(), f, level, g))
      ensures forall g: nat | g < ram.Length0 && old(Owns(Mem(), f, level, g)) == 0 :: Mem()[g] == old(Mem())[g]
      ensures |free| == |old(free)| + old(Size(Mem(), f, level))
      decreases 4 - level, 1
    {
      ghost var m0, free0 := Mem(), free;
      TornStart(m0, free0, f, level);
      for i := 0 to PAGE_ENTRIES
        invariant ListOk()
        invariant Torn(m0, free0, Mem(), free, f, i, level)
      {
        FreeBelow(f, i, level, m0, free0);
      }
      TornAll(m0, free0, Mem(), free, f, level);
      AddFreeFrame(ToVa(f * PAGE_SIZE), f);
    }

    /** One turn of the loop of `do_free_table_recursive`. */
    method FreeBelow(f: nat, i: nat, level: nat, ghost m0: Memory, ghost free0: seq<FrameNo>)
      requires ListOk() && 1 <= level <= 3 && i < PAGE_ENTRIES
      requires Separate(m0, free0, f, level)
      requires Torn(m0, free0, Mem(), free, f, i, level)
      modifies ram, this`head, this`count, this`free
      ensures ListOk()
      ensures Torn(m0, free0, Mem(), free, f, i + 1, level)
      decreases 4 - level, 0
    {
      ghost var m, was := Mem(), free;
      var entry := Load(f, i);
      if IsValid(entry) {
        var c := FrameOf(entry);
        TornNext(m0, free0, m, was, f, i, level);
        if level < 3 {
          FreeTree(c, level + 1);
          TornStep(m0, free0, m, was, Mem(), free, f, i, level);
        } else {
          FreeEntry(f, i, c);
          TornPage(m0, free0, m, was, Mem(), free, f, i, ZERO);
        }
      } else {
        TornSkip(m0, free0, m, was, f, i, level);
      }
    }

    /** `free_page_table`: the space is gone and its frames, each once, are free again. */
    method FreePageTable(root: nat, ghost k: nat)
      requires Valid() && k < |roots| && roots[k] == root
      modifies ram, this`head, this`count, this`free, this`roots
      ensures Valid() && managed == old(managed) && roots == old(roots[..k] + roots[k + 1..])
      ensures forall g: nat {:trigger In(free, g)} :: In(free, g) == In(old(free), g) + old(Owns(Mem(), root, 1, g))
      ensures |free| == |old(free)| + old(Size(Mem(), root, 1))
      ensures forall g: nat | g < ram.Length0 && old(Owns(Mem(), root, 1, g)) == 0 :: Mem()[g] == old(Mem())[g]
    {
      RootInPartition(Mem(), free, roots, managed, root);
      FreeTree(root, 1);
      DropRoot(old(Mem()), old(free), Mem(), free, roots, managed, k);
      roots := roots[..k] + roots[k + 1..];
    }

    // -------------------------------------------------------------- fork

    /** `do_duplicate_table_recursive`: succeeds exactly when enough frames are free. */
    method DuplicateTree(s: nat, d: nat, level: nat) returns (ok: bool)
      requires ListOk() && 1 <= level <= 3
      requires Apart(Mem(), free, s, d, level)
      requires forall j | 0 <= j < PAGE_ENTRIES :: !IsValid(Mem()[d][j])
      modifies ram, this`head, this`count, this`free
      ensures ListOk()
      ensures Grown(old(Mem()), old(free), Mem(), free, d, level)
      ensures ok <==> old(Size(Mem(), s, level)) <= |old(free)| + 1
      ensures ok ==> CopyOf(old(Mem()), s, Mem(), d, level) && |free| + old(Size(Mem(), s, level)) == |old(free)| + 1
      ensures !ok ==> free == []
      decreases 4 - level, 1
    {
      ghost var m0, free0 := Mem(), free;
      CopyStart(m0, free0, s, d, level);
      for i := 0 to PAGE_ENTRIES
        invariant ListOk()
        invariant Copying(m0, free0, Mem(), free, s, d, level, i)
      {
        ok := DuplicateEntry(s, d, level, i, m0, free0);
        if !ok {
          Next(m0, s, i, level);
          return;
        }
      }
      assert m0[s][..PAGE_ENTRIES] == m0[s];
      ok := true;
    }

    /** One turn of the loop of `do_duplicate_table_recursive`. */
    method DuplicateEntry(s: nat, d: nat, level: nat, i: nat, ghost m0: Memory, ghost free0: seq<FrameNo>)
      returns (ok: bool)
      requires ListOk() && 1 <= level <= 3 && i < PAGE_ENTRIES
      requires Copying(m0, free0, Mem(), free, s, d, level, i)
      modifies ram, this`head, this`count, this`free
      ensures ListOk()
      ensures ok ==> Copying(m0, free0, Mem(), free, s, d, level, i + 1)
      ensures !ok ==> Grown(m0, free0, Mem(), free, d, level) && free == []
                      && |free0| < SizeUnder(m0, m0[s][..i + 1], level)
      decreases 4 - level, 0
    {
      ghost var m, was := Mem(), free;
      Next(m0, s, i, level);
      assert m[s] == m0[s] by {
        assert In(free0, s) + Owns(m0, s, level, s) <= 1;
      }
      var entry := Load(s, i);
      if !IsValid(entry) {
        CopySkip(m0, free0, m, was, s, d, level, i);
        return true;
      }
      SourceKept(m0, free0, m, s, d, level, i);
      var c := FrameOf(entry);
      var n := GetFreeFrame();
      if n == None {
        return false;
      }
      if level < 3 {
        ok := DuplicateTable(s, d, level, i, n.value, m0, free0, m, was);
      } else {
        DuplicatePage(s, d, i, n.value, m0, free0, m, was);
        ok := true;
      }
    }

    /** The popped frame n becomes an empty table below d, which then receives the source's subtree. */
    method DuplicateTable(s: nat, d: nat, level: nat, i: nat, n: nat, ghost m0: Memory, ghost free0: seq<FrameNo>,
                          ghost m: Memory, ghost was: seq<FrameNo>) returns (ok: bool)
      requires ListOk() && 1 <= level <= 2 && i < PAGE_ENTRIES
      requires Copying(m0, free0, m, was, s, d, level, i) && IsValid(m0[s][i]) && m[s] == m0[s]
      requires m == Mem() && was != [] && n == was[0] && free == was[1..] && Chain(m, was)
      requires s < ram.Length0 && d < ram.Length0
      modifies ram, this`head, this`count, this`free
      ensures ListOk()
      ensures ok ==> Copying(m0, free0, Mem(), free, s, d, level, i + 1)
      ensures !ok ==> Grown(m0, free0, Mem(), free, d, level) && free == []
                      && |was| < SizeSub(m0, m0[s][i], level)
      decreases 4 - level, -1
    {
      GrownProper(m0, free0, m, was, d, level);
      var entry := Load(s, i);
      ZeroFrame(n);
      Store(d, i, Entry(n, Flags(entry)));
      ghost var m1 := Mem();
      ChainFrame(m, m1, free);
      CopyTable(m0, free0, m, was, m1, s, d, level, i);
      ok := DuplicateTree(FrameOf(entry), n, level + 1);
      if ok {
        CopyTableDone(m0, free0, m, was, m1, Mem(), free, s, d, level, i);
      } else {
        AttachGrown(m0, free0, m1, was[1..], Mem(), free, d, i, level);
      }
    }

    /** The popped frame n receives the source page and is entered in d. */
    method DuplicatePage(s: nat, d: nat, i: nat, n: nat, ghost m0: Memory, ghost free0: seq<FrameNo>,
                         ghost m: Memory, ghost was: seq<FrameNo>)
      requires ListOk() && i < PAGE_ENTRIES
      requires Copying(m0, free0, m, was, s, d, 3, i) && IsValid(m0[s][i]) && m[s] == m0[s]
      requires m == Mem() && was != [] && n == was[0] && free == was[1..] && Chain(m, was)
      requires s < ram.Length0 && d < ram.Length0 && FrameOf(m0[s][i]) < ram.Length0
      modifies ram, this`head, this`count, this`free
      ensures ListOk()
      ensures Copying(m0, free0, Mem(), free, s, d, 3, i + 1)
    {
      GrownProper(m0, free0, m, was, d, 3);
      SourceKept(m0, free0, m, s, d, 3, i);
      var entry := Load(s, i);
      assert FrameOf(entry) != n by {
        assert In(was, n) == 1;
        assert n in free0 && Owns(m0, FrameOf(entry), 4, FrameOf(entry)) > 0;
      }
      CopyFrame(FrameOf(entry), n);
      Store(d, i, Entry(n, Flags(entry)));
      ChainFrame(m, Mem(), free);
      CopyPage(m0, free0, m, was, Mem(), s, d, i);
    }

    /** `duplicate_va_space`: a disjoint deep copy, or, when frames run out, no change but in the order of the list. */
    method DuplicateVaSpace(src: nat) returns (r: Option<nat>)
      requires Valid() && src in roots
      modifies ram, this`head, this`count, this`free, this`roots
      ensures Valid() && managed == old(managed)
      ensures r.Some? <==> old(Size(Mem(), src, 1)) <= |old(free)|
      ensures forall g: nat | g < ram.Length0 && g !in old(free) :: Mem()[g] == old(Mem())[g]
      ensures r.None? ==> roots == old(roots) && |free| == |old(free)|
                          && forall g: nat {:trigger In(free, g)} :: In(free, g) == In(old(free), g)
      ensures r.Some? ==>
        && roots == old(roots) + [r.value]
        && CopyOf(old(Mem()), src, Mem(), r.value, 1)
        && (forall g: nat {:trigger Owns(Mem(), r.value, 1, g)} :: Owns(Mem(), r.value, 1, g) > 0 ==> g in old(free))
        && |free| + old(Size(Mem(), src, 1)) == |old(free)|
    {
      RootInPartition(Mem(), free, roots, managed, src);
      var d := GetFreeFrame();
      if d == None {
        return None;
      }
      ghost var m := Mem();
      ZeroFrame(d.value);
      ChainFrame(m, Mem(), free);
      var ok := FillSpace(src, d.value, m, old(free));
      r := if ok then Some(d.value) else None;
    }

    /** The first step of `load_elf`: a popped frame becomes the L1 table of a new space without being cleared. That it
        maps nothing rests on what free frames hold. */
    method TakeRoot() returns (r: Option<nat>)
      requires Valid()
      modifies this`head, this`count, this`free, this`roots
      ensures Valid() && Mem() == old(Mem())
      ensures r.Some? <==> old(free) != []
      ensures r.None? ==> free == old(free) && roots == old(roots)
      ensures r.Some? ==>
        && r.value == old(free)[0] && free == old(free)[1..] && roots == old(roots) + [r.value]
        && (forall g: nat {:trigger Owns(Mem(), r.value, 1, g)} ::
              Owns(Mem(), r.value, 1, g) == if g == r.value then 1 else 0)
        && (forall path | |path| > 0 :: LeafAt(Mem(), r.value, path) == None)
    {
      ghost var m, was := Mem(), free;
      r := GetFreeFrame();
      if r.Some? {
        FreeFrameIsEmptyTable(m, was, r.value, 1);
        forall g: nat
          ensures In(free, g) + Owns(m, r.value, 1, g) == In(was, g)
        {
          ChainFrames(m, was);
        }
        AddRoot(m, was, m, free, roots, managed, r.value);
        roots := roots + [r.value];
      }
    }

    /** Copies src into the popped, cleared root d, or gives back every frame taken. */
    method FillSpace(src: nat, d: nat, ghost m: Memory, ghost was: seq<FrameNo>) returns (ok: bool)
      requires ListOk() && Chain(m, was) && was != [] && d == was[0] && free == was[1..]
      requires Mem() == m[d := Zeros(PAGE_ENTRIES)]
      requires Partition(m, was, roots, managed) && Separate(m, was, src, 1)
      modifies ram, this`head, this`count, this`free, this`roots
      ensures ListOk() && Partition(Mem(), free, roots, managed) && managed == old(managed)
      ensures ok <==> Size(m, src, 1) <= |was|
      ensures forall g: nat | g < ram.Length0 && g !in was :: Mem()[g] == m[g]
      ensures !ok ==> roots == old(roots) && |free| == |was|
                      && forall g: nat {:trigger In(free, g)} :: In(free, g) == In(was, g)
      ensures ok ==>
        && roots == old(roots) + [d] && CopyOf(m, src, Mem(), d, 1)
        && (forall g: nat {:trigger Owns(Mem(), d, 1, g)} :: Owns(Mem(), d, 1, g) > 0 ==> g in was)
        && |free| + Size(m, src, 1) == |was|
    {
      ghost var m1 := Mem();
      CopyReady(m, was, m1, src);
      ok := DuplicateTree(src, d, 1);
      ghost var m2, left := Mem(), free;
      if ok {
        CopyFinished(m, was, m1, m2, left, src, roots, managed);
        roots := roots + [d];
      } else {
        GrownFromList(m, was, m1, m2, left);
        FreeTree(d, 1);
        CopyUndone(m, was, m2, left, d, Mem(), free, roots, managed);
      }
    }

    // -------------------------------------------------------------- single pages

    /** `ttbr0_to_pa` */
    method Translate(va: nat, root: nat) returns (pa: Option<nat>)
      requires Valid() && root in roots
      ensures pa == match LeafAt(Mem(), root, PathOf(va))
                    case None => None
                    case Some(w) => Some(FrameOf(w) * PAGE_SIZE + va % PAGE_SIZE)
    {
      var p := PathOf(va);
      ghost var m := Mem();
      RootInPartition(m, free, roots, managed, root);
      LeafIsEntry(m, root, p);
      var e1 := Load(root, p[0]);
      WalkStep(m, root, p, 1);
      if !IsValid(e1) {
        return None;
      }
      var e2 := Load(FrameOf(e1), p[1]);
      WalkStep(m, root, p, 2);
      if !IsValid(e2) {
        return None;
      }
      var e3 := Load(FrameOf(e2), p[2]);
      assert p[..3] == p;
      if !IsValid(e3) {
        return None;
      }
      return Some(FrameOf(e3) * PAGE_SIZE + va % PAGE_SIZE);
    }

    /** The step of `alloc_page` that creates the next-level table when entry i of table t, at the end of path p,
        is not valid. */
    method EnsureTable(root: nat, t: nat, i: nat, ghost p: seq<nat>) returns (ok: bool)
      requires Valid() && root in roots && 1 <= |p| <= 2
      requires Walks(Mem(), root, p) && TableAt(Mem(), root, p) == t && i == p[|p| - 1]
      modifies ram, this`head, this`count, this`free
      ensures Valid() && Walks(Mem(), root, p) && TableAt(Mem(), root, p) == t
      ensures IsValid(old(Mem()[t][i])) || old(free) == [] ==> Mem() == old(Mem()) && free == old(free)
      ensures ok <==> IsValid(Mem()[t][i])
      ensures ok <==> IsValid(old(Mem()[t][i])) || old(free) != []
      ensures ok && !IsValid(old(Mem()[t][i])) ==>
        |free| + 1 == |old(free)| && Mem()[t][i].addr < ram.Length0 && Mem()[Mem()[t][i].addr] == Zeros(PAGE_ENTRIES)
      ensures Exchanged(old(Mem()), old(free), Mem(), free, root) && SameLeaves(old(Mem()), Mem(), root)
      ensures ok ==> TableMade(old(Mem()), Mem(), root, p)
      ensures forall g | g in free :: g in old(free)
    {
      ghost var m, was := Mem(), free;
      RootInPartition(m, was, roots, managed, root);
      var e := Load(t, i);
      if IsValid(e) {
        return true;
      }
      var n := GetFreeFrame();
      if n == None {
        return false;
      }
      Store(t, i, Entry(n.value, TABLE_FLAGS));
      ZeroFrame(n.value);
      TableInstalled(m, was, Mem(), root, p, Entry(n.value, TABLE_FLAGS));
      TableNotFree(m, was, root, p);
      ChainFrame(m, Mem(), free);
      ExchangeKeepsPartition(m, was, Mem(), free, roots, managed, root);
      ok := true;
    }

    /** `alloc_page`: binds exactly the page of va to a frame from the list, with the attributes of a user page.
        Where the kernel panics, the result says why. */
    method AllocPage(va: nat, root: nat) returns (r: AllocResult)
      requires Valid() && root in roots
      modifies ram, this`head, this`count, this`free
      ensures Valid()
      ensures AllocPost(old(Mem()), old(free), Mem(), free, root, PathOf(va), r)
    {
      var p := PathOf(va);
      ghost var m0, free0 := Mem(), free;
      UnchangedExchanged(m0, free0, root);
      RootInPartition(m0, free0, roots, managed, root);
      var pa := Translate(va, root);
      if pa.Some? {
        return AlreadyMapped;
      }
      var ok := EnsureTable(root, root, p[0], p[..1]);
      ghost var m1, free1 := Mem(), free;
      RootInPartition(m1, free1, roots, managed, root);
      WalkStep(m0, root, p, 1);
      WalkStep(m1, root, p, 1);
      if !ok {
        return OutOfFrames;
      }
      var e1 := Load(root, p[0]);
      if !IsValid(m0[root][p[0]]) {
        NeedStep(m0, m1, root, p, 1);
      }
      r := AllocBelow(p, root, FrameOf(e1));
      AllocAfterTable(m0, free0, m1, free1, Mem(), free, root, p, r);
    }

    /** `alloc_page` from the L2 table on. */
    method AllocBelow(p: seq<nat>, root: nat, l2: nat) returns (r: AllocResult)
      requires Valid() && root in roots
      requires |p| == 3 && p[1] < PAGE_ENTRIES && p[2] < PAGE_ENTRIES
      requires Walks(Mem(), root, p[..2]) && TableAt(Mem(), root, p[..2]) == l2
      modifies ram, this`head, this`count, this`free
      ensures Valid()
      ensures AllocPost(old(Mem()), old(free), Mem(), free, root, p, r)
    {
      ghost var m0, free0 := Mem(), free;
      RootInPartition(m0, free0, roots, managed, root);
      LeafIsEntry(m0, root, p);
      var ok := EnsureTable(root, l2, p[1], p[..2]);
      ghost var m1, free1 := Mem(), free;
      RootInPartition(m1, free1, roots, managed, root);
      assert p[..3] == p;
      WalkStep(m0, root, p, 2);
      WalkStep(m1, root, p, 2);
      if !ok {
        return OutOfFrames;
      }
      var e2 := Load(l2, p[1]);
      if !IsValid(EntryAt(m0, root, p[..2])) {
        NeedStep(m0, m1, root, p, 2);
      }
      r := BindPage(p, root, FrameOf(e2));
      AllocAfterTable(m0, free0, m1, free1, Mem(), free, root, p, r);
    }

    /** `alloc_page` from the L3 table on. */
    method BindPage(p: seq<nat>, root: nat, l3: nat) returns (r: AllocResult)
      requires Valid() && root in roots
      requires |p| == 3 && Walks(Mem(), root, p) && TableAt(Mem(), root, p) == l3
      modifies ram, this`head, this`count, this`free
      ensures Valid()
      ensures AllocPost(old(Mem()), old(free), Mem(), free, root, p, r)
    {
      ghost var m, was := Mem(), free;
      UnchangedExchanged(m, was, root);
      RootInPartition(m, was, roots, managed, root);
      LeafIsEntry(m, root, p);
      WalkPrefix(m, root, p, 2);
      var e := Load(l3, p[2]);
      if IsValid(e) {
        return AlreadyMapped;
      }
      var n := GetFreeFrame();
      if n == None {
        return OutOfFrames;
      }
      var w := Entry(n.value, PAGE_FLAGS);
      Store(l3, p[2], w);
      Install(m, was, m, root, p, w);
      BoundTables(m, Mem(), root, p);
      TableNotFree(m, was, root, p);
      ChainFrame(m, Mem(), free);
      ExchangeKeepsPartition(m, was, Mem(), free, roots, managed, root);
      r := Allocated(n.value);
    }

    /** `free_page`: unbinds exactly the page of va and frees its frame, if it is mapped. */
    method FreePage(va: nat, root: nat)
      requires Valid() && root in roots
      modifies ram, this`head, this`count, this`free
      ensures Valid()
      ensures Exchanged(old(Mem()), old(free), Mem(), free, root)
      ensures Rebound(old(Mem()), Mem(), root, PathOf(va), None) && SameTables(old(Mem()), Mem(), root)
      ensures old(LeafAt(Mem(), root, PathOf(va))).None? ==> Mem() == old(Mem()) && free == old(free)
      ensures old(LeafAt(Mem(), root, PathOf(va))).Some? ==>
        free == [FrameOf(old(LeafAt(Mem(), root, PathOf(va))).value)] + old(free)
    {
      var p := PathOf(va);
      ghost var m, was := Mem(), free;
      UnchangedExchanged(m, was, root);
      RootInPartition(m, was, roots, managed, root);
      LeafIsEntry(m, root, p);
      var e1 := Load(root, p[0]);
      WalkStep(m, root, p, 1);
      if !IsValid(e1) {
        NotBelow(m, root, p, 2);
        return;
      }
      var e2 := Load(FrameOf(e1), p[1]);
      WalkStep(m, root, p, 2);
      assert p[..3] == p;
      if !IsValid(e2) {
        return;
      }
      var e3 := Load(FrameOf(e2), p[2]);
      if !IsValid(e3) {
        return;
      }
      PageFrame(m, was, root, p);
      FreeEntry(FrameOf(e2), p[2], FrameOf(e3));
      Unbind(m, was, WriteAt(m, root, p, ZERO), Mem(), free, root, p);
      ExchangeKeepsPartition(m, was, Mem(), free, roots, managed, root);
    }

    // -------------------------------------------------------------- copying into a space

    method StoreBytes(f: nat, o: nat, s: seq<Byte>)
      requires Sized() && f < ram.Length0 && o + |s| <= PAGE_SIZE
      modifies ram
      ensures forall g | 0 <= g < ram.Length0 && g != f :: Mem()[g] == old(Mem())[g]
      ensures Overwritten(old(Mem())[f], Mem()[f], o, s)
    {
      for i := 0 to |s|
        invariant forall g | 0 <= g < ram.Length0 && g != f :: Mem()[g] == old(Mem())[g]
        invariant Overwritten(old(Mem())[f], Mem()[f], o, s[..i])
      {
        ghost var row := Mem()[f];
        var w := Load(f, (o + i) / 8);
        Store(f, (o + i) / 8, WithByte(w, (o + i) % 8, s[i]));
        OneByte(old(Mem())[f], row, Mem()[f], o, s[..i], s[i]);
        assert s[..i + 1] == s[..i] + [s[i]];
      }
      assert s[..|s|] == s;
    }

    /** Writes bytes into one mapped page. */
    method WriteChunk(root: nat, va: nat, s: seq<Byte>, frame: nat)
      requires Valid() && root in roots
      requires LeafAt(Mem(), root, PathOf(va)).Some? && frame == FrameOf(LeafAt(Mem(), root, PathOf(va)).value)
      requires s != [] && va + |s| <= USER_TOP && va % PAGE_SIZE + |s| <= PAGE_SIZE
      modifies ram
      ensures Valid() && PagesWritten(old(Mem()), Mem(), root)
      ensures BytesWritten(old(Mem()), Mem(), root, va, s)
    {
      ghost var m := Mem();
      RootInPartition(m, free, roots, managed, root);
      LeafOwned(m, root, PathOf(va), 1);
      StoreBytes(frame, va % PAGE_SIZE, s);
      var row := Mem()[frame];
      assert Mem() == m[frame := row];
      ChunkWritten(m, free, root, va, s, row);
      forall g: nat
        ensures Owns(Mem(), root, 1, g) == Owns(m, root, 1, g)
      {
        PageWriteOwns(m, root, PathOf(va), 1, row, g);
      }
      assert In(free, frame) + Owns(m, root, 1, frame) <= 1;
      ChainFrame(m, Mem(), free);
      ExchangeKeepsPartition(m, free, Mem(), free, roots, managed, root);
    }

    /** The bytes of src up to offset are in place and nothing else changed since m. */
    ghost predicate Copied(m: Memory, src: seq<Byte>, dst: nat, root: nat, offset: nat)
      requires Sized() && offset <= |src|
      reads ram
    {
      PagesWritten(m, Mem(), root) && BytesWritten(m, Mem(), root, dst, src[..offset])
    }

    /** One turn of the loop of `copy_to_pages`; n is 0 when the page is not mapped. */
    method CopyChunk(src: seq<Byte>, offset: nat, dst: nat, root: nat, ghost m: Memory) returns (n: nat)
      requires Valid() && root in roots && dst + |src| <= USER_TOP && offset < |src|
      requires Copied(m, src, dst, root, offset)
      modifies ram
      ensures Valid() && offset + n <= |src| && Copied(m, src, dst, root, offset + n)
      ensures n == 0 ==> LeafAt(m, root, PathOf(dst + offset)).None?
    {
      ghost var m1 := Mem();
      var va := dst + offset;
      var pa := Translate(va, root);
      SameLeaf(m, m1, root, PathOf(va));
      if pa == None {
        return 0;
      }
      FrameOfPa(FrameOf(LeafAt(m1, root, PathOf(va)).value), va);
      n := ChunkSize(va, |src| - offset);
      var chunk := src[offset..offset + n];
      WriteChunk(root, va, chunk, pa.value / PAGE_SIZE);
      CopiedMore(m, m1, Mem(), root, dst, src, offset, n);
    }

    /** `copy_to_pages`: the bytes of src land at dst, up to the first page that is not mapped. */
    method CopyToPages(src: seq<Byte>, dst: nat, root: nat) returns (ok: bool, ghost done: nat)
      requires Valid() && root in roots && dst + |src| <= USER_TOP
      modifies ram
      ensures Valid() && PagesWritten(old(Mem()), Mem(), root)
      ensures done <= |src| && BytesWritten(old(Mem()), Mem(), root, dst, src[..done])
      ensures ok ==> done == |src|
      ensures !ok ==> done < |src| && LeafAt(old(Mem()), root, PathOf(dst + done)).None?
    {
      ghost var m := Mem();
      var offset := 0;
      assert src[..0] == [];
      while offset < |src|
        invariant offset <= |src| && Valid()
        invariant Copied(m, src, dst, root, offset)
      {
        var n := CopyChunk(src, offset, dst, root, m);
        if n == 0 {
          return false, offset;
        }
        offset := offset + n;
      }
      ok, done := true, |src|;
    }

    // -------------------------------------------------------------- boot

    /** One turn of the loop of `init_frames`. */
    method AddNewFrame(va: nat, ghost first: nat, ghost n: nat)
      requires Valid() && KERNEL_BASE <= first && va == first + n * PAGE_SIZE < KERNEL_BASE + ram.Length0 * PAGE_SIZE
      requires FrameIndex(first) + n !in managed
      modifies this, ram
      ensures Valid() && roots == old(roots) && total == old(total) && |free| == |old(free)| + 1
      ensures managed == old(managed) + {FrameIndex(first) + n}
      ensures forall g | 0 <= g < ram.Length0 && g != FrameIndex(first) + n :: Mem()[g] == old(Mem())[g]
    {
      ghost var f := FrameIndex(first) + n;
      FrameOfKernelVa(first, n, f, ram.Length0);
      ghost var m, was := Mem(), free;
      assert In(free, f) + Held(m, roots, f) == 0;
      AddFreeFrame(va, f);
      AddFrame(m, was, Mem(), free, roots, managed, f);
      managed := managed + {f};
    }

    /** `init_frames`: the frames from `first` up to `limit` become free, once each. */
    method InitFrames(first: nat, limit: nat) returns (ghost n: nat)
      requires Valid() && KERNEL_BASE <= first <= limit <= KERNEL_BASE + ram.Length0 * PAGE_SIZE
      requires forall g | FrameIndex(first) <= g < ram.Length0 :: g !in managed
      modifies this, ram
      ensures Valid() && roots == old(roots) && total == count == |free|
      ensures n == (limit - first + PAGE_SIZE - 1) / PAGE_SIZE && |free| == |old(free)| + n
      ensures managed == old(managed) + FrameRange(first, n)
      ensures forall g | 0 <= g < ram.Length0 && g !in FrameRange(first, n) :: Mem()[g] == old(Mem())[g]
    {
      var va := first;
      n := 0;
      while va < limit
        invariant va == first + n * PAGE_SIZE && (n > 0 ==> va < limit + PAGE_SIZE)
        invariant Valid() && roots == old(roots) && managed == old(managed) + FrameRange(first, n)
        invariant |free| == |old(free)| + n
        invariant forall g | 0 <= g < ram.Length0 && g !in FrameRange(first, n) :: Mem()[g] == old(Mem())[g]
      {
        InRam(first, n, ram.Length0);
        AddNewFrame(va, first, n);
        va, n := va + PAGE_SIZE, n + 1;
      }
      RoundUp(limit - first, n);
      total := count;
    }
  }

  const KERNEL_BASE: nat := 0xffff_ff80_0000_0000

  /** The frame that a kernel address lies in. */
  ghost function FrameIndex(va: nat): nat
    requires KERNEL_BASE <= va
  {
    (va - KERNEL_BASE) / PAGE_SIZE
  }

  /** The n frames from the one at kernel address `first` on. */
  ghost function FrameRange(first: nat, n: nat): (s: set<nat>)
    requires KERNEL_BASE <= first
    ensures forall g: nat :: g in s <==> FrameIndex(first) <= g < FrameIndex(first) + n
  {
    if n == 0 then {} else FrameRange(first, n - 1) + {FrameIndex(first) + n - 1}
  }

  lemma InRam(first: nat, n: nat, len: nat)
    requires KERNEL_BASE <= first && first + n * PAGE_SIZE < KERNEL_BASE + len * PAGE_SIZE
    ensures FrameIndex(first) + n < len
  {
  }

  lemma FrameOfKernelVa(first: nat, n: nat, f: nat, len: nat)
    requires KERNEL_BASE <= first && first + n * PAGE_SIZE < KERNEL_BASE + len * PAGE_SIZE
    requires f == FrameIndex(first) + n && len <= MAX_FRAMES
    ensures ToPa(first + n * PAGE_SIZE) / PAGE_SIZE == f && f < len
  {
    var a := first - KERNEL_BASE;
    assert KERNEL_BASE % WINDOW == 0;
    assert ToPa(first + n * PAGE_SIZE) == a + n * PAGE_SIZE;
  }

  lemma RoundUp(a: nat, n: nat)
    requires a <= n * PAGE_SIZE && (n > 0 ==> n * PAGE_SIZE < a + PAGE_SIZE)
    ensures (a + PAGE_SIZE - 1) / PAGE_SIZE == n
  {
  }
}
