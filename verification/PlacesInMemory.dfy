/** The process tables and physical memory together: a kernel stack slot is free exactly when its pages are unmapped in
    the kernel's table, and every address space in use is a tree of its own, with the pages of a user stack. */
module PlacesInMemory {
  import opened Words
  import opened PageTree
  import opened FreeFrames
  import opened TreePaths
  import opened UserMemory
  import opened Lifecycle
  import opened LifecyclePlaces
  import opened KernelStackPages
  import opened StackRoom

  /** Slot k is free exactly when its pages are unmapped. */
  ghost predicate SlotTied(m: Memory, root: nat, stacks: seq<StackState>, k: nat) {
    k < |stacks| ==> SlotMapped(m, root, k, stacks[k] != Free)
  }

  ghost predicate SlotsTied(m: Memory, root: nat, stacks: seq<StackState>) {
    && |stacks| <= MAX_SLOTS
    && forall k: nat {:trigger SlotTied(m, root, stacks, k)} :: SlotTied(m, root, stacks, k)
  }

  /** r is the first table of a user space, which has a stack. */
  ghost predicate SpaceTied(m: Memory, roots: seq<nat>, r: nat) {
    roots != [] && r in roots[1..] && HasStack(m, r)
  }

  /** The kernel's own table, `root`, is the first of the trees in memory. */
  ghost predicate Tied(s: State, m: Memory, roots: seq<nat>, root: nat) {
    && roots != [] && roots[0] == root && SlotsTied(m, root, s.stacks)
    && forall r: nat {:trigger SpaceTied(m, roots, r)} | r in s.spaces :: SpaceTied(m, roots, r)
  }

  lemma TiedAlike(s: State, r: State, m: Memory, roots: seq<nat>, root: nat)
    requires Tied(s, m, roots, root) && SamePlaces(s, r)
    ensures Tied(r, m, roots, root)
  {
  }

  /** No two trees in memory have the same root. */
  lemma RootsDiffer(m: Memory, free: seq<FrameNo>, roots: seq<nat>, managed: set<nat>, i: nat, j: nat)
    requires Partition(m, free, roots, managed) && i < |roots| && j < |roots| && i != j
    ensures roots[i] != roots[j]
  {
    var k := if j < i then j else j - 1;
    OtherRoot(m, free, roots, managed, i, k, roots[j]);
    assert (roots[..i] + roots[i + 1..])[k] == roots[j];
    assert Owns(m, roots[j], 1, roots[j]) > 0;
  }

  /** A user space has its place among the trees, after the kernel's. */
  lemma PlaceOf(m: Memory, free: seq<FrameNo>, roots: seq<nat>, managed: set<nat>, r: nat) returns (i: nat)
    requires Partition(m, free, roots, managed) && SpaceTied(m, roots, r)
    ensures 0 < i < |roots| && roots[i] == r != roots[0]
  {
    var j: nat :| j < |roots[1..]| && roots[1..][j] == r;
    i := j + 1;
    RootsDiffer(m, free, roots, managed, 0, i);
  }

  /** A root made of a free frame is new. */
  lemma FreshFromList(m: Memory, free: seq<FrameNo>, roots: seq<nat>, managed: set<nat>, d: nat)
    requires Partition(m, free, roots, managed) && d in free
    ensures d !in roots
  {
    forall i: nat | i < |roots| ensures roots[i] != d {
      OwnedNotFree(m, free, roots, managed, i, d);
    }
  }

  // ---------------------------------------------------------------- slots

  lemma SlotsAgree(m: Memory, m': Memory, root: nat, stacks: seq<StackState>, after: seq<StackState>)
    requires SlotsTied(m, root, stacks) && Agree(m, m', root, 1) && |after| == |stacks|
    requires forall k | 0 <= k < |stacks| :: after[k] == Free <==> stacks[k] == Free
    ensures SlotsTied(m', root, after)
  {
    AgreeMaps(m, m', root);
    forall k: nat ensures SlotTied(m', root, after, k) {
      assert SlotTied(m, root, stacks, k);
    }
  }

  lemma SlotChanges(m: Memory, m': Memory, root: nat, stacks: seq<StackState>, k: nat, st: StackState)
    requires SlotsTied(m, root, stacks) && k < |stacks|
    requires OthersMapped(m, m', root, k) && SlotMapped(m', root, k, st != Free)
    ensures SlotsTied(m', root, stacks[k := st])
  {
    var after := stacks[k := st];
    forall j: nat ensures SlotTied(m', root, after, j) {
      assert SlotTied(m, root, stacks, j);
      if j < |stacks| && j != k { OtherSlot(m, m', root, k, j, stacks[j] != Free); }
    }
  }

  lemma OtherSlot(m: Memory, m': Memory, root: nat, k: nat, j: nat, used: bool)
    requires OthersMapped(m, m', root, k) && j < MAX_SLOTS && j != k && SlotMapped(m, root, j, used)
    ensures SlotMapped(m', root, j, used)
  {
    forall n: nat | n < KernelStackPages.STACK_PAGES ensures PageMapped(m', root, j, n) <==> used && n > 0 {
      assert PageMapped(m', root, j, n) <==> PageMapped(m, root, j, n);
    }
  }

  // ---------------------------------------------------------------- spaces

  lemma SpaceKept(m: Memory, m': Memory, roots: seq<nat>, after: seq<nat>, r: nat)
    requires SpaceTied(m, roots, r) && Agree(m, m', r, 1) && after != [] && r in after[1..]
    ensures SpaceTied(m', after, r)
  {
    AgreeHasStack(m, m', r);
  }

  /** A slot changes hands, and its pages are mapped or unmapped. */
  lemma TiedSlot(s: State, m: Memory, free: seq<FrameNo>, m': Memory, free': seq<FrameNo>, roots: seq<nat>,
                 managed: set<nat>, root: nat, k: nat, st: StackState)
    requires Tied(s, m, roots, root) && Partition(m, free, roots, managed) && Shifted(m, free, m', free', root)
    requires k < |s.stacks| && OthersMapped(m, m', root, k) && SlotMapped(m', root, k, st != Free)
    ensures Tied(s.(stacks := s.stacks[k := st]), m', roots, root)
  {
    SlotChanges(m, m', root, s.stacks, k, st);
    forall r: nat | r in s.spaces ensures SpaceTied(m', roots, r) {
      assert SpaceTied(m, roots, r);
      var i := PlaceOf(m, free, roots, managed, r);
      ShiftedOthers(m, free, m', free', roots, managed, root, r);
      SpaceKept(m, m', roots, roots, r);
    }
  }

  /** Only free frames changed, and a new space with a stack was made of them. */
  lemma TiedMore(s: State, m: Memory, free: seq<FrameNo>, m': Memory, roots: seq<nat>, managed: set<nat>, root: nat,
                 d: nat)
    requires Tied(s, m, roots, root) && Partition(m, free, roots, managed) && |m'| == |m|
    requires forall g: nat | g < |m| && In(free, g) == 0 :: m'[g] == m[g]
    requires HasStack(m', d)
    ensures Tied(s.(spaces := s.spaces + {d}), m', roots + [d], root)
  {
    var after := roots + [d];
    assert after[1..] == roots[1..] + [d];
    TreesKept(m, free, m', roots, managed);
    SlotsAgree(m, m', root, s.stacks, s.stacks);
    forall r: nat | r in s.spaces + {d} ensures SpaceTied(m', after, r) {
      if r != d {
        assert SpaceTied(m, roots, r);
        SpaceKept(m, m', roots, after, r);
      }
    }
  }

  /** Only free frames changed; a tree that no process uses may have been made of them. */
  lemma TiedAbandoned(s: State, m: Memory, free: seq<FrameNo>, m': Memory, roots: seq<nat>, managed: set<nat>,
                      root: nat, more: seq<nat>)
    requires Tied(s, m, roots, root) && Partition(m, free, roots, managed) && |m'| == |m|
    requires forall g: nat | g < |m| && In(free, g) == 0 :: m'[g] == m[g]
    ensures Tied(s, m', roots + more, root)
  {
    assert (roots + more)[1..] == roots[1..] + more;
    TreesKept(m, free, m', roots, managed);
    SlotsAgree(m, m', root, s.stacks, s.stacks);
    forall r: nat | r in s.spaces ensures SpaceTied(m', roots + more, r) {
      assert SpaceTied(m, roots, r);
      SpaceKept(m, m', roots, roots + more, r);
    }
  }

  /** A space is torn down, and no slot becomes free or ceases to be. */
  lemma TiedLess(s: State, after: State, m: Memory, free: seq<FrameNo>, m': Memory, roots: seq<nat>, managed: set<nat>,
                 root: nat, i: nat)
    requires Tied(s, m, roots, root) && Partition(m, free, roots, managed) && |m'| == |m| && 0 < i < |roots|
    requires forall g: nat | g < |m| && Owns(m, roots[i], 1, g) == 0 :: m'[g] == m[g]
    requires after.spaces == s.spaces - {roots[i]} && |after.stacks| == |s.stacks|
    requires forall k | 0 <= k < |s.stacks| :: after.stacks[k] == Free <==> s.stacks[k] == Free
    ensures Tied(after, m', roots[..i] + roots[i + 1..], root)
  {
    var rest := roots[..i] + roots[i + 1..];
    RootsDiffer(m, free, roots, managed, 0, i);
    OtherAgrees(m, free, m', roots, managed, i, root);
    SlotsAgree(m, m', root, s.stacks, after.stacks);
    forall r: nat | r in after.spaces ensures SpaceTied(m', rest, r) {
      assert SpaceTied(m, roots, r);
      LeftIn(roots, i, r);
      OtherAgrees(m, free, m', roots, managed, i, r);
      SpaceKept(m, m', roots, rest, r);
    }
  }

  lemma LeftIn(roots: seq<nat>, i: nat, r: nat)
    requires 0 < i < |roots| && r in roots[1..] && r != roots[i]
    ensures var rest := roots[..i] + roots[i + 1..]; rest != [] && rest[0] == roots[0] && r in rest[1..]
  {
    var rest := roots[..i] + roots[i + 1..];
    var j: nat :| j < |roots[1..]| && roots[1..][j] == r;
    assert rest[1..] == roots[1..i] + roots[i + 1..];
    if j + 1 < i { assert rest[1..][j] == r; } else { assert rest[1..][j - 1] == r; }
  }

  /** The space of root i is torn down and a free slot's pages are mapped; the other trees are as they were. */
  lemma TiedReplaced(s: State, after: State, m: Memory, free: seq<FrameNo>, m': Memory, roots: seq<nat>,
                     managed: set<nat>, root: nat, i: nat, k: nat, st: StackState)
    requires Tied(s, m, roots, root) && Partition(m, free, roots, managed) && 0 < i < |roots|
    requires forall r | r in roots && r != roots[i] && r != root :: Agree(m, m', r, 1)
    requires k < |s.stacks| && st != Free && OthersMapped(m, m', root, k) && SlotMapped(m', root, k, true)
    requires after.spaces == s.spaces - {roots[i]} && after.stacks == s.stacks[k := st]
    ensures Tied(after, m', roots[..i] + roots[i + 1..], root)
  {
    var rest := roots[..i] + roots[i + 1..];
    SlotChanges(m, m', root, s.stacks, k, st);
    forall r: nat | r in after.spaces ensures SpaceTied(m', rest, r) {
      assert SpaceTied(m, roots, r);
      var j := PlaceOf(m, free, roots, managed, r);
      LeftIn(roots, i, r);
      SpaceKept(m, m', roots, rest, r);
    }
  }

  /** Pages of one user space are written. */
  lemma TiedWritten(s: State, m: Memory, free: seq<FrameNo>, m': Memory, roots: seq<nat>, managed: set<nat>, root: nat,
                    i: nat)
    requires Tied(s, m, roots, root) && Partition(m, free, roots, managed) && 0 < i < |roots|
    requires PagesWritten(m, m', roots[i])
    ensures Tied(s, m', roots, root)
  {
    RootsDiffer(m, free, roots, managed, 0, i);
    OtherAgrees(m, free, m', roots, managed, i, root);
    SlotsAgree(m, m', root, s.stacks, s.stacks);
    forall r: nat | r in s.spaces ensures SpaceTied(m', roots, r) {
      assert SpaceTied(m, roots, r);
      if r == roots[i] {
        WrittenHasStack(m, m', r);
      } else {
        OtherAgrees(m, free, m', roots, managed, i, r);
        SpaceKept(m, m', roots, roots, r);
      }
    }
  }
}
