/** The free list, threaded through the free frames themselves. */
module FreeFrames {
  import opened Words
  import opened PageTree

  function In(s: seq<nat>, g: nat): nat {
    if g in s then 1 else 0
  }

  /** The stored `Option<*mut FreeFrame>` naming the first frame of a list. */
  ghost function Link(free: seq<FrameNo>): Option<Word> {
    if free == [] then None else Some(FrameVa(free[0]))
  }

  // The first word of a stored `Some`. The kernel's walk takes it for no mapping, as its two low bits are not both set.
  const SOME_TAG: Word := Fields(0, 0, 0, 1)

  /** A frame as `add_free_frame` leaves it: zeroed, then the link stored in its first two words (tag and pointer). */
  ghost function FreeImage(next: Option<Word>): (s: seq<Word>)
    ensures |s| == PAGE_ENTRIES
  {
    if next.None? then Zeros(PAGE_ENTRIES) else [SOME_TAG, next.value] + Zeros(PAGE_ENTRIES - 2)
  }

  /** The frames of `free`, in this order, form the list that starts at its first element. */
  ghost predicate Chain(m: Memory, free: seq<FrameNo>)
    decreases |free|
  {
    free != [] ==>
      && free[0] < |m| && free[0] !in free[1..]
      && Chain(m, free[1..])
      && m[free[0]] == FreeImage(Link(free[1..]))
  }

  lemma {:induction false} ChainFrames(m: Memory, free: seq<FrameNo>)
    requires Chain(m, free)
    ensures forall g | g in free :: g < |m| && forall i | 0 <= i < PAGE_ENTRIES :: !IsValid(m[g][i])
    decreases |free|
  {
    if free != [] {
      ChainFrames(m, free[1..]);
    }
  }

  /** Writes outside the free frames leave the list intact. */
  lemma {:induction false} ChainFrame(m: Memory, m': Memory, free: seq<FrameNo>)
    requires Chain(m, free) && |m'| == |m|
    requires forall g | g in free && g < |m| :: m'[g] == m[g]
    ensures Chain(m', free)
    decreases |free|
  {
    if free != [] {
      ChainFrame(m, m', free[1..]);
    }
  }

  /** A free frame used as a table, uncleared, is empty: it owns itself only and maps nothing. */
  lemma FreeFrameIsEmptyTable(m: Memory, free: seq<FrameNo>, f: nat, level: nat)
    requires Chain(m, free) && f in free && 1 <= level <= 4
    ensures forall g: nat :: Owns(m, f, level, g) == if g == f then 1 else 0
    ensures forall path | |path| > 0 :: LeafAt(m, f, path) == None
  {
    ChainFrames(m, free);
    forall g: nat
      ensures Owns(m, f, level, g) == if g == f then 1 else 0
    {
      OwnsOfEmpty(m, f, level, g);
    }
  }

  // ---------------------------------------------------------------- the whole of memory

  /** How often frame g occurs in the trees at the given roots. */
  ghost function Held(m: Memory, roots: seq<nat>, g: nat): nat
    decreases |roots|
  {
    if roots == [] then 0 else Owns(m, roots[0], 1, g) + Held(m, roots[1..], g)
  }

  /** Every managed frame is in exactly one place: the free list, or one position of one tree. */
  ghost predicate Partition(m: Memory, free: seq<FrameNo>, roots: seq<nat>, managed: set<nat>) {
    forall g: nat {:trigger Held(m, roots, g)} {:trigger g in managed} ::
      In(free, g) + Held(m, roots, g) == if g in managed then 1 else 0
  }

  lemma {:induction false} HeldSplit(m: Memory, roots: seq<nat>, k: nat, g: nat)
    requires k < |roots|
    ensures Held(m, roots, g) == Owns(m, roots[k], 1, g) + Held(m, roots[..k] + roots[k + 1..], g)
    decreases k
  {
    if k == 0 {
      assert roots[..0] + roots[1..] == roots[1..];
    } else {
      HeldSplit(m, roots[1..], k - 1, g);
      var rest := roots[..k] + roots[k + 1..];
      assert rest[0] == roots[0] && rest[1..] == roots[1..][..k - 1] + roots[1..][k..];
    }
  }

  lemma {:induction false} HeldAppend(m: Memory, roots: seq<nat>, r: nat, g: nat)
    ensures Held(m, roots + [r], g) == Held(m, roots, g) + Owns(m, r, 1, g)
    decreases |roots|
  {
    if roots == [] {
      assert ([] + [r])[1..] == [];
    } else {
      HeldAppend(m, roots[1..], r, g);
      assert (roots + [r])[1..] == roots[1..] + [r];
    }
  }

  lemma {:induction false} HeldFrame(m: Memory, m': Memory, roots: seq<nat>, g: nat)
    requires forall k | 0 <= k < |roots| :: Agree(m, m', roots[k], 1)
    ensures Held(m', roots, g) == Held(m, roots, g)
    decreases |roots|
  {
    if roots != [] {
      OwnsFrame(m, m', roots[0], 1, g);
      HeldFrame(m, m', roots[1..], g);
    }
  }

  lemma RootInPartition(m: Memory, free: seq<FrameNo>, roots: seq<nat>, managed: set<nat>, r: nat)
    requires Partition(m, free, roots, managed) && r in roots
    requires forall g | g in managed :: g < |m|
    ensures Proper(m, r, 1)
    ensures forall g: nat {:trigger Owns(m, r, 1, g)} :: In(free, g) + Owns(m, r, 1, g) <= 1
    ensures r < |m|
  {
    var k :| 0 <= k < |roots| && roots[k] == r;
    forall g: nat
      ensures In(free, g) + Owns(m, r, 1, g) <= 1
      ensures Owns(m, r, 1, g) > 0 ==> g < |m|
    {
      HeldSplit(m, roots, k, g);
    }
    assert Owns(m, r, 1, r) > 0;
  }

  /** What another root owns is neither free nor owned by root k. */
  lemma OtherRoot(m: Memory, free: seq<FrameNo>, roots: seq<nat>, managed: set<nat>, k: nat, j: nat, g: nat)
    requires Partition(m, free, roots, managed)
    requires k < |roots| && j < |roots| - 1
    ensures var rest := roots[..k] + roots[k + 1..];
            Owns(m, rest[j], 1, g) > 0 ==> In(free, g) == 0 && Owns(m, roots[k], 1, g) == 0
  {
    var rest := roots[..k] + roots[k + 1..];
    HeldSplit(m, roots, k, g);
    HeldSplit(m, rest, j, g);
  }

  /** An operation that exchanges frames between the free list and one tree, and touches no other frame,
      keeps the partition. */
  lemma ExchangeKeepsPartition(m: Memory, free: seq<FrameNo>, m': Memory, free': seq<FrameNo>, roots: seq<nat>,
                               managed: set<nat>, r: nat)
    requires Partition(m, free, roots, managed) && r in roots && |m'| == |m|
    requires forall g: nat :: In(free', g) + Owns(m', r, 1, g) == In(free, g) + Owns(m, r, 1, g)
    requires forall g: nat | g < |m| && In(free, g) == 0 && Owns(m, r, 1, g) == 0 :: m'[g] == m[g]
    ensures Partition(m', free', roots, managed)
  {
    var k :| 0 <= k < |roots| && roots[k] == r;
    var rest := roots[..k] + roots[k + 1..];
    OthersAgree(m, free, m', roots, managed, k);
    forall g: nat
      ensures In(free', g) + Held(m', roots, g) == if g in managed then 1 else 0
    {
      HeldSplit(m, roots, k, g);
      HeldSplit(m', roots, k, g);
      HeldFrame(m, m', rest, g);
      assert In(free, g) + Held(m, roots, g) == if g in managed then 1 else 0;
    }
  }

  lemma OthersAgree(m: Memory, free: seq<FrameNo>, m': Memory, roots: seq<nat>, managed: set<nat>, k: nat)
    requires Partition(m, free, roots, managed) && k < |roots| && |m'| == |m|
    requires forall g: nat | g < |m| && In(free, g) == 0 && Owns(m, roots[k], 1, g) == 0 :: m'[g] == m[g]
    ensures var rest := roots[..k] + roots[k + 1..];
            forall j | 0 <= j < |rest| :: Agree(m, m', rest[j], 1)
  {
    var rest := roots[..k] + roots[k + 1..];
    forall j | 0 <= j < |rest|
      ensures Agree(m, m', rest[j], 1)
    {
      forall g: nat | g < |m| && Owns(m, rest[j], 1, g) > 0
        ensures m'[g] == m[g]
      {
        OtherRoot(m, free, roots, managed, k, j, g);
      }
    }
  }

  lemma OwnedNotFree(m: Memory, free: seq<FrameNo>, roots: seq<nat>, managed: set<nat>, k: nat, g: nat)
    requires Partition(m, free, roots, managed) && k < |roots|
    ensures Owns(m, roots[k], 1, g) > 0 ==> In(free, g) == 0
  {
    HeldSplit(m, roots, k, g);
  }

  /** Writes to free frames only: no tree changes. */
  lemma TreesKept(m: Memory, free: seq<FrameNo>, m': Memory, roots: seq<nat>, managed: set<nat>)
    requires Partition(m, free, roots, managed) && |m'| == |m|
    requires forall g: nat | g < |m| && In(free, g) == 0 :: m'[g] == m[g]
    ensures forall k | 0 <= k < |roots| :: Agree(m, m', roots[k], 1)
    ensures forall g: nat {:trigger Held(m', roots, g)} :: Held(m', roots, g) == Held(m, roots, g)
  {
    forall k | 0 <= k < |roots|
      ensures Agree(m, m', roots[k], 1)
    {
      forall g: nat | g < |m| && Owns(m, roots[k], 1, g) > 0
        ensures m'[g] == m[g]
      {
        OwnedNotFree(m, free, roots, managed, k, g);
      }
    }
    forall g: nat
      ensures Held(m', roots, g) == Held(m, roots, g)
    {
      HeldFrame(m, m', roots, g);
    }
  }

  /** A new tree made of free frames joins the roots. */
  lemma AddRoot(m: Memory, free: seq<FrameNo>, m': Memory, free': seq<FrameNo>, roots: seq<nat>, managed: set<nat>,
                d: nat)
    requires Partition(m, free, roots, managed) && |m'| == |m|
    requires forall g: nat | g < |m| && In(free, g) == 0 :: m'[g] == m[g]
    requires forall g: nat {:trigger In(free', g)} :: In(free', g) + Owns(m', d, 1, g) == In(free, g)
    ensures Partition(m', free', roots + [d], managed)
  {
    TreesKept(m, free, m', roots, managed);
    forall g: nat
      ensures In(free', g) + Held(m', roots + [d], g) == if g in managed then 1 else 0
    {
      HeldAppend(m', roots, d, g);
      assert In(free, g) + Held(m, roots, g) == if g in managed then 1 else 0;
    }
  }

  /** A tree whose frames all went to the free list leaves the roots. */
  lemma DropRoot(m: Memory, free: seq<FrameNo>, m': Memory, free': seq<FrameNo>, roots: seq<nat>, managed: set<nat>,
                 k: nat)
    requires Partition(m, free, roots, managed) && k < |roots| && |m'| == |m|
    requires forall g: nat | g < |m| && Owns(m, roots[k], 1, g) == 0 :: m'[g] == m[g]
    requires forall g: nat {:trigger In(free', g)} :: In(free', g) == In(free, g) + Owns(m, roots[k], 1, g)
    ensures Partition(m', free', roots[..k] + roots[k + 1..], managed)
  {
    var rest := roots[..k] + roots[k + 1..];
    OthersAgree(m, free, m', roots, managed, k);
    forall g: nat
      ensures In(free', g) + Held(m', rest, g) == if g in managed then 1 else 0
    {
      HeldSplit(m, roots, k, g);
      HeldFrame(m, m', rest, g);
      assert In(free, g) + Held(m, roots, g) == if g in managed then 1 else 0;
    }
  }

  /** The same frames are free, in any order, and no other frame changed. */
  lemma SameFree(m: Memory, free: seq<FrameNo>, m': Memory, free': seq<FrameNo>, roots: seq<nat>, managed: set<nat>)
    requires Partition(m, free, roots, managed) && |m'| == |m|
    requires forall g: nat | g < |m| && In(free, g) == 0 :: m'[g] == m[g]
    requires forall g: nat {:trigger In(free', g)} :: In(free', g) == In(free, g)
    ensures Partition(m', free', roots, managed)
  {
    TreesKept(m, free, m', roots, managed);
    forall g: nat
      ensures In(free', g) + Held(m', roots, g) == if g in managed then 1 else 0
    {
      assert In(free, g) + Held(m, roots, g) == if g in managed then 1 else 0;
    }
  }

  ghost function Elements(free: seq<FrameNo>): set<nat> {
    set g | g in free
  }

  lemma {:induction false} ChainLength(m: Memory, free: seq<FrameNo>)
    requires Chain(m, free)
    ensures |Elements(free)| == |free|
    decreases |free|
  {
    if free != [] {
      var rest := Elements(free[1..]);
      ChainLength(m, free[1..]);
      assert free[0] !in rest && Elements(free) == {free[0]} + rest;
    }
  }

  lemma SameLength(m: Memory, free: seq<FrameNo>, m': Memory, free': seq<FrameNo>)
    requires Chain(m, free) && Chain(m', free')
    requires forall g: nat {:trigger In(free', g)} :: In(free', g) == In(free, g)
    ensures |free'| == |free|
  {
    ChainLength(m, free);
    ChainLength(m', free');
    forall g: nat
      ensures g in Elements(free') <==> g in Elements(free)
    {
      assert In(free', g) == In(free, g);
    }
    assert Elements(free') == Elements(free);
  }

  /** A frame that belonged to nothing joins the free list. */
  lemma AddFrame(m: Memory, free: seq<FrameNo>, m': Memory, free': seq<FrameNo>, roots: seq<nat>, managed: set<nat>,
                 f: FrameNo)
    requires Partition(m, free, roots, managed) && f !in managed && |m'| == |m|
    requires free' == [f] + free && forall g: nat | g < |m| && g != f :: m'[g] == m[g]
    ensures Partition(m', free', roots, managed + {f})
  {
    assert In(free, f) + Held(m, roots, f) == 0;
    forall k | 0 <= k < |roots|
      ensures Agree(m, m', roots[k], 1)
    {
      HeldSplit(m, roots, k, f);
    }
    forall g: nat
      ensures In(free', g) + Held(m', roots, g) == if g in managed + {f} then 1 else 0
    {
      HeldFrame(m, m', roots, g);
      assert In(free, g) + Held(m, roots, g) == if g in managed then 1 else 0;
    }
  }
}
