/** What binding and unbinding one page does to a translation table. */
module TreePaths {
  import opened Words
  import opened PageTree
  import opened FreeFrames
  import opened TreeLoops
  import opened TreeCopy

  /** How many frames `alloc_page` takes: the page, and each table missing on the way. */
  ghost function Need(m: Memory, r: nat, path: seq<nat>): nat
    requires |path| == 3
  {
    if !Walks(m, r, path[..2]) then 3 else if !Walks(m, r, path) then 2 else 1
  }

  /** Frames moved between the free list and the tree at r; nothing outside the two changed. */
  ghost predicate Shifted(m: Memory, free: seq<FrameNo>, m': Memory, free': seq<FrameNo>, r: nat) {
    && |m'| == |m|
    && (forall g: nat {:trigger In(free', g)} {:trigger Owns(m', r, 1, g)} ::
          In(free', g) + Owns(m', r, 1, g) == In(free, g) + Owns(m, r, 1, g))
    && (forall g: nat {:trigger m'[g]} :: g < |m| && In(free, g) == 0 && Owns(m, r, 1, g) == 0 ==> m'[g] == m[g])
  }

  lemma ShiftedTrans(m: Memory, free: seq<FrameNo>, m1: Memory, free1: seq<FrameNo>, m2: Memory,
                     free2: seq<FrameNo>, r: nat)
    requires Shifted(m, free, m1, free1, r) && Shifted(m1, free1, m2, free2, r)
    ensures Shifted(m, free, m2, free2, r)
  {
    forall g: nat
      ensures In(free2, g) + Owns(m2, r, 1, g) == In(free, g) + Owns(m, r, 1, g)
      ensures g < |m| && In(free, g) == 0 && Owns(m, r, 1, g) == 0 ==> m2[g] == m[g]
    {
      assert In(free1, g) + Owns(m1, r, 1, g) == In(free, g) + Owns(m, r, 1, g);
    }
  }

  /** The same, and no page that is mapped before and after changed. */
  ghost predicate Exchanged(m: Memory, free: seq<FrameNo>, m': Memory, free': seq<FrameNo>, r: nat) {
    Shifted(m, free, m', free', r) && PagesKept(m, m', r)
  }

  ghost predicate PagesKept(m: Memory, m': Memory, r: nat) {
    |m'| == |m|
    && forall q {:trigger LeafAt(m, r, q)} | |q| == 3 && LeafAt(m, r, q).Some? && LeafAt(m', r, q) == LeafAt(m, r, q) ::
      FrameOf(LeafAt(m, r, q).value) < |m| ==>
      m'[FrameOf(LeafAt(m, r, q).value)] == m[FrameOf(LeafAt(m, r, q).value)]
  }

  /** The leaves are those of m, except that path p now leads to `leaf`. */
  ghost predicate Rebound(m: Memory, m': Memory, r: nat, p: seq<nat>, leaf: Option<Word>) {
    forall q {:trigger LeafAt(m', r, q)} | |q| == 3 :: LeafAt(m', r, q) == if q == p then leaf else LeafAt(m, r, q)
  }

  ghost predicate SameLeaves(m: Memory, m': Memory, r: nat) {
    forall q {:trigger LeafAt(m', r, q)} | |q| == 3 :: LeafAt(m', r, q) == LeafAt(m, r, q)
  }

  /** The tables on the way to any page are those of m. */
  ghost predicate SameTables(m: Memory, m': Memory, r: nat) {
    forall q {:trigger LeafAt(m', r, q)} | 1 <= |q| <= 2 :: LeafAt(m', r, q) == LeafAt(m, r, q)
  }

  lemma SameTablesTrans(m: Memory, m1: Memory, m2: Memory, r: nat)
    requires SameTables(m, m1, r) && SameTables(m1, m2, r)
    ensures SameTables(m, m2, r)
  {
    forall q | 1 <= |q| <= 2 ensures LeafAt(m2, r, q) == LeafAt(m, r, q) {
      assert LeafAt(m1, r, q) == LeafAt(m, r, q);
    }
  }

  /** The tables on the way to any page are those of m, and the one that the descriptor at the end of p leads to. */
  ghost predicate TableMade(m: Memory, m': Memory, r: nat, p: seq<nat>) {
    forall q {:trigger LeafAt(m', r, q)} | 1 <= |q| <= 2 ::
      LeafAt(m', r, q).Some? <==> LeafAt(m, r, q).Some? || q == p
  }

  /** The same, for both tables on the way to the page at p. */
  ghost predicate TablesAdded(m: Memory, m': Memory, r: nat, p: seq<nat>)
    requires |p| == 3
  {
    forall q {:trigger LeafAt(m', r, q)} | 1 <= |q| <= 2 ::
      LeafAt(m', r, q).Some? <==> LeafAt(m, r, q).Some? || q == p[..|q|]
  }

  /** A walk ends at the first invalid descriptor. */
  lemma {:induction false} LeafBlocked(m: Memory, f: nat, p: seq<nat>, q: seq<nat>)
    requires Walks(m, f, p) && !IsValid(EntryAt(m, f, p)) && p <= q
    ensures LeafAt(m, f, q) == None
    decreases |p|
  {
    if |p| > 1 {
      LeafBlocked(m, FrameOf(m[f][p[0]]), p[1..], q[1..]);
    }
  }

  lemma {:induction false} LeafOwned(m: Memory, f: nat, q: seq<nat>, level: nat)
    requires 1 <= level && level + |q| == 4 && LeafAt(m, f, q).Some?
    ensures Owns(m, f, level, FrameOf(LeafAt(m, f, q).value)) > 0
    decreases |q|
  {
    var e := m[f][q[0]];
    if |q| > 1 {
      LeafOwned(m, FrameOf(e), q[1..], level + 1);
    }
    SubPart(m, m[f], q[0], level, FrameOf(LeafAt(m, f, q).value));
  }

  /** In a tree no frame is both a table and a page. */
  lemma {:induction false} PageIsNoTable(m: Memory, f: nat, q: seq<nat>, p: seq<nat>, level: nat)
    requires 1 <= level && level + |q| == 4 && |p| <= |q|
    requires Proper(m, f, level) && Walks(m, f, p) && LeafAt(m, f, q).Some?
    ensures TableAt(m, f, p) != FrameOf(LeafAt(m, f, q).value)
    decreases |p|
  {
    var t, c := TableAt(m, f, p), FrameOf(LeafAt(m, f, q).value);
    assert Sub(m, m[f][q[0]], level, c) > 0 by {
      if |q| > 1 {
        LeafOwned(m, FrameOf(m[f][q[0]]), q[1..], level + 1);
      }
    }
    ChildApart(m, f, q[0], level, c);
    if |p| > 1 {
      if p[0] == q[0] {
        ChildProper(m, f, p[0], level);
        PageIsNoTable(m, FrameOf(m[f][p[0]]), q[1..], p[1..], level + 1);
      } else {
        TableOwned(m, FrameOf(m[f][p[0]]), p[1..], level + 1);
        assert Sub(m, m[f][p[0]], level, t) > 0;
      }
    }
  }

  /** Two paths to the same page are the same path. */
  lemma {:induction false} LeafInjective(m: Memory, f: nat, q: seq<nat>, q': seq<nat>, level: nat)
    requires 1 <= level && level + |q| == 4 && |q'| == |q|
    requires Proper(m, f, level) && LeafAt(m, f, q).Some? && LeafAt(m, f, q').Some?
    requires FrameOf(LeafAt(m, f, q).value) == FrameOf(LeafAt(m, f, q').value)
    ensures q == q'
    decreases |q|
  {
    var c := FrameOf(LeafAt(m, f, q).value);
    var e, e' := m[f][q[0]], m[f][q'[0]];
    assert Sub(m, e, level, c) > 0 && Sub(m, e', level, c) > 0 by {
      if |q| > 1 {
        LeafOwned(m, FrameOf(e), q[1..], level + 1);
        LeafOwned(m, FrameOf(e'), q'[1..], level + 1);
      }
    }
    ChildApart(m, f, q[0], level, c);
    assert q[0] == q'[0];
    if |q| > 1 {
      ChildProper(m, f, q[0], level);
      LeafInjective(m, FrameOf(e), q[1..], q'[1..], level + 1);
    }
    assert q == [q[0]] + q[1..] && q' == [q'[0]] + q'[1..];
  }

  // ---------------------------------------------------------------- binding a popped frame

  /** The popped frame's row may be rewritten first (a new table is cleared, a new page is not). */
  ghost predicate Popped(m: Memory, free: seq<FrameNo>, m1: Memory, at: nat)
    requires 1 <= at <= 3
  {
    && free != [] && free[0] !in free[1..] && free[0] < |m| == |m1|
    && (forall g: nat {:trigger m1[g]} :: g < |m| && g != free[0] ==> m1[g] == m[g])
    && (at < 3 ==> forall j | 0 <= j < PAGE_ENTRIES :: !IsValid(m1[free[0]][j]))
  }

  /** Entering the popped frame where nothing was bound: only path p, if it is complete, gets a new meaning. */
  lemma Install(m: Memory, free: seq<FrameNo>, m1: Memory, r: nat, p: seq<nat>, w: Word)
    requires 1 <= |p| <= 3 && Walks(m, r, p) && !IsValid(EntryAt(m, r, p))
    requires Separate(m, free, r, 1) && Popped(m, free, m1, |p|)
    requires IsValid(w) && FrameOf(w) == free[0]
    ensures Walks(m1, r, p) && TableAt(m1, r, p) == TableAt(m, r, p)
    ensures Exchanged(m, free, WriteAt(m1, r, p, w), free[1..], r)
    ensures Rebound(m, WriteAt(m1, r, p, w), r, p, Some(w)) && TableMade(m, WriteAt(m1, r, p, w), r, p)
  {
    var n := free[0];
    assert In(free, n) + Owns(m, r, 1, n) <= 1;
    SameWalk(m, m1, r, p, 1);
    InstallOwns(m, free, m1, r, p, w);
    InstallLeaves(m, free, m1, r, p, w);
    var m2 := WriteAt(m1, r, p, w);
    forall q | |q| == 3 && LeafAt(m, r, q).Some?
      ensures FrameOf(LeafAt(m, r, q).value) < |m| ==>
        m2[FrameOf(LeafAt(m, r, q).value)] == m[FrameOf(LeafAt(m, r, q).value)]
    {
      LeafOwned(m, r, q, 1);
      PageIsNoTable(m, r, q, p, 1);
    }
    TableOwned(m, r, p, 1);
  }

  lemma {:induction false} SameWalk(m: Memory, m1: Memory, f: nat, p: seq<nat>, level: nat)
    requires 1 <= level && level + |p| <= 4 && Walks(m, f, p)
    requires Agree(m, m1, f, level)
    ensures Walks(m1, f, p) && TableAt(m1, f, p) == TableAt(m, f, p) && EntryAt(m1, f, p) == EntryAt(m, f, p)
    decreases |p|
  {
    assert Owns(m, f, level, f) > 0;
    if |p| > 1 {
      ChildAgrees(m, m1, f, p[0], level);
      SameWalk(m, m1, FrameOf(m[f][p[0]]), p[1..], level + 1);
    }
  }

  lemma InstallReady(m: Memory, free: seq<FrameNo>, m1: Memory, r: nat, p: seq<nat>, w: Word)
    requires 1 <= |p| <= 3 && Walks(m, r, p)
    requires Separate(m, free, r, 1) && Popped(m, free, m1, |p|)
    requires IsValid(w) && FrameOf(w) == free[0]
    ensures Agree(m, m1, r, 1) && Proper(m1, r, 1)
    ensures Alone(m1, free[0], |p| + 1)
    ensures Foreign(m1, w, |p|, r, 1)
    ensures Walks(m1, r, p) && EntryAt(m1, r, p) == EntryAt(m, r, p)
  {
    var n := free[0];
    assert In(free, n) + Owns(m, r, 1, n) <= 1;
    assert Agree(m, m1, r, 1);
    SameWalk(m, m1, r, p, 1);
    EmptyAlone(m1, n, |p| + 1);
    forall g: nat
      ensures Owns(m1, r, 1, g) == Owns(m, r, 1, g)
      ensures Owns(m1, r, 1, g) > 0 ==> Sub(m1, w, |p|, g) == 0
    {
      OwnsFrame(m, m1, r, 1, g);
    }
  }

  lemma InstallOwns(m: Memory, free: seq<FrameNo>, m1: Memory, r: nat, p: seq<nat>, w: Word)
    requires 1 <= |p| <= 3 && Walks(m, r, p) && Walks(m1, r, p) && !IsValid(EntryAt(m, r, p))
    requires Separate(m, free, r, 1) && Popped(m, free, m1, |p|)
    requires IsValid(w) && FrameOf(w) == free[0]
    ensures forall g: nat {:trigger Owns(WriteAt(m1, r, p, w), r, 1, g)} {:trigger In(free[1..], g)} ::
      In(free[1..], g) + Owns(WriteAt(m1, r, p, w), r, 1, g) == In(free, g) + Owns(m, r, 1, g)
  {
    InstallReady(m, free, m1, r, p, w);
    forall g: nat
      ensures In(free[1..], g) + Owns(WriteAt(m1, r, p, w), r, 1, g) == In(free, g) + Owns(m, r, 1, g)
    {
      OwnsWrite(m1, r, p, w, 1, g);
      OwnsFrame(m, m1, r, 1, g);
      assert Owns(m1, free[0], |p| + 1, g) == if g == free[0] then 1 else 0;
      assert In(free, g) == In(free[1..], g) + if g == free[0] then 1 else 0;
    }
  }

  lemma InstallLeaves(m: Memory, free: seq<FrameNo>, m1: Memory, r: nat, p: seq<nat>, w: Word)
    requires 1 <= |p| <= 3 && Walks(m, r, p) && Walks(m1, r, p) && !IsValid(EntryAt(m, r, p))
    requires Separate(m, free, r, 1) && Popped(m, free, m1, |p|)
    requires IsValid(w) && FrameOf(w) == free[0]
    ensures Rebound(m, WriteAt(m1, r, p, w), r, p, Some(w)) && TableMade(m, WriteAt(m1, r, p, w), r, p)
  {
    InstallReady(m, free, m1, r, p, w);
    forall q | 1 <= |q| <= 3
      ensures LeafAt(WriteAt(m1, r, p, w), r, q) == if q == p then Some(w) else LeafAt(m, r, q)
    {
      WalkFrame(m, m1, r, q, 1);
      if p <= q {
        LeafThrough(m1, r, p, w, q, 1);
        LeafBlocked(m, r, p, q);
        assert |q| == |p| ==> q == p;
      } else {
        LeafBeside(m1, r, p, w, q, 1);
      }
    }
  }

  /** A valid descriptor leads one table further. */
  lemma {:induction false} Deeper(m: Memory, f: nat, path: seq<nat>, k: nat)
    requires 1 <= k < |path| && Walks(m, f, path[..k])
    requires path[k] < PAGE_ENTRIES && FrameOf(EntryAt(m, f, path[..k])) < |m|
    ensures Walks(m, f, path[..k + 1]) <==> IsValid(EntryAt(m, f, path[..k]))
    ensures Walks(m, f, path[..k + 1]) ==> TableAt(m, f, path[..k + 1]) == FrameOf(EntryAt(m, f, path[..k]))
    decreases k
  {
    if k == 1 {
      assert path[..2][1..] == [path[1]];
    } else {
      assert path[..k][1..] == path[1..][..k - 1] && path[..k + 1][1..] == path[1..][..k];
      Deeper(m, FrameOf(m[f][path[0]]), path[1..], k - 1);
    }
  }

  /** After a write the path still leads to the written entry. */
  lemma {:induction false} WriteWalks(m: Memory, f: nat, p: seq<nat>, w: Word, level: nat)
    requires 1 <= level && level + |p| <= 4
    requires Walks(m, f, p) && Proper(m, f, level)
    ensures Walks(WriteAt(m, f, p, w), f, p)
    ensures TableAt(WriteAt(m, f, p, w), f, p) == TableAt(m, f, p)
    ensures EntryAt(WriteAt(m, f, p, w), f, p) == w
    decreases |p|
  {
    if |p| > 1 {
      WriteBelow(m, f, p, w, level);
      ChildProper(m, f, p[0], level);
      WriteWalks(m, FrameOf(m[f][p[0]]), p[1..], w, level + 1);
    }
  }

  // ---------------------------------------------------------------- unbinding a page

  lemma Unbind(m: Memory, free: seq<FrameNo>, m1: Memory, m2: Memory, free2: seq<FrameNo>, r: nat, p: seq<nat>)
    requires |p| == 3 && Walks(m, r, p) && IsValid(EntryAt(m, r, p))
    requires Separate(m, free, r, 1)
    requires m1 == WriteAt(m, r, p, ZERO) && |m2| == |m1|
    requires forall g: nat {:trigger m2[g]} | g < |m| && g != FrameOf(EntryAt(m, r, p)) :: m2[g] == m1[g]
    requires FrameOf(EntryAt(m, r, p)) < MAX_FRAMES && free2 == [FrameOf(EntryAt(m, r, p))] + free
    ensures Exchanged(m, free, m2, free2, r)
    ensures Rebound(m, m2, r, p, None) && SameTables(m, m2, r)
  {
    var c := FrameOf(EntryAt(m, r, p));
    UnbindOwns(m, m1, r, p);
    LeafIsEntry(m, r, p);
    LeafOwned(m, r, p, 1);
    assert Owns(m, r, 1, c) == 1 && In(free, c) == 0 by {
      assert In(free, c) + Owns(m, r, 1, c) <= 1;
    }
    assert Agree(m1, m2, r, 1);
    forall g: nat
      ensures In(free2, g) + Owns(m2, r, 1, g) == In(free, g) + Owns(m, r, 1, g)
    {
      OwnsFrame(m1, m2, r, 1, g);
    }
    UnbindLeaves(m, m1, m2, r, p);
    forall q | |q| == 3 && LeafAt(m, r, q).Some? && LeafAt(m2, r, q) == LeafAt(m, r, q)
      ensures FrameOf(LeafAt(m, r, q).value) < |m| ==>
        m2[FrameOf(LeafAt(m, r, q).value)] == m[FrameOf(LeafAt(m, r, q).value)]
    {
      PageIsNoTable(m, r, q, p, 1);
      assert q != p;
      if FrameOf(LeafAt(m, r, q).value) == c {
        LeafInjective(m, r, q, p, 1);
      }
    }
    TableOwned(m, r, p, 1);
  }

  lemma UnbindOwns(m: Memory, m1: Memory, r: nat, p: seq<nat>)
    requires |p| == 3 && Walks(m, r, p) && IsValid(EntryAt(m, r, p)) && Proper(m, r, 1)
    requires m1 == WriteAt(m, r, p, ZERO)
    ensures forall g: nat {:trigger Owns(m1, r, 1, g)} ::
      Owns(m1, r, 1, g) + (if g == FrameOf(EntryAt(m, r, p)) then 1 else 0) == Owns(m, r, 1, g)
  {
    forall g: nat
      ensures Owns(m1, r, 1, g) + (if g == FrameOf(EntryAt(m, r, p)) then 1 else 0) == Owns(m, r, 1, g)
    {
      OwnsWrite(m, r, p, ZERO, 1, g);
    }
  }

  lemma UnbindLeaves(m: Memory, m1: Memory, m2: Memory, r: nat, p: seq<nat>)
    requires |p| == 3 && Walks(m, r, p) && Proper(m, r, 1)
    requires m1 == WriteAt(m, r, p, ZERO) && Agree(m1, m2, r, 1)
    ensures Rebound(m, m2, r, p, None) && SameTables(m, m2, r)
  {
    forall q | 1 <= |q| <= 3
      ensures LeafAt(m2, r, q) == if q == p then None else LeafAt(m, r, q)
    {
      WalkFrame(m1, m2, r, q, 1);
      if q == p {
        LeafThrough(m, r, p, ZERO, q, 1);
      } else {
        LeafBeside(m, r, p, ZERO, q, 1);
      }
    }
  }

  /** One more step of a walk from a root in use. */
  lemma WalkStep(m: Memory, r: nat, path: seq<nat>, k: nat)
    requires Proper(m, r, 1) && 1 <= k < |path| == 3 && Walks(m, r, path[..k])
    requires path[k] < PAGE_ENTRIES
    ensures var e := EntryAt(m, r, path[..k]);
            && (Walks(m, r, path[..k + 1]) <==> IsValid(e))
            && (IsValid(e) ==> FrameOf(e) < |m| && TableAt(m, r, path[..k + 1]) == FrameOf(e))
  {
    var e := EntryAt(m, r, path[..k]);
    if IsValid(e) {
      EntryOwned(m, r, path[..k], 1);
      Deeper(m, r, path, k);
    } else {
      Stops(m, r, path, k);
    }
  }

  lemma {:induction false} EntryOwned(m: Memory, f: nat, p: seq<nat>, level: nat)
    requires 1 <= level && level + |p| <= 4
    requires Walks(m, f, p) && IsValid(EntryAt(m, f, p))
    ensures Owns(m, f, level, FrameOf(EntryAt(m, f, p))) > 0
    decreases |p|
  {
    if |p| > 1 {
      EntryOwned(m, FrameOf(m[f][p[0]]), p[1..], level + 1);
    }
    SubPart(m, m[f], p[0], level, FrameOf(EntryAt(m, f, p)));
  }

  lemma {:induction false} Stops(m: Memory, f: nat, path: seq<nat>, k: nat)
    requires 1 <= k < |path| && Walks(m, f, path[..k]) && !IsValid(EntryAt(m, f, path[..k]))
    ensures !Walks(m, f, path[..k + 1])
    decreases k
  {
    if k > 1 {
      assert path[..k][1..] == path[1..][..k - 1] && path[..k + 1][1..] == path[1..][..k];
      Stops(m, FrameOf(m[f][path[0]]), path[1..], k - 1);
    }
  }

  /** A new table: entered first, cleared afterwards. */
  lemma TableInstalled(m: Memory, free: seq<FrameNo>, m2: Memory, r: nat, p: seq<nat>, w: Word)
    requires 1 <= |p| <= 2 && Walks(m, r, p) && !IsValid(EntryAt(m, r, p))
    requires Separate(m, free, r, 1) && free != [] && free[0] !in free[1..] && free[0] < |m|
    requires IsValid(w) && FrameOf(w) == free[0]
    requires m2 == Put(m, TableAt(m, r, p), p[|p| - 1], w)[free[0] := Zeros(PAGE_ENTRIES)]
    ensures Exchanged(m, free, m2, free[1..], r) && SameLeaves(m, m2, r) && TableMade(m, m2, r, p)
    ensures Walks(m2, r, p) && TableAt(m2, r, p) == TableAt(m, r, p) && EntryAt(m2, r, p) == w
  {
    var n, t, i := free[0], TableAt(m, r, p), p[|p| - 1];
    assert n != t && t !in free by {
      TableOwned(m, r, p, 1);
      assert In(free, t) + Owns(m, r, 1, t) <= 1;
      assert In(free, n) == 1;
    }
    var m1: Memory := m[n := Zeros(PAGE_ENTRIES)];
    Install(m, free, m1, r, p, w);
    PutCommutes(m, t, i, w, n);
    InstallReady(m, free, m1, r, p, w);
    WriteWalks(m1, r, p, w, 1);
  }

  lemma PutCommutes(m: Memory, t: nat, i: nat, w: Word, n: nat)
    requires t < |m| && n < |m| && n != t && i < PAGE_ENTRIES
    ensures Put(m, t, i, w)[n := Zeros(PAGE_ENTRIES)] == Put(m[n := Zeros(PAGE_ENTRIES)], t, i, w)
  {
  }

  lemma ExchangedTrans(m: Memory, free: seq<FrameNo>, m1: Memory, free1: seq<FrameNo>, m2: Memory,
                       free2: seq<FrameNo>, r: nat)
    requires Exchanged(m, free, m1, free1, r) && SameLeaves(m, m1, r)
    requires Exchanged(m1, free1, m2, free2, r)
    ensures Exchanged(m, free, m2, free2, r)
  {
    ShiftedTrans(m, free, m1, free1, m2, free2, r);
    forall q | |q| == 3 && LeafAt(m, r, q).Some? && LeafAt(m2, r, q) == LeafAt(m, r, q)
      ensures FrameOf(LeafAt(m, r, q).value) < |m| ==>
        m2[FrameOf(LeafAt(m, r, q).value)] == m[FrameOf(LeafAt(m, r, q).value)]
    {
      assert LeafAt(m1, r, q) == LeafAt(m, r, q);
    }
  }

  lemma UnchangedExchanged(m: Memory, free: seq<FrameNo>, r: nat)
    ensures Exchanged(m, free, m, free, r) && SameLeaves(m, m, r)
  {
  }

  // ---------------------------------------------------------------- allocation as a whole

  datatype AllocResult = Allocated(frame: nat) | AlreadyMapped | OutOfFrames

  /** What allocating a page at path p does. The page's frame keeps the words it had on the list. */
  ghost predicate AllocPost(m: Memory, free: seq<FrameNo>, m': Memory, free': seq<FrameNo>, r: nat, p: seq<nat>,
                            result: AllocResult)
    requires |p| == 3
  {
    && Exchanged(m, free, m', free', r)
    && (result.AlreadyMapped? <==> LeafAt(m, r, p).Some?)
    && (result.OutOfFrames? <==> LeafAt(m, r, p).None? && |free| < Need(m, r, p))
    && (!result.Allocated? ==> SameLeaves(m, m', r))
    && (result.Allocated? ==>
          && result.frame in free && |free'| + Need(m, r, p) == |free|
          && Rebound(m, m', r, p, Some(Entry(result.frame, PAGE_FLAGS))) && TablesAdded(m, m', r, p)
          && result.frame < |m'| && m'[result.frame] == FreeImage(Link(free')))
  }

  /** Creating a table first does not change what the allocation as a whole does. */
  lemma AllocAfterTable(m: Memory, free: seq<FrameNo>, m1: Memory, free1: seq<FrameNo>, m2: Memory,
                        free2: seq<FrameNo>, r: nat, p: seq<nat>, result: AllocResult)
    requires |p| == 3 && |free1| + Need(m, r, p) == |free| + Need(m1, r, p)
    requires Exchanged(m, free, m1, free1, r) && SameLeaves(m, m1, r)
    requires TableMade(m, m1, r, p[..1]) || TableMade(m, m1, r, p[..2])
    requires forall g | g in free1 :: g in free
    requires AllocPost(m1, free1, m2, free2, r, p, result)
    ensures AllocPost(m, free, m2, free2, r, p, result)
  {
    ExchangedTrans(m, free, m1, free1, m2, free2, r);
    assert LeafAt(m1, r, p) == LeafAt(m, r, p);
    assert result.Allocated? ==> forall q | |q| == 3 :: LeafAt(m1, r, q) == LeafAt(m, r, q);
  }

  /** How creating the table at depth k changes the need. */
  lemma NeedStep(m: Memory, m1: Memory, r: nat, p: seq<nat>, k: nat)
    requires |p| == 3 && 1 <= k <= 2 && p[1] < PAGE_ENTRIES && p[2] < PAGE_ENTRIES
    requires Proper(m, r, 1) && Proper(m1, r, 1)
    requires Walks(m, r, p[..k]) && !IsValid(EntryAt(m, r, p[..k]))
    requires Walks(m1, r, p[..k]) && IsValid(EntryAt(m1, r, p[..k]))
    requires FrameOf(EntryAt(m1, r, p[..k])) < |m1|
    requires m1[FrameOf(EntryAt(m1, r, p[..k]))] == Zeros(PAGE_ENTRIES)
    ensures Need(m, r, p) == Need(m1, r, p) + 1
  {
    assert p[..3] == p;
    WalkStep(m, r, p, k);
    WalkStep(m1, r, p, k);
    if k == 1 {
      WalkStep(m1, r, p, 2);
    }
  }

  lemma {:induction false} WalkPrefix(m: Memory, f: nat, p: seq<nat>, k: nat)
    requires 1 <= k <= |p| && Walks(m, f, p)
    ensures Walks(m, f, p[..k])
    decreases k
  {
    if k > 1 {
      assert p[..k][1..] == p[1..][..k - 1];
      WalkPrefix(m, FrameOf(m[f][p[0]]), p[1..], k - 1);
    }
  }

  /** A walk to the last table finds the descriptors of the tables before it. */
  lemma {:induction false} WalkFinds(m: Memory, f: nat, p: seq<nat>, k: nat)
    requires Walks(m, f, p) && 1 <= k < |p|
    ensures LeafAt(m, f, p[..k]).Some?
    decreases k
  {
    if k > 1 {
      assert p[..k][1..] == p[1..][..k - 1];
      WalkFinds(m, FrameOf(m[f][p[0]]), p[1..], k - 1);
    }
  }

  /** Binding a page whose tables exist makes none. */
  lemma BoundTables(m: Memory, m': Memory, r: nat, p: seq<nat>)
    requires |p| == 3 && Walks(m, r, p) && TableMade(m, m', r, p)
    ensures TablesAdded(m, m', r, p)
  {
    WalkFinds(m, r, p, 1);
    WalkFinds(m, r, p, 2);
  }

  lemma TableNotFree(m: Memory, free: seq<FrameNo>, r: nat, p: seq<nat>)
    requires 1 <= |p| <= 3 && Separate(m, free, r, 1) && Walks(m, r, p)
    ensures TableAt(m, r, p) !in free
  {
    TableOwned(m, r, p, 1);
    assert In(free, TableAt(m, r, p)) + Owns(m, r, 1, TableAt(m, r, p)) <= 1;
  }

  /** A mapped page exists, is not free, and is not the table that maps it. */
  lemma PageFrame(m: Memory, free: seq<FrameNo>, r: nat, p: seq<nat>)
    requires |p| == 3 && Separate(m, free, r, 1) && Walks(m, r, p) && IsValid(EntryAt(m, r, p))
    ensures FrameOf(EntryAt(m, r, p)) < |m|
    ensures FrameOf(EntryAt(m, r, p)) !in free && TableAt(m, r, p) !in free
    ensures FrameOf(EntryAt(m, r, p)) != TableAt(m, r, p)
  {
    var c := FrameOf(EntryAt(m, r, p));
    LeafIsEntry(m, r, p);
    LeafOwned(m, r, p, 1);
    PageIsNoTable(m, r, p, p, 1);
    TableNotFree(m, free, r, p);
    assert In(free, c) + Owns(m, r, 1, c) <= 1;
  }

  lemma NotBelow(m: Memory, r: nat, p: seq<nat>, k: nat)
    requires 1 <= k <= |p| && !Walks(m, r, p[..k])
    ensures !Walks(m, r, p)
  {
    if Walks(m, r, p) {
      WalkPrefix(m, r, p, k);
    }
  }
}
