/** Three-level translation tables as trees in physical memory: the frames a table owns, the
    descriptor a path of indices leads to, and how one write changes both. */
module PageTree {
  import opened Words

  type Memory = m: seq<seq<Word>> |
    |m| <= MAX_FRAMES && forall f :: 0 <= f < |m| ==> |m[f]| == PAGE_ENTRIES

  function Zeros(n: nat): (s: seq<Word>)
    ensures |s| == n && forall i | 0 <= i < n :: s[i] == ZERO
  {
    seq(n, _ => ZERO)
  }

  function Put(m: Memory, f: nat, i: nat, w: Word): (m': Memory)
    requires f < |m| && i < PAGE_ENTRIES
    ensures |m'| == |m| && m'[f] == m[f][i := w]
    ensures forall g | 0 <= g < |m| && g != f :: m'[g] == m[g]
  {
    var row: seq<Word> := m[f][i := w];
    m[f := row]
  }

  // ---------------------------------------------------------------- footprints

  /** How often frame g is reached from the tree at frame f.
      Levels 1 to 3 are tables, level 4 is a mapped page. */
  ghost function Owns(m: Memory, f: nat, level: nat, g: nat): nat
    requires 1 <= level <= 4
    decreases 4 - level, 1, 0
  {
    (if f == g then 1 else 0) + (if level == 4 || f >= |m| then 0 else Under(m, m[f], level, g))
  }

  /** How often frame g is reached from a run of entries of a table. */
  ghost function Under(m: Memory, es: seq<Word>, level: nat, g: nat): nat
    requires 1 <= level <= 3
    decreases 4 - level, 0, |es|
  {
    if es == [] then 0 else Under(m, es[..|es| - 1], level, g) + Sub(m, es[|es| - 1], level, g)
  }

  /** How often frame g is reached through one descriptor. */
  ghost function Sub(m: Memory, w: Word, level: nat, g: nat): nat
    requires 1 <= level <= 3
    decreases 4 - level, 0, 0
  {
    if IsValid(w) then Owns(m, FrameOf(w), level + 1, g) else 0
  }

  /** No frame is reached twice and every frame reached exists: the table is a tree. */
  ghost predicate Proper(m: Memory, f: nat, level: nat)
    requires 1 <= level <= 4
  {
    forall g: nat {:trigger Owns(m, f, level, g)} :: Owns(m, f, level, g) > 0 ==> Owns(m, f, level, g) == 1 && g < |m|
  }

  /** m' has the same contents as m in every frame of the tree. */
  ghost predicate Agree(m: Memory, m': Memory, f: nat, level: nat)
    requires 1 <= level <= 4
  {
    |m| == |m'| && forall g: nat {:trigger m'[g]} {:trigger Owns(m, f, level, g)} ::
      g < |m| && Owns(m, f, level, g) > 0 ==> m'[g] == m[g]
  }

  ghost predicate SubAgree(m: Memory, m': Memory, w: Word, level: nat)
    requires 1 <= level <= 3
  {
    IsValid(w) ==> Agree(m, m', FrameOf(w), level + 1)
  }

  lemma {:induction false} UnderPart(m: Memory, es: seq<Word>, n: nat, level: nat, g: nat)
    requires 1 <= level <= 3 && n <= |es|
    ensures Under(m, es[..n], level, g) <= Under(m, es, level, g)
    decreases |es| - n
  {
    if n == |es| {
      assert es[..n] == es;
    } else {
      assert es[..n + 1][..n] == es[..n];
      UnderPart(m, es, n + 1, level, g);
    }
  }

  lemma SubPart(m: Memory, es: seq<Word>, i: nat, level: nat, g: nat)
    requires 1 <= level <= 3 && i < |es|
    ensures Sub(m, es[i], level, g) <= Under(m, es, level, g)
  {
    assert es[..i + 1][..i] == es[..i];
    UnderPart(m, es, i + 1, level, g);
  }

  lemma PairPart(m: Memory, es: seq<Word>, i: nat, j: nat, level: nat, g: nat)
    requires 1 <= level <= 3 && i < j < |es|
    ensures Sub(m, es[i], level, g) + Sub(m, es[j], level, g) <= Under(m, es, level, g)
  {
    SubPart(m, es[..j], i, level, g);
    assert es[..j + 1][..j] == es[..j];
    UnderPart(m, es, j + 1, level, g);
  }

  lemma {:induction false} UnderFrame(m: Memory, m': Memory, es: seq<Word>, level: nat, g: nat)
    requires 1 <= level <= 3
    requires forall j | 0 <= j < |es| :: Sub(m', es[j], level, g) == Sub(m, es[j], level, g)
    ensures Under(m', es, level, g) == Under(m, es, level, g)
    decreases |es|
  {
    if es != [] {
      UnderFrame(m, m', es[..|es| - 1], level, g);
    }
  }

  lemma ChildAgrees(m: Memory, m': Memory, f: nat, i: nat, level: nat)
    requires 1 <= level <= 3 && f < |m| && i < PAGE_ENTRIES
    requires Agree(m, m', f, level)
    ensures m'[f] == m[f] && SubAgree(m, m', m[f][i], level)
  {
    assert Owns(m, f, level, f) > 0;
    var w := m[f][i];
    if IsValid(w) {
      forall g: nat | g < |m| && Owns(m, FrameOf(w), level + 1, g) > 0
        ensures m'[g] == m[g]
      {
        SubPart(m, m[f], i, level, g);
        assert Owns(m, f, level, g) > 0;
      }
    }
  }

  lemma {:induction false} OwnsFrame(m: Memory, m': Memory, f: nat, level: nat, g: nat)
    requires 1 <= level <= 4
    requires Agree(m, m', f, level)
    ensures Owns(m', f, level, g) == Owns(m, f, level, g)
    decreases 4 - level
  {
    if level < 4 && f < |m| {
      assert Owns(m, f, level, f) > 0;
      forall j | 0 <= j < PAGE_ENTRIES
        ensures Sub(m', m[f][j], level, g) == Sub(m, m[f][j], level, g)
      {
        ChildAgrees(m, m', f, j, level);
        if IsValid(m[f][j]) {
          OwnsFrame(m, m', FrameOf(m[f][j]), level + 1, g);
        }
      }
      UnderFrame(m, m', m[f], level, g);
    }
  }

  lemma SubFrame(m: Memory, m': Memory, w: Word, level: nat, g: nat)
    requires 1 <= level <= 3
    requires SubAgree(m, m', w, level)
    ensures Sub(m', w, level, g) == Sub(m, w, level, g)
  {
    if IsValid(w) {
      OwnsFrame(m, m', FrameOf(w), level + 1, g);
    }
  }

  /** Entry i may change, and so may the tree below it; the trees of the other entries may not. */
  lemma {:induction false} UnderPut(m: Memory, m': Memory, es: seq<Word>, i: nat, w: Word, level: nat, g: nat)
    requires 1 <= level <= 3 && i < |es|
    requires forall j | 0 <= j < |es| && j != i :: Sub(m', es[j], level, g) == Sub(m, es[j], level, g)
    ensures Under(m', es[i := w], level, g) + Sub(m, es[i], level, g) == Under(m, es, level, g) + Sub(m', w, level, g)
    decreases |es|
  {
    var n := |es| - 1;
    if i < n {
      assert es[i := w][..n] == es[..n][i := w];
      UnderPut(m, m', es[..n], i, w, level, g);
    } else {
      assert es[i := w][..n] == es[..n];
      UnderFrame(m, m', es[..n], level, g);
    }
  }

  /** Changing entry i of table f, and possibly the tree below it, exchanges exactly that subtree. */
  lemma OwnsPut(m: Memory, m': Memory, f: nat, i: nat, w: Word, level: nat, g: nat)
    requires 1 <= level <= 3 && f < |m| == |m'| && i < PAGE_ENTRIES
    requires m'[f] == m[f][i := w]
    requires forall j | 0 <= j < PAGE_ENTRIES && j != i :: SubAgree(m, m', m[f][j], level)
    ensures Owns(m', f, level, g) + Sub(m, m[f][i], level, g) == Owns(m, f, level, g) + Sub(m', w, level, g)
  {
    forall j | 0 <= j < PAGE_ENTRIES && j != i
      ensures Sub(m', m[f][j], level, g) == Sub(m, m[f][j], level, g)
    {
      SubFrame(m, m', m[f][j], level, g);
    }
    UnderPut(m, m', m[f], i, w, level, g);
  }

  lemma {:induction false} UnderNothing(m: Memory, es: seq<Word>, level: nat, g: nat)
    requires 1 <= level <= 3
    requires forall j | 0 <= j < |es| :: !IsValid(es[j])
    ensures Under(m, es, level, g) == 0
    decreases |es|
  {
    if es != [] {
      UnderNothing(m, es[..|es| - 1], level, g);
    }
  }

  /** A table with no valid entry owns only itself. */
  lemma OwnsOfEmpty(m: Memory, f: nat, level: nat, g: nat)
    requires 1 <= level <= 4 && f < |m|
    requires level < 4 ==> forall j | 0 <= j < PAGE_ENTRIES :: !IsValid(m[f][j])
    ensures Owns(m, f, level, g) == if g == f then 1 else 0
  {
    if level < 4 {
      UnderNothing(m, m[f], level, g);
    }
  }

  /** In a proper tree the trees below two entries are proper, disjoint, and exclude the table. */
  lemma ChildApart(m: Memory, f: nat, i: nat, level: nat, g: nat)
    requires 1 <= level <= 3 && f < |m| && i < PAGE_ENTRIES
    requires Proper(m, f, level)
    ensures Sub(m, m[f][i], level, g) <= Owns(m, f, level, g) <= 1
    ensures Sub(m, m[f][i], level, g) > 0 ==> g != f
    ensures forall j | 0 <= j < PAGE_ENTRIES && j != i ::
      Sub(m, m[f][i], level, g) + Sub(m, m[f][j], level, g) <= Owns(m, f, level, g)
  {
    SubPart(m, m[f], i, level, g);
    forall j | 0 <= j < PAGE_ENTRIES && j != i
      ensures Sub(m, m[f][i], level, g) + Sub(m, m[f][j], level, g) <= Owns(m, f, level, g)
    {
      PairPart(m, m[f], if i < j then i else j, if i < j then j else i, level, g);
    }
  }

  lemma ChildProper(m: Memory, f: nat, i: nat, level: nat)
    requires 1 <= level <= 3 && f < |m| && i < PAGE_ENTRIES
    requires Proper(m, f, level) && IsValid(m[f][i])
    ensures Proper(m, FrameOf(m[f][i]), level + 1)
    ensures FrameOf(m[f][i]) < |m|
  {
    var c := FrameOf(m[f][i]);
    forall g: nat {:trigger Owns(m, c, level + 1, g)} | Owns(m, c, level + 1, g) > 0
      ensures Owns(m, c, level + 1, g) == 1 && g < |m|
    {
      ChildApart(m, f, i, level, g);
    }
    assert Owns(m, c, level + 1, c) > 0;
  }

  // ---------------------------------------------------------------- walks

  /** Every table on the way to the last index of the path exists. */
  ghost predicate Walks(m: Memory, f: nat, path: seq<nat>)
    decreases |path|
  {
    && path != [] && f < |m| && path[0] < PAGE_ENTRIES
    && (|path| > 1 ==> IsValid(m[f][path[0]]) && Walks(m, FrameOf(m[f][path[0]]), path[1..]))
  }

  /** The table holding the entry at the end of the path. */
  ghost function TableAt(m: Memory, f: nat, path: seq<nat>): (t: nat)
    requires Walks(m, f, path)
    ensures t < |m| && path[|path| - 1] < PAGE_ENTRIES
    decreases |path|
  {
    if |path| == 1 then f else TableAt(m, FrameOf(m[f][path[0]]), path[1..])
  }

  ghost function EntryAt(m: Memory, f: nat, path: seq<nat>): Word
    requires Walks(m, f, path)
  {
    m[TableAt(m, f, path)][path[|path| - 1]]
  }

  /** Memory after the entry at the end of the path becomes w. */
  ghost function WriteAt(m: Memory, f: nat, path: seq<nat>, w: Word): (m': Memory)
    requires Walks(m, f, path)
  {
    Put(m, TableAt(m, f, path), path[|path| - 1], w)
  }

  /** The valid descriptor at the end of the path, if the walk gets that far. */
  ghost function LeafAt(m: Memory, f: nat, path: seq<nat>): Option<Word>
    decreases |path|
  {
    if path == [] || f >= |m| || path[0] >= PAGE_ENTRIES || !IsValid(m[f][path[0]]) then None
    else if |path| == 1 then Some(m[f][path[0]])
    else LeafAt(m, FrameOf(m[f][path[0]]), path[1..])
  }

  lemma {:induction false} LeafIsEntry(m: Memory, f: nat, path: seq<nat>)
    ensures LeafAt(m, f, path) ==
      if Walks(m, f, path) && IsValid(EntryAt(m, f, path)) then Some(EntryAt(m, f, path)) else None
    decreases |path|
  {
    if |path| > 1 && f < |m| && path[0] < PAGE_ENTRIES && IsValid(m[f][path[0]]) {
      LeafIsEntry(m, FrameOf(m[f][path[0]]), path[1..]);
    }
  }

  lemma {:induction false} TableOwned(m: Memory, f: nat, path: seq<nat>, level: nat)
    requires 1 <= level && level + |path| <= 4
    requires Walks(m, f, path)
    ensures Owns(m, f, level, TableAt(m, f, path)) > 0
    decreases |path|
  {
    if |path| > 1 {
      TableOwned(m, FrameOf(m[f][path[0]]), path[1..], level + 1);
      SubPart(m, m[f], path[0], level, TableAt(m, f, path));
    }
  }

  /** What a walk sees depends on the tree's own frames only. */
  lemma {:induction false} WalkFrame(m: Memory, m': Memory, f: nat, path: seq<nat>, level: nat)
    requires 1 <= level && level + |path| <= 4
    requires Agree(m, m', f, level)
    ensures LeafAt(m', f, path) == LeafAt(m, f, path)
    ensures Walks(m', f, path) == Walks(m, f, path)
    decreases |path|
  {
    assert Owns(m, f, level, f) > 0;
    if path != [] && f < |m| && path[0] < PAGE_ENTRIES && |path| > 1 && IsValid(m[f][path[0]]) {
      ChildAgrees(m, m', f, path[0], level);
      WalkFrame(m, m', FrameOf(m[f][path[0]]), path[1..], level + 1);
    }
  }

  // ---------------------------------------------------------------- one write

  /** A write at the end of a path leaves the tree below an entry beside the path alone. */
  lemma WriteSpares(m: Memory, f: nat, path: seq<nat>, w: Word, level: nat, j: nat)
    requires 1 <= level && level + |path| <= 4
    requires Walks(m, f, path) && Proper(m, f, level)
    requires j < PAGE_ENTRIES && j != path[0]
    ensures SubAgree(m, WriteAt(m, f, path, w), m[f][j], level)
  {
    var t := TableAt(m, f, path);
    ChildApart(m, f, j, level, t);
    if |path| > 1 {
      TableOwned(m, FrameOf(m[f][path[0]]), path[1..], level + 1);
    }
    assert Sub(m, m[f][j], level, t) == 0;
  }

  /** A write further down leaves this table alone. */
  lemma WriteBelow(m: Memory, f: nat, path: seq<nat>, w: Word, level: nat)
    requires 1 <= level && level + |path| <= 4 && |path| > 1
    requires Walks(m, f, path) && Proper(m, f, level)
    ensures WriteAt(m, f, path, w)[f] == m[f]
    ensures WriteAt(m, f, path, w) == WriteAt(m, FrameOf(m[f][path[0]]), path[1..], w)
  {
    var t := TableAt(m, f, path);
    assert Sub(m, m[f][path[0]], level, t) > 0 by {
      TableOwned(m, FrameOf(m[f][path[0]]), path[1..], level + 1);
    }
    ChildApart(m, f, path[0], level, t);
  }

  /** Nothing the new descriptor reaches belongs to the tree already. */
  ghost predicate Foreign(m: Memory, w: Word, at: nat, f: nat, level: nat)
    requires 1 <= level <= 4 && 1 <= at <= 3
  {
    forall g: nat :: Owns(m, f, level, g) > 0 ==> Sub(m, w, at, g) == 0
  }

  lemma ForeignBelow(m: Memory, w: Word, at: nat, f: nat, i: nat, level: nat)
    requires 1 <= level <= 3 && 1 <= at <= 3 && f < |m| && i < PAGE_ENTRIES
    requires Foreign(m, w, at, f, level) && IsValid(m[f][i])
    ensures Foreign(m, w, at, FrameOf(m[f][i]), level + 1)
  {
    forall g: nat | Owns(m, FrameOf(m[f][i]), level + 1, g) > 0
      ensures Sub(m, w, at, g) == 0
    {
      SubPart(m, m[f], i, level, g);
      assert Owns(m, f, level, g) > 0;
    }
  }

  /** Writing one descriptor exchanges the tree below the old one for the tree below the new one. */
  lemma {:induction false} OwnsWrite(m: Memory, f: nat, path: seq<nat>, w: Word, level: nat, g: nat)
    requires 1 <= level && level + |path| <= 4
    requires Walks(m, f, path) && Proper(m, f, level)
    requires Foreign(m, w, level + |path| - 1, f, level)
    ensures Owns(WriteAt(m, f, path, w), f, level, g) + Sub(m, EntryAt(m, f, path), level + |path| - 1, g)
         == Owns(m, f, level, g) + Sub(m, w, level + |path| - 1, g)
    decreases |path|
  {
    var m' := WriteAt(m, f, path, w);
    var i := path[0];
    var e := m[f][i];
    forall j | 0 <= j < PAGE_ENTRIES && j != i
      ensures SubAgree(m, m', m[f][j], level)
    {
      WriteSpares(m, f, path, w, level, j);
    }
    if |path| == 1 {
      assert Owns(m, f, level, f) > 0;
      SubFrame(m, m', w, level, g);
      OwnsPut(m, m', f, i, w, level, g);
    } else {
      ChildProper(m, f, i, level);
      ForeignBelow(m, w, level + |path| - 1, f, i, level);
      OwnsWrite(m, FrameOf(e), path[1..], w, level + 1, g);
      WriteBelow(m, f, path, w, level);
      assert m[f][i := e] == m[f];
      OwnsPut(m, m', f, i, e, level, g);
    }
  }

  /** Every path that does not run through the written entry leads where it led. */
  lemma {:induction false} LeafBeside(m: Memory, f: nat, path: seq<nat>, w: Word, q: seq<nat>, level: nat)
    requires 1 <= level && level + |path| <= 4 && 1 <= |q| && level + |q| <= 4
    requires Walks(m, f, path) && Proper(m, f, level)
    requires !(path <= q)
    ensures LeafAt(WriteAt(m, f, path, w), f, q) == LeafAt(m, f, q)
    decreases |path|
  {
    if q[0] == path[0] {
      assert path == [path[0]] + path[1..] && q == [q[0]] + q[1..];
      ChildProper(m, f, path[0], level);
      WriteBelow(m, f, path, w, level);
      if |q| > 1 { LeafBeside(m, FrameOf(m[f][path[0]]), path[1..], w, q[1..], level + 1); }
    } else if q[0] < PAGE_ENTRIES {
      LeafForks(m, f, path, w, q, level);
    }
  }

  /** The walk along q parts from the path at the first index. */
  lemma LeafForks(m: Memory, f: nat, path: seq<nat>, w: Word, q: seq<nat>, level: nat)
    requires 1 <= level && level + |path| <= 4 && 1 <= |q| && level + |q| <= 4
    requires Walks(m, f, path) && Proper(m, f, level)
    requires path[0] != q[0] < PAGE_ENTRIES
    ensures LeafAt(WriteAt(m, f, path, w), f, q) == LeafAt(m, f, q)
  {
    if |path| > 1 {
      WriteBelow(m, f, path, w, level);
    }
    WriteSpares(m, f, path, w, level, q[0]);
    LeafFrame(m, WriteAt(m, f, path, w), f, q, level);
  }

  /** A walk sees only its first entry and the tree below it. */
  lemma LeafFrame(m: Memory, m': Memory, f: nat, q: seq<nat>, level: nat)
    requires 1 <= level && level + |q| <= 4 && |q| > 0
    requires f < |m| == |m'| && q[0] < PAGE_ENTRIES
    requires m'[f][q[0]] == m[f][q[0]] && SubAgree(m, m', m[f][q[0]], level)
    ensures LeafAt(m', f, q) == LeafAt(m, f, q)
  {
    var e := m[f][q[0]];
    if |q| > 1 && IsValid(e) {
      WalkFrame(m, m', FrameOf(e), q[1..], level + 1);
    }
  }

  /** A path that runs through the written entry continues below the new descriptor. */
  lemma {:induction false} LeafThrough(m: Memory, f: nat, path: seq<nat>, w: Word, q: seq<nat>, level: nat)
    requires 1 <= level && level + |q| <= 4
    requires Walks(m, f, path) && Proper(m, f, level)
    requires path <= q
    requires Foreign(m, w, level + |path| - 1, f, level)
    ensures LeafAt(WriteAt(m, f, path, w), f, q) ==
      if !IsValid(w) then None else if |q| == |path| then Some(w) else LeafAt(m, FrameOf(w), q[|path|..])
    decreases |path|
  {
    if |path| > 1 {
      ChildProper(m, f, path[0], level);
      ForeignBelow(m, w, level + |path| - 1, f, path[0], level);
      LeafThrough(m, FrameOf(m[f][path[0]]), path[1..], w, q[1..], level + 1);
      WriteBelow(m, f, path, w, level);
      assert q[1..][|path| - 1..] == q[|path|..];
    } else if |q| > 1 && IsValid(w) {
      assert Owns(m, f, level, f) > 0;
      assert Sub(m, w, level, f) == 0;
      WalkFrame(m, WriteAt(m, f, path, w), FrameOf(w), q[1..], level + 1);
    }
  }
}
