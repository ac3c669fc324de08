/** How many frames it takes to map pages in a tree: the pages themselves, and each table missing on the way to them. */
module FrameCounts {
  import opened Words
  import opened Addresses
  import opened PageTree
  import opened FreeFrames
  import opened TreePaths

  // The pages below one descriptor of the first table, below one of a second, and below a whole tree.
  const L2_SPAN: nat := 0x4_0000
  const L3_SPAN: nat := 0x200
  const TREE_SPAN: nat := 0x800_0000

  /** The table entries of page n. */
  function PathOfPage(n: nat): (p: seq<nat>)
    ensures |p| == 3 && forall i | 0 <= i < 3 :: p[i] < PAGE_ENTRIES
  {
    PathOf(n * PAGE_SIZE)
  }

  lemma PageOf(va: nat)
    ensures PathOfPage(va / PAGE_SIZE) == PathOf(va)
  {
    PathIsPageNumber(va / PAGE_SIZE * PAGE_SIZE, va);
    assert va / PAGE_SIZE * PAGE_SIZE / PAGE_SIZE == va / PAGE_SIZE;
  }

  /** Two pages below one tree have the same tables on the way exactly when they lie in the same span. */
  lemma SpansAndTables(n: nat, x: nat)
    requires n < TREE_SPAN && x < TREE_SPAN
    ensures PathOfPage(n)[..1] == PathOfPage(x)[..1] <==> n / L2_SPAN == x / L2_SPAN
    ensures PathOfPage(n)[..2] == PathOfPage(x)[..2] <==> n / L3_SPAN == x / L3_SPAN
  {
    PageDigits(n);
    PageDigits(x);
    var p, q := PathOfPage(n), PathOfPage(x);
    assert p[..1] == [p[0]] && q[..1] == [q[0]] && p[..2] == [p[0], p[1]] && q[..2] == [q[0], q[1]];
  }

  lemma PageDigits(n: nat)
    ensures n / L2_SPAN == n / TREE_SPAN * PAGE_ENTRIES + PathOfPage(n)[0]
    ensures n / L3_SPAN == n / L2_SPAN * PAGE_ENTRIES + PathOfPage(n)[1]
  {
    assert n * PAGE_SIZE / 0x4000_0000 == n / L2_SPAN;
    assert n * PAGE_SIZE / 0x20_0000 == n / L3_SPAN;
  }

  /** Is the table at path q on the way to one of the pages? */
  ghost predicate OnTheWay(pages: seq<nat>, q: seq<nat>) {
    |q| <= 3 && exists n :: n in pages && PathOfPage(n)[..|q|] == q
  }

  predicate IsTablePath(q: seq<nat>) {
    1 <= |q| <= 2
  }

  ghost predicate PageBound(m: Memory, r: nat, n: nat) {
    n < TREE_SPAN && LeafAt(m, r, PathOfPage(n)).Some?
  }

  /** The tables that the tree at r has. */
  ghost function TablesOf(m: Memory, r: nat): iset<seq<nat>> {
    iset q | IsTablePath(q) && LeafAt(m, r, q).Some?
  }

  // The tables of a new tree: none.
  ghost const NO_TABLES: iset<seq<nat>> := iset{}

  /** The tree at r has these pages, the tables on the way to them and those it had, and no other table. */
  ghost predicate Grown(base: iset<seq<nat>>, m: Memory, r: nat, pages: seq<nat>) {
    && (forall q {:trigger IsTablePath(q)} | IsTablePath(q) ::
          LeafAt(m, r, q).Some? <==> q in base || OnTheWay(pages, q))
    && (forall n {:trigger PageBound(m, r, n)} | n in pages :: PageBound(m, r, n))
  }

  lemma NotGrownYet(m: Memory, r: nat)
    ensures Grown(TablesOf(m, r), m, r, [])
  {
  }

  /** Writing pages changes neither. */
  lemma GrownKept(base: iset<seq<nat>>, m: Memory, m': Memory, r: nat, pages: seq<nat>)
    requires Grown(base, m, r, pages) && SameLeaves(m, m', r) && SameTables(m, m', r)
    ensures Grown(base, m', r, pages)
  {
    forall q | IsTablePath(q) ensures LeafAt(m', r, q) == LeafAt(m, r, q) {}
    forall n | n in pages ensures PageBound(m', r, n) {
      assert PageBound(m, r, n) && LeafAt(m', r, PathOfPage(n)) == LeafAt(m, r, PathOfPage(n));
    }
  }

  lemma NeedIs(m: Memory, r: nat, p: seq<nat>)
    requires |p| == 3 && p[0] < PAGE_ENTRIES && p[1] < PAGE_ENTRIES && p[2] < PAGE_ENTRIES && r < |m| && Proper(m, r, 1)
    ensures LeafAt(m, r, p[..1]).None? ==> LeafAt(m, r, p[..2]).None?
    ensures Need(m, r, p) ==
      1 + (if LeafAt(m, r, p[..2]).None? then 1 else 0) + (if LeafAt(m, r, p[..1]).None? then 1 else 0)
  {
    assert p[..3] == p;
    WalkStep(m, r, p, 1);
    LeafIsEntry(m, r, p[..1]);
    LeafIsEntry(m, r, p[..2]);
    if Walks(m, r, p[..2]) { WalkStep(m, r, p, 2); } else { NotBelow(m, r, p, 2); }
  }

  /** Was the table at this depth on the way to page n there before? */
  ghost predicate Given(base: iset<seq<nat>>, n: nat, depth: nat)
    requires depth <= 3
  {
    PathOfPage(n)[..depth] in base
  }

  /** The spans of this size with a page in them and no table yet. */
  ghost function Spans(base: iset<seq<nat>>, pages: seq<nat>, depth: nat, size: nat): set<nat>
    requires depth <= 3 && size > 0
  {
    set n | n in pages && !Given(base, n, depth) :: n / size
  }

  /** The frames that pages take: one a page, and one for each span with a page in it and no table yet. */
  ghost function FramesOf(base: iset<seq<nat>>, pages: seq<nat>): nat {
    |pages| + |Spans(base, pages, 2, L3_SPAN)| + |Spans(base, pages, 1, L2_SPAN)|
  }

  /** In a new tree every span with a page in it takes a table. */
  lemma FramesOfNew(pages: seq<nat>)
    ensures FramesOf(NO_TABLES, pages) ==
      |pages| + |set n | n in pages :: n / L3_SPAN| + |set n | n in pages :: n / L2_SPAN|
  {
    assert Spans(NO_TABLES, pages, 2, L3_SPAN) == set n | n in pages :: n / L3_SPAN;
    assert Spans(NO_TABLES, pages, 1, L2_SPAN) == set n | n in pages :: n / L2_SPAN;
  }

  ghost predicate Takes(base: iset<seq<nat>>, pages: seq<nat>, frames: nat) {
    frames == FramesOf(base, pages)
  }

  lemma NoPagesNoFrames(base: iset<seq<nat>>)
    ensures FramesOf(base, []) == 0
  {
    assert Spans(base, [], 1, L2_SPAN) == {} && Spans(base, [], 2, L3_SPAN) == {};
  }

  lemma SpansNext(base: iset<seq<nat>>, pages: seq<nat>, n: nat, depth: nat, size: nat)
    requires depth <= 3 && size > 0
    ensures Spans(base, pages + [n], depth, size)
         == Spans(base, pages, depth, size) + if Given(base, n, depth) then {} else {n / size}
  {
    assert n in pages + [n];
    forall s | s in Spans(base, pages, depth, size) ensures s in Spans(base, pages + [n], depth, size) {
      var x :| x in pages && !Given(base, x, depth) && x / size == s;
      assert x in pages + [n];
    }
  }

  lemma OneMore(s: set<nat>, x: nat)
    ensures |s + {x}| == |s| + if x in s then 0 else 1
  {
    if x in s { assert s + {x} == s; }
  }

  /** Is the table at this depth on the way to page n one that the pages before it do not need? */
  ghost predicate Begins(base: iset<seq<nat>>, pages: seq<nat>, n: nat, depth: nat, size: nat)
    requires depth <= 3 && size > 0
  {
    !Given(base, n, depth) && n / size !in Spans(base, pages, depth, size)
  }

  lemma SpanCount(base: iset<seq<nat>>, pages: seq<nat>, n: nat, depth: nat, size: nat)
    requires depth <= 3 && size > 0
    ensures |Spans(base, pages + [n], depth, size)|
         == |Spans(base, pages, depth, size)| + if Begins(base, pages, n, depth, size) then 1 else 0
  {
    var spans, x := Spans(base, pages, depth, size), n / size;
    SpansNext(base, pages, n, depth, size);
    if Given(base, n, depth) {
      assert spans + {} == spans;
    } else {
      OneMore(spans, x);
    }
  }

  /** One more page, and one more of each span that it begins. */
  lemma FramesOfNext(base: iset<seq<nat>>, pages: seq<nat>, n: nat)
    ensures FramesOf(base, pages + [n]) == FramesOf(base, pages) + 1
      + (if Begins(base, pages, n, 2, L3_SPAN) then 1 else 0) + (if Begins(base, pages, n, 1, L2_SPAN) then 1 else 0)
  {
    SpanCount(base, pages, n, 2, L3_SPAN);
    SpanCount(base, pages, n, 1, L2_SPAN);
  }

  /** A table is on the way to page n already exactly when a page before it lies in the same span. */
  lemma OnTheWayIsSpan(base: iset<seq<nat>>, pages: seq<nat>, n: nat)
    requires n < TREE_SPAN && forall x | x in pages :: x < TREE_SPAN
    ensures Begins(base, pages, n, 1, L2_SPAN) <==>
      !(PathOfPage(n)[..1] in base || OnTheWay(pages, PathOfPage(n)[..1]))
    ensures Begins(base, pages, n, 2, L3_SPAN) <==>
      !(PathOfPage(n)[..2] in base || OnTheWay(pages, PathOfPage(n)[..2]))
  {
    forall x | x in pages
      ensures PathOfPage(n)[..1] == PathOfPage(x)[..1] <==> n / L2_SPAN == x / L2_SPAN
      ensures PathOfPage(n)[..2] == PathOfPage(x)[..2] <==> n / L3_SPAN == x / L3_SPAN
    {
      SpansAndTables(n, x);
    }
    InSpan(base, pages, n, 1, L2_SPAN);
    InSpan(base, pages, n, 2, L3_SPAN);
  }

  lemma InSpan(base: iset<seq<nat>>, pages: seq<nat>, n: nat, depth: nat, size: nat)
    requires 1 <= depth <= 2 && size > 0
    requires forall x | x in pages :: PathOfPage(n)[..depth] == PathOfPage(x)[..depth] <==> n / size == x / size
    ensures Begins(base, pages, n, depth, size) <==>
      !(PathOfPage(n)[..depth] in base || OnTheWay(pages, PathOfPage(n)[..depth]))
  {
    var q := PathOfPage(n)[..depth];
    if OnTheWay(pages, q) && q !in base {
      var x :| x in pages && PathOfPage(x)[..|q|] == q;
      assert !Given(base, x, depth) && x / size in Spans(base, pages, depth, size);
    }
    if n / size in Spans(base, pages, depth, size) {
      var x :| x in pages && !Given(base, x, depth) && x / size == n / size;
      assert OnTheWay(pages, q);
    }
  }

  /** An allocation after those of `pages`. */
  lemma CountNext(base: iset<seq<nat>>, m: Memory, free: seq<FrameNo>, m': Memory, free': seq<FrameNo>, r: nat,
                  pages: seq<nat>, n: nat, result: AllocResult)
    requires Grown(base, m, r, pages) && n < TREE_SPAN && r < |m| && Proper(m, r, 1)
    requires AllocPost(m, free, m', free', r, PathOfPage(n), result) && !result.AlreadyMapped?
    ensures result.Allocated? ==>
      Grown(base, m', r, pages + [n]) && |free'| + FramesOf(base, pages + [n]) == |free| + FramesOf(base, pages)
    ensures result.OutOfFrames? ==> |free| + FramesOf(base, pages) < FramesOf(base, pages + [n])
  {
    var p := PathOfPage(n);
    NeedIs(m, r, p);
    assert IsTablePath(p[..1]) && IsTablePath(p[..2]);
    forall x | x in pages ensures x < TREE_SPAN { assert PageBound(m, r, x); }
    OnTheWayIsSpan(base, pages, n);
    FramesOfNext(base, pages, n);
    if result.Allocated? { GrownNext(base, m, m', r, pages, n, Entry(result.frame, PAGE_FLAGS)); }
  }

  lemma GrownNext(base: iset<seq<nat>>, m: Memory, m': Memory, r: nat, pages: seq<nat>, n: nat, leaf: Word)
    requires Grown(base, m, r, pages) && n < TREE_SPAN
    requires Rebound(m, m', r, PathOfPage(n), Some(leaf)) && TablesAdded(m, m', r, PathOfPage(n))
    ensures Grown(base, m', r, pages + [n])
  {
    var more := pages + [n];
    forall q | IsTablePath(q) ensures LeafAt(m', r, q).Some? <==> q in base || OnTheWay(more, q) {
      assert LeafAt(m', r, q).Some? <==> LeafAt(m, r, q).Some? || q == PathOfPage(n)[..|q|];
      if OnTheWay(pages, q) {
        var x :| x in pages && PathOfPage(x)[..|q|] == q;
        assert x in more;
      }
      assert q == PathOfPage(n)[..|q|] ==> n in more;
    }
    forall x | x in more ensures PageBound(m', r, x) {
      assert x != n ==> PageBound(m, r, x);
    }
  }

  /** More pages take more frames, at least one each. */
  lemma {:induction false} FramesOfMore(base: iset<seq<nat>>, pages: seq<nat>, more: seq<nat>)
    ensures FramesOf(base, pages) + |more| <= FramesOf(base, pages + more)
    decreases |more|
  {
    if more == [] {
      assert pages + more == pages;
    } else {
      var init, n := more[..|more| - 1], more[|more| - 1];
      FramesOfMore(base, pages, init);
      FramesOfNext(base, pages + init, n);
      assert pages + init + [n] == pages + more;
    }
  }

  /** The page numbers from a up to b. */
  function Upward(a: nat, b: nat): (s: seq<nat>)
    requires a <= b
    ensures |s| == b - a && forall i: nat | i < b - a :: s[i] == a + i
  {
    seq(b - a, i requires 0 <= i < b - a => a + i)
  }

  /** The k page numbers from a down. */
  function Downward(a: nat, k: nat): (s: seq<nat>)
    requires k <= a + 1
    ensures |s| == k && forall i: nat | i < k :: s[i] == a - i
  {
    seq(k, i requires 0 <= i < k => a - i)
  }

  lemma UpwardNext(done: seq<nat>, a: nat, b: nat)
    requires a <= b
    ensures done + Upward(a, b) + [b] == done + Upward(a, b + 1) && done + Upward(a, a) == done
  {
  }

  lemma UpwardSplit(done: seq<nat>, a: nat, b: nat, c: nat)
    requires a <= b <= c
    ensures done + Upward(a, c) == done + Upward(a, b) + Upward(b, c)
  {
  }

  lemma DownwardNext(done: seq<nat>, a: nat, k: nat)
    requires k <= a
    ensures done + Downward(a, k) + [a - k] == done + Downward(a, k + 1) && done + Downward(a, 0) == done
  {
  }

  lemma DownwardSplit(done: seq<nat>, a: nat, j: nat, k: nat)
    requires j <= k <= a + 1
    ensures done + Downward(a, k) == done + Downward(a, j) + Downward(a, k)[j..]
  {
  }

  lemma UpwardHas(a: nat, b: nat, n: nat)
    requires a <= b
    ensures n in Upward(a, b) <==> a <= n < b
  {
    if a <= n < b { assert Upward(a, b)[n - a] == n; }
  }

  lemma DownwardHas(a: nat, k: nat, n: nat)
    requires k <= a + 1
    ensures n in Downward(a, k) <==> a < n + k && n <= a
  {
    if a < n + k && n <= a { assert Downward(a, k)[a - n] == n; }
  }
}
