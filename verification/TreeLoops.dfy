/** Reasoning for the loops that take a table apart or copy it, entry by entry. */
module TreeLoops {
  import opened Words
  import opened PageTree
  import opened FreeFrames

  // ---------------------------------------------------------------- size

  /** The number of frames of a tree: its tables and its pages. */
  ghost function Size(m: Memory, f: nat, level: nat): nat
    requires 1 <= level <= 4
    decreases 4 - level, 1, 0
  {
    1 + if level == 4 || f >= |m| then 0 else SizeUnder(m, m[f], level)
  }

  ghost function SizeUnder(m: Memory, es: seq<Word>, level: nat): nat
    requires 1 <= level <= 3
    decreases 4 - level, 0, |es|
  {
    if es == [] then 0 else SizeUnder(m, es[..|es| - 1], level) + SizeSub(m, es[|es| - 1], level)
  }

  ghost function SizeSub(m: Memory, w: Word, level: nat): nat
    requires 1 <= level <= 3
    decreases 4 - level, 0, 0
  {
    if IsValid(w) then Size(m, FrameOf(w), level + 1) else 0
  }

  lemma {:induction false} SizeFrame(m: Memory, m': Memory, f: nat, level: nat)
    requires 1 <= level <= 4
    requires Agree(m, m', f, level)
    ensures Size(m', f, level) == Size(m, f, level)
    decreases 4 - level
  {
    if level < 4 && f < |m| {
      assert Owns(m, f, level, f) > 0;
      forall j | 0 <= j < PAGE_ENTRIES
        ensures SizeSub(m', m[f][j], level) == SizeSub(m, m[f][j], level)
      {
        ChildAgrees(m, m', f, j, level);
        if IsValid(m[f][j]) {
          SizeFrame(m, m', FrameOf(m[f][j]), level + 1);
        }
      }
      SizeUnderFrame(m, m', m[f], level);
    }
  }

  lemma {:induction false} SizeUnderFrame(m: Memory, m': Memory, es: seq<Word>, level: nat)
    requires 1 <= level <= 3
    requires forall j | 0 <= j < |es| :: SizeSub(m', es[j], level) == SizeSub(m, es[j], level)
    ensures SizeUnder(m', es, level) == SizeUnder(m, es, level)
    decreases |es|
  {
    if es != [] {
      SizeUnderFrame(m, m', es[..|es| - 1], level);
    }
  }

  lemma {:induction false} SizePart(m: Memory, es: seq<Word>, n: nat, level: nat)
    requires 1 <= level <= 3 && n <= |es|
    ensures SizeUnder(m, es[..n], level) <= SizeUnder(m, es, level)
    decreases |es| - n
  {
    if n == |es| {
      assert es[..n] == es;
    } else {
      assert es[..n + 1][..n] == es[..n];
      SizePart(m, es, n + 1, level);
    }
  }

  // ---------------------------------------------------------------- one more entry

  lemma Next(m: Memory, f: nat, i: nat, level: nat)
    requires 1 <= level <= 3 && f < |m| && i < PAGE_ENTRIES
    ensures forall g: nat {:trigger Under(m, m[f][..i], level, g)} {:trigger Under(m, m[f][..i + 1], level, g)} ::
      Under(m, m[f][..i + 1], level, g) == Under(m, m[f][..i], level, g) + Sub(m, m[f][i], level, g)
      <= Under(m, m[f], level, g)
    ensures SizeUnder(m, m[f][..i + 1], level) == SizeUnder(m, m[f][..i], level) + SizeSub(m, m[f][i], level)
      <= SizeUnder(m, m[f], level)
  {
    assert m[f][..i + 1][..i] == m[f][..i];
    SizePart(m, m[f], i + 1, level);
    forall g: nat
      ensures Under(m, m[f][..i + 1], level, g) <= Under(m, m[f], level, g)
    {
      UnderPart(m, m[f], i + 1, level, g);
    }
  }

  /** The tree is proper and disjoint from the free list. */
  ghost predicate Separate(m: Memory, free: seq<FrameNo>, f: nat, level: nat)
    requires 1 <= level <= 4
  {
    && f < |m| && Proper(m, f, level)
    && forall g: nat {:trigger Owns(m, f, level, g)} :: In(free, g) + Owns(m, f, level, g) <= 1
  }

  // ---------------------------------------------------------------- teardown

  /** The trees below the first i entries of table f are on the free list; the rest of memory is as it was. */
  ghost predicate Torn(m0: Memory, free0: seq<FrameNo>, m: Memory, free: seq<FrameNo>, f: nat, i: nat, level: nat)
    requires 1 <= level <= 3 && f < |m0| && i <= PAGE_ENTRIES
  {
    && |m| == |m0|
    && (forall g: nat {:trigger In(free, g)} :: In(free, g) == In(free0, g) + Under(m0, m0[f][..i], level, g))
    && (forall g: nat {:trigger m[g]} :: g < |m0| && g != f && Under(m0, m0[f][..i], level, g) == 0 ==> m[g] == m0[g])
    && (forall j | i <= j < PAGE_ENTRIES :: m[f][j] == m0[f][j])
    && |free| == |free0| + SizeUnder(m0, m0[f][..i], level)
  }

  lemma TornStart(m0: Memory, free0: seq<FrameNo>, f: nat, level: nat)
    requires 1 <= level <= 3 && f < |m0|
    ensures Torn(m0, free0, m0, free0, f, 0, level)
  {
    var none: seq<Word> := m0[f][..0];
    assert none == [] && SizeUnder(m0, none, level) == 0;
    assert forall g: nat {:trigger Under(m0, none, level, g)} :: Under(m0, none, level, g) == 0;
  }

  /** The next subtree is still as it was, proper, and disjoint from the frames freed so far. */
  lemma TornNext(m0: Memory, free0: seq<FrameNo>, m: Memory, free: seq<FrameNo>, f: nat, i: nat, level: nat)
    requires 1 <= level <= 3 && i < PAGE_ENTRIES
    requires Separate(m0, free0, f, level)
    requires Torn(m0, free0, m, free, f, i, level)
    requires IsValid(m0[f][i])
    ensures var c := FrameOf(m0[f][i]);
            && Separate(m, free, c, level + 1)
            && Agree(m0, m, c, level + 1)
            && (forall g: nat {:trigger Owns(m, c, level + 1, g)} ::
                  Owns(m, c, level + 1, g) == Sub(m0, m0[f][i], level, g))
            && Owns(m, c, level + 1, f) == 0 && c != f && f !in free && c !in free
            && Size(m, c, level + 1) == SizeSub(m0, m0[f][i], level)
  {
    var c := FrameOf(m0[f][i]);
    Next(m0, f, i, level);
    forall g: nat
      ensures Sub(m0, m0[f][i], level, g) > 0 ==>
        g != f && Under(m0, m0[f][..i], level, g) == 0 && Sub(m0, m0[f][i], level, g) == 1 && g < |m0|
      ensures In(free, g) + Sub(m0, m0[f][i], level, g) <= 1
    {
      assert Owns(m0, f, level, g) <= 1;
      assert Under(m0, m0[f][..i + 1], level, g) <= Under(m0, m0[f], level, g);
    }
    forall g: nat | g < |m0| && Owns(m0, c, level + 1, g) > 0
      ensures m[g] == m0[g]
    {
      assert Sub(m0, m0[f][i], level, g) > 0;
    }
    forall g: nat
      ensures Owns(m, c, level + 1, g) == Sub(m0, m0[f][i], level, g)
    {
      OwnsFrame(m0, m, c, level + 1, g);
    }
    SizeFrame(m0, m, c, level + 1);
    assert Sub(m0, m0[f][i], level, c) == Owns(m0, c, level + 1, c) > 0;
    assert In(free, c) == 0 && In(free, f) == 0 by {
      assert In(free0, f) + Owns(m0, f, level, f) <= 1;
      assert Under(m0, m0[f][..i + 1], level, f) <= Under(m0, m0[f], level, f);
    }
    forall g: nat {:trigger Owns(m, c, level + 1, g)}
      ensures In(free, g) + Owns(m, c, level + 1, g) <= 1
    {
      assert In(free, g) + Sub(m0, m0[f][i], level, g) <= 1;
    }
    forall g: nat {:trigger Owns(m, c, level + 1, g)} | Owns(m, c, level + 1, g) > 0
      ensures Owns(m, c, level + 1, g) == 1 && g < |m|
    {
      assert Sub(m0, m0[f][i], level, g) > 0;
    }
  }

  /** Freeing the next subtree takes the loop one entry further. */
  lemma TornStep(m0: Memory, free0: seq<FrameNo>, m: Memory, free: seq<FrameNo>, m': Memory, free': seq<FrameNo>,
                 f: nat, i: nat, level: nat)
    requires 1 <= level <= 3 && i < PAGE_ENTRIES
    requires Separate(m0, free0, f, level)
    requires Torn(m0, free0, m, free, f, i, level) && |m'| == |m|
    requires forall g: nat {:trigger In(free', g)} :: In(free', g) == In(free, g) + Sub(m0, m0[f][i], level, g)
    requires forall g: nat | g < |m| && g != f && Sub(m0, m0[f][i], level, g) == 0 :: m'[g] == m[g]
    requires forall j | i < j < PAGE_ENTRIES :: m'[f][j] == m[f][j]
    requires |free'| == |free| + SizeSub(m0, m0[f][i], level)
    ensures Torn(m0, free0, m', free', f, i + 1, level)
  {
    Next(m0, f, i, level);
  }

  lemma TornSkip(m0: Memory, free0: seq<FrameNo>, m: Memory, free: seq<FrameNo>, f: nat, i: nat, level: nat)
    requires 1 <= level <= 3 && i < PAGE_ENTRIES
    requires Separate(m0, free0, f, level)
    requires Torn(m0, free0, m, free, f, i, level) && !IsValid(m0[f][i])
    ensures Torn(m0, free0, m, free, f, i + 1, level)
  {
    Next(m0, f, i, level);
  }

  /** At the last level the next subtree is a single page. */
  lemma TornPage(m0: Memory, free0: seq<FrameNo>, m: Memory, free: seq<FrameNo>, m': Memory, free': seq<FrameNo>,
                 f: nat, i: nat, w: Word)
    requires i < PAGE_ENTRIES && Separate(m0, free0, f, 3)
    requires Torn(m0, free0, m, free, f, i, 3) && |m'| == |m|
    requires IsValid(m0[f][i]) && f != FrameOf(m0[f][i]) && FrameOf(m0[f][i]) !in free && FrameOf(m0[f][i]) < MAX_FRAMES
    requires free' == [FrameOf(m0[f][i])] + free
    requires m'[f] == m[f][i := w]
    requires forall g: nat | g < |m| && g != f && g != FrameOf(m0[f][i]) :: m'[g] == m[g]
    ensures Torn(m0, free0, m', free', f, i + 1, 3)
  {
    var c := FrameOf(m0[f][i]);
    forall g: nat
      ensures Sub(m0, m0[f][i], 3, g) == if g == c then 1 else 0
      ensures In(free', g) == In(free, g) + Sub(m0, m0[f][i], 3, g)
    {
    }
    TornStep(m0, free0, m, free, m', free', f, i, 3);
  }

  /** At the end the table itself is the only frame left to free. */
  lemma TornAll(m0: Memory, free0: seq<FrameNo>, m: Memory, free: seq<FrameNo>, f: nat, level: nat)
    requires 1 <= level <= 3
    requires Separate(m0, free0, f, level)
    requires Torn(m0, free0, m, free, f, PAGE_ENTRIES, level)
    ensures f !in free && f < MAX_FRAMES
    ensures forall g: nat {:trigger In([f] + free, g)} :: In([f] + free, g) == In(free0, g) + Owns(m0, f, level, g)
    ensures forall g: nat | g < |m| && Owns(m0, f, level, g) == 0 :: m[g] == m0[g]
    ensures |free| + 1 == |free0| + Size(m0, f, level)
  {
    assert m0[f][..PAGE_ENTRIES] == m0[f];
    assert In(free0, f) + Owns(m0, f, level, f) <= 1;
    assert In(free, f) == 0;
    forall g: nat {:trigger In([f] + free, g)}
      ensures In([f] + free, g) == In(free0, g) + Owns(m0, f, level, g)
    {
      assert In(free, g) == In(free0, g) + Under(m0, m0[f], level, g);
    }
  }
}
