/** Deep copies of translation tables. */
module TreeCopy {
  import opened Words
  import opened PageTree
  import opened FreeFrames
  import opened TreeLoops

  /** The tree at d in m' has the shape, the attribute bits and the page contents of the tree at s in m. */
  ghost predicate CopyOf(m: Memory, s: nat, m': Memory, d: nat, level: nat)
    requires 1 <= level <= 4
    decreases 4 - level, 1
  {
    && s < |m| && d < |m'|
    && if level == 4 then m'[d] == m[s]
       else forall i | 0 <= i < PAGE_ENTRIES :: EntryCopy(m, m[s][i], m', m'[d][i], level)
  }

  ghost predicate EntryCopy(m: Memory, w: Word, m': Memory, w': Word, level: nat)
    requires 1 <= level <= 3
    decreases 4 - level, 0
  {
    && (IsValid(w') <==> IsValid(w))
    && (IsValid(w) ==> Flags(w') == Flags(w) && CopyOf(m, FrameOf(w), m', FrameOf(w'), level + 1))
  }

  /** A copy translates exactly the same paths, with the same attributes, to pages with the same contents. */
  lemma {:induction false} CopyTranslates(m: Memory, s: nat, m': Memory, d: nat, level: nat, path: seq<nat>)
    requires 1 <= level && level + |path| == 4
    requires CopyOf(m, s, m', d, level)
    ensures LeafAt(m', d, path).Some? <==> LeafAt(m, s, path).Some?
    ensures LeafAt(m, s, path).Some? ==>
      var w, w' := LeafAt(m, s, path).value, LeafAt(m', d, path).value;
      Flags(w') == Flags(w) && FrameOf(w) < |m| && FrameOf(w') < |m'| && m'[FrameOf(w')] == m[FrameOf(w)]
    decreases |path|
  {
    if path != [] && path[0] < PAGE_ENTRIES {
      var w, w' := m[s][path[0]], m'[d][path[0]];
      assert EntryCopy(m, w, m', w', level);
      if |path| > 1 && IsValid(w) {
        CopyTranslates(m, FrameOf(w), m', FrameOf(w'), level + 1, path[1..]);
      }
    }
  }

  /** A copy stays one while neither tree changes. */
  lemma {:induction false} CopyFrame(m0: Memory, m: Memory, s: nat, m1: Memory, m2: Memory, d: nat, level: nat)
    requires 1 <= level <= 4
    requires CopyOf(m, s, m1, d, level)
    requires Agree(m0, m, s, level) && Agree(m1, m2, d, level)
    ensures CopyOf(m0, s, m2, d, level)
    decreases 4 - level
  {
    assert Owns(m0, s, level, s) > 0 && Owns(m1, d, level, d) > 0;
    if level < 4 {
      forall i | 0 <= i < PAGE_ENTRIES
        ensures EntryCopy(m0, m0[s][i], m2, m2[d][i], level)
      {
        assert EntryCopy(m, m[s][i], m1, m1[d][i], level);
        ChildAgrees(m0, m, s, i, level);
        ChildAgrees(m1, m2, d, i, level);
        if IsValid(m[s][i]) {
          CopyFrame(m0, m, FrameOf(m[s][i]), m1, m2, FrameOf(m1[d][i]), level + 1);
        }
      }
    }
  }

  lemma AgreeSelf(m: Memory, f: nat, level: nat)
    requires 1 <= level <= 4
    ensures Agree(m, m, f, level)
  {
  }

  // ---------------------------------------------------------------- growing a tree out of free frames

  /** Source and destination of a copy: both exist, and neither shares a frame with the other or the free list. */
  ghost predicate Apart(m: Memory, free: seq<FrameNo>, s: nat, d: nat, level: nat)
    requires 1 <= level <= 4
  {
    Separate(m, free, s, level) && d < |m| && d !in free && Owns(m, s, level, d) == 0
  }

  /** The tree at d grew out of frames that were free, and nothing else changed. */
  ghost predicate Grown(m0: Memory, free0: seq<FrameNo>, m: Memory, free: seq<FrameNo>, d: nat, level: nat)
    requires 1 <= level <= 4
  {
    && |m| == |m0| && d < |m| && d !in free0
    && (forall g | g in free0 :: g < |m0|)
    && (forall g: nat {:trigger m[g]} :: g < |m0| && g != d && In(free0, g) == 0 ==> m[g] == m0[g])
    && (forall g: nat {:trigger In(free, g)} {:trigger Owns(m, d, level, g)} ::
          In(free, g) + Owns(m, d, level, g) == In(free0, g) + (if g == d then 1 else 0))
  }

  /** The tree at f is the frame f and nothing else. */
  ghost predicate Alone(m: Memory, f: nat, level: nat)
    requires 1 <= level <= 4
  {
    forall g: nat {:trigger Owns(m, f, level, g)} :: Owns(m, f, level, g) == if g == f then 1 else 0
  }

  lemma EmptyAlone(m: Memory, f: nat, level: nat)
    requires 1 <= level <= 4 && f < |m|
    requires level < 4 ==> forall j | 0 <= j < PAGE_ENTRIES :: !IsValid(m[f][j])
    ensures Alone(m, f, level)
  {
    forall g: nat
      ensures Owns(m, f, level, g) == if g == f then 1 else 0
    {
      OwnsOfEmpty(m, f, level, g);
    }
  }

  lemma GrownProper(m0: Memory, free0: seq<FrameNo>, m: Memory, free: seq<FrameNo>, d: nat, level: nat)
    requires 1 <= level <= 4 && Grown(m0, free0, m, free, d, level)
    ensures Proper(m, d, level) && d !in free
    ensures forall g: nat {:trigger In(free, g)} :: In(free, g) <= In(free0, g)
  {
    assert Owns(m, d, level, d) > 0;
    assert In(free, d) == 0;
  }

  /** One more frame: popped, filled, and entered in the table at d. */
  lemma Attach(m0: Memory, free0: seq<FrameNo>, m: Memory, free: seq<FrameNo>, m1: Memory, d: nat, i: nat, level: nat)
    requires 1 <= level <= 3 && Grown(m0, free0, m, free, d, level) && free != [] && free[0] !in free[1..]
    requires i < PAGE_ENTRIES && !IsValid(m[d][i]) && |m1| == |m|
    requires m1[d] == m[d][i := m1[d][i]] && IsValid(m1[d][i]) && FrameOf(m1[d][i]) == free[0]
    requires level < 3 ==> forall j | 0 <= j < PAGE_ENTRIES && free[0] < |m| :: !IsValid(m1[free[0]][j])
    requires forall g: nat {:trigger m1[g]} | g < |m| && g != free[0] && g != d :: m1[g] == m[g]
    ensures Grown(m0, free0, m1, free[1..], d, level)
    ensures Alone(m1, free[0], level + 1)
    ensures forall j | 0 <= j < PAGE_ENTRIES && j != i :: SubAgree(m, m1, m[d][j], level)
  {
    var n := free[0];
    GrownProper(m0, free0, m, free, d, level);
    assert In(free, n) == 1 && Owns(m, d, level, n) == 0;
    forall j | 0 <= j < PAGE_ENTRIES && j != i
      ensures SubAgree(m, m1, m[d][j], level)
    {
      SubFree(m, free, m1, d, j, n, level);
    }
    EmptyAlone(m1, n, level + 1);
    forall g: nat
      ensures In(free[1..], g) + Owns(m1, d, level, g) == In(free0, g) + (if g == d then 1 else 0)
    {
      OwnsPut(m, m1, d, i, m1[d][i], level, g);
      assert In(free, g) == In(free[1..], g) + if g == n then 1 else 0;
    }
  }

  /** A subtree in use does not see what happens to a free frame or to its own table. */
  lemma SubFree(m: Memory, free: seq<FrameNo>, m1: Memory, d: nat, j: nat, n: nat, level: nat)
    requires 1 <= level <= 3 && d < |m| == |m1| && j < PAGE_ENTRIES
    requires Proper(m, d, level) && Owns(m, d, level, n) == 0
    requires forall g: nat {:trigger m1[g]} | g < |m| && g != n && g != d :: m1[g] == m[g]
    ensures SubAgree(m, m1, m[d][j], level)
  {
    if IsValid(m[d][j]) {
      forall g: nat | g < |m| && Owns(m, FrameOf(m[d][j]), level + 1, g) > 0
        ensures m1[g] == m[g]
      {
        ChildApart(m, d, j, level, g);
      }
    }
  }

  /** A tree grown below entry i is a tree grown below d. */
  lemma AttachGrown(m0: Memory, free0: seq<FrameNo>, m1: Memory, free1: seq<FrameNo>, m2: Memory, free2: seq<FrameNo>,
                    d: nat, i: nat, level: nat)
    requires 1 <= level <= 3 && i < PAGE_ENTRIES
    requires Grown(m0, free0, m1, free1, d, level) && IsValid(m1[d][i])
    requires Grown(m1, free1, m2, free2, FrameOf(m1[d][i]), level + 1)
    requires Alone(m1, FrameOf(m1[d][i]), level + 1)
    ensures m2[d] == m1[d]
    ensures Grown(m0, free0, m2, free2, d, level)
    ensures forall j | 0 <= j < PAGE_ENTRIES && j != i :: SubAgree(m1, m2, m1[d][j], level)
  {
    var w := m1[d][i];
    var n := FrameOf(w);
    GrownProper(m0, free0, m1, free1, d, level);
    ChildApart(m1, d, i, level, n);
    assert Sub(m1, w, level, n) == 1;
    forall j | 0 <= j < PAGE_ENTRIES && j != i
      ensures SubAgree(m1, m2, m1[d][j], level)
    {
      SiblingKept(m1, free1, m2, d, j, n, level);
    }
    assert m1[d][i := w] == m1[d];
    forall g: nat
      ensures In(free2, g) + Owns(m2, d, level, g) == In(free0, g) + (if g == d then 1 else 0)
    {
      OwnsPut(m1, m2, d, i, w, level, g);
      assert In(free1, g) + Owns(m1, d, level, g) == In(free0, g) + (if g == d then 1 else 0);
      assert In(free2, g) + Owns(m2, n, level + 1, g) == In(free1, g) + (if g == n then 1 else 0);
    }
    assert forall g: nat | g < |m0| && g != d && In(free0, g) == 0 :: In(free1, g) == 0 && g != n by {
      assert Owns(m1, d, level, n) > 0;
    }
  }

  lemma SiblingKept(m1: Memory, free1: seq<FrameNo>, m2: Memory, d: nat, j: nat, n: nat, level: nat)
    requires 1 <= level <= 3 && d < |m1| == |m2| && j < PAGE_ENTRIES
    requires Proper(m1, d, level) && Sub(m1, m1[d][j], level, n) == 0
    requires forall g: nat {:trigger In(free1, g)} :: In(free1, g) + Owns(m1, d, level, g) <= 1
    requires forall g: nat {:trigger m2[g]} | g < |m1| && g != n && In(free1, g) == 0 :: m2[g] == m1[g]
    ensures SubAgree(m1, m2, m1[d][j], level)
  {
    if IsValid(m1[d][j]) {
      forall g: nat | g < |m1| && Owns(m1, FrameOf(m1[d][j]), level + 1, g) > 0
        ensures m2[g] == m1[g]
      {
        ChildApart(m1, d, j, level, g);
        assert In(free1, g) == 0;
      }
    }
  }

  // ---------------------------------------------------------------- the copying loop

  /** Entries below i of the table at s are copied to d; the others of d are still empty. */
  ghost predicate Copying(m0: Memory, free0: seq<FrameNo>, m: Memory, free: seq<FrameNo>, s: nat, d: nat, level: nat,
                          i: nat)
    requires 1 <= level <= 3 && i <= PAGE_ENTRIES
  {
    && Apart(m0, free0, s, d, level)
    && Grown(m0, free0, m, free, d, level)
    && (forall j | 0 <= j < i :: EntryCopy(m0, m0[s][j], m, m[d][j], level))
    && (forall j | i <= j < PAGE_ENTRIES :: !IsValid(m[d][j]))
    && |free| + SizeUnder(m0, m0[s][..i], level) == |free0|
  }

  lemma CopyStart(m: Memory, free: seq<FrameNo>, s: nat, d: nat, level: nat)
    requires 1 <= level <= 3 && Apart(m, free, s, d, level) && Chain(m, free)
    requires forall j | 0 <= j < PAGE_ENTRIES :: !IsValid(m[d][j])
    ensures Copying(m, free, m, free, s, d, level, 0)
  {
    ChainFrames(m, free);
    EmptyAlone(m, d, level);
    var none: seq<Word> := m[s][..0];
    assert none == [] && SizeUnder(m, none, level) == 0;
  }

  lemma EntryCopyFrame(m0: Memory, w0: Word, m: Memory, m': Memory, w: Word, level: nat)
    requires 1 <= level <= 3
    requires EntryCopy(m0, w0, m, w, level) && SubAgree(m, m', w, level)
    ensures EntryCopy(m0, w0, m', w, level)
  {
    if IsValid(w0) {
      AgreeSelf(m0, FrameOf(w0), level + 1);
      CopyFrame(m0, m0, FrameOf(w0), m, m', FrameOf(w), level + 1);
    }
  }

  /** Filling entry i correctly, with the subtrees before it undisturbed, takes the loop one entry further. */
  lemma CopyStep(m0: Memory, free0: seq<FrameNo>, m: Memory, free: seq<FrameNo>, m': Memory, free': seq<FrameNo>,
                 s: nat, d: nat, level: nat, i: nat)
    requires 1 <= level <= 3 && i < PAGE_ENTRIES
    requires Copying(m0, free0, m, free, s, d, level, i)
    requires Grown(m0, free0, m', free', d, level)
    requires forall j | 0 <= j < PAGE_ENTRIES && j != i :: m'[d][j] == m[d][j] && SubAgree(m, m', m[d][j], level)
    requires EntryCopy(m0, m0[s][i], m', m'[d][i], level)
    requires |free'| + SizeSub(m0, m0[s][i], level) == |free|
    ensures Copying(m0, free0, m', free', s, d, level, i + 1)
  {
    Next(m0, s, i, level);
    forall j | 0 <= j < i + 1
      ensures EntryCopy(m0, m0[s][j], m', m'[d][j], level)
    {
      if j < i {
        EntryCopyFrame(m0, m0[s][j], m, m', m[d][j], level);
      }
    }
  }

  /** The source subtree is untouched while d grows. */
  lemma SourceKept(m0: Memory, free0: seq<FrameNo>, m: Memory, s: nat, d: nat, level: nat, i: nat)
    requires 1 <= level <= 3 && i < PAGE_ENTRIES
    requires Apart(m0, free0, s, d, level) && IsValid(m0[s][i]) && |m| == |m0|
    requires forall g: nat {:trigger m[g]} | g < |m0| && g != d && In(free0, g) == 0 :: m[g] == m0[g]
    ensures m[s] == m0[s]
    ensures Agree(m0, m, FrameOf(m0[s][i]), level + 1)
    ensures Separate(m0, free0, FrameOf(m0[s][i]), level + 1)
    ensures forall g | g in free0 || g == d :: Owns(m0, FrameOf(m0[s][i]), level + 1, g) == 0
  {
    var c := FrameOf(m0[s][i]);
    assert In(free0, s) + Owns(m0, s, level, s) <= 1;
    ChildProper(m0, s, i, level);
    forall g: nat {:trigger Owns(m0, c, level + 1, g)}
      ensures Owns(m0, c, level + 1, g) <= Owns(m0, s, level, g)
      ensures In(free0, g) + Owns(m0, c, level + 1, g) <= 1
    {
      ChildApart(m0, s, i, level, g);
      assert In(free0, g) + Owns(m0, s, level, g) <= 1;
    }
    assert Agree(m0, m, s, level);
    ChildAgrees(m0, m, s, i, level);
  }

  lemma CopySkip(m0: Memory, free0: seq<FrameNo>, m: Memory, free: seq<FrameNo>, s: nat, d: nat, level: nat, i: nat)
    requires 1 <= level <= 3 && i < PAGE_ENTRIES
    requires Copying(m0, free0, m, free, s, d, level, i) && !IsValid(m0[s][i])
    ensures Copying(m0, free0, m, free, s, d, level, i + 1)
  {
    forall j | 0 <= j < PAGE_ENTRIES && j != i
      ensures SubAgree(m, m, m[d][j], level)
    {
    }
    CopyStep(m0, free0, m, free, m, free, s, d, level, i);
  }

  /** The page case: the popped frame got the source page's words and was entered with its attributes. */
  lemma CopyPage(m0: Memory, free0: seq<FrameNo>, m: Memory, free: seq<FrameNo>, m1: Memory, s: nat, d: nat, i: nat)
    requires i < PAGE_ENTRIES
    requires Copying(m0, free0, m, free, s, d, 3, i) && IsValid(m0[s][i])
    requires free != [] && free[0] !in free[1..] && free[0] < |m| && FrameOf(m0[s][i]) < |m|
    requires m1 == Put(m[free[0] := m[FrameOf(m0[s][i])]], d, i, Entry(free[0], Flags(m0[s][i])))
    ensures Copying(m0, free0, m1, free[1..], s, d, 3, i + 1)
  {
    GrownProper(m0, free0, m, free, d, 3);
    Attach(m0, free0, m, free, m1, d, i, 3);
    SourceKept(m0, free0, m, s, d, 3, i);
    assert Owns(m0, FrameOf(m0[s][i]), 4, FrameOf(m0[s][i])) > 0;
    CopyStep(m0, free0, m, free, m1, free[1..], s, d, 3, i);
  }

  /** The table case, before descending: the popped frame is an empty table below d, ready to be filled. */
  lemma CopyTable(m0: Memory, free0: seq<FrameNo>, m: Memory, free: seq<FrameNo>, m1: Memory, s: nat, d: nat,
                  level: nat, i: nat)
    requires 1 <= level <= 2 && i < PAGE_ENTRIES
    requires Copying(m0, free0, m, free, s, d, level, i) && IsValid(m0[s][i])
    requires free != [] && free[0] !in free[1..] && free[0] < |m|
    requires m1 == Put(m[free[0] := Zeros(PAGE_ENTRIES)], d, i, Entry(free[0], Flags(m0[s][i])))
    ensures Grown(m0, free0, m1, free[1..], d, level)
    ensures forall j | 0 <= j < PAGE_ENTRIES && j != i :: m1[d][j] == m[d][j] && SubAgree(m, m1, m[d][j], level)
    ensures Alone(m1, free[0], level + 1)
    ensures Agree(m0, m1, FrameOf(m0[s][i]), level + 1)
    ensures Apart(m1, free[1..], FrameOf(m0[s][i]), free[0], level + 1)
    ensures m1[free[0]] == Zeros(PAGE_ENTRIES)
    ensures Size(m1, FrameOf(m0[s][i]), level + 1) == SizeSub(m0, m0[s][i], level)
  {
    var c, n := FrameOf(m0[s][i]), free[0];
    GrownProper(m0, free0, m, free, d, level);
    Attach(m0, free0, m, free, m1, d, i, level);
    assert In(free, n) == 1;
    assert n in free0;
    SourceKept(m0, free0, m1, s, d, level, i);
    SizeFrame(m0, m1, c, level + 1);
    SourceApart(m0, free0, m1, free[1..], c, n, level + 1);
  }

  lemma SourceApart(m0: Memory, free0: seq<FrameNo>, m1: Memory, free1: seq<FrameNo>, c: nat, n: nat, level: nat)
    requires 1 <= level <= 4
    requires Separate(m0, free0, c, level) && Agree(m0, m1, c, level)
    requires n < |m0| && n !in free1 && Owns(m0, c, level, n) == 0
    requires forall g: nat {:trigger In(free1, g)} :: In(free1, g) <= In(free0, g)
    ensures Apart(m1, free1, c, n, level)
  {
    forall g: nat {:trigger Owns(m1, c, level, g)}
      ensures Owns(m1, c, level, g) == Owns(m0, c, level, g)
      ensures In(free1, g) + Owns(m1, c, level, g) <= 1
    {
      OwnsFrame(m0, m1, c, level, g);
      assert In(free0, g) + Owns(m0, c, level, g) <= 1;
      assert In(free1, g) <= In(free0, g);
    }
  }

  /** The table case, after descending. */
  lemma CopyTableDone(m0: Memory, free0: seq<FrameNo>, m: Memory, free: seq<FrameNo>, m1: Memory, m2: Memory,
                      free2: seq<FrameNo>, s: nat, d: nat, level: nat, i: nat)
    requires 1 <= level <= 2 && i < PAGE_ENTRIES
    requires Copying(m0, free0, m, free, s, d, level, i) && IsValid(m0[s][i])
    requires free != [] && free[0] !in free[1..] && free[0] < |m|
    requires m1 == Put(m[free[0] := Zeros(PAGE_ENTRIES)], d, i, Entry(free[0], Flags(m0[s][i])))
    requires Grown(m1, free[1..], m2, free2, free[0], level + 1)
    requires CopyOf(m1, FrameOf(m0[s][i]), m2, free[0], level + 1)
    requires |free2| + SizeSub(m0, m0[s][i], level) == |free|
    ensures Copying(m0, free0, m2, free2, s, d, level, i + 1)
  {
    var c, n := FrameOf(m0[s][i]), free[0];
    CopyTable(m0, free0, m, free, m1, s, d, level, i);
    AttachGrown(m0, free0, m1, free[1..], m2, free2, d, i, level);
    AgreeSelf(m2, n, level + 1);
    CopyFrame(m0, m1, c, m2, m2, n, level + 1);
    forall j | 0 <= j < PAGE_ENTRIES && j != i
      ensures SubAgree(m, m2, m[d][j], level)
    {
      SubAgreeTrans(m, m1, m2, m[d][j], level);
    }
    CopyStep(m0, free0, m, free, m2, free2, s, d, level, i);
  }

  lemma SubAgreeTrans(m: Memory, m1: Memory, m2: Memory, w: Word, level: nat)
    requires 1 <= level <= 3
    requires SubAgree(m, m1, w, level) && SubAgree(m1, m2, w, level)
    ensures SubAgree(m, m2, w, level)
  {
    if IsValid(w) {
      var c := FrameOf(w);
      forall g: nat | g < |m| && Owns(m, c, level + 1, g) > 0
        ensures m2[g] == m[g]
      {
        OwnsFrame(m, m1, c, level + 1, g);
      }
    }
  }

  // ---------------------------------------------------------------- a whole space

  /** With its root popped and cleared, the copy of a space can begin. */
  lemma CopyReady(m: Memory, free: seq<FrameNo>, m1: Memory, s: nat)
    requires Chain(m, free) && free != [] && Separate(m, free, s, 1)
    requires m1 == m[free[0] := Zeros(PAGE_ENTRIES)]
    ensures Apart(m1, free[1..], s, free[0], 1)
    ensures Agree(m, m1, s, 1) && Size(m1, s, 1) == Size(m, s, 1)
  {
    var n := free[0];
    assert In(free, n) + Owns(m, s, 1, n) <= 1;
    SizeFrame(m, m1, s, 1);
    SourceApart(m, free, m1, free[1..], s, n, 1);
  }

  /** A space grown from the popped root accounts for exactly the frames that left the list. */
  lemma GrownFromList(m: Memory, free: seq<FrameNo>, m1: Memory, m2: Memory, free2: seq<FrameNo>)
    requires Chain(m, free) && free != []
    requires m1 == m[free[0] := Zeros(PAGE_ENTRIES)]
    requires Grown(m1, free[1..], m2, free2, free[0], 1)
    ensures Separate(m2, free2, free[0], 1) && |m2| == |m|
    ensures forall g: nat {:trigger Owns(m2, free[0], 1, g)} :: In(free2, g) + Owns(m2, free[0], 1, g) == In(free, g)
    ensures forall g: nat | g < |m| && In(free, g) == 0 :: m2[g] == m[g]
  {
    GrownProper(m1, free[1..], m2, free2, free[0], 1);
    forall g: nat
      ensures In(free2, g) + Owns(m2, free[0], 1, g) == In(free, g)
    {
      assert In(free, g) == In(free[1..], g) + if g == free[0] then 1 else 0;
    }
  }

  lemma CopyFinished(m: Memory, free: seq<FrameNo>, m1: Memory, m2: Memory, free2: seq<FrameNo>, s: nat,
                     roots: seq<nat>, managed: set<nat>)
    requires Chain(m, free) && free != [] && Separate(m, free, s, 1)
    requires m1 == m[free[0] := Zeros(PAGE_ENTRIES)]
    requires Grown(m1, free[1..], m2, free2, free[0], 1) && CopyOf(m1, s, m2, free[0], 1)
    requires Partition(m, free, roots, managed)
    ensures Partition(m2, free2, roots + [free[0]], managed)
    ensures CopyOf(m, s, m2, free[0], 1) && |m2| == |m|
    ensures forall g: nat {:trigger Owns(m2, free[0], 1, g)} :: Owns(m2, free[0], 1, g) > 0 ==> g in free
    ensures forall g: nat | g < |m| && g !in free :: m2[g] == m[g]
  {
    GrownFromList(m, free, m1, m2, free2);
    CopyReady(m, free, m1, s);
    AgreeSelf(m2, free[0], 1);
    CopyFrame(m, m1, s, m2, m2, free[0], 1);
    AddRoot(m, free, m2, free2, roots, managed, free[0]);
  }

  /** Tearing down what was grown gives back exactly the frames that were free. */
  lemma CopyUndone(m: Memory, free: seq<FrameNo>, m2: Memory, free2: seq<FrameNo>, d: nat, m3: Memory,
                   free3: seq<FrameNo>, roots: seq<nat>, managed: set<nat>)
    requires Partition(m, free, roots, managed) && |m3| == |m2| == |m|
    requires Chain(m, free) && Chain(m3, free3)
    requires forall g: nat {:trigger Owns(m2, d, 1, g)} :: In(free2, g) + Owns(m2, d, 1, g) == In(free, g)
    requires forall g: nat | g < |m| && In(free, g) == 0 :: m2[g] == m[g]
    requires forall g: nat {:trigger In(free3, g)} :: In(free3, g) == In(free2, g) + Owns(m2, d, 1, g)
    requires forall g: nat | g < |m| && Owns(m2, d, 1, g) == 0 :: m3[g] == m2[g]
    ensures Partition(m3, free3, roots, managed) && |free3| == |free|
    ensures forall g: nat {:trigger In(free3, g)} :: In(free3, g) == In(free, g)
    ensures forall g: nat | g < |m| && g !in free :: m3[g] == m[g]
  {
    SameFree(m, free, m3, free3, roots, managed);
    SameLength(m, free, m3, free3);
  }
}
