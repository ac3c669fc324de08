/** The layout of program arguments on a user stack: what the kernel writes and what the program reads. */
module ArgumentLayout {
  import opened Words
  import opened Bytes

  type Args = seq<seq<Byte>>

  const STACK_BUF_SIZE: nat := 4096
  const MAX_ARGS: nat := 64

  /** The length of all the strings together. */
  function Total(args: Args): nat {
    if args == [] then 0 else Total(args[..|args| - 1]) + |args[|args| - 1]|
  }

  lemma {:induction false} TotalGrows(args: Args, i: nat, j: nat)
    requires i <= j <= |args|
    ensures Total(args[..i]) <= Total(args[..j])
    decreases j - i
  {
    if i < j {
      assert args[..j][..j - 1] == args[..j - 1];
      TotalGrows(args, i, j - 1);
    }
  }

  lemma TotalNext(args: Args, i: nat)
    requires i < |args|
    ensures Total(args[..i + 1]) == Total(args[..i]) + |args[i]|
  {
    assert args[..i + 1][..i] == args[..i];
  }

  function RoundDown(n: nat): (r: nat)
    ensures r % 16 == 0 && r <= n < r + 16
  {
    n - n % 16
  }

  /** Are these arguments accepted: not too many, and with room below them for the table and its padding? */
  predicate Accepted(args: Args) {
    && |args| <= MAX_ARGS
    && Total(args) <= STACK_BUF_SIZE
    && 8 * |args| + 8 <= RoundDown(STACK_BUF_SIZE - Total(args))
  }

  lemma {:induction false} TotalOfEqual(args: Args, n: nat)
    requires forall i | 0 <= i < |args| :: |args[i]| == n
    ensures Total(args) == |args| * n
    decreases |args|
  {
    if args != [] {
      TotalOfEqual(args[..|args| - 1], n);
      assert |args| * n == (|args| - 1) * n + n;
    }
  }

  /** As many arguments as `sys_exec` admits, each as long as it admits, are too long for the buffer. */
  lemma LongestNotAccepted(args: Args)
    requires |args| == 32 && forall i | 0 <= i < |args| :: |args[i]| == 256
    ensures !Accepted(args)
  {
    TotalOfEqual(args, 256);
  }

  /** How long one argument may be, and how many empty ones there may be. */
  lemma LimitsOfAccepted(args: Args)
    ensures |args| == 1 ==> (Accepted(args) <==> |args[0]| <= 4080)
    ensures (forall i | 0 <= i < |args| :: args[i] == []) ==> (Accepted(args) <==> |args| <= 64)
  {
    if |args| == 1 {
      assert args[..0] == [] && Total(args) == |args[0]|;
    }
    if forall i | 0 <= i < |args| :: args[i] == [] { TotalOfEqual(args, 0); }
  }

  /** Where argument i starts in the buffer: they are stacked downwards from its end. */
  function Start(args: Args, i: nat): int
    requires i < |args|
  {
    STACK_BUF_SIZE - Total(args[..i + 1])
  }

  /** The stack pointer, as an index of the buffer, below the table. */
  function TableStart(args: Args): nat
    requires Accepted(args)
  {
    RoundDown(RoundDown(STACK_BUF_SIZE - Total(args)) - 8 * |args|)
  }

  predicate StringAt(image: seq<Byte>, at: int, s: seq<Byte>) {
    0 <= at && at + |s| <= |image| && image[at..at + |s|] == s
  }

  /** Are the first n strings in their places? */
  predicate StringsLaid(image: seq<Byte>, args: Args, n: nat)
    requires n <= |args|
  {
    forall i: nat {:trigger Start(args, i)} | i < n :: StringAt(image, Start(args, i), args[i])
  }

  /** Are the first n offsets in the table at sp? */
  predicate TableLaid(image: seq<Byte>, args: Args, sp: nat, n: nat)
    requires n <= |args|
  {
    forall i: nat {:trigger Start(args, i)} | i < n ::
      0 <= Start(args, i) - sp && StringAt(image, sp + 8 * i, ToBytes(Start(args, i) - sp, 8))
  }

  predicate Laid(image: seq<Byte>, args: Args, sp: nat) {
    && |image| == STACK_BUF_SIZE && Accepted(args) && sp == TableStart(args)
    && StringsLaid(image, args, |args|) && TableLaid(image, args, sp, |args|)
  }

  /** The table ends below the lowest string. */
  lemma TableBelowStrings(args: Args, i: nat)
    requires Accepted(args) && i < |args|
    ensures TableStart(args) + 8 * |args| <= Start(args, i)
    ensures Start(args, i) + |args[i]| <= STACK_BUF_SIZE && TableStart(args) % 16 == 0
    ensures Start(args, i) + |args[i]| == if i == 0 then STACK_BUF_SIZE else Start(args, i - 1)
  {
    assert args[..|args|] == args;
    TotalGrows(args, i + 1, |args|);
    TotalNext(args, i);
    if i == 0 { assert args[..0] == []; }
  }

  // ---------------------------------------------------------------- the reader

  /** What a load from an address of the program gives. */
  type Loads = nat -> Option<Byte>

  predicate Readable(load: Loads, va: nat, n: nat) {
    forall a: nat {:trigger load(a)} | va <= a < va + n :: load(a).Some?
  }

  function Loaded(load: Loads, va: nat): Byte {
    if load(va).Some? then load(va).value else 0
  }

  function BytesAt(load: Loads, va: nat, n: nat): (s: seq<Byte>)
    ensures |s| == n && forall k | 0 <= k < n :: s[k] == Loaded(load, va + k)
  {
    seq<Byte>(n, k requires 0 <= k < n => Loaded(load, va + k))
  }

  /** The n bytes at an address, if all of them can be read. */
  function ReadBytes(load: Loads, va: nat, n: nat): Option<seq<Byte>> {
    if Readable(load, va, n) then Some(BytesAt(load, va, n)) else None
  }

  /** Entry i of the table at finalSp. */
  function Offset(load: Loads, finalSp: nat, i: nat): Option<nat> {
    var b := ReadBytes(load, finalSp + 8 * i, 8);
    if b.Some? then Some(Number(b.value)) else None
  }

  /** Argument i as `parse_args!` finds it: the first ends at the stack top, every other at the one before it. */
  function ParseArg(load: Loads, finalSp: nat, top: nat, i: nat): Option<seq<Byte>> {
    var at := Offset(load, finalSp, i);
    var end := if i == 0 then Some(top) else
      var before := Offset(load, finalSp, i - 1);
      if before.Some? then Some(finalSp + before.value) else None;
    if at.None? || end.None? || end.value < finalSp + at.value then None
    else ReadBytes(load, finalSp + at.value, end.value - (finalSp + at.value))
  }

  /** The bytes of the buffer from sp on, at newSp and up to the stack top. */
  predicate Shows(load: Loads, image: seq<Byte>, sp: nat, newSp: nat) {
    forall k {:trigger image[k]} | sp <= k < |image| :: load(newSp + (k - sp)) == Some(image[k])
  }

  lemma ReadsBack(load: Loads, image: seq<Byte>, sp: nat, newSp: nat, at: nat, s: seq<Byte>)
    requires Shows(load, image, sp, newSp) && sp <= at && StringAt(image, at, s)
    ensures ReadBytes(load, newSp + (at - sp), |s|) == Some(s)
  {
    var va: nat := newSp + (at - sp);
    forall a: nat | va <= a < va + |s|
      ensures load(a) == Some(s[a - va])
    {
      var k := a - va;
      assert image[at + k] == image[at..at + |s|][k];
      assert a == newSp + (at + k - sp);
    }
    assert Readable(load, va, |s|);
    assert BytesAt(load, va, |s|) == s;
  }

  lemma ReadsOffset(load: Loads, image: seq<Byte>, args: Args, sp: nat, newSp: nat, i: nat)
    requires Laid(image, args, sp) && i < |args| && Shows(load, image, sp, newSp)
    ensures Offset(load, newSp, i) == Some(Start(args, i) - sp)
  {
    var v: nat := Start(args, i) - sp;
    assert StringAt(image, sp + 8 * i, ToBytes(v, 8));
    ReadsBack(load, image, sp, newSp, sp + 8 * i, ToBytes(v, 8));
    assert newSp + (sp + 8 * i - sp) == newSp + 8 * i;
    WordFits(v);
    NumberOfDigits(v, ToBytes(v, 8));
  }

  /** Every argument laid out is read back, empty ones included. */
  lemma RoundTrip(load: Loads, image: seq<Byte>, args: Args, sp: nat, newSp: nat, i: nat)
    requires Laid(image, args, sp) && i < |args| && Shows(load, image, sp, newSp)
    ensures ParseArg(load, newSp, newSp + (STACK_BUF_SIZE - sp), i) == Some(args[i])
  {
    TableBelowStrings(args, i);
    ReadsOffset(load, image, args, sp, newSp, i);
    if i > 0 {
      TableBelowStrings(args, i - 1);
      ReadsOffset(load, image, args, sp, newSp, i - 1);
    }
    assert StringAt(image, Start(args, i), args[i]);
    ReadsBack(load, image, sp, newSp, Start(args, i), args[i]);
  }
}

/** `push_args_to_stack`: the buffer filled in place, then copied to the new stack. */
module ArgumentPassing {
  import opened Words
  import opened Addresses
  import opened Bytes
  import opened PageTree
  import opened TreePaths
  import opened UserMemory
  import opened ArgumentLayout
  import PageAllocation

  datatype PushResult = TooManyArguments | ArgumentsExceedStack | NotMapped | Pushed(argc: nat, newSp: nat, top: nat)

  /** now is was with s at the given place. */
  predicate Patched(was: seq<Byte>, now: seq<Byte>, at: nat, s: seq<Byte>) {
    && at + |s| <= |was| == |now|
    && forall j | 0 <= j < |was| :: now[j] == if at <= j < at + |s| then s[j - at] else was[j]
  }

  /** A string copied into the buffer. */
  method CopyIn(image: array<Byte>, at: nat, s: seq<Byte>)
    requires at + |s| <= image.Length
    modifies image
    ensures Patched(old(image[..]), image[..], at, s)
  {
    var k := 0;
    while k < |s|
      invariant 0 <= k <= |s|
      invariant forall j | 0 <= j < image.Length :: image[j] == if at <= j < at + k then s[j - at] else old(image[j])
    {
      image[at + k] := s[k];
      k := k + 1;
    }
  }

  lemma PatchedHere(was: seq<Byte>, now: seq<Byte>, at: nat, s: seq<Byte>)
    requires Patched(was, now, at, s)
    ensures StringAt(now, at, s)
  {
    assert now[at..at + |s|] == s;
  }

  lemma PatchedElsewhere(was: seq<Byte>, now: seq<Byte>, at: nat, s: seq<Byte>, other: int, t: seq<Byte>)
    requires Patched(was, now, at, s) && StringAt(was, other, t) && (other + |t| <= at || at + |s| <= other)
    ensures StringAt(now, other, t)
  {
    assert now[other..other + |t|] == was[other..other + |t|];
  }

  lemma StringsStep(was: seq<Byte>, now: seq<Byte>, args: Args, sp: nat, i: nat)
    requires i < |args| && |was| == STACK_BUF_SIZE && StringsLaid(was, args, i)
    requires sp == Start(args, i) && Patched(was, now, sp, args[i])
    ensures StringsLaid(now, args, i + 1)
  {
    PatchedHere(was, now, sp, args[i]);
    forall j: nat | j < i
      ensures StringAt(now, Start(args, j), args[j])
    {
      TotalGrows(args, j + 1, i);
      TotalNext(args, i);
      PatchedElsewhere(was, now, sp, args[i], Start(args, j), args[j]);
    }
  }

  /** The first loop: the strings, from the end of the buffer downwards. Absent when they do not fit. */
  method PlaceStrings(image: array<Byte>, starts: array<nat>, args: Args) returns (r: Option<nat>)
    requires image.Length == STACK_BUF_SIZE && |args| <= starts.Length
    modifies image, starts
    ensures r == if Total(args) <= STACK_BUF_SIZE then Some(STACK_BUF_SIZE - Total(args)) else None
    ensures r.Some? ==>
      StringsLaid(image[..], args, |args|)
      && forall i: nat | i < |args| :: starts[i] == Start(args, i)
  {
    var sp: nat := STACK_BUF_SIZE;
    var i := 0;
    while i < |args|
      invariant 0 <= i <= |args| && sp == STACK_BUF_SIZE - Total(args[..i])
      invariant StringsLaid(image[..], args, i)
      invariant forall j: nat | j < i :: starts[j] == Start(args, j)
    {
      TotalNext(args, i);
      if sp < |args[i]| {
        TotalGrows(args, i + 1, |args|);
        assert args[..|args|] == args;
        return None;
      }
      ghost var was := image[..];
      sp := sp - |args[i]|;
      CopyIn(image, sp, args[i]);
      starts[i] := sp;
      StringsStep(was, image[..], args, sp, i);
      i := i + 1;
    }
    assert args[..|args|] == args;
    return Some(sp);
  }

  lemma TableStep(was: seq<Byte>, now: seq<Byte>, args: Args, sp: nat, i: nat)
    requires Accepted(args) && sp == TableStart(args) && i < |args| && Start(args, i) >= sp
    requires TableLaid(was, args, sp, i) && Patched(was, now, sp + 8 * i, ToBytes(Start(args, i) - sp, 8))
    ensures TableLaid(now, args, sp, i + 1)
  {
    var b := ToBytes(Start(args, i) - sp, 8);
    PatchedHere(was, now, sp + 8 * i, b);
    forall j: nat | j < i
      ensures StringAt(now, sp + 8 * j, ToBytes(Start(args, j) - sp, 8))
    {
      PatchedElsewhere(was, now, sp + 8 * i, b, sp + 8 * j, ToBytes(Start(args, j) - sp, 8));
    }
  }

  lemma TableSpares(was: seq<Byte>, now: seq<Byte>, args: Args, sp: nat, i: nat, b: seq<Byte>)
    requires Accepted(args) && sp == TableStart(args) && i < |args| && |b| == 8
    requires StringsLaid(was, args, |args|) && Patched(was, now, sp + 8 * i, b)
    ensures StringsLaid(now, args, |args|)
  {
    forall j: nat | j < |args|
      ensures StringAt(now, Start(args, j), args[j])
    {
      TableBelowStrings(args, j);
      PatchedElsewhere(was, now, sp + 8 * i, b, Start(args, j), args[j]);
    }
  }

  /** The second loop: the offsets, from the stack pointer upwards. */
  method PlaceTable(image: array<Byte>, starts: array<nat>, args: Args, sp: nat)
    requires image.Length == STACK_BUF_SIZE && |args| <= starts.Length && Accepted(args) && sp == TableStart(args)
    requires StringsLaid(image[..], args, |args|) && forall i: nat | i < |args| :: starts[i] == Start(args, i)
    modifies image
    ensures Laid(image[..], args, sp)
  {
    var i := 0;
    while i < |args|
      invariant 0 <= i <= |args|
      invariant StringsLaid(image[..], args, |args|) && TableLaid(image[..], args, sp, i)
    {
      TableBelowStrings(args, i);
      var offset: nat := starts[i] - sp;
      var dst := sp + 8 * i;
      ghost var was := image[..];
      CopyIn(image, dst, ToBytes(offset, 8));
      TableStep(was, image[..], args, sp, i);
      TableSpares(was, image[..], args, sp, i, ToBytes(offset, 8));
      i := i + 1;
    }
  }

  /** The buffer and the stack pointer in it; the whole of `push_args_to_stack` up to the copy. */
  method BuildImage(args: Args) returns (r: PushResult, image: array<Byte>, sp: nat)
    ensures fresh(image) && sp <= image.Length == STACK_BUF_SIZE
    ensures r.Pushed? <==> Accepted(args)
    ensures r.Pushed? ==> Laid(image[..], args, sp)
    ensures r == TooManyArguments <==> |args| > MAX_ARGS
    ensures !r.NotMapped?
  {
    image, sp := new Byte[STACK_BUF_SIZE](i => 0), 0;
    if |args| > MAX_ARGS {
      return TooManyArguments, image, sp;
    }
    var starts := new nat[MAX_ARGS](i => 0);
    var low := PlaceStrings(image, starts, args);
    if low.None? {
      return ArgumentsExceedStack, image, sp;
    }
    sp := RoundDown(low.value);
    if sp < |args| * 8 + 8 {
      return ArgumentsExceedStack, image, sp;
    }
    sp := RoundDown(sp - |args| * 8);
    PlaceTable(image, starts, args, sp);
    r := Pushed(|args|, 0, 0);
  }

  /** The program's loads, through its own translation table. */
  ghost function LoadsOf(m: Memory, root: nat): Loads {
    a => UserByte(m, root, a)
  }

  /** The arguments that a program started with these registers reads. */
  ghost predicate ProgramReads(m: Memory, root: nat, r: PushResult, args: Args)
    requires r.Pushed?
  {
    && r.argc == |args| && r.newSp <= r.top && (r.top % 16 == 0 ==> r.newSp % 16 == 0)
    && forall i: nat | i < |args| :: ParseArg(LoadsOf(m, root), r.newSp, r.top, i) == Some(args[i])
  }

  lemma CopiedShows(m: Memory, m': Memory, root: nat, image: seq<Byte>, sp: nat, newSp: nat)
    requires sp <= |image| && newSp + (|image| - sp) <= USER_TOP
    requires BytesWritten(m, m', root, newSp, image[sp..])
    ensures Shows(LoadsOf(m', root), image, sp, newSp)
  {
    var load := LoadsOf(m', root);
    forall k | sp <= k < |image|
      ensures load(newSp + (k - sp)) == Some(image[k])
    {
      var a: nat := newSp + (k - sp);
      assert UserByte(m', root, a) == Some(image[sp..][a - newSp]);
    }
  }

  lemma AllRead(load: Loads, image: seq<Byte>, args: Args, sp: nat, newSp: nat, top: nat)
    requires Laid(image, args, sp) && Shows(load, image, sp, newSp) && sp <= STACK_BUF_SIZE
      && top == newSp + (STACK_BUF_SIZE - sp)
    ensures forall i: nat | i < |args| :: ParseArg(load, newSp, top, i) == Some(args[i])
  {
    forall i: nat | i < |args|
      ensures ParseArg(load, newSp, top, i) == Some(args[i])
    {
      RoundTrip(load, image, args, sp, newSp, i);
    }
  }

  lemma CopiedReads(m: Memory, m': Memory, root: nat, image: seq<Byte>, args: Args, sp: nat, top: nat, r: PushResult)
    requires Laid(image, args, sp) && sp <= STACK_BUF_SIZE <= top <= USER_TOP
    requires r == Pushed(|args|, top - (STACK_BUF_SIZE - sp), top)
    requires BytesWritten(m, m', root, r.newSp, image[sp..])
    ensures ProgramReads(m', root, r, args)
  {
    CopiedShows(m, m', root, image, sp, r.newSp);
    AllRead(LoadsOf(m', root), image, args, sp, r.newSp, top);
    if top % 16 == 0 { TopAligned(sp, top); }
  }

  lemma TopAligned(sp: nat, top: nat)
    requires sp % 16 == 0 && sp <= STACK_BUF_SIZE <= top && top % 16 == 0
    ensures (top - (STACK_BUF_SIZE - sp)) % 16 == 0
  {
  }

  /** The copy of the buffer to the stack. */
  method CopyImage(pages: PageAllocation.PageAllocator, root: nat, top: nat, ghost args: Args, image: seq<Byte>,
                   sp: nat, argc: nat)
    returns (r: PushResult)
    requires pages.Valid() && root in pages.roots && STACK_BUF_SIZE <= top <= USER_TOP
    requires Laid(image, args, sp) && sp <= STACK_BUF_SIZE && argc == |args|
    modifies pages.ram
    ensures pages.Valid() && PagesWritten(old(pages.Mem()), pages.Mem(), root)
    ensures r.Pushed? || r.NotMapped?
    ensures r.Pushed? ==>
      r.top == top && r.newSp == top - (STACK_BUF_SIZE - sp)
      && ProgramReads(pages.Mem(), root, r, args)
    ensures r.Pushed? ==> BytesWritten(old(pages.Mem()), pages.Mem(), root, r.newSp, image[sp..])
    ensures r.NotMapped? ==> exists a: nat :: Unmapped(old(pages.Mem()), root, a, top)
  {
    ghost var m := pages.Mem();
    var newSp := top - (STACK_BUF_SIZE - sp);
    var ok, done := pages.CopyToPages(image[sp..], newSp, root);
    if ok {
      r := Pushed(argc, newSp, top);
      assert image[sp..][..done] == image[sp..];
      CopiedReads(m, pages.Mem(), root, image, args, sp, top, r);
    } else {
      r := NotMapped;
      assert Unmapped(m, root, newSp + done, top);
    }
  }

  /** An address in the page below the stack top that is not mapped. */
  ghost predicate Unmapped(m: Memory, root: nat, a: nat, top: nat) {
    top - STACK_BUF_SIZE <= a < top && LeafAt(m, root, PathOf(a)).None?
  }

  /** `push_args_to_stack`: accepted arguments, when their pages are mapped, are what the program then reads; nothing
      outside [newSp, top) of its memory changes. */
  method PushArgs(pages: PageAllocation.PageAllocator, root: nat, top: nat, args: Args) returns (r: PushResult)
    requires pages.Valid() && root in pages.roots && STACK_BUF_SIZE <= top <= USER_TOP
    modifies pages.ram
    ensures pages.Valid() && PagesWritten(old(pages.Mem()), pages.Mem(), root)
    ensures r == TooManyArguments <==> |args| > MAX_ARGS
    ensures r == ArgumentsExceedStack <==> |args| <= MAX_ARGS && !Accepted(args)
    ensures r.Pushed? ==> top - STACK_BUF_SIZE <= r.newSp <= r.top == top && ProgramReads(pages.Mem(), root, r, args)
    ensures r.Pushed? ==> forall a: nat | a < r.newSp || top <= a < USER_TOP ::
      UserByte(pages.Mem(), root, a) == UserByte(old(pages.Mem()), root, a)
    ensures r.NotMapped? ==> exists a: nat :: Unmapped(old(pages.Mem()), root, a, top)
  {
    var image, sp;
    r, image, sp := BuildImage(args);
    if r.Pushed? {
      r := CopyImage(pages, root, top, args, image[..], sp, |args|);
    }
  }
}
