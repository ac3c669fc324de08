/** The states of the whole kernel: what its handlers do to the tables, and with them to the places in memory. */
module MachineStates {
  import opened Words
  import opened Bytes
  import opened PageTree
  import opened FreeFrames
  import opened TreeLoops
  import opened TreeCopy
  import opened TreePaths
  import opened UserMemory
  import opened FrameCounts
  import opened Lifecycle
  import opened LifecycleInvariant
  import opened LifecycleSteps
  import opened LifecycleFork
  import opened LifecycleRuns
  import opened LifecyclePlaces
  import opened LifecycleAnswers
  import opened PlacesInMemory
  import ElfImage
  import ElfLoading
  import ArgumentLayout
  import ArgumentPassing
  import AddressSpaces
  import KernelStackPages
  import StackRoom
  import PageAllocation

  /** The slots up to i with those freed that others queued. */
  ghost function PartlyFreed(stacks: seq<StackState>, pid: nat, i: nat): seq<StackState>
    requires i <= |stacks|
  {
    FreeQueued(stacks, pid)[..i] + stacks[i..]
  }

  lemma FreedNext(stacks: seq<StackState>, pid: nat, i: nat)
    requires i < |stacks|
    ensures PartlyFreed(stacks, pid, i)[i] == stacks[i]
    ensures PartlyFreed(stacks, pid, i + 1) == PartlyFreed(stacks, pid, i)[i := Released(stacks[i], pid)]
  {
  }

  lemma FreedEnds(stacks: seq<StackState>, pid: nat)
    ensures PartlyFreed(stacks, pid, 0) == stacks && PartlyFreed(stacks, pid, |stacks|) == FreeQueued(stacks, pid)
  {
  }

  lemma NotFreed(stacks: seq<StackState>, pid: nat, i: nat)
    requires i < |stacks| && Released(stacks[i], pid) == stacks[i]
    ensures PartlyFreed(stacks, pid, i + 1) == PartlyFreed(stacks, pid, i)
  {
  }

  /** How many of the slots before i a trap of this process frees. */
  ghost function FreedCount(stacks: seq<StackState>, pid: nat, i: nat): nat
    requires i <= |stacks|
  {
    if i == 0 then 0
    else FreedCount(stacks, pid, i - 1) + if stacks[i - 1] != Released(stacks[i - 1], pid) then 1 else 0
  }

  /** Since memory m0, with n0 frames free, the slots before i have been freed: six frames each, and nothing but pages
      of kernel stacks has changed. */
  ghost predicate Freed(m0: Memory, n0: nat, m: Memory, n: nat, roots: seq<nat>, root: nat, stacks: seq<StackState>,
                        pid: nat, i: nat)
    requires i <= |stacks|
  {
    && n == n0 + 6 * FreedCount(stacks, pid, i) && SameTables(m0, m, root)
    && forall r: nat {:trigger Agree(m0, m, r, 1)} | r in roots && r != root :: Agree(m0, m, r, 1)
  }

  lemma FreedNothingYet(m: Memory, n: nat, roots: seq<nat>, root: nat, stacks: seq<StackState>, pid: nat)
    ensures Freed(m, n, m, n, roots, root, stacks, pid, 0)
  {
    forall r: nat | r in roots ensures Agree(m, m, r, 1) { AgreeSelf(m, r, 1); }
  }

  lemma FreedMore(m0: Memory, n0: nat, m: Memory, free: seq<FrameNo>, m': Memory, free': seq<FrameNo>, roots: seq<nat>,
                  managed: set<nat>, root: nat, stacks: seq<StackState>, pid: nat, i: nat)
    requires i < |stacks| && Freed(m0, n0, m, |free|, roots, root, stacks, pid, i)
    requires stacks[i] != Released(stacks[i], pid) && |free'| == |free| + 6 && SameTables(m, m', root)
    requires Partition(m, free, roots, managed) && root in roots && Shifted(m, free, m', free', root)
    ensures Freed(m0, n0, m', |free'|, roots, root, stacks, pid, i + 1)
  {
    SameTablesTrans(m0, m, m', root);
    forall r: nat | r in roots && r != root ensures Agree(m0, m', r, 1) {
      StackRoom.ShiftedOthers(m, free, m', free', roots, managed, root, r);
      assert Agree(m0, m, r, 1);
      StackRoom.AgreeTrans(m0, m, m', r);
    }
  }

  lemma FreedNoMore(m0: Memory, n0: nat, m: Memory, n: nat, roots: seq<nat>, root: nat, stacks: seq<StackState>,
                    pid: nat, i: nat)
    requires i < |stacks| && Freed(m0, n0, m, n, roots, root, stacks, pid, i) && stacks[i] == Released(stacks[i], pid)
    ensures Freed(m0, n0, m, n, roots, root, stacks, pid, i + 1)
  {
  }

  // ---------------------------------------------------------------- spaces left alone

  /** No byte and no table of these spaces has changed. */
  ghost predicate Spared(m: Memory, m': Memory, spaces: set<nat>) {
    forall r: nat {:trigger Agree(m, m', r, 1)} | r in spaces :: Agree(m, m', r, 1)
  }

  lemma SparedSelf(m: Memory, spaces: set<nat>)
    ensures Spared(m, m, spaces)
  {
    forall r: nat | r in spaces ensures Agree(m, m, r, 1) { AgreeSelf(m, r, 1); }
  }

  lemma SparedTrans(m: Memory, m1: Memory, m2: Memory, spaces: set<nat>)
    requires Spared(m, m1, spaces) && Spared(m1, m2, spaces)
    ensures Spared(m, m2, spaces)
  {
    forall r: nat | r in spaces ensures Agree(m, m2, r, 1) {
      assert Agree(m, m1, r, 1) && Agree(m1, m2, r, 1);
      StackRoom.AgreeTrans(m, m1, m2, r);
    }
  }

  /** Only free frames changed. */
  lemma FreeSpares(s: State, m: Memory, free: seq<FrameNo>, m': Memory, roots: seq<nat>, managed: set<nat>, root: nat)
    requires Tied(s, m, roots, root) && Partition(m, free, roots, managed) && |m'| == |m|
    requires forall g: nat | g < |m| && In(free, g) == 0 :: m'[g] == m[g]
    ensures Spared(m, m', s.spaces)
  {
    TreesKept(m, free, m', roots, managed);
    forall r: nat | r in s.spaces ensures Agree(m, m', r, 1) {
      assert SpaceTied(m, roots, r);
      var i := PlaceOf(m, free, roots, managed, r);
    }
  }

  /** Only free frames and the tree of root i changed. */
  lemma TreeSpares(s: State, m: Memory, free: seq<FrameNo>, m': Memory, roots: seq<nat>, managed: set<nat>, root: nat,
                   i: nat)
    requires Tied(s, m, roots, root) && Partition(m, free, roots, managed) && |m'| == |m| && i < |roots|
    requires forall g: nat | g < |m| && In(free, g) == 0 && PageTree.Owns(m, roots[i], 1, g) == 0 :: m'[g] == m[g]
    ensures Spared(m, m', s.spaces - {roots[i]})
  {
    forall r: nat | r in s.spaces - {roots[i]} ensures Agree(m, m', r, 1) {
      assert SpaceTied(m, roots, r);
      var j := PlaceOf(m, free, roots, managed, r);
      StackRoom.OtherAgrees(m, free, m', roots, managed, i, r);
    }
  }

  /** The kernel's own table is no user space. */
  lemma RootNotSpace(s: State, m: Memory, free: seq<FrameNo>, roots: seq<nat>, managed: set<nat>, root: nat)
    requires Tied(s, m, roots, root) && Partition(m, free, roots, managed)
    ensures root !in s.spaces && s.spaces - {root} == s.spaces
  {
    if root in s.spaces {
      assert SpaceTied(m, roots, root);
      var i := PlaceOf(m, free, roots, managed, root);
      assert false;
    }
  }

  /** The pages of kernel stacks are not in user spaces. */
  lemma RootSpares(s: State, m: Memory, free: seq<FrameNo>, m': Memory, roots: seq<nat>, managed: set<nat>, root: nat,
                   less: set<nat>)
    requires Tied(s, m, roots, root) && Partition(m, free, roots, managed)
    requires forall r: nat {:trigger Agree(m, m', r, 1)} | r in roots && r != root && r !in less :: Agree(m, m', r, 1)
    ensures Spared(m, m', s.spaces - less)
  {
    forall r: nat | r in s.spaces - less ensures Agree(m, m', r, 1) {
      assert SpaceTied(m, roots, r);
      var j := PlaceOf(m, free, roots, managed, r);
    }
  }

  // ---------------------------------------------------------------- states of the tables

  /** An exception from EL0 can arrive with context c. */
  ghost predicate Comes(s: State, c: Context) {
    s.phase == User && s.current < |s.table| && s.table[s.current].Some? && Arrives(s, c)
  }

  /** s is the state in which the handler of an exception finds the tables. */
  ghost predicate EnteredFrom(s0: State, c: Context, uart: bool, s: State) {
    Comes(s0, c) && Reached(s0) && s == Enter(s0, c, uart)
  }

  // That a run leads to a state is a long formula, which the two predicates below keep out of the way of what does not
  // need it: they say it of a state only where `Asked` names the state.
  predicate Asked(s: State) {
    true
  }

  ghost predicate Known(s: State) {
    forall x: State {:trigger Asked(x)} | Asked(x) && x == s :: Reached(x)
  }

  ghost predicate Handling(s: State) {
    forall x: State {:trigger Asked(x)} | Asked(x) && x == s ::
      exists s0: State, c: Context, uart: bool :: EnteredFrom(s0, c, uart, x)
  }

  /** The handler's work on the tables s, for this cause, ends in r; after a panic or a failed exec only the phase is
      said. */
  ghost predicate Handled(s: State, cause: Cause, r: State) {
    forall x: State {:trigger Asked(x)} | Asked(x) && x == s && x.current < |x.table| && x.table[x.current].Some? ::
      FreshRoot(x, cause) && r.phase == Handle(x, cause).phase && (Sound(r) ==> r == Handle(x, cause))
  }

  lemma KnownReached(s: State)
    ensures Known(s) <==> Reached(s)
  {
    assert Asked(s);
  }

  lemma HandlingIs(s0: State, c: Context, uart: bool, s: State)
    requires EnteredFrom(s0, c, uart, s)
    ensures Handling(s)
  {
  }

  lemma HandlingEntered(s: State)
    requires Handling(s)
    ensures Entered(s) && s.current < |s.table| && s.table[s.current].Some?
  {
    assert Asked(s);
    var s0: State, c: Context, uart: bool :| EnteredFrom(s0, c, uart, s);
    ReachedKeeps(s0);
    EnterKeeps(s0, c, uart);
  }

  lemma {:induction false} RunMore(s: State, es: seq<Event>, e: Event)
    requires s.current < |s.table| && AllowedRun(s, es) && Allowed(Run(s, es), e)
    ensures AllowedRun(s, es + [e]) && Run(s, es + [e]) == Step(Run(s, es), e)
    decreases |es|
  {
    if es == [] {
      assert ([] + [e])[1..] == [];
    } else {
      assert (es + [e])[0] == es[0] && (es + [e])[1..] == es[1..] + [e];
      RunMore(Step(s, es[0]), es[1..], e);
    }
  }

  lemma ReachedNext(s: State, e: Event)
    requires Reached(s) && s.current < |s.table| && Allowed(s, e)
    ensures Reached(Step(s, e))
  {
    var n: nat, m: Image, es: seq<Event> :| ReachedBy(n, m, es, s);
    RunMore(Boot(n, m), es, e);
    assert ReachedBy(n, m, es + [e], Step(s, e));
  }

  lemma HandledReached(s: State, cause: Cause)
    requires Handling(s) && s.current < |s.table| && s.table[s.current].Some? && FreshRoot(s, cause)
    ensures Known(Handle(s, cause))
  {
    assert Asked(s);
    var s0: State, c: Context, uart: bool :| EnteredFrom(s0, c, uart, s);
    ReachedKeeps(s0);
    EnterIs(s0, c, uart);
    var s1 := EnteredBy(s0, c, uart, cause);
    ReachedNext(s0, Trap(c, uart, cause));
    KnownReached(Handle(s, cause));
  }

  lemma SpaceInUse(s: State)
    requires Handling(s)
    ensures s.live.ttbr0 in s.spaces
  {
    HandlingEntered(s);
    OwnSpaceCounted(s);
  }

  /** The process in the handler has a space of its own among the trees. */
  lemma OwnSpace(s: State, more: State, m: Memory, free: seq<FrameNo>, roots: seq<nat>, managed: set<nat>, root: nat)
    returns (i: nat)
    requires Handling(s) && s.spaces <= more.spaces
    requires Tied(more, m, roots, root) && Partition(m, free, roots, managed)
    ensures 0 < i < |roots| && roots[i] == s.live.ttbr0 && s.live.ttbr0 != root && root in roots
    ensures s.live.ttbr0 in s.spaces && StackRoom.HasStack(m, s.live.ttbr0)
  {
    SpaceInUse(s);
    assert SpaceTied(m, roots, s.live.ttbr0);
    i := PlaceOf(m, free, roots, managed, s.live.ttbr0);
    assert roots[0] == root;
  }

  lemma ExitDone(s: State, r: State)
    requires Handling(s) && s.current < |s.table| && s.table[s.current].Some? && r == Exit(s, s.live.x0)
    ensures Handled(s, CallExit, r) && Known(r)
    ensures r.spaces == s.spaces - {s.live.ttbr0} && |r.stacks| == |s.stacks|
    ensures forall k | 0 <= k < |s.stacks| :: r.stacks[k] == Free <==> s.stacks[k] == Free
  {
    HandlingEntered(s);
    HandledReached(s, CallExit);
    ExitPlaces(s, s.live.x0);
  }

  /** The state with the space d taken, and slot k for the process to come. */
  function WithSpace(s: State, d: nat): State {
    s.(spaces := s.spaces + {d})
  }

  function WithStack(s: State, d: nat, k: nat, pid: nat): State
    requires k < |s.stacks|
  {
    s.(spaces := s.spaces + {d}, stacks := s.stacks[k := StackState.Allocated(pid)])
  }

  /** What a fork takes: the frames of a copy of the space, and those of the stack in slot k. */
  ghost function FramesToFork(m: Memory, root: nat, space: nat, k: nat): nat {
    Size(m, space, 1) + KernelStackPages.StackFrames(m, root, k)
  }

  /** A copy of a space is a space with a stack, and new. */
  lemma CopyTied(s: State, m: Memory, free: seq<FrameNo>, m': Memory, roots: seq<nat>, managed: set<nat>, root: nat,
                 space: nat, d: nat)
    requires Tied(s, m, roots, root) && Partition(m, free, roots, managed) && |m'| == |m|
    requires forall g: nat | g < |m| && g !in free :: m'[g] == m[g]
    requires StackRoom.HasStack(m, space) && CopyOf(m, space, m', d, 1) && d in free && root in roots
    ensures Tied(WithSpace(s, d), m', roots + [d], root) && d !in s.spaces
    ensures TablesOf(m', root) == TablesOf(m, root) && Spared(m, m', s.spaces)
  {
    FreeSpares(s, m, free, m', roots, managed, root);
    StackRoom.CopyHasStack(m, space, m', d);
    TiedMore(s, m, free, m', roots, managed, root, d);
    NewSpace(s, m, free, roots, managed, root, d);
    TreesKept(m, free, m', roots, managed);
    StackRoom.AgreeMaps(m, m', root);
  }

  /** The copy stays one, and the other spaces as they were, while the child's kernel stack is mapped. */
  lemma CopyLasts(m: Memory, space: nat, m1: Memory, m2: Memory, d: nat, spaces: set<nat>)
    requires CopyOf(m, space, m1, d, 1) && Spared(m, m1, spaces) && Spared(m1, m2, spaces + {d})
    ensures CopyOf(m, space, m2, d, 1) && Spared(m, m2, spaces)
  {
    assert Agree(m1, m2, d, 1);
    AgreeSelf(m, space, 1);
    CopyFrame(m, m, space, m1, m2, d, 1);
    assert Spared(m1, m2, spaces);
    SparedTrans(m, m1, m2, spaces);
  }

  lemma NewSpace(s: State, m: Memory, free: seq<FrameNo>, roots: seq<nat>, managed: set<nat>, root: nat, d: nat)
    requires Tied(s, m, roots, root) && Partition(m, free, roots, managed) && d in free
    ensures d !in s.spaces
  {
    FreshFromList(m, free, roots, managed, d);
    assert d in s.spaces ==> SpaceTied(m, roots, d);
  }

  lemma ForkDone(s: State, d: Option<nat>, frames: bool, r: State)
    requires Handling(s) && s.current < |s.table| && s.table[s.current].Some? && r == Fork(s, d, frames)
    requires d.Some? ==> d.value !in s.spaces
    ensures r.phase == ForkEnds(s, d, frames)
    ensures r.phase == User ==>
      Known(r) && frames && d.Some? && StackFrom(s.stacks, Free, 0).Some?
      && SamePlaces(WithStack(s, d.value, StackFrom(s.stacks, Free, 0).value, s.nextPid), r)
  {
    HandlingEntered(s);
    ForkKeeps(s, d, frames);
    HandledReached(s, CallFork(d, frames));
    if r.phase == User { ForkPlaces(s, d.value); }
  }

  lemma ForkEndsSo(s: State, d: Option<nat>, frames: bool)
    requires Handling(s) && s.current < |s.table| && s.table[s.current].Some?
    requires d.Some? ==> d.value !in s.spaces
    ensures Fork(s, d, frames).phase == ForkEnds(s, d, frames)
  {
    HandlingEntered(s);
    ForkKeeps(s, d, frames);
  }

  lemma ForkHandled(s: State, d: Option<nat>, frames: bool, r: State)
    requires Handling(s) && s.current < |s.table| && s.table[s.current].Some?
    requires d.Some? ==> d.value !in s.spaces
    requires r.phase == Fork(s, d, frames).phase && (!r.phase.Panic? ==> r == Fork(s, d, frames))
    ensures Handled(s, CallFork(d, frames), r) && (r.phase == User || r.phase.Panic?)
    ensures d.None? ==> r.phase.Panic?
  {
    ForkEndsSo(s, d, frames);
  }

  lemma ForkTied(s: State, d: nat, frames: bool, r: State, m: Memory, roots: seq<nat>, root: nat)
    requires Handling(s) && s.current < |s.table| && s.table[s.current].Some? && d !in s.spaces
    requires r.phase == User && r == Fork(s, Some(d), frames)
    requires var slot := StackFrom(s.stacks, Free, 0); frames ==>
      slot.Some? && Tied(WithStack(s, d, slot.value, s.nextPid), m, roots, root)
    ensures Known(r) && Tied(r, m, roots, root)
  {
    ForkDone(s, Some(d), frames, r);
    TiedAlike(WithStack(s, d, StackFrom(s.stacks, Free, 0).value, s.nextPid), r, m, roots, root);
  }

  // ---------------------------------------------------------------- exec

  /** Nothing stands against loading this file with n free frames. */
  ghost predicate CanLoad(file: seq<Byte>, n: nat) {
    && ElfImage.HasHeader(file) && ElfLoading.Loadable(file, ElfImage.Segments(file, 0))
    && ElfLoading.FramesToLoad(ElfImage.Segments(file, 0)) <= n
  }

  /** The arguments fit on the stack. */
  predicate Fitting(args: ArgumentLayout.Args) {
    |args| <= ArgumentLayout.MAX_ARGS && ArgumentLayout.Accepted(args)
  }

  /** The space of d holds the program of the file, with its stack at top. */
  ghost predicate Holding(m: Memory, d: nat, file: seq<Byte>, segs: seq<ElfImage.Segment>, top: nat) {
    && 0 < top <= USER_TOP && top == ElfImage.StackTop(ElfImage.Highest(segs))
    && ElfImage.Program(m, d, file, segs, top) && ElfImage.StackFresh(m, d, top, top)
    && forall j | 0 <= j < |segs| :: ElfImage.Safe(segs[j])
  }

  lemma HoldingKept(m: Memory, m': Memory, d: nat, file: seq<Byte>, segs: seq<ElfImage.Segment>, top: nat)
    requires Holding(m, d, file, segs, top) && Agree(m, m', d, 1)
    ensures Holding(m', d, file, segs, top)
  {
    AddressSpaces.AgreeReads(m, m', d);
    AddressSpaces.ProgramAgrees(m, m', d, file, segs, top);
  }

  /** The space of the process is exchanged for d, and slot k is its own. */
  function Swapped(s: State, d: nat, k: nat): State
    requires s.current < |s.table| && s.table[s.current].Some? && k < |s.stacks|
  {
    s.(spaces := s.spaces + {d} - {s.live.ttbr0},
       stacks := s.stacks[k := StackState.Allocated(s.table[s.current].value.pid)])
  }

  lemma ExecDone(s: State, load: Loading, r: State)
    requires Handling(s) && s.current < |s.table| && s.table[s.current].Some?
    requires load.Loaded? ==> load.image.root !in s.spaces
    requires r.phase == Exec(s, load).phase
    requires !r.phase.Panic? && r.phase != HalfChanged ==> r == Exec(s, load)
    ensures r.phase == ExecEnds(s, load)
    ensures Sound(r) ==> r == Exec(s, load) && Known(r)
  {
    HandlingEntered(s);
    ExecKeeps(s, load);
    HandledReached(s, CallExec(load));
  }

  lemma ExecEndsSo(s: State, load: Loading)
    requires Handling(s) && s.current < |s.table| && s.table[s.current].Some?
    requires load.Loaded? ==> load.image.root !in s.spaces
    ensures Exec(s, load).phase == ExecEnds(s, load)
  {
    HandlingEntered(s);
    ExecKeeps(s, load);
  }

  lemma RefusedTied(s: State, r: State, m: Memory, roots: seq<nat>, root: nat)
    requires Handling(s) && s.current < |s.table| && s.table[s.current].Some? && Tied(s, m, roots, root)
    requires r.phase == Exec(s, Loading.Refused).phase
    requires !r.phase.Panic? && r.phase != HalfChanged ==> r == Exec(s, Loading.Refused)
    ensures r.phase == User && r == Exec(s, Loading.Refused) && Known(r) && Tied(r, m, roots, root)
  {
    ExecDone(s, Loading.Refused, r);
    TiedAlike(s, r, m, roots, root);
  }

  lemma ReplacedSpaces(s: State, image: Image, k: nat, r: State, m: Memory, roots: seq<nat>, root: nat)
    requires Handling(s) && s.current < |s.table| && s.table[s.current].Some? && image.root !in s.spaces
    requires StackFrom(s.stacks, Free, 0) == Some(k) && r == Exec(s, Loading.Loaded(image, true))
    requires Tied(Swapped(s, image.root, k), m, roots, root) && s.live.ttbr0 in s.spaces
    ensures Tied(r, m, roots, root)
  {
    HandlingEntered(s);
    var used := ExecPlaces(s, image);
    SwappedLike(s, image.root, k, used, s.table[s.current].value.pid, r, m, roots, root);
  }

  lemma SwappedLike(s: State, d: nat, k: nat, used: nat, pid: nat, r: State, m: Memory, roots: seq<nat>, root: nat)
    requires s.current < |s.table| && s.table[s.current].Some? && s.table[s.current].value.pid == pid
    requires k < |s.stacks| && used < |s.stacks| && s.stacks[used] != Free && d !in s.spaces
    requires s.live.ttbr0 in s.spaces && Tied(Swapped(s, d, k), m, roots, root)
    requires r.stacks == s.stacks[used := QueuedToFree(pid)][k := StackState.Allocated(pid)]
    requires r.spaces == s.spaces - {s.live.ttbr0} + {d}
    ensures Tied(r, m, roots, root)
  {
    var t := Swapped(s, d, k);
    AgreeSelf(m, root, 1);
    SlotsAgree(m, m, root, t.stacks, r.stacks);
    assert r.spaces == t.spaces;
  }

  lemma ExecTied(s: State, image: Image, fits: bool, k: nat, r: State, m: Memory, roots: seq<nat>, root: nat)
    requires Handling(s) && s.current < |s.table| && s.table[s.current].Some? && image.root !in s.spaces
    requires r.phase == Exec(s, Loading.Loaded(image, fits)).phase
    requires !r.phase.Panic? && r.phase != HalfChanged ==> r == Exec(s, Loading.Loaded(image, fits))
    requires StackFrom(s.stacks, Free, 0) == Some(k) && Tied(Swapped(s, image.root, k), m, roots, root)
    requires s.live.ttbr0 in s.spaces
    ensures r.phase == if fits then User else HalfChanged
    ensures fits ==> r == Exec(s, Loading.Loaded(image, true)) && Known(r) && Tied(r, m, roots, root)
  {
    ExecEndsSo(s, Loading.Loaded(image, fits));
    if fits {
      ExecDone(s, Loading.Loaded(image, true), r);
      ReplacedSpaces(s, image, k, r, m, roots, root);
    }
  }

  /** A space just loaded is a space with a stack, and new. */
  lemma LoadTied(s: State, m0: Memory, free0: seq<FrameNo>, m: Memory, free: seq<FrameNo>, roots: seq<nat>,
                 managed: set<nat>, root: nat, d: nat, file: seq<Byte>, segs: seq<ElfImage.Segment>, top: nat)
    requires Tied(s, m0, roots, root) && Partition(m0, free0, roots, managed)
    requires ElfLoading.Confined(m0, free0, m, free, d) && ElfImage.StackTop(ElfImage.Highest(segs)) == top
    requires ElfImage.Program(m, d, file, segs, top) && ElfImage.StackFresh(m, d, top, top)
    requires forall j | 0 <= j < |segs| :: ElfImage.Safe(segs[j])
    ensures Tied(WithSpace(s, d), m, roots + [d], root) && d !in s.spaces && Holding(m, d, file, segs, top)
    ensures TablesOf(m, root) == TablesOf(m0, root) && Spared(m0, m, s.spaces)
  {
    FreeSpares(s, m0, free0, m, roots, managed, root);
    TreesKept(m0, free0, m, roots, managed);
    assert roots[0] == root;
    StackRoom.AgreeMaps(m0, m, root);
    ElfLoading.HighestInRange(segs);
    StackRoom.ProgramHasStack(m, d, file, segs, top);
    assert PageTree.Owns(m, d, 1, d) > 0 && In(free, d) + PageTree.Owns(m, d, 1, d) == In(free0, d);
    NewSpace(s, m0, free0, roots, managed, root, d);
    TiedMore(s, m0, free0, m, roots, managed, root, d);
  }

  // ---------------------------------------------------------------- steps and runs

  /** What a process traps into the kernel with. An exec names the file that is read for it, if the call is not refused
      before. */
  datatype Request =
    | TimerRings
    | CallsExit
    | CallsWait
    | CallsFork
    | CallsExec(file: Option<seq<Byte>>, args: ArgumentLayout.Args)
    | CallsOther(x0: nat, x1: nat)

  ghost predicate Reasonable(request: Request) {
    request.CallsExec? && request.file.Some? ==> ElfLoading.Sane(request.file.value)
  }

  /** The image starts at the entry point of the file, in a space that holds the program and the arguments. */
  ghost predicate StartsWith(m: Memory, image: Image, file: seq<Byte>, args: ArgumentLayout.Args) {
    && ElfImage.HasHeader(file) && image.entry == ElfImage.EntryPoint(file)
    && AddressSpaces.Started(m, image.root, file, ElfImage.Segments(file, 0),
                             ArgumentPassing.Pushed(image.argc, image.argSp, image.stackTop), args)
  }

  /** A program starts with registers c: at the entry point of the file, with the number of its arguments in x0, and in
      x1, where its stack pointer is, what it reads them from; x2 is where its stack begins, and all else is zero. Its
      own space holds the program, and on the stack nothing but the arguments. */
  ghost predicate AtBeginning(m: Memory, c: Context, file: seq<Byte>, args: ArgumentLayout.Args) {
    && ElfImage.HasHeader(file) && c.elr == ElfImage.EntryPoint(file)
    && c.x0 == |args| && c.x1 == c.spEl0
    && (forall i: nat | i < |args| ::
          ArgumentLayout.ParseArg(ArgumentPassing.LoadsOf(m, c.ttbr0), c.x1, c.x2, i) == Some(args[i]))
    && c.spsr == 0 && |c.rest| == 28 && (forall j | 0 <= j < |c.rest| :: c.rest[j] == 0)
    && c.x2 == ElfImage.StackTop(ElfImage.Highest(ElfImage.Segments(file, 0)))
    && ElfImage.Program(m, c.ttbr0, file, ElfImage.Segments(file, 0), c.x2)
    && ElfImage.StackFresh(m, c.ttbr0, c.spEl0, c.x2)
  }

  lemma ImageBegins(m: Memory, c: Context, image: Image, file: seq<Byte>, args: ArgumentLayout.Args)
    requires StartsAt(c, image) && StartsWith(m, image, file, args)
    ensures AtBeginning(m, c, file, args)
  {
  }

  /** The registers after an exec are those of its image. */
  lemma ExecStartsAt(s: State, image: Image, r: State)
    requires Handling(s) && s.current < |s.table| && s.table[s.current].Some?
    requires r == Exec(s, Loading.Loaded(image, true)) && r.phase == User
    ensures StartsAt(r.live, image)
  {
    HandlingEntered(s);
    ExecRenews(s, image, r);
  }

  /** What a fork finds with memory m and n frames free: a copy of the space exactly when they suffice for it, and the
      frames of a stack exactly when they suffice for both. */
  ghost predicate ForkWarranted(copied: bool, frames: bool, s: State, m: Memory, n: nat, root: nat) {
    var slot := StackFrom(s.stacks, Free, 0);
    && (copied <==> Size(m, s.live.ttbr0, 1) <= n)
    && (copied && slot.Some? ==> (frames <==> FramesToFork(m, root, s.live.ttbr0, slot.value) <= n))
  }

  /** The file is no program: it has no header, or no segment to load. */
  ghost predicate NoProgram(file: seq<Byte>, n: nat) {
    !ElfImage.HasHeader(file) || (ElfImage.Segments(file, 0) == [] && n > 0)
  }

  /** What an exec makes of its file and arguments, with n frames free: no kernel stack is asked of them. */
  ghost predicate ExecWarranted(load: Loading, file: Option<seq<Byte>>, args: ArgumentLayout.Args, s: State, n: nat) {
    && (load.Refused? <==> file.None? || NoProgram(file.value, n))
    && (load.Loaded? <==> file.Some? && CanLoad(file.value, n))
    && (load.WritesPastFrame? ==> file.Some? && PastFrame(file.value))
    && (load.Loaded? ==> (load.argsFit <==> StackFrom(s.stacks, Free, 0).Some? && Fitting(args)))
  }

  /** Some segment of the file makes the loader write past a frame. */
  ghost predicate PastFrame(file: seq<Byte>) {
    ElfImage.HasHeader(file) && ElfLoading.SomeUnsafe(ElfImage.Segments(file, 0))
  }

  /** The cause of the model is what the request comes to, on tables s, with memory m and n frames free. */
  ghost predicate Warranted(request: Request, cause: Cause, s: State, m: Memory, n: nat, root: nat) {
    match request
    case TimerRings => cause == Timer
    case CallsExit => cause == CallExit
    case CallsWait => cause == CallWait
    case CallsFork => cause.CallFork? && ForkWarranted(cause.root.Some?, cause.frames, s, m, n, root)
    case CallsExec(file, args) => cause.CallExec? && ExecWarranted(cause.load, file, args, s, n)
    case CallsOther(x0, x1) => cause == Other(x0, x1)
  }

  /** The same of the memory before the stacks queued by others were freed. */
  lemma WarrantedBefore(request: Request, cause: Cause, s: State, m0: Memory, n0: nat, m: Memory, n: nat,
                        roots: seq<nat>, root: nat, stacks: seq<StackState>, pid: nat)
    requires Warranted(request, cause, s, m, n, root) && Freed(m0, n0, m, n, roots, root, stacks, pid, |stacks|)
    requires s.live.ttbr0 in roots && s.live.ttbr0 != root
    ensures Warranted(request, cause, s, m0, n0 + 6 * FreedCount(stacks, pid, |stacks|), root)
  {
    assert Agree(m0, m, s.live.ttbr0, 1);
    SizeFrame(m0, m, s.live.ttbr0, 1);
    forall q | IsTablePath(q) ensures LeafAt(m, root, q) == LeafAt(m0, root, q) {}
    assert TablesOf(m, root) == TablesOf(m0, root);
  }

  /** What a request that is served does to memory: the spaces of others are left alone; so is the process's own, unless
      it exits or is given a new one; a child's space is a copy of its parent's; a new image holds the program and the
      arguments, and the process is at its beginning. */
  ghost predicate Served(request: Request, cause: Cause, s: State, m: Memory, r: State, m': Memory) {
    match cause
    case CallExit => Spared(m, m', s.spaces - {s.live.ttbr0})
    case CallFork(d, _) => d.Some? && Spared(m, m', s.spaces) && CopyOf(m, s.live.ttbr0, m', d.value, 1)
    case CallExec(load) =>
      if load.Loaded? then
        && Spared(m, m', s.spaces - {s.live.ttbr0})
        && request.CallsExec? && request.file.Some? && StartsWith(m', load.image, request.file.value, request.args)
        && AtBeginning(m', r.live, request.file.value, request.args)
      else Spared(m, m', s.spaces)
    case _ => Spared(m, m', s.spaces)
  }

  /** The whole answer to a request, on tables s, memory m and n free frames: the model's step for what the request
      comes to, and what that does to memory. */
  ghost predicate Answered(request: Request, cause: Cause, s: State, m: Memory, n: nat, root: nat, r: State,
                           m': Memory) {
    && Handled(s, cause, r) && Warranted(request, cause, s, m, n, root)
    && (Sound(r) ==> Served(request, cause, s, m, r, m'))
  }

  lemma LoadedAnswered(file: seq<Byte>, args: ArgumentLayout.Args, load: Loading, s: State, m: Memory, n: nat,
                       m1: Memory, root: nat, r: State, m': Memory)
    requires Handled(s, CallExec(load), r) && load.Loaded? && CanLoad(file, n) && Spared(m, m1, s.spaces)
    requires load.argsFit <==> StackFrom(s.stacks, Free, 0).Some? && Fitting(args)
    requires load.argsFit ==> StartsWith(m', load.image, file, args) && Spared(m1, m', s.spaces - {s.live.ttbr0})
    requires load.argsFit ==> StartsAt(r.live, load.image)
    requires r.phase == if load.argsFit then User else HalfChanged
    ensures Answered(CallsExec(Some(file), args), CallExec(load), s, m, n, root, r, m')
  {
    if load.argsFit {
      SparedTrans(m, m1, m', s.spaces - {s.live.ttbr0});
      ImageBegins(m', r.live, load.image, file, args);
    }
  }

  lemma NotLoadedAnswered(file: seq<Byte>, args: ArgumentLayout.Args, load: Loading, s: State, m: Memory, n: nat,
                          root: nat, r: State, m': Memory)
    requires Handled(s, CallExec(load), r) && !load.Loaded? && !CanLoad(file, n)
    requires load.Refused? <==> NoProgram(file, n)
    requires load.WritesPastFrame? ==> PastFrame(file)
    requires Sound(r) ==> Spared(m, m', s.spaces)
    ensures Answered(CallsExec(Some(file), args), CallExec(load), s, m, n, root, r, m')
  {
  }

  /** The same from the memory before the stacks queued by others were freed. */
  lemma ServedBefore(request: Request, cause: Cause, s: State, m0: Memory, n0: nat, m: Memory, n: nat, r: State,
                     m': Memory, free: seq<FrameNo>, roots: seq<nat>, managed: set<nat>, root: nat,
                     stacks: seq<StackState>, pid: nat)
    requires Served(request, cause, s, m, r, m') && Freed(m0, n0, m, n, roots, root, stacks, pid, |stacks|)
    requires Tied(s, m, roots, root) && Partition(m, free, roots, managed) && s.live.ttbr0 in s.spaces
    ensures Served(request, cause, s, m0, r, m')
  {
    forall r: nat | r in s.spaces ensures Agree(m0, m, r, 1) {
      assert SpaceTied(m, roots, r);
      var j := PlaceOf(m, free, roots, managed, r);
    }
    assert Spared(m0, m, s.spaces) && Spared(m0, m, s.spaces - {s.live.ttbr0});
    match cause
    case CallExit => SparedTrans(m0, m, m', s.spaces - {s.live.ttbr0});
    case CallFork(d, _) =>
      SparedTrans(m0, m, m', s.spaces);
      assert Agree(m0, m, s.live.ttbr0, 1);
      AgreeSelf(m', d.value, 1);
      CopyFrame(m0, m, s.live.ttbr0, m', m', d.value, 1);
    case CallExec(load) =>
      if load.Loaded? {
        SparedTrans(m0, m, m', s.spaces - {s.live.ttbr0});
      } else {
        SparedTrans(m0, m, m', s.spaces);
      }
    case _ => SparedTrans(m0, m, m', s.spaces);
  }

  /** Event e, which may happen, leads from s to r. */
  ghost predicate Follows(s: State, e: Event, r: State) {
    forall x: State {:trigger Asked(x)} | Asked(x) && x == s && x.current < |x.table| ::
      Allowed(x, e) && r.phase == Step(x, e).phase && (Sound(r) ==> r == Step(x, e))
  }

  /** How an exec ends whose arguments are only said to fit when there is a stack for them. */
  function Outcome(load: Loading): Phase {
    match load
    case Refused => User
    case LoadPanics => Panic(LoadPanicked)
    case WritesPastFrame => Overrun
    case Loaded(_, argsFit) => if argsFit then User else HalfChanged
  }

  lemma ExecHandled(s: State, load: Loading, r: State)
    requires Handling(s) && s.current < |s.table| && s.table[s.current].Some?
    requires load.Loaded? ==> load.image.root !in s.spaces && (load.argsFit ==> StackFrom(s.stacks, Free, 0).Some?)
    requires r.phase == Outcome(load) && (r.phase == User ==> r == Exec(s, load))
    ensures Handled(s, CallExec(load), r)
  {
    ExecEndsSo(s, load);
  }

  lemma QuietHandled(s: State, cause: Cause, r: State, m: Memory, roots: seq<nat>, root: nat)
    requires Handling(s) && s.current < |s.table| && s.table[s.current].Some? && Tied(s, m, roots, root)
    requires (cause.Timer? || cause.CallWait? || cause.Other?) && r == Handle(s, cause)
    ensures Handled(s, cause, r) && Known(r) && Tied(r, m, roots, root)
  {
    HandledReached(s, cause);
    match cause
    case Timer => TickPlaces(s);
    case CallWait => WaitPlaces(s, s.live.x0);
    case Other(_, _) =>
    TiedAlike(s, r, m, roots, root);
  }

  lemma TrapFollows(s: State, c: Context, uart: bool, s1: State, cause: Cause, r: State)
    requires Known(s) && Comes(s, c) && s1 == Enter(s, c, uart) && Handled(s1, cause, r)
    ensures Follows(s, Trap(c, uart, cause), r)
  {
    KnownReached(s);
    ReachedKeeps(s);
    EnterIs(s, c, uart);
    EnterPlaces(s, c, uart);
    assert Asked(s1);
    assert FreshRoot(s, cause);
    var s2 := EnteredBy(s, c, uart, cause);
  }

  lemma QuietFollows(s: State, e: Event, r: State, m: Memory, roots: seq<nat>, root: nat)
    requires Known(s) && s.current < |s.table| && Allowed(s, e) && !(s.phase == User && e.Trap?) && r == Step(s, e)
    requires Tied(s, m, roots, root)
    ensures Follows(s, e, r) && Known(r) && Tied(r, m, roots, root)
  {
    KnownReached(s);
    ReachedNext(s, e);
    KnownReached(r);
    QuietPlaces(s, e);
    TiedAlike(s, r, m, roots, root);
  }

  lemma RunningNow(s: State)
    requires Known(s) && s.phase == User
    ensures s.current < |s.table| && s.table[s.current].Some? && s.table[s.current].value.state == Running
    ensures ActiveStack(s.stacks, s.table[s.current].value.pid).Some?
  {
    KnownReached(s);
    ReachedKeeps(s);
    assert HasState(s.table, s.current, Running);
    var k: nat :| LifecycleInvariant.Owns(s.stacks, k, s.table[s.current].value.pid) && InStack(k, s.live.spEl1);
  }

  /** What comes next: an exception from EL0 with these registers, a sleep or a wakeup inside the kernel, or a turn of
      the idle loop. `at` says where in its kernel stack the process is, when that is not left over from the last
      return to EL0. */
  datatype Input =
    | Interrupt(regs: Context, at: nat, uart: bool, request: Request)
    | Sleeps(regs: Context, at: nat, uart: bool, chan: nat, reason: BlockReason)
    | Wakes(chan: nat)
    | Turns(uart: bool)

  ghost predicate Possible(i: Input) {
    match i
    case Interrupt(_, _, _, request) => Reasonable(request)
    case Sleeps(_, _, _, chan, reason) => chan != 0 && reason != WaitingForChild
    case Wakes(chan) => chan != 0
    case Turns(_) => true
  }

  /** The registers with what the hardware keeps: the space, the mode, and the kernel stack pointer. */
  function Arriving(regs: Context, live: Context, slot: nat, at: nat, el0: bool): Context {
    var sp := if el0 && InUserMode(live) then live.spEl1 else StackStart(slot) + 1 + at % KERNEL_STACK_SIZE;
    regs.(ttbr0 := live.ttbr0, spsr := regs.spsr - regs.spsr % 16 + (if el0 then 0 else 5), spEl1 := sp)
  }

  lemma ArrivingRight(s: State, regs: Context, slot: nat, at: nat, el0: bool)
    requires Known(s) && s.phase == User && s.current < |s.table| && s.table[s.current].Some?
    requires ActiveStack(s.stacks, s.table[s.current].value.pid) == Some(slot)
    ensures var c := Arriving(regs, s.live, slot, at, el0);
      if el0 then Comes(s, c) else c.ttbr0 == s.live.ttbr0 && !InUserMode(c) && OnOwnStack(s, c.spEl1)
  {
    var c := Arriving(regs, s.live, slot, at, el0);
    assert LifecycleInvariant.Owns(s.stacks, slot, s.table[s.current].value.pid);
    assert InStack(slot, StackStart(slot) + 1 + at % KERNEL_STACK_SIZE);
    if el0 { assert (regs.spsr - regs.spsr % 16) % 16 == 0; }
  }

  /** The slot of the kernel stack of the current process. */
  function OwnSlot(s: State): nat {
    if s.current < |s.table| && s.table[s.current].Some? then
      var k := ActiveStack(s.stacks, s.table[s.current].value.pid);
      if k.Some? then k.value else 0
    else 0
  }

  /** Can this come now? A turn of the idle loop when the kernel is idle, the others when a process is in control. */
  predicate Timely(i: Input, s: State) {
    if i.Turns? then s.phase == Idle else s.phase == User
  }

  predicate SameCall(request: Request, cause: Cause) {
    match request
    case TimerRings => cause == Timer
    case CallsExit => cause == CallExit
    case CallsWait => cause == CallWait
    case CallsFork => cause.CallFork?
    case CallsExec(_, _) => cause.CallExec?
    case CallsOther(x0, x1) => cause == Other(x0, x1)
  }

  /** Event e is input i on tables s. */
  predicate Corresponds(i: Input, s: State, e: Event) {
    match i
    case Interrupt(regs, at, uart, request) =>
      e.Trap? && e.c == Arriving(regs, s.live, OwnSlot(s), at, true) && e.uart == uart && SameCall(request, e.cause)
    case Sleeps(regs, at, uart, chan, reason) =>
      e == KernelSleep(Arriving(regs, s.live, OwnSlot(s), at, false), uart, chan, reason)
    case Wakes(chan) => e == KernelWake(chan)
    case Turns(uart) => e == Spin(uart)
  }

  /** es are the inputs, one after the other, those that do not fit passed over, up to a panic or a failed exec. */
  ghost predicate Traces(s: State, inputs: seq<Input>, es: seq<Event>)
    requires s.current < |s.table|
    decreases |inputs|
  {
    if inputs == [] || !Sound(s) then es == []
    else if !Timely(inputs[0], s) then Traces(s, inputs[1..], es)
    else es != [] && Corresponds(inputs[0], s, es[0]) && Traces(Step(s, es[0]), inputs[1..], es[1..])
  }

  lemma {:induction false} TracesPassed(s: State, inputs: seq<Input>, es: seq<Event>, i: Input)
    requires s.current < |s.table| && Traces(s, inputs, es) && (!Sound(Run(s, es)) || !Timely(i, Run(s, es)))
    ensures Traces(s, inputs + [i], es)
    decreases |inputs|
  {
    var more := inputs + [i];
    if inputs == [] {
      assert more[1..] == [];
    } else if Sound(s) {
      assert more[0] == inputs[0] && more[1..] == inputs[1..] + [i];
      if !Timely(inputs[0], s) {
        TracesPassed(s, inputs[1..], es, i);
      } else {
        TracesPassed(Step(s, es[0]), inputs[1..], es[1..], i);
      }
    }
  }

  lemma {:induction false} TracesTaken(s: State, inputs: seq<Input>, es: seq<Event>, i: Input, e: Event)
    requires s.current < |s.table| && Traces(s, inputs, es)
    requires Sound(Run(s, es)) && Timely(i, Run(s, es)) && Corresponds(i, Run(s, es), e)
    ensures Traces(s, inputs + [i], es + [e])
    decreases |inputs|
  {
    var more, now := inputs + [i], es + [e];
    if inputs == [] {
      assert more[1..] == [] && now[1..] == [];
    } else {
      assert Sound(s);
      assert more[0] == inputs[0] && more[1..] == inputs[1..] + [i];
      if !Timely(inputs[0], s) {
        TracesTaken(s, inputs[1..], es, i, e);
      } else {
        assert now[0] == es[0] && now[1..] == es[1..] + [e];
        TracesTaken(Step(s, es[0]), inputs[1..], es[1..], i, e);
      }
    }
  }

  /** The events es are what the inputs come to on tables s, and lead from s to r. */
  ghost predicate Leads(s: State, inputs: seq<Input>, es: seq<Event>, r: State) {
    forall x: State {:trigger Asked(x)} | Asked(x) && x == s && x.current < |x.table| ::
      && AllowedRun(x, es) && Traces(x, inputs, es)
      && r.phase == Run(x, es).phase && (Sound(r) ==> r == Run(x, es))
  }

  lemma LeadsNext(s: State, inputs: seq<Input>, es: seq<Event>, s1: State, i: Input, e: Event, r: State)
    requires s.current < |s.table| && Leads(s, inputs, es, s1) && Sound(s1) && Follows(s1, e, r)
    requires Timely(i, s1) && Corresponds(i, s1, e)
    ensures Leads(s, inputs + [i], es + [e], r)
  {
    assert Asked(s) && Asked(s1);
    RunMore(s, es, e);
    TracesTaken(s, inputs, es, i, e);
  }

  lemma LeadsOn(s: State, inputs: seq<Input>, es: seq<Event>, r: State, i: Input)
    requires s.current < |s.table| && Leads(s, inputs, es, r) && (!Sound(r) || !Timely(i, r))
    ensures Leads(s, inputs + [i], es, r)
  {
    assert Asked(s);
    TracesPassed(s, inputs, es, i);
  }

  lemma LeadsIs(s: State, inputs: seq<Input>, es: seq<Event>, r: State)
    requires s.current < |s.table| && Leads(s, inputs, es, r)
    ensures AllowedRun(s, es) && Traces(s, inputs, es)
    ensures r.phase == Run(s, es).phase && (Sound(r) ==> r == Run(s, es))
  {
    assert Asked(s);
  }
}
