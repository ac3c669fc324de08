/** The whole kernel: its tables and physical memory together, changed by the same calls. What `Lifecycle` is told about
    memory, the new L1 tables and whether frames suffice, is here what the page allocator does. */
module Machines {
  import opened Words
  import opened Bytes
  import opened PageTree
  import opened TreeLoops
  import opened TreeCopy
  import opened FrameCounts
  import opened Lifecycle
  import opened LifecycleInvariant
  import opened LifecycleSteps
  import opened LifecycleRuns
  import opened LifecyclePlaces
  import opened LifecycleAnswers
  import opened KernelTables
  import opened PlacesInMemory
  import opened MachineStates
  import ElfImage
  import ElfLoading
  import ArgumentLayout
  import ArgumentPassing
  import AddressSpaces
  import KernelStackPages
  import StackRoom
  import PageAllocation

  method WriteArguments(pages: PageAllocation.PageAllocator, root: nat, d: nat, top: nat, args: ArgumentLayout.Args,
                        ghost file: seq<Byte>, ghost segs: seq<ElfImage.Segment>, ghost s: State)
    returns (pushed: ArgumentPassing.PushResult)
    requires pages.Valid() && d in s.spaces && Tied(s, pages.Mem(), pages.roots, root)
    requires Holding(pages.Mem(), d, file, segs, top)
    modifies pages.ram
    ensures pages.Valid() && Tied(s, pages.Mem(), pages.roots, root)
    ensures pushed.Pushed? <==> Fitting(args)
    ensures pushed.Pushed? ==> AddressSpaces.Started(pages.Mem(), d, file, segs, pushed, args)
    ensures Spared(old(pages.Mem()), pages.Mem(), s.spaces - {d})
  {
    ghost var m := pages.Mem();
    assert SpaceTied(m, pages.roots, d);
    ghost var j := PlaceOf(m, pages.free, pages.roots, pages.managed, d);
    pushed := AddressSpaces.StartArguments(pages, d, top, args, file, segs);
    TiedWritten(s, m, pages.free, pages.Mem(), pages.roots, pages.managed, root, j);
    TreeSpares(s, m, pages.free, pages.Mem(), pages.roots, pages.managed, root, j);
  }

  /** The file is in a new space, of which the tables s do not know yet. */
  ghost predicate LoadedNew(s: State, got: ElfLoading.LoadResult, m: Memory, roots: seq<nat>, root: nat,
                            file: seq<Byte>)
    requires got.Loaded?
  {
    && Tied(WithSpace(s, got.root), m, roots, root) && got.root !in s.spaces
    && ElfImage.HasHeader(file) && got.entry == ElfImage.EntryPoint(file)
    && Holding(m, got.root, file, ElfImage.Segments(file, 0), got.top)
  }

  /** `load_elf`, beside the spaces in use. */
  method LoadNew(pages: PageAllocation.PageAllocator, root: nat, file: seq<Byte>, ghost s: State)
    returns (got: ElfLoading.LoadResult)
    requires pages.Valid() && Tied(s, pages.Mem(), pages.roots, root) && ElfLoading.Sane(file)
    modifies pages.ram, pages`head, pages`count, pages`free, pages`roots
    ensures pages.Valid() && (got.Loaded? <==> CanLoad(file, |old(pages.free)|))
    ensures got.Loaded? ==>
      && LoadedNew(s, got, pages.Mem(), pages.roots, root, file)
      && TablesOf(pages.Mem(), root) == TablesOf(old(pages.Mem()), root)
      && |old(pages.free)| == |pages.free| + ElfLoading.FramesToLoad(ElfImage.Segments(file, 0))
    ensures got.BadHeader? || got.NoSegments? <==> NoProgram(file, |old(pages.free)|)
    ensures got.BadHeader? || got.NoSegments? ==> Tied(s, pages.Mem(), pages.roots, root)
    ensures !got.Panicked? ==> Spared(old(pages.Mem()), pages.Mem(), s.spaces)
    ensures got.Panicked? && got.why == ElfLoading.PastFrame ==> PastFrame(file)
  {
    ghost var m, free, roots := pages.Mem(), pages.free, pages.roots;
    got := ElfLoading.LoadElf(pages, file);
    match got
    case Loaded(entry, top, d) =>
      LoadTied(s, m, free, pages.Mem(), pages.free, roots, pages.managed, root, d, file, ElfImage.Segments(file, 0),
               top);
    case NoSegments(d) =>
      TiedAbandoned(s, m, free, pages.Mem(), roots, pages.managed, root, [d]);
      FreeSpares(s, m, free, pages.Mem(), roots, pages.managed, root);
    case _ => SparedSelf(m, s.spaces);
  }

  /** The kernel stack of a process to come, whose space is d, if there is a free slot. */
  method MapNewStack(pages: PageAllocation.PageAllocator, root: nat, slot: Option<nat>, ghost s: State, ghost d: nat)
    returns (ok: bool)
    requires pages.Valid() && (slot.Some? ==> slot.value < |s.stacks| && s.stacks[slot.value] == Free)
    requires Tied(WithSpace(s, d), pages.Mem(), pages.roots, root)
    modifies pages.ram, pages`head, pages`count, pages`free
    ensures pages.Valid() && Spared(old(pages.Mem()), pages.Mem(), s.spaces + {d})
    ensures ok ==> slot.Some?
    ensures slot.Some? ==>
      (ok <==> KernelStackPages.StackFrames(old(pages.Mem()), root, slot.value) <= |old(pages.free)|)
    ensures ok ==> Tied(WithStack(s, d, slot.value, s.nextPid), pages.Mem(), pages.roots, root)
  {
    SparedSelf(pages.Mem(), s.spaces + {d});
    if slot.None? { return false; }
    ghost var m, free, k := pages.Mem(), pages.free, slot.value;
    assert SlotTied(m, root, s.stacks, k);
    var r := KernelStackPages.MapStack(pages, root, slot.value);
    assert pages.roots[0] == root;
    TreeSpares(WithSpace(s, d), m, free, pages.Mem(), pages.roots, pages.managed, root, 0);
    RootNotSpace(WithSpace(s, d), m, free, pages.roots, pages.managed, root);
    ok := r.Mapped?;
    if ok {
      TiedSlot(WithSpace(s, d), m, free, pages.Mem(), pages.free, pages.roots, pages.managed, root, k,
               StackState.Allocated(s.nextPid));
    }
  }

  class Machine {
    const kernel: Kernel
    const pages: PageAllocation.PageAllocator

    // The frame of the kernel's own L1 table.
    const root: nat

    constructor (k: Kernel, p: PageAllocation.PageAllocator, r: nat)
      ensures kernel == k && pages == p && root == r
    {
      kernel, pages, root := k, p, r;
    }

    ghost function View(): State
      reads kernel, kernel.table, kernel.stacks
    {
      kernel.View()
    }

    ghost predicate Valid()
      reads kernel, kernel.table, kernel.stacks, pages, pages.ram
    {
      && kernel.Valid() && pages.Valid()
      && (Sound(View()) ==> Known(View()) && Tied(View(), pages.Mem(), pages.roots, root))
    }

    /** In the handler of an exception from EL0. */
    ghost predicate InHandler()
      reads kernel, kernel.table, kernel.stacks, pages, pages.ram
    {
      && kernel.Valid() && pages.Valid() && Handling(View()) && kernel.table[kernel.current].Some?
      && Tied(View(), pages.Mem(), pages.roots, root)
    }

    // -------------------------------------------------------------- entering

    /** The pages of slot i, if another process queued it. */
    method ReleaseSlot(i: nat, ghost s: State, ghost m0: Memory, ghost n0: nat)
      requires kernel.Valid() && kernel.table[kernel.current].Some? && s == View() && i < |s.stacks| && pages.Valid()
      requires var pid := s.table[s.current].value.pid;
        && Tied(s.(stacks := PartlyFreed(s.stacks, pid, i)), pages.Mem(), pages.roots, root)
        && Freed(m0, n0, pages.Mem(), |pages.free|, pages.roots, root, s.stacks, pid, i)
      modifies pages.ram, pages`head, pages`count, pages`free
      ensures pages.Valid()
      ensures var pid := s.table[s.current].value.pid;
        && Tied(s.(stacks := PartlyFreed(s.stacks, pid, i + 1)), pages.Mem(), pages.roots, root)
        && Freed(m0, n0, pages.Mem(), |pages.free|, pages.roots, root, s.stacks, pid, i + 1)
    {
      var pid := kernel.table[kernel.current].value.pid;
      ghost var now := PartlyFreed(s.stacks, pid, i);
      ghost var m, free := pages.Mem(), pages.free;
      FreedNext(s.stacks, pid, i);
      if kernel.stacks[i].QueuedToFree? && kernel.stacks[i].pid != pid {
        assert SlotTied(m, root, now, i);
        KernelStackPages.UnmapStack(pages, root, i);
        TiedSlot(s.(stacks := now), m, free, pages.Mem(), pages.free, pages.roots, pages.managed, root, i, Free);
        FreedMore(m0, n0, m, free, pages.Mem(), pages.free, pages.roots, pages.managed, root, s.stacks, pid, i);
      } else {
        NotFreed(s.stacks, pid, i);
        FreedNoMore(m0, n0, m, |free|, pages.roots, root, s.stacks, pid, i);
      }
    }

    /** `free_queued_stacks`, in memory. */
    method ReleaseStacks()
      requires kernel.Valid() && kernel.table[kernel.current].Some? && pages.Valid()
      requires Tied(View(), pages.Mem(), pages.roots, root)
      modifies pages.ram, pages`head, pages`count, pages`free
      ensures pages.Valid()
      ensures var s := View(); var pid := s.table[s.current].value.pid;
        && Tied(s.(stacks := FreeQueued(s.stacks, pid)), pages.Mem(), pages.roots, root)
        && Freed(old(pages.Mem()), |old(pages.free)|, pages.Mem(), |pages.free|, pages.roots, root, s.stacks, pid,
                 |s.stacks|)
    {
      ghost var s, pid := View(), kernel.table[kernel.current].value.pid;
      FreedEnds(s.stacks, pid);
      FreedNothingYet(pages.Mem(), |pages.free|, pages.roots, root, s.stacks, pid);
      ReleaseAll(s, pid, pages.Mem(), |pages.free|);
    }

    /** The loop over the slots. */
    method ReleaseAll(ghost s: State, ghost pid: nat, ghost m0: Memory, ghost n0: nat)
      requires kernel.Valid() && kernel.table[kernel.current].Some? && s == View() && pages.Valid()
      requires pid == kernel.table[kernel.current].value.pid
      requires Tied(s.(stacks := PartlyFreed(s.stacks, pid, 0)), pages.Mem(), pages.roots, root)
      requires Freed(m0, n0, pages.Mem(), |pages.free|, pages.roots, root, s.stacks, pid, 0)
      modifies pages.ram, pages`head, pages`count, pages`free
      ensures pages.Valid()
      ensures Tied(s.(stacks := PartlyFreed(s.stacks, pid, |s.stacks|)), pages.Mem(), pages.roots, root)
      ensures Freed(m0, n0, pages.Mem(), |pages.free|, pages.roots, root, s.stacks, pid, |s.stacks|)
    {
      var i := 0;
      while i < kernel.stacks.Length
        invariant 0 <= i <= kernel.stacks.Length && pages.Valid()
        invariant Tied(s.(stacks := PartlyFreed(s.stacks, pid, i)), pages.Mem(), pages.roots, root)
        invariant Freed(m0, n0, pages.Mem(), |pages.free|, pages.roots, root, s.stacks, pid, i)
      {
        ReleaseSlot(i, s, m0, n0);
        i := i + 1;
      }
    }

    /** The entry from EL0: the stacks queued by others are unmapped and free, and the context is saved. */
    method EnterFromUser(c: Context, uart: bool)
      requires Valid() && Comes(View(), c)
      modifies kernel, kernel.table, kernel.stacks, pages.ram, pages`head, pages`count, pages`free
      ensures InHandler() && View() == Enter(old(View()), c, uart)
      ensures var s := old(View()); var pid := s.table[s.current].value.pid;
        Freed(old(pages.Mem()), |old(pages.free)|, pages.Mem(), |pages.free|, pages.roots, root, s.stacks, pid,
              |s.stacks|)
    {
      ghost var s := View();
      ReleaseStacks();
      kernel.EnterFromUser(c, uart);
      EnterPlaces(s, c, uart);
      KnownReached(s);
      HandlingIs(s, c, uart, View());
      ghost var pid := s.table[s.current].value.pid;
      TiedAlike(s.(stacks := FreeQueued(s.stacks, pid)), View(), pages.Mem(), pages.roots, root);
    }

    // -------------------------------------------------------------- exit

    /** `sys_exit`: the space of the process goes back to the free list. */
    method SysExit()
      requires InHandler()
      modifies kernel, kernel.table, kernel.stacks, pages.ram, pages`head, pages`count, pages`free, pages`roots
      ensures Valid()
      ensures Answered(CallsExit, CallExit, old(View()), old(pages.Mem()), |old(pages.free)|, root, View(), pages.Mem())
      ensures |pages.free| == |old(pages.free)| + old(Size(pages.Mem(), kernel.live.ttbr0, 1))
    {
      ghost var s, m, free, roots := View(), pages.Mem(), pages.free, pages.roots;
      ghost var i := OwnSpace(s, s, m, free, roots, pages.managed, root);
      pages.FreePageTable(kernel.live.ttbr0, i);
      TreeSpares(s, m, free, pages.Mem(), roots, pages.managed, root, i);
      kernel.SysExit();
      ExitDone(s, View());
      TiedLess(s, View(), m, free, pages.Mem(), roots, pages.managed, root, i);
    }

    // -------------------------------------------------------------- fork

    /** `sys_fork`: the space is copied exactly when there are frames for it, and the stack mapped exactly when there
        are frames for both. */
    method SysFork() returns (ghost copied: Option<nat>, ghost frames: bool)
      requires InHandler()
      modifies kernel, kernel.table, kernel.stacks, pages.ram, pages`head, pages`count, pages`free, pages`roots
      ensures Valid()
      ensures Answered(CallsFork, CallFork(copied, frames), old(View()), old(pages.Mem()), |old(pages.free)|, root,
                       View(), pages.Mem())
    {
      ghost var s, m, free, roots := View(), pages.Mem(), pages.free, pages.roots;
      ghost var i := OwnSpace(s, s, m, free, roots, pages.managed, root);
      var copy := pages.DuplicateVaSpace(kernel.live.ttbr0);
      copied, frames := copy, false;
      if copy.None? {
        kernel.SysFork(None, false);
        ForkHandled(s, None, false, View());
        return;
      }
      ghost var d := copy.value;
      assert PageTree.Owns(pages.Mem(), d, 1, d) > 0;
      CopyTied(s, m, free, pages.Mem(), roots, pages.managed, root, kernel.live.ttbr0, d);
      ghost var m1 := pages.Mem();
      frames := ForkCopied(copy.value);
      CopyLasts(m, s.live.ttbr0, m1, pages.Mem(), d, s.spaces);
    }

    /** The rest of `sys_fork`, with the copy in place. */
    method ForkCopied(d: nat) returns (ghost frames: bool)
      requires kernel.Valid() && pages.Valid() && Handling(View()) && kernel.table[kernel.current].Some?
      requires Tied(WithSpace(View(), d), pages.Mem(), pages.roots, root) && d !in kernel.spaces
      modifies kernel, kernel.table, kernel.stacks, pages.ram, pages`head, pages`count, pages`free
      ensures Valid() && Handled(old(View()), CallFork(Some(d), frames), View())
      ensures var slot := StackFrom(old(kernel.stacks[..]), Free, 0); slot.Some? ==>
        (frames <==> KernelStackPages.StackFrames(old(pages.Mem()), root, slot.value) <= |old(pages.free)|)
      ensures Spared(old(pages.Mem()), pages.Mem(), old(kernel.spaces) + {d})
    {
      ghost var s := View();
      var slot := kernel.FirstFreeStack();
      var ok := MapNewStack(pages, root, slot, s, d);
      frames := ok;
      kernel.SysFork(Some(d), ok);
      ForkHandled(s, Some(d), frames, View());
      if kernel.phase == User { ForkTied(s, d, frames, View(), pages.Mem(), pages.roots, root); }
    }

    // -------------------------------------------------------------- exec

    /** The old space goes, the kernel stack in the free slot k is mapped, and the arguments are written. */
    method Rebuild(space: nat, k: nat, d: nat, top: nat, args: ArgumentLayout.Args, ghost file: seq<Byte>,
                   ghost segs: seq<ElfImage.Segment>, ghost s: State) returns (pushed: ArgumentPassing.PushResult)
      requires pages.Valid() && Handling(s) && s.current < |s.table| && s.table[s.current].Some?
      requires k < |s.stacks| && s.stacks[k] == Free && space == s.live.ttbr0
      requires Tied(WithSpace(s, d), pages.Mem(), pages.roots, root) && d !in s.spaces
      requires Holding(pages.Mem(), d, file, segs, top)
      modifies pages.ram, pages`head, pages`count, pages`free, pages`roots
      ensures pages.Valid() && Tied(Swapped(s, d, k), pages.Mem(), pages.roots, root)
      ensures pushed.Pushed? <==> Fitting(args)
      ensures pushed.Pushed? ==> AddressSpaces.Started(pages.Mem(), d, file, segs, pushed, args)
      ensures Spared(old(pages.Mem()), pages.Mem(), s.spaces - {space})
    {
      ghost var m, free, roots, managed := pages.Mem(), pages.free, pages.roots, pages.managed;
      ghost var i := OwnSpace(s, WithSpace(s, d), m, free, roots, managed, root);
      assert SlotTied(m, root, s.stacks, k) && SpaceTied(m, roots, d);
      ghost var j := PlaceOf(m, free, roots, managed, d);
      StackRoom.StackAfterTeardown(pages, root, i, space, k);
      HoldingKept(m, pages.Mem(), d, file, segs, top);
      TiedReplaced(WithSpace(s, d), Swapped(s, d, k), m, free, pages.Mem(), roots, managed, root, i, k,
                   StackState.Allocated(s.table[s.current].value.pid));
      ghost var m1 := pages.Mem();
      RootSpares(WithSpace(s, d), m, free, m1, roots, managed, root, {space});
      assert Spared(m, m1, s.spaces - {space});
      pushed := WriteArguments(pages, root, d, top, args, file, segs, Swapped(s, d, k));
      assert Swapped(s, d, k).spaces - {d} == s.spaces - {space};
      SparedTrans(m, m1, pages.Mem(), s.spaces - {space});
    }

    /** The tables when an exec finds no kernel stack. */
    method GiveUp(m: Image)
      requires kernel.Valid() && Handling(View()) && kernel.table[kernel.current].Some?
      requires m.root !in kernel.spaces && StackFrom(kernel.stacks[..], Free, 0).None?
      modifies kernel, kernel.table, kernel.stacks
      ensures kernel.Valid() && kernel.phase == HalfChanged
    {
      ExecEndsSo(View(), Loading.Loaded(m, false));
      kernel.SysExec(Loading.Loaded(m, false));
    }

    /** The tables when an exec has its new space, and the kernel stack in slot k. */
    method TakeOver(m: Image, fits: bool, ghost k: nat)
      requires kernel.Valid() && pages.Valid() && Handling(View()) && kernel.table[kernel.current].Some?
      requires StackFrom(kernel.stacks[..], Free, 0) == Some(k) && m.root !in kernel.spaces
      requires Tied(Swapped(View(), m.root, k), pages.Mem(), pages.roots, root) && kernel.live.ttbr0 in kernel.spaces
      modifies kernel, kernel.table, kernel.stacks
      ensures Valid() && kernel.phase == if fits then User else HalfChanged
      ensures fits ==> View() == Exec(old(View()), Loading.Loaded(m, true))
    {
      ghost var s := View();
      kernel.SysExec(Loading.Loaded(m, fits));
      ExecTied(s, m, fits, k, View(), pages.Mem(), pages.roots, root);
    }

    /** `exec` with the old space gone and no kernel stack to be had. */
    method LeaveHalf(entry: nat, top: nat, d: nat) returns (ghost image: Image)
      requires kernel.Valid() && pages.Valid() && Handling(View()) && kernel.table[kernel.current].Some?
      requires Tied(WithSpace(View(), d), pages.Mem(), pages.roots, root) && d !in kernel.spaces
      requires StackFrom(kernel.stacks[..], Free, 0).None?
      modifies kernel, kernel.table, kernel.stacks, pages.ram, pages`head, pages`count, pages`free, pages`roots
      ensures Valid() && image.root == d && image.entry == entry && kernel.phase == HalfChanged
    {
      ghost var s := View();
      ghost var i := OwnSpace(s, WithSpace(s, d), pages.Mem(), pages.free, pages.roots, pages.managed, root);
      pages.FreePageTable(kernel.live.ttbr0, i);
      var m := Image(entry, 0, 0, top, d);
      image := m;
      GiveUp(m);
    }

    /** `exec` with the file loaded and the kernel stack in the free slot k at hand. */
    method ReplaceWithStack(entry: nat, top: nat, d: nat, k: nat, args: ArgumentLayout.Args, ghost file: seq<Byte>,
                            ghost segs: seq<ElfImage.Segment>) returns (ghost image: Image, ghost fits: bool)
      requires kernel.Valid() && pages.Valid() && Handling(View()) && kernel.table[kernel.current].Some?
      requires Tied(WithSpace(View(), d), pages.Mem(), pages.roots, root) && d !in kernel.spaces
      requires Holding(pages.Mem(), d, file, segs, top) && StackFrom(kernel.stacks[..], Free, 0) == Some(k)
      modifies kernel, kernel.table, kernel.stacks, pages.ram, pages`head, pages`count, pages`free, pages`roots
      ensures Valid() && image.root == d && image.entry == entry && (fits <==> Fitting(args))
      ensures kernel.phase == if fits then User else HalfChanged
      ensures fits ==> View() == Exec(old(View()), Loading.Loaded(image, true))
      ensures fits ==> AddressSpaces.Started(pages.Mem(), d, file, segs,
                                             ArgumentPassing.Pushed(image.argc, image.argSp, image.stackTop), args)
      ensures Spared(old(pages.Mem()), pages.Mem(), old(kernel.spaces) - {old(kernel.live.ttbr0)})
    {
      ghost var s := View();
      ghost var i := OwnSpace(s, WithSpace(s, d), pages.Mem(), pages.free, pages.roots, pages.managed, root);
      var pushed := Rebuild(kernel.live.ttbr0, k, d, top, args, file, segs, s);
      var m := if pushed.Pushed? then Image(entry, pushed.argc, pushed.newSp, pushed.top, d)
               else Image(entry, 0, 0, top, d);
      image, fits := m, pushed.Pushed?;
      TakeOver(m, pushed.Pushed?, k);
    }

    /** The rest of `exec`, with the file loaded. */
    method ReplaceImage(got: ElfLoading.LoadResult, args: ArgumentLayout.Args, ghost file: seq<Byte>)
      returns (ghost load: Loading)
      requires kernel.Valid() && pages.Valid() && Handling(View()) && kernel.table[kernel.current].Some?
      requires got.Loaded? && LoadedNew(View(), got, pages.Mem(), pages.roots, root, file)
      modifies kernel, kernel.table, kernel.stacks, pages.ram, pages`head, pages`count, pages`free, pages`roots
      ensures Valid() && load.Loaded? && Handled(old(View()), CallExec(load), View())
      ensures kernel.phase == if load.argsFit then User else HalfChanged
      ensures load.argsFit <==> StackFrom(old(kernel.stacks[..]), Free, 0).Some? && Fitting(args)
      ensures load.argsFit ==>
        && StartsWith(pages.Mem(), load.image, file, args) && StartsAt(kernel.live, load.image)
        && Spared(old(pages.Mem()), pages.Mem(), old(kernel.spaces) - {old(kernel.live.ttbr0)})
    {
      ghost var s := View();
      var slot := kernel.FirstFreeStack();
      ghost var image, fits;
      if slot.None? {
        image := LeaveHalf(got.entry, got.top, got.root);
        fits := false;
      } else {
        image, fits :=
          ReplaceWithStack(got.entry, got.top, got.root, slot.value, args, file, ElfImage.Segments(file, 0));
      }
      load := Loading.Loaded(image, fits);
      if fits { ExecStartsAt(s, image, View()); }
      ExecHandled(s, load, View());
    }

    /** A call that exec refuses changes only x0. */
    method Refuse()
      requires InHandler()
      modifies kernel, kernel.table, kernel.stacks
      ensures Valid() && kernel.phase == User && Handled(old(View()), CallExec(Loading.Refused), View())
    {
      ghost var s := View();
      kernel.SysExec(Loading.Refused);
      RefusedTied(s, View(), pages.Mem(), pages.roots, root);
      ExecHandled(s, Loading.Refused, View());
    }

    /** The loader panics, or writes past a frame. */
    method FailLoad(past: bool)
      requires kernel.Valid() && pages.Valid() && Handling(View()) && kernel.table[kernel.current].Some?
      modifies kernel, kernel.table, kernel.stacks
      ensures Valid() && kernel.phase == if past then Overrun else Panic(LoadPanicked)
      ensures Handled(old(View()), CallExec(if past then Loading.WritesPastFrame else Loading.LoadPanics), View())
    {
      ghost var s := View();
      kernel.SysExec(if past then Loading.WritesPastFrame else Loading.LoadPanics);
      ExecHandled(s, if past then Loading.WritesPastFrame else Loading.LoadPanics, View());
    }

    /** `load_elf` and what follows it in `exec`. */
    method ExecFile(file: seq<Byte>, args: ArgumentLayout.Args) returns (ghost load: Loading)
      requires InHandler() && ElfLoading.Sane(file)
      modifies kernel, kernel.table, kernel.stacks, pages.ram, pages`head, pages`count, pages`free, pages`roots
      ensures Valid()
      ensures Answered(CallsExec(Some(file), args), CallExec(load), old(View()), old(pages.Mem()), |old(pages.free)|,
                       root, View(), pages.Mem())
    {
      ghost var s, m, n := View(), pages.Mem(), |pages.free|;
      var got := LoadNew(pages, root, file, View());
      if got.Loaded? {
        ghost var m1 := pages.Mem();
        load := ReplaceImage(got, args, file);
        LoadedAnswered(file, args, load, s, m, n, m1, root, View(), pages.Mem());
      } else {
        load := DoNotLoad(got);
        NotLoadedAnswered(file, args, load, s, m, n, root, View(), pages.Mem());
      }
    }

    /** `exec` of a file that is not loaded. */
    method DoNotLoad(got: ElfLoading.LoadResult) returns (ghost load: Loading)
      requires kernel.Valid() && pages.Valid() && Handling(View()) && kernel.table[kernel.current].Some?
      requires !got.Loaded? && (got.Panicked? || Tied(View(), pages.Mem(), pages.roots, root))
      modifies kernel, kernel.table, kernel.stacks
      ensures Valid() && !load.Loaded? && (load.Refused? <==> !got.Panicked?)
      ensures load.WritesPastFrame? ==> got.Panicked? && got.why == ElfLoading.PastFrame
      ensures Handled(old(View()), CallExec(load), View()) && (Sound(View()) ==> load.Refused?)
    {
      if got.Panicked? {
        load := if got.why == ElfLoading.PastFrame then Loading.WritesPastFrame else Loading.LoadPanics;
        FailLoad(got.why == ElfLoading.PastFrame);
      } else {
        load := Loading.Refused;
        Refuse();
      }
    }

    // -------------------------------------------------------------- events

    /** `sys_exec` */
    method SysExec(file: Option<seq<Byte>>, args: ArgumentLayout.Args) returns (ghost load: Loading)
      requires InHandler() && (file.Some? ==> ElfLoading.Sane(file.value))
      modifies kernel, kernel.table, kernel.stacks, pages.ram, pages`head, pages`count, pages`free, pages`roots
      ensures Valid()
      ensures Answered(CallsExec(file, args), CallExec(load), old(View()), old(pages.Mem()), |old(pages.free)|, root,
                       View(), pages.Mem())
    {
      if file.None? {
        SparedSelf(pages.Mem(), kernel.spaces);
        load := Loading.Refused;
        Refuse();
      } else {
        load := ExecFile(file.value, args);
      }
    }

    method Dispatch(request: Request) returns (ghost cause: Cause)
      requires InHandler() && Reasonable(request)
      modifies kernel, kernel.table, kernel.stacks, pages.ram, pages`head, pages`count, pages`free, pages`roots
      ensures Valid()
      ensures Answered(request, cause, old(View()), old(pages.Mem()), |old(pages.free)|, root, View(), pages.Mem())
    {
      match request
      case CallsExit =>
        cause := CallExit;
        SysExit();
      case CallsFork =>
        ghost var copied, frames := SysFork();
        cause := CallFork(copied, frames);
      case CallsExec(file, args) =>
        ghost var load := SysExec(file, args);
        cause := CallExec(load);
      case _ =>
        cause := AnswerQuietly(request);
    }

    /** The handlers that leave memory alone. */
    method AnswerQuietly(request: Request) returns (ghost cause: Cause)
      requires InHandler() && (request.TimerRings? || request.CallsWait? || request.CallsOther?)
      modifies kernel, kernel.table, kernel.stacks
      ensures Valid()
      ensures Answered(request, cause, old(View()), pages.Mem(), |pages.free|, root, View(), pages.Mem())
    {
      ghost var s := View();
      SparedSelf(pages.Mem(), s.spaces);
      match request {
        case TimerRings =>
          cause := Timer;
          kernel.TimesliceUp();
        case CallsWait =>
          cause := CallWait;
          kernel.SysWait();
        case CallsOther(x0, x1) =>
          cause := Other(x0, x1);
          kernel.live := kernel.live.(x0 := x0, x1 := x1);
      }
      QuietHandled(s, cause, View(), pages.Mem(), pages.roots, root);
    }

    /** `handle_exception_el1` for an exception from EL0, on the tables and in memory. */
    method HandleException(c: Context, uart: bool, request: Request) returns (ghost cause: Cause)
      requires Valid() && Comes(View(), c) && Reasonable(request)
      modifies kernel, kernel.table, kernel.stacks, pages.ram, pages`head, pages`count, pages`free, pages`roots
      ensures Valid() && Follows(old(View()), Trap(c, uart, cause), View())
      ensures var s := old(View()); var pid := s.table[s.current].value.pid;
        Warranted(request, cause, Enter(s, c, uart), old(pages.Mem()),
                  |old(pages.free)| + 6 * FreedCount(s.stacks, pid, |s.stacks|), root)
      ensures Sound(View()) ==>
        Served(request, cause, Enter(old(View()), c, uart), old(pages.Mem()), View(), pages.Mem())
    {
      ghost var s, m0, n0 := View(), pages.Mem(), |pages.free|;
      EnterFromUser(c, uart);
      ghost var s1, m1, n1, roots := View(), pages.Mem(), |pages.free|, pages.roots;
      ghost var i := OwnSpace(s1, s1, m1, pages.free, roots, pages.managed, root);
      ghost var free1, pid := pages.free, s.table[s.current].value.pid;
      cause := Dispatch(request);
      WarrantedBefore(request, cause, s1, m0, n0, m1, n1, roots, root, s.stacks, pid);
      if Sound(View()) {
        ServedBefore(request, cause, s1, m0, n0, m1, n1, View(), pages.Mem(), free1, roots, pages.managed, root,
                     s.stacks, pid);
      }
      TrapFollows(s, c, uart, s1, cause, View());
    }

    /** The current process goes to sleep inside the kernel. */
    method SleepInKernel(c: Context, uart: bool, chan: nat, reason: BlockReason)
      requires Valid() && kernel.phase == User && Allowed(View(), KernelSleep(c, uart, chan, reason))
      modifies kernel, kernel.table, kernel.stacks
      ensures Valid() && Follows(old(View()), KernelSleep(c, uart, chan, reason), View())
    {
      ghost var s := View();
      RunningNow(s);
      kernel.SleepInKernel(chan, reason, c, uart);
      QuietFollows(s, KernelSleep(c, uart, chan, reason), View(), pages.Mem(), pages.roots, root);
    }

    /** The current process wakes others inside the kernel. */
    method WakeInKernel(chan: nat)
      requires Valid() && kernel.phase == User && chan != 0
      modifies kernel.table
      ensures Valid() && Follows(old(View()), KernelWake(chan), View())
    {
      ghost var s := View();
      RunningNow(s);
      kernel.Wakeup(chan);
      QuietFollows(s, KernelWake(chan), View(), pages.Mem(), pages.roots, root);
    }

    /** A turn of the scheduler's idle loop. */
    method TurnIdle(uart: bool)
      requires Valid() && kernel.phase == Idle
      modifies kernel, kernel.table
      ensures Valid() && Follows(old(View()), Spin(uart), View())
    {
      ghost var s := View();
      kernel.AwakeCommonChans(uart);
      kernel.ScheduleNext();
      QuietFollows(s, Spin(uart), View(), pages.Mem(), pages.roots, root);
    }

    method Arrive(regs: Context, at: nat, el0: bool) returns (c: Context)
      requires Valid() && kernel.phase == User
      ensures c == Arriving(regs, kernel.live, OwnSlot(View()), at, el0)
      ensures if el0 then Comes(View(), c)
              else kernel.Valid() && kernel.table[kernel.current].Some?
                   && c.ttbr0 == kernel.live.ttbr0 && !InUserMode(c) && OnOwnStack(View(), c.spEl1)
    {
      RunningNow(View());
      var slot := kernel.GetActiveStackIndex(kernel.table[kernel.current].value.pid);
      c := Arriving(regs, kernel.live, slot.value, at, el0);
      ArrivingRight(View(), regs, slot.value, at, el0);
    }

    /** One input; one that does not fit the phase is passed over. */
    method Take(i: Input) returns (ghost e: Option<Event>)
      requires Valid() && Sound(View()) && Possible(i)
      modifies kernel, kernel.table, kernel.stacks, pages.ram, pages`head, pages`count, pages`free, pages`roots
      ensures Valid() && (e.Some? <==> Timely(i, old(View())))
      ensures if e.Some? then Corresponds(i, old(View()), e.value) && Follows(old(View()), e.value, View())
              else View() == old(View())
    {
      e := None;
      match i
      case Interrupt(regs, at, uart, request) =>
        if kernel.phase == User {
          var c := Arrive(regs, at, true);
          ghost var cause := HandleException(c, uart, request);
          e := Some(Trap(c, uart, cause));
        }
      case Sleeps(regs, at, uart, chan, reason) =>
        if kernel.phase == User {
          var c := Arrive(regs, at, false);
          SleepInKernel(c, uart, chan, reason);
          e := Some(KernelSleep(c, uart, chan, reason));
        }
      case Wakes(chan) =>
        if kernel.phase == User {
          WakeInKernel(chan);
          e := Some(KernelWake(chan));
        }
      case Turns(uart) =>
        if kernel.phase == Idle {
          TurnIdle(uart);
          e := Some(Spin(uart));
        }
    }

    /** Every run is a run of the model on the same inputs, with the tables the model gives, and in every state of it a
        slot is free exactly when its pages are unmapped, and the spaces in use are trees of their own. */
    method TakeAll(inputs: seq<Input>) returns (ghost es: seq<Event>)
      requires Valid() && Sound(View()) && forall i | 0 <= i < |inputs| :: Possible(inputs[i])
      modifies kernel, kernel.table, kernel.stacks, pages.ram, pages`head, pages`count, pages`free, pages`roots
      ensures pages.Valid() && kernel.Valid() && AllowedRun(old(View()), es) && Traces(old(View()), inputs, es)
      ensures kernel.phase == Run(old(View()), es).phase
      ensures Sound(View()) ==> View() == Run(old(View()), es) && Tied(View(), pages.Mem(), pages.roots, root)
    {
      ghost var s := View();
      es := [];
      var i := 0;
      while i < |inputs|
        invariant 0 <= i <= |inputs| && Valid() && Leads(s, inputs[..i], es, View())
      {
        ghost var before := View();
        assert inputs[..i + 1] == inputs[..i] + [inputs[i]];
        if kernel.phase.User? || kernel.phase.Idle? || kernel.phase.Halted? {
          ghost var e := Take(inputs[i]);
          if e.Some? {
            LeadsNext(s, inputs[..i], es, before, inputs[i], e.value, View());
            es := es + [e.value];
          } else {
            LeadsOn(s, inputs[..i], es, before, inputs[i]);
          }
        } else {
          LeadsOn(s, inputs[..i], es, before, inputs[i]);
        }
        i := i + 1;
      }
      assert inputs[..i] == inputs;
      LeadsIs(s, inputs, es, View());
    }
  }

  // ---------------------------------------------------------------- boot

  /** The tables before init is spawned. */
  function Bare(n: nat): State {
    var none := Context(0, 0, 0, [], 0, 0, 0, 0, 0);
    State(seq(n, i => None), 0, None, 1, seq(n, i => Free), none, User, {}, map[], [])
  }

  /** The kernel's table as it is before boot: a tree below the frames to be given out, with no stack mapped. */
  ghost predicate KernelTable(m: Memory, root: nat, first: nat, n: nat)
    requires PageAllocation.KERNEL_BASE <= first
  {
    && root < |m| && Proper(m, root, 1) && n <= KernelStackPages.MAX_SLOTS
    && (forall g: nat {:trigger PageTree.Owns(m, root, 1, g)} ::
          PageTree.Owns(m, root, 1, g) > 0 ==> g < PageAllocation.FrameIndex(first))
    && (forall k: nat {:trigger KernelStackPages.SlotMapped(m, root, k, false)} | k < n ::
          KernelStackPages.SlotMapped(m, root, k, false))
  }

  lemma TableKept(m: Memory, m': Memory, root: nat, first: nat, n: nat)
    requires PageAllocation.KERNEL_BASE <= first && KernelTable(m, root, first, n) && |m'| == |m|
    requires forall g: nat | g < |m| && g < PageAllocation.FrameIndex(first) :: m'[g] == m[g]
    ensures KernelTable(m', root, first, n) && Tied(Bare(n), m', [root], root)
    ensures TablesOf(m', root) == TablesOf(m, root)
  {
    forall g: nat ensures PageTree.Owns(m', root, 1, g) == PageTree.Owns(m, root, 1, g) {
      OwnsFrame(m, m', root, 1, g);
    }
    StackRoom.AgreeMaps(m, m', root);
    forall k: nat | k < n ensures KernelStackPages.SlotMapped(m', root, k, false) {
      assert KernelStackPages.SlotMapped(m, root, k, false);
    }
    forall k: nat ensures SlotTied(m', root, Bare(n).stacks, k) {
      if k < n { assert KernelStackPages.SlotMapped(m', root, k, false); }
    }
  }

  /** The frames that begin in a range of addresses, counted from its first. */
  function FramesBetween(first: nat, limit: nat): nat
    requires first <= limit
  {
    (limit - first + PAGE_SIZE - 1) / PAGE_SIZE
  }

  /** The frames are given to the allocator, and the kernel's table counts among the trees. */
  method PrepareMemory(pages: PageAllocation.PageAllocator, root: nat, first: nat, limit: nat, ghost n: nat)
    requires pages.Valid() && pages.roots == [] && pages.managed == {} && pages.free == []
    requires PageAllocation.KERNEL_BASE <= first <= limit
    requires limit <= PageAllocation.KERNEL_BASE + pages.ram.Length0 * PAGE_SIZE
    requires KernelTable(pages.Mem(), root, first, n)
    modifies pages, pages.ram
    ensures pages.Valid() && pages.roots == [root] && |pages.free| == FramesBetween(first, limit)
    ensures TablesOf(pages.Mem(), root) == TablesOf(old(pages.Mem()), root)
    ensures Tied(Bare(n), pages.Mem(), pages.roots, root)
  {
    ghost var m := pages.Mem();
    ghost var count := pages.InitFrames(first, limit);
    TableKept(m, pages.Mem(), root, first, n);
    pages.AdoptRoot(root);
  }

  /** What boot takes: the frames of init's program and of its kernel stack. */
  ghost predicate CanSpawn(m: Memory, root: nat, file: seq<Byte>, n: nat) {
    && ElfImage.HasHeader(file) && ElfLoading.Loadable(file, ElfImage.Segments(file, 0))
    && ElfLoading.FramesToLoad(ElfImage.Segments(file, 0)) + KernelStackPages.StackFrames(m, root, 0) <= n
  }

  /** `spawn_from_elf` for init: its space, its stack in slot 0, and its arguments. */
  method SpawnInit(pages: PageAllocation.PageAllocator, root: nat, ghost n: nat, file: seq<Byte>,
                   args: ArgumentLayout.Args) returns (image: Option<Image>)
    requires pages.Valid() && n >= 2 && Tied(Bare(n), pages.Mem(), pages.roots, root) && ElfLoading.Sane(file)
    modifies pages.ram, pages`head, pages`count, pages`free, pages`roots
    ensures pages.Valid()
    ensures image.Some? <==> CanSpawn(old(pages.Mem()), root, file, |old(pages.free)|) && Fitting(args)
    ensures image.Some? ==>
      && Tied(WithStack(Bare(n), image.value.root, 0, INIT), pages.Mem(), pages.roots, root)
      && StartsWith(pages.Mem(), image.value, file, args)
  {
    ghost var s := Bare(n);
    var got := LoadNew(pages, root, file, s);
    if !got.Loaded? { return None; }
    ghost var m := pages.Mem();
    var ok := MapNewStack(pages, root, Some(0), s, got.root);
    if !ok { return None; }
    ghost var segs := ElfImage.Segments(file, 0);
    HoldingKept(m, pages.Mem(), got.root, file, segs, got.top);
    var pushed := WriteArguments(pages, root, got.root, got.top, args, file, segs, WithStack(s, got.root, 0, INIT));
    image := if pushed.Pushed? then Some(Image(got.entry, pushed.argc, pushed.newSp, pushed.top, got.root))
             else None;
  }

  lemma BootKnown(n: nat, image: Image, m: Memory, roots: seq<nat>, root: nat)
    requires n >= 2 && Tied(WithStack(Bare(n), image.root, 0, INIT), m, roots, root)
    ensures Known(Boot(n, image)) && Tied(Boot(n, image), m, roots, root) && Sound(Boot(n, image))
  {
    var s := WithStack(Bare(n), image.root, 0, INIT);
    SchedulePlaces(Spawned(n, image));
    assert s.stacks == Spawned(n, image).stacks;
    assert s.spaces == Spawned(n, image).spaces;
    TiedAlike(s, Boot(n, image), m, roots, root);
    assert ReachedBy(n, image, [], Boot(n, image));
    KnownReached(Boot(n, image));
    BootSound(n, image);
  }

  /** Boot, from frames that are not managed yet to init in control. It succeeds exactly with a file that can be loaded,
      frames for it and for a kernel stack, and arguments that fit. */
  method Start(pages: PageAllocation.PageAllocator, root: nat, first: nat, limit: nat, n: nat, file: seq<Byte>,
               args: ArgumentLayout.Args) returns (machine: Option<Machine>, ghost image: Image)
    requires pages.Valid() && pages.roots == [] && pages.managed == {} && pages.free == []
    requires PageAllocation.KERNEL_BASE <= first <= limit
    requires limit <= PageAllocation.KERNEL_BASE + pages.ram.Length0 * PAGE_SIZE
    requires n >= 2 && KernelTable(pages.Mem(), root, first, n) && ElfLoading.Sane(file)
    modifies pages, pages.ram
    ensures machine.Some? <==> CanSpawn(old(pages.Mem()), root, file, FramesBetween(first, limit)) && Fitting(args)
    ensures machine.Some? ==>
      && var x := machine.value;
         fresh(x.kernel) && fresh(x.kernel.table) && fresh(x.kernel.stacks) && x.pages == pages && x.root == root
         && x.Valid() && x.View() == Boot(n, image) && StartsWith(pages.Mem(), image, file, args)
         && AtBeginning(pages.Mem(), x.View().live, file, args)
  {
    ghost var m := pages.Mem();
    PrepareMemory(pages, root, first, limit, n);
    SameNeeds(m, pages.Mem(), root, file, FramesBetween(first, limit));
    var spawned := SpawnInit(pages, root, n, file, args);
    if spawned.None? {
      image := Image(0, 0, 0, 0, 0);
      machine := None;
    } else {
      image := spawned.value;
      var x := StartTables(pages, root, n, spawned.value);
      BootStarts(n, image, x.View());
      ImageBegins(pages.Mem(), x.View().live, image, file, args);
      machine := Some(x);
    }
  }

  lemma SameNeeds(m: Memory, m': Memory, root: nat, file: seq<Byte>, n: nat)
    requires TablesOf(m', root) == TablesOf(m, root)
    ensures CanSpawn(m', root, file, n) <==> CanSpawn(m, root, file, n)
  {
  }

  /** The kernel's static tables with init in them, and the first scheduling. */
  method StartTables(pages: PageAllocation.PageAllocator, root: nat, n: nat, image: Image) returns (x: Machine)
    requires pages.Valid() && n >= 2
    requires Tied(WithStack(Bare(n), image.root, 0, INIT), pages.Mem(), pages.roots, root)
    ensures fresh(x.kernel) && fresh(x.kernel.table) && fresh(x.kernel.stacks) && x.pages == pages && x.root == root
    ensures x.Valid() && x.View() == Boot(n, image)
  {
    var kernel := new Kernel(n, image);
    kernel.ScheduleNext();
    BootKnown(n, image, pages.Mem(), pages.roots, root);
    x := new Machine(kernel, pages, root);
  }

  /** A run of the whole kernel, from boot on. */
  method StartAndRun(pages: PageAllocation.PageAllocator, root: nat, first: nat, limit: nat, n: nat, file: seq<Byte>,
                     args: ArgumentLayout.Args, inputs: seq<Input>)
    returns (machine: Option<Machine>, ghost image: Image, ghost es: seq<Event>)
    requires pages.Valid() && pages.roots == [] && pages.managed == {} && pages.free == []
    requires PageAllocation.KERNEL_BASE <= first <= limit
    requires limit <= PageAllocation.KERNEL_BASE + pages.ram.Length0 * PAGE_SIZE
    requires n >= 2 && KernelTable(pages.Mem(), root, first, n) && ElfLoading.Sane(file)
    requires forall i | 0 <= i < |inputs| :: Possible(inputs[i])
    modifies pages, pages.ram
    ensures machine.Some? ==>
      && var x, s := machine.value, Run(Boot(n, image), es);
         && AllowedRun(Boot(n, image), es) && Traces(Boot(n, image), inputs, es) && x.pages == pages && pages.Valid()
         && x.View().phase == s.phase
         && (Sound(s) ==> x.View() == s && Tied(s, pages.Mem(), pages.roots, root))
  {
    machine, image := Start(pages, root, first, limit, n, file, args);
    es := [];
    if machine.Some? {
      BootSound(n, image);
      es := machine.value.TakeAll(inputs);
    }
  }

  lemma BootSound(n: nat, image: Image)
    requires n >= 2
    ensures Sound(Boot(n, image))
  {
    SpawnedCore(n, image);
    ScheduleKeeps(Spawned(n, image));
  }
}
