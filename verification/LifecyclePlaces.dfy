/** What each step does to the stack slots and the address spaces. */
module LifecyclePlaces {
  import opened Words
  import opened Lifecycle
  import opened LifecycleInvariant
  import opened LifecycleSteps
  import opened LifecycleExit
  import opened LifecycleFork

  predicate SamePlaces(s: State, r: State) {
    r.stacks == s.stacks && r.spaces == s.spaces
  }

  /** The space of the process in control is in use. */
  lemma OwnSpaceCounted(s: State)
    requires HasState(s.table, s.current, Running) && Spaced(s.table, s.spaces)
    requires s.live.ttbr0 == s.table[s.current].value.ctx.ttbr0
    ensures s.live.ttbr0 in s.spaces
  {
    assert UsesSpace(s.table, s.current, s.live.ttbr0);
  }

  lemma EnterPlaces(s: State, c: Context, uart: bool)
    requires s.current < |s.table| && s.table[s.current].Some?
    ensures SamePlaces(s.(stacks := FreeQueued(s.stacks, s.table[s.current].value.pid)), Enter(s, c, uart))
    ensures Enter(s, c, uart).current == s.current && Enter(s, c, uart).table[s.current].Some?
  {
  }

  lemma SchedulePlaces(s: State)
    requires s.current < |s.table|
    ensures SamePlaces(s, Schedule(s))
  {
  }

  lemma TickPlaces(s: State)
    requires s.current < |s.table| && s.table[s.current].Some?
    ensures SamePlaces(s, Tick(s))
  {
    SchedulePlaces(SetCurrent(s, s.table[s.current].value.(state := Ready)));
  }

  lemma WaitPlaces(s: State, target: nat)
    requires s.current < |s.table| && s.table[s.current].Some?
    ensures SamePlaces(s, Wait(s, target))
  {
    var p := s.table[s.current].value;
    SchedulePlaces(SetCurrent(s, p.(state := Blocked, reason := Some(WaitingForChild))));
  }

  lemma QuietPlaces(s: State, e: Event)
    requires s.current < |s.table| && !(s.phase == User && e.Trap?)
    ensures SamePlaces(s, Step(s, e))
  {
  }

  lemma TerminatePlaces(s: State, code: nat, used: nat)
    requires s.current < |s.table| && s.table[s.current].Some?
    requires ActiveStack(s.stacks, s.table[s.current].value.pid) == Some(used)
    ensures var r, p := Terminate(s, code), s.table[s.current].value;
      r.phase == s.phase && r.spaces == s.spaces - {p.ctx.ttbr0} && r.stacks == s.stacks[used := QueuedToFree(p.pid)]
  {
  }

  lemma NotifyPlaces(s: State)
    requires s.current < |s.table| && s.table[s.current].Some?
    ensures SamePlaces(s, NotifyParent(s))
  {
  }

  lemma ExitAfter(s: State, code: nat)
    requires s.current < |s.table| && s.table[s.current].Some?
    ensures SamePlaces(Terminate(s, code), Exit(s, code))
  {
    var s1 := Terminate(s, code);
    if !s1.phase.Panic? {
      NotifyPlaces(s1);
      var s2 := NotifyParent(s1);
      if !s2.phase.Panic? { SchedulePlaces(s2); }
    }
  }

  lemma ExitPlacesWith(s: State, code: nat, used: nat)
    requires s.current < |s.table| && s.table[s.current].Some?
    requires ActiveStack(s.stacks, s.table[s.current].value.pid) == Some(used)
    ensures Exit(s, code).spaces == s.spaces - {s.table[s.current].value.ctx.ttbr0}
    ensures |Exit(s, code).stacks| == |s.stacks|
    ensures forall k | 0 <= k < |s.stacks| :: Exit(s, code).stacks[k] == Free <==> s.stacks[k] == Free
  {
    var pid := s.table[s.current].value.pid;
    TerminatePlaces(s, code, used);
    ExitAfter(s, code);
    var r := Exit(s, code);
    assert r.stacks == s.stacks[used := QueuedToFree(pid)];
  }

  /** An exit queues its stack, which frees none, and gives up its space. */
  lemma ExitPlaces(s: State, code: nat)
    requires Entered(s)
    ensures Exit(s, code).spaces == s.spaces - {s.table[s.current].value.ctx.ttbr0}
    ensures |Exit(s, code).stacks| == |s.stacks|
    ensures forall k | 0 <= k < |s.stacks| :: Exit(s, code).stacks[k] == Free <==> s.stacks[k] == Free
  {
    FindsStack(s);
    ExitPlacesWith(s, code, ActiveStack(s.stacks, s.table[s.current].value.pid).value);
  }

  /** A fork takes the first free slot and the new space. */
  lemma ForkPlaces(s: State, root: nat)
    requires Entered(s) && RoomForChild(s)
    ensures var r, slot := Fork(s, Some(root), true), StackFrom(s.stacks, Free, 0).value;
      r.stacks == s.stacks[slot := Allocated(s.nextPid)] && r.spaces == s.spaces + {root}
  {
    var k := OwnStack(s);
    ForkIs(s, root, k);
  }

  /** An exec queues the stack it has, takes the first free slot, and exchanges the space. */
  lemma ExecPlaces(s: State, image: Image) returns (used: nat)
    requires Entered(s) && StackFrom(s.stacks, Free, 0).Some?
    ensures used < |s.stacks| && s.stacks[used] != Free
    ensures
      var r, p := Exec(s, Loaded(image, true)), s.table[s.current].value;
      var slot := StackFrom(s.stacks, Free, 0).value;
      r.stacks == s.stacks[used := QueuedToFree(p.pid)][slot := Allocated(p.pid)]
      && r.spaces == s.spaces - {p.ctx.ttbr0} + {image.root}
  {
    FindsStack(s);
    used := ActiveStack(s.stacks, s.table[s.current].value.pid).value;
    ReplaceIs(s, image, true, used);
  }
}
