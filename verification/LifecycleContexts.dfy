/** A process that does not run keeps its registers until it runs again, and then goes on with them. */
module LifecycleContexts {
  import opened Words
  import opened Lifecycle
  import opened LifecycleInvariant
  import opened LifecycleSteps
  import opened LifecycleExit
  import opened LifecycleFork
  import opened LifecycleRuns
  import opened LifecycleTurns
  import opened LifecycleDelivery
  import opened LifecycleSleepers
  import opened LifecycleAnswers

  /** Slot i holds the same process with the same registers. */
  predicate SameRegisters(t: Table, u: Table, i: nat)
    requires i < |t| == |u|
  {
    t[i].Some? && u[i].Some? && u[i].value.pid == t[i].value.pid && u[i].value.ctx == t[i].value.ctx
  }

  /** No step changes the registers of a process that lives and is not the current one, but an exit those of the
      parent that waits for it. */
  lemma RegistersKept(s: State, e: Event, i: nat)
    requires s.current < |s.table| && Inv(s) && Sound(s) && Allowed(s, e)
    requires i < |s.table| && (s.phase == User ==> i != s.current) && s.table[i].Some? && Alive(s.table[i].value)
    requires s.phase == User && e.Trap? && e.cause.CallExit? ==> !AwaitedBy(s.table, i, s.table[s.current].value)
    ensures SameRegisters(s.table, Step(s, e).table, i)
  {
    StepPasses(s, e, i);
  }

  /** Does a handler set its caller aside to be resumed: on a tick, or in a wait that blocks? */
  predicate SetsAside(s: State, cause: Cause)
    requires s.current < |s.table|
  {
    cause.Timer? || (cause.CallWait? && MustWait(s))
  }

  /** A process set aside by the timer or by a wait that blocks has the registers it came in with. */
  lemma RegistersSaved(s: State, c: Context, uart: bool, cause: Cause)
    requires Inv(s) && s.phase == User && Allowed(s, Trap(c, uart, cause)) && SetsAside(Enter(s, c, uart), cause)
    ensures var r := Step(s, Trap(c, uart, cause));
      r.table[s.current].Some? && r.table[s.current].value.ctx == c
          && r.table[s.current].value.pid == s.table[s.current].value.pid
  {
    if cause.Timer? {
      TickSetsDown(s, c, uart);
    } else {
      var s1 := EnteredBy(s, c, uart, cause);
      EnterKeeps(s, c, uart);
      WaitBlocked(s1, Step(s, Trap(c, uart, cause)));
    }
  }

  // ---------------------------------------------------------------- fork

  /** What the two sides of a fork see: zero in the child, the child's pid in the parent, and nothing else different
      but the space and the stack, on which the child stands as deep as its parent. The child has the next pid, is
      ready, and is its parent's. */
  ghost predicate ForkedFrom(s: State, c: Context, r: State, e: nat, root: nat)
    requires e < |s.table| == |r.table|
  {
    && s.table[e].None? && r.table[e].Some?
    && var child := r.table[e].value;
      && r.nextPid == s.nextPid + 1 && r.live == c.(x0 := child.pid)
      && s.current < |s.table| && s.table[s.current].Some?
      && child == Process(s.nextPid, Ready, None, s.table[s.current].value.pid, child.ctx, 0, 0)
      && child.ctx == c.(x0 := 0, ttbr0 := root, spEl1 := child.ctx.spEl1)
      && SameDepth(r.stacks, child, c.spEl1)
  }

  ghost predicate SameDepth(stacks: seq<StackState>, child: Process, sp: int) {
    exists mine: nat, own: nat :: Owns(stacks, mine, child.parent) && Owns(stacks, own, child.pid)
                                  && StackTop(own) - child.ctx.spEl1 == StackTop(mine) - sp
  }

  lemma ForkGives(s: State, root: nat, r: State)
    requires Entered(s) && RoomForChild(s) && r == Fork(s, Some(root), true)
    ensures ForkedFrom(s, s.live, r, EmptyFrom(s.table, 0).value, root)
  {
    var k := OwnStack(s);
    ForkIs(s, root, k);
    ForkedGives(s, root, StackFrom(s.stacks, Free, 0).value, k, EmptyFrom(s.table, 0).value, r);
  }

  lemma ForkedGives(s: State, root: nat, slot: nat, k: nat, e: nat, r: State)
    requires s.current < |s.table| && s.table[s.current].Some? && s.live == s.table[s.current].value.ctx
    requires slot < |s.stacks| && s.stacks[slot] == Free && e < |s.table| && s.table[e].None?
    requires Owns(s.stacks, k, s.table[s.current].value.pid) && r == Forked(s, root, slot, k, e)
    ensures ForkedFrom(s, s.live, r, e, root)
  {
    var child := ChildOf(s, root, slot, k);
    assert r.table[e] == Some(child);
    assert Owns(r.stacks, k, child.parent) && Owns(r.stacks, slot, child.pid);
  }

  /** An entry to the kernel leaves empty slots empty, and issues no pid. */
  lemma EnterSeen(s: State, c: Context, uart: bool, r: State, e: nat, root: nat)
    requires s.current < |s.table| && s.table[s.current].Some? && e < |s.table| == |r.table|
    requires ForkedFrom(Enter(s, c, uart), c, r, e, root)
    ensures ForkedFrom(s, c, r, e, root)
  {
    var mid: Table := s.table[s.current := Some(s.table[s.current].value.(ctx := c))];
    assert uart ==> Enter(s, c, uart).table[e] == Woken(mid[e], AWAITING_UART_READ);
  }

  /** A fork with a space, a stack, frames for it and a slot at hand returns twice. */
  lemma ForkReturnsTwice(s: State, c: Context, uart: bool, root: nat)
    requires Inv(s) && s.phase == User && Allowed(s, Trap(c, uart, CallFork(Some(root), true)))
    requires StackAtHand(s, s.table[s.current].value.pid) && SlotAtHand(s)
    ensures var r := Step(s, Trap(c, uart, CallFork(Some(root), true)));
      r.phase == User && exists e: nat :: e < |s.table| && ForkedFrom(s, c, r, e, root)
  {
    assert HasState(s.table, s.current, Running);
    EnterKeeps(s, c, uart);
    AtHand(s, c, uart);
    var s1 := Enter(s, c, uart);
    var r := Fork(s1, Some(root), true);
    ForkKeeps(s1, Some(root), true);
    ForkGives(s1, root, r);
    EnterSeen(s, c, uart, r, EmptyFrom(s1.table, 0).value, root);
  }
}
