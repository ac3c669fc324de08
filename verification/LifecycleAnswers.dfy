/** What a call leaves in the registers of its caller, with what registers a program starts, and what becomes of the
    kernel stacks. */
module LifecycleAnswers {
  import opened Words
  import opened Lifecycle
  import opened LifecycleInvariant
  import opened LifecycleSteps
  import opened LifecycleExit
  import opened LifecycleFork
  import opened LifecycleRuns
  import opened LifecycleTurns
  import opened LifecycleDelivery
  import opened LifecyclePlaces
  import opened LifecycleSleepers

  // ---------------------------------------------------------------- a program that starts

  /** At the entry point, in the new space, with the number of the arguments, where they are, and where the stack
      begins in x0 to x2; the stack pointer is where the arguments are, and every other register is zero. */
  predicate StartsAt(c: Context, m: Image) {
    && c.elr == m.entry && c.ttbr0 == m.root && c.spEl0 == m.argSp
    && c.x0 == m.argc && c.x1 == m.argSp && c.x2 == m.stackTop
    && c.spsr == 0 && |c.rest| == 28 && forall j | 0 <= j < |c.rest| :: c.rest[j] == 0
  }

  /** r is s with the current process in its new image, on a new kernel stack, the old one queued. */
  ghost predicate Renewed(s: State, m: Image, r: State)
    requires s.current < |s.table| && s.table[s.current].Some?
  {
    var p := s.table[s.current].value;
    && StartsAt(r.live, m) && r.phase == User && r.current == s.current
    && |r.table| == |s.table| && r.table[s.current] == Some(p.(ctx := r.live))
    && (exists used: nat, slot: nat {:trigger Owns(s.stacks, used, p.pid), Owns(r.stacks, slot, p.pid)} ::
          && Owns(s.stacks, used, p.pid) && Owns(r.stacks, slot, p.pid) && used < |r.stacks|
          && r.live.spEl1 == StackTop(slot) && r.stacks[used] == QueuedToFree(p.pid))
  }

  lemma ExecRenews(s: State, m: Image, r: State)
    requires Entered(s) && r == Exec(s, Loaded(m, true)) && r.phase == User
    ensures s.table[s.current].Some? && Renewed(s, m, r)
  {
    assert HasState(s.table, s.current, Running);
    FindsStack(s);
    var p := s.table[s.current].value;
    var used := ActiveStack(s.stacks, p.pid).value;
    ReplaceIs(s, m, true, used);
    var slot := StackFrom(s.stacks, Free, 0);
    ImagedRenews(s, m, used, slot.value, r);
  }

  lemma ImagedRenews(s: State, m: Image, used: nat, slot: nat, r: State)
    requires s.current < |s.table| && s.table[s.current].Some? && s.phase == User
    requires Owns(s.stacks, used, s.table[s.current].value.pid) && slot < |s.stacks| && s.stacks[slot] == Free
    requires r == Imaged(s, m, s.stacks[used := QueuedToFree(s.table[s.current].value.pid)], slot)
    ensures Renewed(s, m, r)
  {
    assert Owns(r.stacks, slot, s.table[s.current].value.pid);
  }

  lemma RenewedBefore(s: State, s1: State, m: Image, r: State, c: Context)
    requires s.current < |s.table| && s.table[s.current].Some? && s1.current == s.current && |s1.table| == |s.table|
    requires s1.table[s.current] == Some(s.table[s.current].value.(ctx := c)) && SameOwners(s.stacks, s1.stacks)
    requires Renewed(s1, m, r)
    ensures Renewed(s, m, r)
  {
  }

  lemma EnterKeepsOwners(s: State, c: Context, uart: bool, s1: State)
    requires s.current < |s.table| && s.table[s.current].Some? && s1 == Enter(s, c, uart)
    ensures SameOwners(s.stacks, s1.stacks)
  {
    EnterPlaces(s, c, uart);
    FreeingKeepsOwners(s.stacks, s1.stacks, s.table[s.current].value.pid);
  }

  /** An exec that returns to user mode returns to the beginning of the new program, with its arguments in x0 to x2. */
  lemma ExecStarts(s: State, c: Context, uart: bool, m: Image, r: State)
    requires Inv(s) && s.phase == User && Allowed(s, Trap(c, uart, CallExec(Loaded(m, true))))
    requires r == Step(s, Trap(c, uart, CallExec(Loaded(m, true)))) && r.phase == User
    ensures s.current < |s.table| && s.table[s.current].Some? && Renewed(s, m, r)
  {
    assert HasState(s.table, s.current, Running);
    EnterKeeps(s, c, uart);
    var s1 := EnteredBy(s, c, uart, CallExec(Loaded(m, true)));
    ExecRenews(s1, m, r);
    EnterKeepsOwners(s, c, uart, s1);
    RenewedBefore(s, s1, m, r, c);
  }

  /** After boot init, with pid 1 and no parent, is in control at the beginning of its program, on the first kernel
      stack, and nothing else is in the tables. */
  lemma BootStarts(n: nat, m: Image, r: State)
    requires n >= 2 && r == Boot(n, m)
    ensures r.phase == User && StartsAt(r.live, m) && r.live.spEl1 == StackTop(0) && |r.table| == |r.stacks| == n
    ensures r.table[0] == Some(Process(1, Running, None, 0, r.live, 0, 0)) && r.stacks[0] == Allocated(1)
    ensures forall i | 0 < i < n :: r.table[i].None? && r.stacks[i] == Free
    ensures r.current == 0 && r.nextPid == 2
  {
    var s := Spawned(n, m);
    ScanFinds(s.table, 1, 0);
  }

  // ---------------------------------------------------------------- answers

  /** The call has returned to its caller, with these registers. */
  predicate Returned(s: State, r: State, c: Context) {
    r.phase == User && r.current == s.current && r.live == c
  }

  /** An exec that is refused answers -1, and a call that only answers does so in x0 and x1. */
  lemma CallsAnswer(s: State, c: Context, uart: bool, x0: nat, x1: nat)
    requires Inv(s) && s.phase == User && Arrives(s, c)
    ensures s.current < |s.table| && s.table[s.current].Some?
    ensures Returned(s, Step(s, Trap(c, uart, CallExec(Refused))), c.(x0 := 0xffff_ffff_ffff_ffff))
    ensures Returned(s, Step(s, Trap(c, uart, Other(x0, x1))), c.(x0 := x0, x1 := x1))
  {
    assert HasState(s.table, s.current, Running);
    EnterKeeps(s, c, uart);
    var s1 := EnteredBy(s, c, uart, CallExec(Refused));
    var s2 := EnteredBy(s, c, uart, Other(x0, x1));
  }

  /** Slot i holds a child of the process with this pid, that it asks for: any, or the one with pid `target`. */
  predicate AskedFor(t: Table, i: nat, pid: nat, target: nat) {
    i < |t| && t[i].Some? && t[i].value.parent == pid && (target == 0 || t[i].value.pid == target)
  }

  /** The answer names a dead child in slot i, and gives its exit code. */
  predicate NamesDead(t: Table, i: nat, pid: nat, target: nat, c: Context) {
    && AskedFor(t, i, pid, target) && t[i].value.state == Terminated
    && c.x0 == t[i].value.pid && c.x1 == t[i].value.exitCode
  }

  /** A wait whose caller has no child it asks for answers -1; one that finds a dead child answers with its pid and exit
      code in x0 and x1; any other leaves the caller blocked until a child exits, with the registers it came in with. */
  ghost predicate WaitAnswer(s: State, c: Context, r: State)
    requires s.current < |s.table| && s.table[s.current].Some?
  {
    var p := s.table[s.current].value;
    if forall i: nat :: !AskedFor(s.table, i, p.pid, c.x0) then Returned(s, r, c.(x0 := 0xffff_ffff_ffff_ffff))
    else if forall i: nat :: AskedFor(s.table, i, p.pid, c.x0) ==> s.table[i].value.state != Terminated then
      && !InControl(r, s.current) && |r.table| == |s.table|
      && r.table[s.current] == Some(p.(ctx := c, state := Blocked, reason := Some(WaitingForChild)))
    else
      && Returned(s, r, c.(x0 := r.live.x0, x1 := r.live.x1))
      && exists i: nat :: NamesDead(s.table, i, p.pid, c.x0, r.live)
  }

  /** What the scan of the table finds, in these words. */
  lemma ScanAsks(t: Table, pid: nat, target: nat)
    ensures HasChild(t, pid, target) <==> exists i: nat :: AskedFor(t, i, pid, target)
    ensures var dead := DeadChildFrom(t, pid, target, 0);
      if dead.Some? then AskedFor(t, dead.value, pid, target) && t[dead.value].value.state == Terminated
      else forall i: nat :: AskedFor(t, i, pid, target) ==> t[i].value.state != Terminated
  {
    if HasChild(t, pid, target) {
      var i :| 0 <= i < |t| && t[i].Some? && IsChild(t[i].value, pid, target);
      assert AskedFor(t, i, pid, target);
    }
  }

  lemma WaitAnswered(s: State, r: State)
    requires Entered(s) && r == Wait(s, s.live.x0) && s.table[s.current].Some?
    ensures WaitAnswer(s, s.live, r)
  {
    var pid := s.table[s.current].value.pid;
    ScanAsks(s.table, pid, s.live.x0);
    if MustWait(s) {
      WaitBlocked(s, r);
    } else {
      WaitReturned(s, r);
      ReturnedAnswers(s, r, DeadChildFrom(s.table, pid, s.live.x0, 0));
    }
  }

  lemma ReturnedAnswers(s: State, r: State, dead: Option<nat>)
    requires s.current < |s.table| && s.table[s.current].Some?
    requires var pid := s.table[s.current].value.pid;
      if dead.None? then (forall i: nat :: !AskedFor(s.table, i, pid, s.live.x0))
                         && Returned(s, r, s.live.(x0 := 0xffff_ffff_ffff_ffff))
      else NamesDead(s.table, dead.value, pid, s.live.x0, r.live)
           && Returned(s, r, s.live.(x0 := r.live.x0, x1 := r.live.x1))
    ensures WaitAnswer(s, s.live, r)
  {
    if dead.Some? {
      assert AskedFor(s.table, dead.value, s.table[s.current].value.pid, s.live.x0);
    }
  }

  lemma WaitBlocked(s: State, r: State)
    requires Entered(s) && MustWait(s) && r == Wait(s, s.live.x0)
    ensures !InControl(r, s.current) && |r.table| == |s.table|
    ensures r.table[s.current] == Some(s.table[s.current].value.(state := Blocked, reason := Some(WaitingForChild)))
  {
    var q := s.table[s.current].value.(state := Blocked, reason := Some(WaitingForChild));
    var m := SetCurrent(s, q);
    SetAside(s, m, q);
    BlockedStays(m, s.current, r);
  }

  lemma WaitReturned(s: State, r: State)
    requires s.current < |s.table| && s.table[s.current].Some? && s.phase == User && !MustWait(s)
    requires r == Wait(s, s.live.x0)
    ensures Returned(s, r, s.live.(x0 := r.live.x0, x1 := r.live.x1))
    ensures var pid := s.table[s.current].value.pid;
      var dead := DeadChildFrom(s.table, pid, s.live.x0, 0);
      if dead.None? then !HasChild(s.table, pid, s.live.x0) && Returned(s, r, s.live.(x0 := 0xffff_ffff_ffff_ffff))
      else r.live.x0 == s.table[dead.value].value.pid && r.live.x1 == s.table[dead.value].value.exitCode
  {
  }

  lemma WaitAnswerBefore(s: State, s1: State, r: State)
    requires SameIdle(s, s1) && WaitAnswer(s1, s1.live, r) && SameWho(s.table, s1.table)
    ensures WaitAnswer(s, s1.live, r)
  {
    var c, p := s1.live, s.table[s.current].value;
    forall i: nat
      ensures AskedFor(s1.table, i, p.pid, c.x0) <==> AskedFor(s.table, i, p.pid, c.x0)
      ensures NamesDead(s1.table, i, p.pid, c.x0, r.live) <==> NamesDead(s.table, i, p.pid, c.x0, r.live)
    {
      if i < |s.table| { assert AkinSlot(s.table[i], s1.table[i]); }
    }
    if i: nat :| NamesDead(s1.table, i, p.pid, c.x0, r.live) {
      assert NamesDead(s.table, i, p.pid, c.x0, r.live);
    }
    if i: nat :| AskedFor(s1.table, i, p.pid, c.x0) && s1.table[i].value.state == Terminated {
      assert AkinSlot(s.table[i], s1.table[i]) && AskedFor(s.table, i, p.pid, c.x0);
    }
    if i: nat :| AskedFor(s.table, i, p.pid, c.x0) && s.table[i].value.state == Terminated {
      assert AkinSlot(s.table[i], s1.table[i]) && AskedFor(s1.table, i, p.pid, c.x0);
    }
  }

  /** What a wait answers, and when it blocks. */
  lemma WaitAnswers(s: State, c: Context, uart: bool)
    requires Inv(s) && s.phase == User && Allowed(s, Trap(c, uart, CallWait))
    ensures s.current < |s.table| && s.table[s.current].Some?
    ensures WaitAnswer(s, c, Step(s, Trap(c, uart, CallWait)))
  {
    assert HasState(s.table, s.current, Running);
    EnterSameIdle(s, c, uart);
    EnterKeeps(s, c, uart);
    var s1 := EnteredBy(s, c, uart, CallWait);
    var r := Step(s, Trap(c, uart, CallWait));
    WaitAnswered(s1, r);
    forall i: nat | i < |s.table| ensures AkinSlot(s.table[i], s1.table[i]) { EnterAkin(s, c, uart, i, s1); }
    WaitAnswerBefore(s, s1, r);
  }

  lemma EnterAkin(s: State, c: Context, uart: bool, i: nat, s1: State)
    requires s.current < |s.table| && s.table[s.current].Some? && i < |s.table| && s1 == Enter(s, c, uart)
    ensures AkinSlot(s.table[i], s1.table[i])
  {
    var mid: Table := s.table[s.current := Some(s.table[s.current].value.(ctx := c))];
    assert uart ==> s1.table[i] == Woken(mid[i], AWAITING_UART_READ);
  }

  /** The process in slot k is the parent of p, and waits for any child, or for p. */
  predicate AsksFor(t: Table, k: nat, p: Process) {
    && k < |t| && t[k].Some? && t[k].value.pid == p.parent
    && t[k].value.state == Blocked && t[k].value.reason == Some(WaitingForChild)
    && (t[k].value.ctx.x0 == 0 || t[k].value.ctx.x0 == p.pid)
  }

  /** An exit answers the wait of the parent that asks for the process, in the parent's saved registers, and the process
      leaves the table; without one it stays there, dead, with the code that was in x0. */
  ghost predicate ExitAnswer(s: State, c: Context, r: State)
    requires s.current < |s.table| && s.table[s.current].Some?
  {
    var p := s.table[s.current].value;
    && |r.table| == |s.table|
    && if exists k: nat :: AsksFor(s.table, k, p)
       then r.table[s.current].None? && forall k: nat :: AsksFor(s.table, k, p) ==>
              r.table[k].Some? && r.table[k].value.ctx == s.table[k].value.ctx.(x0 := p.pid, x1 := c.x0)
              && (r.table[k].value.state == Ready || r.table[k].value.state == Running)
       else r.table[s.current].Some? && r.table[s.current].value.pid == p.pid
            && r.table[s.current].value.state == Terminated && r.table[s.current].value.exitCode == c.x0
  }

  /** What an exit leaves to the parent. */
  lemma ExitAnswers(s: State, c: Context, uart: bool)
    requires Inv(s) && s.phase == User && Allowed(s, Trap(c, uart, CallExit))
    ensures s.current < |s.table| && s.table[s.current].Some?
    ensures ExitAnswer(s, c, Step(s, Trap(c, uart, CallExit)))
  {
    assert HasState(s.table, s.current, Running);
    ExitStep(s, c, uart);
    ExitAnswerIs(s, c, Step(s, Trap(c, uart, CallExit)));
  }

  lemma ExitAnswerIs(s: State, c: Context, r: State)
    requires s.current < |s.table| == |r.table| && s.table[s.current].Some? && ExitOutcome(s, c.x0, r)
    requires Numbered(s.table, s.nextPid)
    ensures ExitAnswer(s, c, r)
  {
    var p := s.table[s.current].value;
    forall k: nat ensures AsksFor(s.table, k, p) <==> AwaitedBy(s.table, k, p) {}
    if k: nat :| AsksFor(s.table, k, p) {
      assert AwaitedBy(s.table, k, p);
      var d := Delivery(p.parent, p.pid, c.x0);
      var j: nat :| j < |s.table| && Handed(s, r, j, d) && r.reaped == s.reaped + [d];
      forall i: nat | AsksFor(s.table, i, p) ensures i == j { assert Holds(s.table, i, p.parent); }
    }
  }

  // ---------------------------------------------------------------- kernel stacks

  /** Does this event end the use of the current process's kernel stack? */
  predicate Discards(e: Event) {
    e.Trap? && (e.cause.CallExit? || (e.cause.CallExec? && e.cause.load.Loaded?))
  }

  /** What an event for the process with this pid makes of a kernel stack: a queued one becomes free on the way into
      the kernel, unless the process queued it itself; a free one may be given to the process or to one with a new
      pid; and one in use is queued by its process when it exits or goes on in a new image. */
  predicate StackMoves(a: StackState, b: StackState, pid: nat, child: nat, trap: bool, discards: bool) {
    match a
    case Allocated(q) => b == (if discards && q == pid then QueuedToFree(q) else a)
    case QueuedToFree(q) =>
      if trap && q != pid then b == Free || b == Allocated(pid) || b == Allocated(child) else b == a
    case Free => b == Free || (trap && (b == Allocated(pid) || b == Allocated(child)))
  }

  /** The same of the handler, which frees none. */
  predicate StackHandled(a: StackState, b: StackState, pid: nat, child: nat, discards: bool) {
    if a == Free then b == Free || b == Allocated(pid) || b == Allocated(child)
    else b == if a == Allocated(pid) && discards then QueuedToFree(pid) else a
  }

  lemma HandleStacks(s: State, cause: Cause, r: State, k: nat)
    requires Entered(s) && FreshRoot(s, cause) && k < |s.stacks| && r == Handle(s, cause) && Sound(r)
    ensures |r.stacks| == |s.stacks| && s.table[s.current].Some?
    ensures StackHandled(s.stacks[k], r.stacks[k], s.table[s.current].value.pid, s.nextPid,
                         cause.CallExit? || (cause.CallExec? && cause.load.Loaded?))
  {
    assert HasState(s.table, s.current, Running);
    match cause
    case Timer => TickPlaces(s);
    case CallExit => ExitStacks(s, r, k);
    case CallWait => WaitPlaces(s, s.live.x0);
    case CallFork(root, frames) => ForkStacks(s, root, frames, r);
    case CallExec(load) => ExecStacks(s, load, r, k);
    case Other(_, _) =>
  }

  lemma OneStack(s: State, k: nat, pid: nat)
    requires Base(s) && Owns(s.stacks, k, pid)
    ensures ActiveStack(s.stacks, pid) == Some(k)
  {
    assert Owns(s.stacks, ActiveStack(s.stacks, pid).value, pid);
  }

  lemma ExitStacks(s: State, r: State, k: nat)
    requires Entered(s) && k < |s.stacks| && r == Exit(s, s.live.x0)
    ensures |r.stacks| == |s.stacks| && s.table[s.current].Some?
    ensures StackHandled(s.stacks[k], r.stacks[k], s.table[s.current].value.pid, s.nextPid, true)
  {
    FindsStack(s);
    var pid := s.table[s.current].value.pid;
    var used := ActiveStack(s.stacks, pid).value;
    TerminatePlaces(s, s.live.x0, used);
    ExitAfter(s, s.live.x0);
    if Owns(s.stacks, k, pid) { OneStack(s, k, pid); }
  }

  lemma ForkStacks(s: State, root: Option<nat>, frames: bool, r: State)
    requires Entered(s) && (root.Some? ==> root.value !in s.spaces) && r == Fork(s, root, frames) && Sound(r)
    ensures exists slot: nat :: slot < |s.stacks| && s.stacks[slot] == Free
                                && r.stacks == s.stacks[slot := Allocated(s.nextPid)]
  {
    ForkKeeps(s, root, frames);
    ForkPlaces(s, root.value);
  }

  lemma ExecStacks(s: State, load: Loading, r: State, k: nat)
    requires Entered(s) && k < |s.stacks| && r == Exec(s, load) && Sound(r)
    ensures |r.stacks| == |s.stacks| && s.table[s.current].Some?
    ensures StackHandled(s.stacks[k], r.stacks[k], s.table[s.current].value.pid, s.nextPid, load.Loaded?)
  {
    FindsStack(s);
    if load.Loaded? { ReplaceStacks(s, load.image, load.argsFit, r, k); }
  }

  lemma ReplaceStacks(s: State, m: Image, fits: bool, r: State, k: nat)
    requires Entered(s) && k < |s.stacks| && r == Replace(s, m, fits) && Sound(r)
    ensures |r.stacks| == |s.stacks| && s.table[s.current].Some?
    ensures StackHandled(s.stacks[k], r.stacks[k], s.table[s.current].value.pid, s.nextPid, true)
  {
    FindsStack(s);
    var pid := s.table[s.current].value.pid;
    var used := ActiveStack(s.stacks, pid).value;
    ReplaceIs(s, m, fits, used);
    if Owns(s.stacks, k, pid) { OneStack(s, k, pid); }
    ImagedStacks(s, m, used, StackFrom(s.stacks, Free, 0).value, r, k);
  }

  lemma ImagedStacks(s: State, m: Image, used: nat, slot: nat, r: State, k: nat)
    requires s.current < |s.table| && s.table[s.current].Some? && k < |s.stacks|
    requires Owns(s.stacks, used, s.table[s.current].value.pid) && slot < |s.stacks| && s.stacks[slot] == Free
    requires r == Imaged(s, m, s.stacks[used := QueuedToFree(s.table[s.current].value.pid)], slot)
    requires Owns(s.stacks, k, s.table[s.current].value.pid) ==> k == used
    ensures |r.stacks| == |s.stacks|
    ensures StackHandled(s.stacks[k], r.stacks[k], s.table[s.current].value.pid, s.nextPid, true)
  {
  }

  /** What becomes of every kernel stack in every event that does not end in a panic or a failed exec. */
  lemma StacksMove(s: State, e: Event, k: nat, r: State)
    requires s.current < |s.table| && Inv(s) && Sound(s) && Allowed(s, e) && s.phase == User && s.table[s.current].Some?
    requires k < |s.stacks| && r == Step(s, e) && Sound(r)
    ensures |r.stacks| == |s.stacks|
    ensures StackMoves(s.stacks[k], r.stacks[k], s.table[s.current].value.pid, s.nextPid, e.Trap?, Discards(e))
  {
    if e.Trap? {
      EnterKeeps(s, e.c, e.uart);
      var s1 := EnteredBy(s, e.c, e.uart, e.cause);
      EnterPlaces(s, e.c, e.uart);
      assert s1.stacks[k] == Released(s.stacks[k], s.table[s.current].value.pid);
      EnterIssuesNone(s, e.c, e.uart);
      HandleStacks(s1, e.cause, r, k);
    } else {
      QuietStacks(s, e);
    }
  }

  lemma EnterIssuesNone(s: State, c: Context, uart: bool)
    requires s.current < |s.table| && s.table[s.current].Some?
    ensures Enter(s, c, uart).nextPid == s.nextPid
  {
  }

  // ---------------------------------------------------------------- idling

  /** An idle kernel waits for somebody. */
  ghost predicate IdlesForSomebody(s: State) {
    s.phase == Idle ==> exists i: nat :: HasState(s.table, i, Blocked)
  }

  lemma ScheduleIdles(m: State, r: State)
    requires m.current < |m.table| && r == Schedule(m) && Nobody(m.table, Running)
    ensures IdlesForSomebody(r)
  {
    assert !HasState(m.table, m.current, Running);
    if r.phase == Idle && AnyBlocked(m.table) {
      var i :| 0 <= i < |m.table| && m.table[i].Some? && m.table[i].value.state == Blocked;
      assert HasState(r.table, i, Blocked);
    }
  }

  lemma StepIdles(s: State, e: Event, r: State)
    requires s.current < |s.table| && Inv(s) && Allowed(s, e) && IdlesForSomebody(s) && r == Step(s, e)
    ensures IdlesForSomebody(r)
  {
    if Yields(s, e) {
      var m := YieldSchedules(s, e);
      ScheduleIdles(m, r);
    } else if s.phase == User && e.Trap? {
      StaysUser(s, e, r);
    }
  }

  lemma StaysUser(s: State, e: Event, r: State)
    requires s.current < |s.table| && Inv(s) && s.phase == User && Allowed(s, e) && e.Trap? && !Yields(s, e)
    requires r == Step(s, e)
    ensures r.phase != Idle
  {
    var s1 := EnteredBy(s, e.c, e.uart, e.cause);
    HandleBusy(s1, e.cause, r);
  }

  lemma HandleBusy(s: State, cause: Cause, r: State)
    requires s.current < |s.table| && s.table[s.current].Some? && s.phase == User && r == Handle(s, cause)
    requires !cause.Timer? && !cause.CallExit? && !(cause.CallWait? && MustWait(s))
    ensures r.phase != Idle
  {
    match cause
    case CallWait =>
    case CallFork(_, _) =>
    case CallExec(_) =>
    case Other(_, _) =>
  }

  lemma {:induction false} RunIdles(s: State, es: seq<Event>)
    requires s.current < |s.table| && Inv(s) && AllowedRun(s, es) && IdlesForSomebody(s)
    ensures IdlesForSomebody(Run(s, es))
    decreases |es|
  {
    if es != [] {
      StepKeeps(s, es[0]);
      StepIdles(s, es[0], Step(s, es[0]));
      RunIdles(Step(s, es[0]), es[1..]);
    }
  }

  /** In every run the kernel idles only while some process is blocked, and halts only when all have terminated. */
  lemma IdleOrOver(s: State)
    requires Reached(s)
    ensures s.phase == Idle ==> exists i: nat :: HasState(s.table, i, Blocked)
    ensures s.phase == Halted ==>
      forall i: nat, state: ProcessState :: HasState(s.table, i, state) ==> state == Terminated
  {
    var n: nat, m: Image, es: seq<Event> :| ReachedBy(n, m, es, s);
    BootInv(n, m);
    SpawnedCore(n, m);
    ScheduleIdles(Spawned(n, m), Boot(n, m));
    RunIdles(Boot(n, m), es);
    ReachedInv(n, m, es);
  }
}
