/** What holds in every state the kernel can reach, and what each step hands over. */
module LifecycleRuns {
  import opened Words
  import opened Lifecycle
  import opened LifecycleInvariant
  import opened LifecycleSteps
  import opened LifecycleExit
  import opened LifecycleFork

  // ---------------------------------------------------------------- the invariant, over whole runs

  lemma SpawnedCore(n: nat, m: Image)
    requires n >= 2
    ensures Core(Spawned(n, m)) && Nobody(Spawned(n, m).table, Running)
  {
    var s := Spawned(n, m);
    assert Holds(s.table, 0, INIT) && HoldsAlive(s.table, 0, INIT) && UsesSpace(s.table, 0, m.root);
    assert Owns(s.stacks, 0, INIT) && InStack(0, s.table[0].value.ctx.spEl1);
  }

  lemma BootInv(n: nat, m: Image)
    requires n >= 2
    ensures Inv(Boot(n, m))
  {
    SpawnedCore(n, m);
    ScheduleKeeps(Spawned(n, m));
  }

  /** Is there a stack that a trap of the current process finds free, or frees? */
  ghost predicate StackAtHand(s: State, pid: nat) {
    exists k: nat :: k < |s.stacks| && Released(s.stacks[k], pid) == Free
  }

  ghost predicate SlotAtHand(s: State) {
    exists i: nat :: i < |s.table| && s.table[i].None?
  }

  lemma AtHand(s: State, c: Context, uart: bool)
    requires s.current < |s.table| && s.table[s.current].Some?
    ensures StackFrom(Enter(s, c, uart).stacks, Free, 0).Some? <==> StackAtHand(s, s.table[s.current].value.pid)
    ensures EmptyFrom(Enter(s, c, uart).table, 0).Some? <==> SlotAtHand(s)
  {
    var p := s.table[s.current].value;
    var stacks := FreeQueued(s.stacks, p.pid);
    assert forall k: nat | k < |stacks| :: stacks[k] == Released(s.stacks[k], p.pid);
    var mid: Table := s.table[s.current := Some(p.(ctx := c))];
    var u := Enter(s, c, uart).table;
    forall i: nat | i < |u| ensures u[i].None? <==> s.table[i].None? {
      assert u[i] == if uart then Woken(mid[i], AWAITING_UART_READ) else mid[i];
    }
    if SlotAtHand(s) {
      var i: nat :| i < |s.table| && s.table[i].None?;
      assert u[i].None?;
    }
    var e := EmptyFrom(u, 0);
    assert e.Some? ==> s.table[e.value].None?;
  }

  ghost predicate Forks(s: State, e: Event) {
    s.phase == User && s.current < |s.table| && s.table[s.current].Some? && e.Trap? && e.cause.CallFork?
  }

  ghost predicate Execs(s: State, e: Event) {
    s.phase == User && s.current < |s.table| && s.table[s.current].Some? && e.Trap? && e.cause.CallExec?
  }

  /** Is this a fork without a copy of the space, a stack, frames for it or a slot for the child? The frames are
      asked for before the slot. */
  ghost predicate ForkLacks(s: State, e: Event, site: Site) {
    Forks(s, e)
    && var space, stack := e.cause.root.Some?, StackAtHand(s, s.table[s.current].value.pid);
      if !space || !stack then site == ForkFailed
      else if !e.cause.frames then site == NoStackFrames
      else !SlotAtHand(s) && site == ForkFailed
  }

  /** Is this an exec of a file on which the loader panics? */
  ghost predicate ExecLacks(s: State, e: Event, site: Site) {
    Execs(s, e) && e.cause.load.LoadPanics? && site == LoadPanicked
  }

  /** Is this an exec that gets no stack, or whose arguments do not fit, when the old space is gone? */
  ghost predicate LeavesHalf(s: State, e: Event) {
    Execs(s, e) && e.cause.load.Loaded?
    && !(StackAtHand(s, s.table[s.current].value.pid) && e.cause.load.argsFit)
  }

  /** Is this an exec of a file with which the loader writes past a frame? */
  ghost predicate Overruns(s: State, e: Event) {
    Execs(s, e) && e.cause.load.WritesPastFrame?
  }

  /** How a handler ends that is not to end in a process, the idle loop or a halt. */
  function Ends(s: State, cause: Cause): Option<Phase> {
    match cause
    case CallFork(root, frames) => if ForkEnds(s, root, frames) == User then None else Some(ForkEnds(s, root, frames))
    case CallExec(load) => if ExecEnds(s, load) == User then None else Some(ExecEnds(s, load))
    case _ => None
  }

  lemma HandleKeeps(s: State, cause: Cause)
    requires Entered(s) && FreshRoot(s, cause)
    ensures Inv(Handle(s, cause))
    ensures if Ends(s, cause).Some? then Handle(s, cause).phase == Ends(s, cause).value else Sound(Handle(s, cause))
  {
    match cause
    case Timer => TickKeeps(s);
    case CallExit => ExitKeeps(s, s.live.x0);
    case CallWait => WaitKeeps(s);
    case CallFork(root, frames) => ForkKeeps(s, root, frames);
    case CallExec(load) => ExecKeeps(s, load);
    case Other(_, _) =>
  }

  /** Step r of s by e panics, and at which site, leaves a process half changed, or writes past a frame, exactly when
      a fork or an exec lacks what it needs. */
  ghost predicate EndsRightly(s: State, e: Event, r: State) {
    && (forall site: Site :: r.phase == Panic(site) <==>
          s.phase == Panic(site) || ForkLacks(s, e, site) || ExecLacks(s, e, site))
    && (r.phase == HalfChanged <==> s.phase == HalfChanged || LeavesHalf(s, e))
    && (r.phase == Overrun <==> s.phase == Overrun || Overruns(s, e))
  }

  lemma QuietEnds(s: State, e: Event, r: State)
    requires !Forks(s, e) && !Execs(s, e) && if Sound(s) then Sound(r) else r.phase == s.phase
    ensures EndsRightly(s, e, r)
  {
  }

  lemma TrapEnds(s: State, s1: State, e: Event, r: State)
    requires s.phase == User && s.current < |s.table| && s.table[s.current].Some? && e.Trap?
    requires StackFrom(s1.stacks, Free, 0).Some? <==> StackAtHand(s, s.table[s.current].value.pid)
    requires EmptyFrom(s1.table, 0).Some? <==> SlotAtHand(s)
    requires var end := Ends(s1, e.cause); if end.Some? then r.phase == end.value else Sound(r)
    ensures EndsRightly(s, e, r)
  {
    if !Forks(s, e) && !Execs(s, e) { QuietEnds(s, e, r); }
  }

  lemma TrapKeeps(s: State, c: Context, uart: bool, cause: Cause, s1: State, r: State)
    requires Inv(s) && s.phase == User && Allowed(s, Trap(c, uart, cause))
    requires s1 == Enter(s, c, uart) && Entered(s1) && r == Handle(s1, cause)
    ensures Inv(r) && EndsRightly(s, Trap(c, uart, cause), r)
  {
    assert HasState(s.table, s.current, Running);
    EnterSpaces(s, c, uart);
    AtHand(s, c, uart);
    HandleKeeps(s1, cause);
    TrapEnds(s, s1, Trap(c, uart, cause), r);
  }

  lemma EnterSpaces(s: State, c: Context, uart: bool)
    requires s.current < |s.table| && s.table[s.current].Some?
    ensures Enter(s, c, uart).spaces == s.spaces
  {
  }

  lemma EnteredBy(s: State, c: Context, uart: bool, cause: Cause) returns (s1: State)
    requires Inv(s) && s.phase == User && Allowed(s, Trap(c, uart, cause))
    ensures s1 == Enter(s, c, uart) && Entered(s1) && Step(s, Trap(c, uart, cause)) == Handle(s1, cause)
  {
    assert HasState(s.table, s.current, Running);
    EnterKeeps(s, c, uart);
    s1 := Enter(s, c, uart);
  }

  lemma UartKeeps(s: State, uart: bool)
    requires Inv(s) && s.phase == User
    ensures Inv(AwakeCommon(s, uart)) && AwakeCommon(s, uart).table[s.current] == s.table[s.current]
    ensures AwakeCommon(s, uart) == s.(table := AwakeCommon(s, uart).table)
  {
    if uart { WakeKeepsRunning(s, AWAITING_UART_READ); }
  }

  lemma WakeKeepsRunning(s: State, chan: nat)
    requires Inv(s) && s.phase == User && chan != 0
    ensures Inv(s.(table := Wake(s.table, chan))) && Wake(s.table, chan)[s.current] == s.table[s.current]
  {
    var r := s.(table := Wake(s.table, chan));
    WakeKeeps(s, r, chan);
    RunsIs(s, r);
  }

  lemma SpinKeeps(s: State, uart: bool)
    requires Inv(s) && s.phase == Idle
    ensures Inv(Schedule(AwakeCommon(s, uart)))
    ensures Sound(Schedule(AwakeCommon(s, uart)))
  {
    if uart {
      WakeKeeps(s, AwakeCommon(s, uart), AWAITING_UART_READ);
    }
    ScheduleKeeps(AwakeCommon(s, uart));
  }

  lemma KernelSleepKeeps(s: State, c: Context, uart: bool, chan: nat, reason: BlockReason)
    requires Inv(s) && s.phase == User && Allowed(s, KernelSleep(c, uart, chan, reason))
    ensures var r := Step(s, KernelSleep(c, uart, chan, reason)); Inv(r) && Sound(r)
  {
    assert HasState(s.table, s.current, Running);
    UartKeeps(s, uart);
    SleepKeeps(AwakeCommon(s, uart), chan, reason, c);
  }

  lemma KernelWakeKeeps(s: State, chan: nat)
    requires Inv(s) && s.phase == User && Allowed(s, KernelWake(chan))
    ensures var r := Step(s, KernelWake(chan)); Inv(r) && Sound(r)
  {
    assert HasState(s.table, s.current, Running);
    WakeKeepsRunning(s, chan);
  }

  /** One step keeps the invariant. It panics exactly when a fork lacks the copy of the space, a stack, frames or a
      slot, or the loader panics on the file of an exec: no other of these sites can be reached. It leaves a process
      half changed exactly when an exec lacks a stack, or its arguments do not fit. */
  lemma StepKeeps(s: State, e: Event)
    requires s.current < |s.table| && Inv(s) && Allowed(s, e)
    ensures Inv(Step(s, e)) && EndsRightly(s, e, Step(s, e))
  {
    if s.phase == User && e.Trap? {
      var s1 := EnteredBy(s, e.c, e.uart, e.cause);
      TrapKeeps(s, e.c, e.uart, e.cause, s1, Step(s, e));
    } else {
      QuietKeeps(s, e, Step(s, e));
      QuietEnds(s, e, Step(s, e));
    }
  }

  lemma QuietKeeps(s: State, e: Event, r: State)
    requires s.current < |s.table| && Inv(s) && Allowed(s, e) && !(s.phase == User && e.Trap?) && r == Step(s, e)
    ensures Inv(r) && if Sound(s) then Sound(r) else r.phase == s.phase
  {
    if s.phase == User {
      match e
      case KernelSleep(c, uart, chan, reason) => KernelSleepKeeps(s, c, uart, chan, reason);
      case KernelWake(chan) => KernelWakeKeeps(s, chan);
      case Spin(uart) =>
    } else if s.phase == Idle && e.Spin? {
      SpinKeeps(s, e.uart);
    }
  }

  ghost predicate AllowedRun(s: State, es: seq<Event>)
    requires s.current < |s.table|
    decreases |es|
  {
    es == [] || (Allowed(s, es[0]) && AllowedRun(Step(s, es[0]), es[1..]))
  }

  lemma {:induction false} RunKeeps(s: State, es: seq<Event>)
    requires s.current < |s.table| && Inv(s) && AllowedRun(s, es)
    ensures Inv(Run(s, es))
    decreases |es|
  {
    if es != [] {
      StepKeeps(s, es[0]);
      RunKeeps(Step(s, es[0]), es[1..]);
    }
  }

  /** Every state reached from boot satisfies the invariant. */
  lemma ReachedInv(n: nat, m: Image, es: seq<Event>)
    requires n >= 2 && AllowedRun(Boot(n, m), es)
    ensures Inv(Run(Boot(n, m), es))
  {
    BootInv(n, m);
    RunKeeps(Boot(n, m), es);
  }

  // ---------------------------------------------------------------- what the invariant says

  /** Every pid issued is either in the table, in one slot, or was reaped, once; never both. */
  lemma PidAccountedFor(s: State, pid: nat)
    requires Inv(s) && Sound(s) && 0 < pid < s.nextPid
    ensures Present(s.table, pid) <==> !WasReaped(s.reaped, pid)
    ensures forall i: nat, j: nat :: Holds(s.table, i, pid) && Holds(s.table, j, pid) ==> i == j
    ensures forall m, n | 0 <= m < |s.reaped| && 0 <= n < |s.reaped| && s.reaped[m].child == pid == s.reaped[n].child ::
      m == n
  {
    if Present(s.table, pid) {
      var i: nat :| Holds(s.table, i, pid);
    }
  }

  /** The kernel halts only when every process has terminated. */
  lemma HaltedIsOver(s: State, e: Event)
    requires s.current < |s.table| && Inv(s) && Sound(s) && Allowed(s, e) && Step(s, e).phase == Halted
    ensures forall i: nat | i < |s.table| && Step(s, e).table[i].Some? :: Step(s, e).table[i].value.state == Terminated
  {
    StepKeeps(s, e);
  }

  /** Address a is on one of the six pages of slot k that are mapped. */
  predicate OnPages(k: nat, a: nat) {
    StackStart(k) + PAGE_SIZE <= a < StackTop(k)
  }

  /** The pages of two kernel stacks are apart, and the lowest page of each slot, never mapped, is below its own. */
  lemma StacksApart(j: nat, k: nat, a: nat, b: nat)
    requires j < k && OnPages(j, a) && OnPages(k, b)
    ensures b - a > PAGE_SIZE
  {
  }

  /** Two slots, whose pages share no byte, and between whose pages lies one that is never mapped. */
  ghost predicate Apart(j: nat, k: nat) {
    && j != k
    && forall a: nat, b: nat {:trigger OnPages(j, a), OnPages(k, b)} :: OnPages(j, a) && OnPages(k, b) ==>
         a != b && (j < k ==> b - a > PAGE_SIZE) && (k < j ==> a - b > PAGE_SIZE)
  }

  /** Slot k belongs to p, and p's kernel stack pointer is in it. */
  predicate Stands(stacks: seq<StackState>, p: Process, k: nat) {
    Owns(stacks, k, p.pid) && InStack(k, p.ctx.spEl1)
  }

  /** Two living processes have their kernel stack pointers in slots of their own, apart from each other, and different
      address spaces. */
  lemma OwnStacks(s: State, i: nat, j: nat)
    requires Inv(s) && Sound(s) && i < |s.table| && j < |s.table| && i != j
    requires s.table[i].Some? && s.table[j].Some? && Alive(s.table[i].value) && Alive(s.table[j].value)
    ensures exists k: nat, m: nat ::
      Stands(s.stacks, s.table[i].value, k) && Stands(s.stacks, s.table[j].value, m) && Apart(k, m)
    ensures s.table[i].value.ctx.ttbr0 != s.table[j].value.ctx.ttbr0
  {
    var p, q := s.table[i].value, s.table[j].value;
    assert Seated(s.stacks, p) && Seated(s.stacks, q) && Holds(s.table, i, p.pid) && Holds(s.table, j, q.pid);
    var k: nat :| Owns(s.stacks, k, p.pid) && InStack(k, p.ctx.spEl1);
    var m: nat :| Owns(s.stacks, m, q.pid) && InStack(m, q.ctx.spEl1);
    assert k != m;
    forall a: nat, b: nat | OnPages(k, a) && OnPages(m, b)
      ensures a != b && (k < m ==> b - a > PAGE_SIZE) && (m < k ==> a - b > PAGE_SIZE)
    {
      if k < m { StacksApart(k, m, a, b); } else { StacksApart(m, k, b, a); }
    }
    assert Stands(s.stacks, p, k) && Stands(s.stacks, q, m) && Apart(k, m);
    assert UsesSpace(s.table, i, p.ctx.ttbr0) && UsesSpace(s.table, j, q.ctx.ttbr0);
  }

  // ---------------------------------------------------------------- the same, of every run from boot

  ghost predicate ReachedBy(n: nat, m: Image, es: seq<Event>, s: State) {
    n >= 2 && AllowedRun(Boot(n, m), es) && s == Run(Boot(n, m), es)
  }

  /** Some run from boot leads to s. */
  ghost predicate Reached(s: State) {
    exists n: nat, m: Image, es: seq<Event> :: ReachedBy(n, m, es, s)
  }

  lemma ReachedKeeps(s: State)
    requires Reached(s)
    ensures Inv(s)
  {
    var n: nat, m: Image, es: seq<Event> :| ReachedBy(n, m, es, s);
    ReachedInv(n, m, es);
  }

  /** In every run, whenever a process is in control it is the one at the current slot, the only one running, and the
      one the processor names, in its own address space. */
  lemma SingleRunner(s: State, i: nat)
    requires Reached(s) && s.phase == User
    ensures s.current < |s.table| && (HasState(s.table, i, Running) <==> i == s.current)
    ensures s.table[s.current].Some? && s.cpu == Some(s.table[s.current].value.pid)
    ensures s.live.ttbr0 == s.table[s.current].value.ctx.ttbr0
  {
    ReachedKeeps(s);
  }

  /** In every run init is in the table, and so is the parent of any other process, issued before it, and living
      unless it is init. */
  lemma NoDanglingParent(s: State, i: nat)
    requires Reached(s) && Sound(s)
    ensures Present(s.table, INIT)
    ensures i < |s.table| && s.table[i].Some? && s.table[i].value.pid != INIT ==>
      var p := s.table[i].value;
      0 < p.parent < p.pid
      && exists k: nat :: Holds(s.table, k, p.parent) && (Alive(s.table[k].value) || p.parent == INIT)
  {
    ReachedKeeps(s);
    assert i < |s.table| && s.table[i].Some? ==> HasParent(s.table, s.table[i].value);
  }

  /** In every run, a process blocked in wait has a living child it waits for; and unless it is init, no child it waits
      for is dead. */
  lemma NoMissedExit(s: State, i: nat)
    requires Reached(s) && Sound(s) && i < |s.table| && s.table[i].Some? && IsWaiting(s.table[i].value)
    ensures exists j: nat :: Awaited(s.table, j, s.table[i].value) && Alive(s.table[j].value)
    ensures s.table[i].value.pid != INIT ==>
      forall j: nat :: Awaited(s.table, j, s.table[i].value) ==> Alive(s.table[j].value)
  {
    ReachedKeeps(s);
    assert Hopeful(s.table, s.table[i].value);
  }

  /** In every run, a living process has exactly one kernel stack and a dead one none. */
  lemma OneStackEach(s: State, i: nat)
    requires Reached(s) && Sound(s) && i < |s.table| && s.table[i].Some?
    ensures Alive(s.table[i].value) <==> exists k: nat :: Owns(s.stacks, k, s.table[i].value.pid)
    ensures var pid := s.table[i].value.pid;
      forall j: nat, k: nat :: Owns(s.stacks, j, pid) && Owns(s.stacks, k, pid) ==> j == k
  {
    ReachedKeeps(s);
    StackOfLiving(s, i);
  }

  lemma StackOfLiving(s: State, i: nat)
    requires Base(s) && i < |s.table| && s.table[i].Some?
    ensures Alive(s.table[i].value) <==> exists k: nat :: Owns(s.stacks, k, s.table[i].value.pid)
  {
    var p := s.table[i].value;
    assert Holds(s.table, i, p.pid);
    if Alive(p) {
      assert Seated(s.stacks, p);
    }
    if k: nat :| Owns(s.stacks, k, p.pid) {
      assert AliveSomewhere(s.table, p.pid);
      var j: nat :| HoldsAlive(s.table, j, p.pid);
      assert Holds(s.table, j, p.pid);
    }
  }

  /** In every run, the only panics at these sites are those of a fork that lacked room or frames for a kernel stack,
      and of the loader: the kernel always finds the current process, the one it chose, the parent and the child of an
      exit, and the kernel stacks. */
  lemma OnlyLackPanics(s: State, site: Site)
    requires Reached(s) && s.phase == Panic(site)
    ensures site != CurrentGone && site != ChosenGone && site != ParentGone && site != ReapedGone
    ensures site != NoKernelStack && site != StackUnderflow
  {
    ReachedKeeps(s);
  }

  // ---------------------------------------------------------------- stacks in use

  ghost predicate FreesNothing(a: seq<StackState>, b: seq<StackState>) {
    |a| == |b| && forall k | 0 <= k < |a| :: a[k] != Free ==> b[k] != Free
  }

  lemma ExitFreesNothing(s: State, code: nat)
    requires s.current < |s.table| && s.table[s.current].Some?
    ensures FreesNothing(s.stacks, Exit(s, code).stacks)
  {
    var r := Terminate(s, code);
    assert FreesNothing(s.stacks, r.stacks);
    assert !r.phase.Panic? ==> r.table[s.current].Some? && NotifyParent(r).stacks == r.stacks;
  }

  lemma ExecFreesNothing(s: State, load: Loading)
    requires s.current < |s.table| && s.table[s.current].Some?
    ensures FreesNothing(s.stacks, Exec(s, load).stacks)
  {
  }

  lemma HandleFreesNothing(s: State, cause: Cause)
    requires s.current < |s.table| && s.table[s.current].Some?
    ensures FreesNothing(s.stacks, Handle(s, cause).stacks)
  {
    match cause
    case Timer =>
    case CallExit => ExitFreesNothing(s, s.live.x0);
    case CallWait => assert Wait(s, s.live.x0).stacks == s.stacks;
    case CallFork(_, _) =>
    case CallExec(load) => ExecFreesNothing(s, load);
    case Other(_, _) =>
  }

  lemma TrapFrees(s: State, s1: State, c: Context, uart: bool, cause: Cause, k: nat)
    requires s.current < |s.table| && s.table[s.current].Some? && s.phase == User && s1 == Enter(s, c, uart)
    requires k < |s.stacks| && s.stacks[k] != Free && Step(s, Trap(c, uart, cause)).stacks[k] == Free
    ensures s.stacks[k].QueuedToFree? && s.stacks[k].pid != s.table[s.current].value.pid
  {
    assert s1.stacks[k] == Released(s.stacks[k], s.table[s.current].value.pid);
    assert s1.table[s.current].Some?;
    HandleFreesNothing(s1, cause);
  }

  lemma QuietStacks(s: State, e: Event)
    requires s.current < |s.table| && !(s.phase == User && e.Trap?)
    ensures Step(s, e).stacks == s.stacks
  {
  }

  /** A stack that a step frees was queued by a process other than the one the step runs for. */
  lemma FreedNotInUse(s: State, e: Event, k: nat)
    requires s.current < |s.table| && Inv(s) && Sound(s)
    requires k < |s.stacks| && s.stacks[k] != Free && Step(s, e).stacks[k] == Free
    ensures s.phase == User && e.Trap? && s.stacks[k].QueuedToFree? && s.stacks[k].pid != s.table[s.current].value.pid
  {
    if s.phase == User && e.Trap? {
      assert HasState(s.table, s.current, Running);
      TrapFrees(s, Enter(s, e.c, e.uart), e.c, e.uart, e.cause, k);
    } else {
      QuietStacks(s, e);
    }
  }
}
