/** The life cycle of processes: the steps the kernel takes on its process table, as functions on a state. */
module Lifecycle {
  import opened Words

  datatype ProcessState = Ready | Running | Blocked | Terminated
  datatype BlockReason = WaitingForChild | MutexWait | AwaitingIO | AwaitingSleepTimeout

  /** A saved context: x0, x1 and x2, the other registers, and what the hardware keeps beside them. */
  datatype Context = Context(x0: nat, x1: nat, x2: nat, rest: seq<nat>, elr: nat, spsr: nat, spEl0: nat, spEl1: int,
                             ttbr0: nat)

  datatype Process = Process(pid: nat, state: ProcessState, reason: Option<BlockReason>, parent: nat, ctx: Context,
                             chan: nat, exitCode: nat)

  datatype StackState = Allocated(pid: nat) | QueuedToFree(pid: nat) | Free

  type Table = seq<Option<Process>>

  /** Where control is: in a process, spinning in the scheduler, halted, in a kernel panic, in a process that a
      failed exec left half changed, or anywhere, after the loader has written past a frame. */
  datatype Phase = User | Idle | Halted | Panic(site: Site) | HalfChanged | Overrun
  datatype Site = CurrentGone | ChosenGone | ParentGone | ReapedGone | NoKernelStack | StackUnderflow
                | ForkFailed | NoStackFrames | LoadPanicked

  /** The pid and exit code of a child, handed to its parent. */
  datatype Delivery = Delivery(parent: nat, child: nat, code: nat)

  /** `spaces`, `exits` and `reaped` record the L1 tables in use, the exit codes so far, and the children reaped. */
  datatype State = State(table: Table, current: nat, cpu: Option<nat>, nextPid: nat, stacks: seq<StackState>,
                         live: Context, phase: Phase,
                         spaces: set<nat>, exits: map<nat, nat>, reaped: seq<Delivery>)

  const MINUS_ONE: nat := 0xffff_ffff_ffff_ffff
  const AWAITING_UART_READ: nat := 0xffff_ffff_ffff_ffff
  const INIT: nat := 1

  // ---------------------------------------------------------------- scans

  /** `Process::find_by_id`: the first slot with this pid. */
  function FindFrom(t: Table, pid: nat, i: nat): (r: Option<nat>)
    requires i <= |t|
    ensures r.Some? ==> i <= r.value < |t| && t[r.value].Some? && t[r.value].value.pid == pid
    ensures r.None? ==> forall j | i <= j < |t| && t[j].Some? :: t[j].value.pid != pid
    decreases |t| - i
  {
    if i == |t| then None
    else if t[i].Some? && t[i].value.pid == pid then Some(i)
    else FindFrom(t, pid, i + 1)
  }

  function Find(t: Table, pid: nat): (r: Option<nat>) {
    FindFrom(t, pid, 0)
  }

  function EmptyFrom(t: Table, i: nat): (r: Option<nat>)
    requires i <= |t|
    ensures r.Some? ==> i <= r.value < |t| && t[r.value].None?
    ensures r.None? ==> forall j | i <= j < |t| :: t[j].Some?
    decreases |t| - i
  {
    if i == |t| then None else if t[i].None? then Some(i) else EmptyFrom(t, i + 1)
  }

  /** The first slot from i on in the given state. */
  function StackFrom(stacks: seq<StackState>, wanted: StackState, i: nat): (r: Option<nat>)
    requires i <= |stacks|
    ensures r.Some? ==> i <= r.value < |stacks| && stacks[r.value] == wanted
    ensures r.None? ==> forall j | i <= j < |stacks| :: stacks[j] != wanted
    decreases |stacks| - i
  {
    if i == |stacks| then None else if stacks[i] == wanted then Some(i) else StackFrom(stacks, wanted, i + 1)
  }

  /** `get_active_stack_index` */
  function ActiveStack(stacks: seq<StackState>, pid: nat): Option<nat> {
    StackFrom(stacks, Allocated(pid), 0)
  }

  const KERNEL_STACK_SIZE: nat := 0x7000
  const KERNEL_STACK_REGION_START: nat := 0xffff_ff80_8000_0000

  function StackStart(slot: nat): nat {
    KERNEL_STACK_REGION_START + slot * KERNEL_STACK_SIZE
  }

  function StackTop(slot: nat): nat {
    StackStart(slot) + KERNEL_STACK_SIZE
  }

  // ---------------------------------------------------------------- whole-table updates

  function Adopted(slot: Option<Process>, pid: nat, parent: nat): Option<Process> {
    if slot.Some? && slot.value.parent == pid then Some(slot.value.(parent := parent)) else slot
  }

  /** `Process::reparent_children_to` */
  function Reparent(t: Table, pid: nat, parent: nat): (r: Table)
    ensures |r| == |t| && forall i | 0 <= i < |t| :: r[i] == Adopted(t[i], pid, parent)
  {
    seq(|t|, i requires 0 <= i < |t| => Adopted(t[i], pid, parent))
  }

  predicate SleepsOn(p: Process, chan: nat) {
    p.state == Blocked && p.chan == chan
  }

  function Woken(slot: Option<Process>, chan: nat): Option<Process> {
    if slot.Some? && SleepsOn(slot.value, chan) then Some(slot.value.(state := Ready, reason := None, chan := 0))
    else slot
  }

  /** `Scheduler::wakeup` */
  function Wake(t: Table, chan: nat): (r: Table)
    ensures |r| == |t| && forall i | 0 <= i < |t| :: r[i] == Woken(t[i], chan)
  {
    seq(|t|, i requires 0 <= i < |t| => Woken(t[i], chan))
  }

  function Released(stack: StackState, pid: nat): StackState {
    if stack.QueuedToFree? && stack.pid != pid then Free else stack
  }

  /** `KernelStack::free_queued_stacks`: the slot a process queued stays while that process is the current one. */
  function FreeQueued(stacks: seq<StackState>, pid: nat): (r: seq<StackState>)
    ensures |r| == |stacks| && forall k | 0 <= k < |stacks| :: r[k] == Released(stacks[k], pid)
  {
    seq(|stacks|, k requires 0 <= k < |stacks| => Released(stacks[k], pid))
  }

  // ---------------------------------------------------------------- scheduling

  predicate SameShape(s: State, r: State) {
    |r.table| == |s.table| && |r.stacks| == |s.stacks| && r.current < |r.table|
  }

  predicate IsReady(t: Table, i: nat)
    requires i < |t|
  {
    t[i].Some? && t[i].value.state == Ready
  }

  /** The slot at distance j after `current`, going round. */
  function Around(n: nat, current: nat, j: nat): (r: nat)
    requires n > 0
    ensures r < n
  {
    (current + j) % n
  }

  /** The circular scan: the first ready slot at distance i or more after `current`. */
  function ReadyFrom(t: Table, current: nat, i: nat): (r: Option<nat>)
    requires 1 <= i <= |t| + 1 && |t| > 0
    ensures r.Some? ==> r.value < |t| && IsReady(t, r.value)
    ensures r.None? ==> forall j | i <= j <= |t| :: !IsReady(t, Around(|t|, current, j))
    decreases |t| + 1 - i
  {
    if i == |t| + 1 then None
    else if IsReady(t, Around(|t|, current, i)) then Some(Around(|t|, current, i))
    else ReadyFrom(t, current, i + 1)
  }

  /** `choose_next_process` */
  function Choose(t: Table, current: nat): (r: Option<nat>)
    requires current < |t|
  {
    if t[current].Some? && t[current].value.state == Running then Some(current) else ReadyFrom(t, current, 1)
  }

  predicate AnyBlocked(t: Table) {
    exists i | 0 <= i < |t| :: t[i].Some? && t[i].value.state == Blocked
  }

  /** `load_pctx` */
  function Load(s: State, i: nat): (r: State)
    requires i < |s.table| && s.current < |s.table|
    ensures SameShape(s, r)
  {
    if s.table[i].None? then s.(phase := Panic(ChosenGone))
    else
      var p := s.table[i].value.(state := Running);
      s.(current := i, table := s.table[i := Some(p)], cpu := Some(p.pid), live := p.ctx, phase := User)
  }

  /** `schedule_next`, up to its first spin: with nothing ready but something blocked the kernel is idle. */
  function Schedule(s: State): (r: State)
    requires s.current < |s.table|
    ensures SameShape(s, r)
  {
    var next := Choose(s.table, s.current);
    if next.Some? then Load(s, next.value)
    else s.(phase := if AnyBlocked(s.table) then Idle else Halted)
  }

  // ---------------------------------------------------------------- entering the kernel

  /** `awake_common_chans` when the UART has, or has not, a byte ready. */
  function AwakeCommon(s: State, uart: bool): (r: State)
    requires s.current < |s.table|
    ensures SameShape(s, r)
  {
    if uart then s.(table := Wake(s.table, AWAITING_UART_READ)) else s
  }

  /** The current process's record changed by the handler. */
  function SetCurrent(s: State, p: Process): (r: State)
    requires s.current < |s.table|
    ensures SameShape(s, r)
  {
    s.(table := s.table[s.current := Some(p)])
  }

  /** An exception from EL0 with context c: free what can be freed, save the context, wake on input. */
  function Enter(s: State, c: Context, uart: bool): (r: State)
    requires s.current < |s.table|
    ensures SameShape(s, r)
  {
    if s.table[s.current].None? then s.(phase := Panic(CurrentGone))
    else
      var p := s.table[s.current].value;
      var s1 := SetCurrent(s, p.(ctx := c)).(live := c, stacks := FreeQueued(s.stacks, p.pid));
      AwakeCommon(s1, uart)
  }

  // ---------------------------------------------------------------- the handlers, after `Enter`

  /** The timer: `timeslice_up`, then `schedule_next`. */
  function Tick(s: State): (r: State)
    requires s.current < |s.table| && s.table[s.current].Some?
    ensures SameShape(s, r)
  {
    Schedule(SetCurrent(s, s.table[s.current].value.(state := Ready)))
  }

  predicate IsWaiting(p: Process) {
    p.state == Blocked && p.reason == Some(WaitingForChild)
  }

  /** Is the child with this pid one the waiting process asked for? */
  predicate Awaits(p: Process, child: nat) {
    p.ctx.x0 == 0 || p.ctx.x0 == child
  }

  /** `Process::terminate`: the stack is queued, the children go to init, the space is freed. */
  function Terminate(s: State, code: nat): (r: State)
    requires s.current < |s.table| && s.table[s.current].Some?
    ensures SameShape(s, r)
    ensures r.table[s.current].Some?
  {
    var p := s.table[s.current].value;
    var slot := ActiveStack(s.stacks, p.pid);
    if slot.None? then s.(phase := Panic(NoKernelStack))
    else
      var dead := p.(exitCode := code, state := Terminated);
      s.(table := Reparent(s.table[s.current := Some(dead)], p.pid, INIT),
         stacks := s.stacks[slot.value := QueuedToFree(p.pid)],
         spaces := s.spaces - {p.ctx.ttbr0},
         exits := s.exits[p.pid := code])
  }

  /** The rest of `sys_exit`: a parent waiting for this child takes its code and goes on; then the next process runs. */
  function NotifyParent(s: State): (r: State)
    requires s.current < |s.table| && s.table[s.current].Some?
    ensures SameShape(s, r)
  {
    var p := s.table[s.current].value;
    var k := Find(s.table, p.parent);
    if k.None? then
      if p.parent != 0 then s.(phase := Panic(ParentGone)) else s
    else
      var q := s.table[k.value].value;
      if !(IsWaiting(q) && Awaits(q, p.pid)) then s
      else
        var woken := q.(state := Ready, ctx := q.ctx.(x0 := p.pid, x1 := p.exitCode));
        var t := s.table[k.value := Some(woken)];
        var gone := Find(t, p.pid);
        if gone.None? then s.(table := t, phase := Panic(ReapedGone))
        else s.(table := t[gone.value := None], reaped := s.reaped + [Delivery(q.pid, p.pid, p.exitCode)])
  }

  function Exit(s: State, code: nat): (r: State)
    requires s.current < |s.table| && s.table[s.current].Some?
    ensures SameShape(s, r)
  {
    var s1 := Terminate(s, code);
    if s1.phase.Panic? then s1
    else
      var s2 := NotifyParent(s1);
      if s2.phase.Panic? then s2 else Schedule(s2)
  }

  predicate IsChild(c: Process, parent: nat, target: nat) {
    c.parent == parent && (target == 0 || c.pid == target)
  }

  /** The scan of `sys_wait`: the first matching child that has terminated. */
  function DeadChildFrom(t: Table, parent: nat, target: nat, i: nat): (r: Option<nat>)
    requires i <= |t|
    ensures r.Some? ==> i <= r.value < |t| && t[r.value].Some? && IsChild(t[r.value].value, parent, target)
                        && t[r.value].value.state == Terminated
    ensures r.None? ==> forall j | i <= j < |t| && t[j].Some? && IsChild(t[j].value, parent, target) ::
                          t[j].value.state != Terminated
    decreases |t| - i
  {
    if i == |t| then None
    else if t[i].Some? && IsChild(t[i].value, parent, target) && t[i].value.state == Terminated then Some(i)
    else DeadChildFrom(t, parent, target, i + 1)
  }

  predicate HasChild(t: Table, parent: nat, target: nat) {
    exists i | 0 <= i < |t| :: t[i].Some? && IsChild(t[i].value, parent, target)
  }

  /** `sys_wait` */
  function Wait(s: State, target: nat): (r: State)
    requires s.current < |s.table| && s.table[s.current].Some?
    ensures SameShape(s, r)
  {
    var p := s.table[s.current].value;
    var dead := DeadChildFrom(s.table, p.pid, target, 0);
    if dead.Some? then
      var c := s.table[dead.value].value;
      s.(table := s.table[dead.value := None], live := s.live.(x0 := c.pid, x1 := c.exitCode),
         reaped := s.reaped + [Delivery(p.pid, c.pid, c.exitCode)])
    else if !HasChild(s.table, p.pid, target) then s.(live := s.live.(x0 := MINUS_ONE))
    else Schedule(SetCurrent(s, p.(state := Blocked, reason := Some(WaitingForChild))))
  }

  /** The child of the current process, whose stack is in slot k, with its own in the given slot. */
  function ChildOf(s: State, root: nat, slot: nat, k: nat): Process
    requires s.current < |s.table| && s.table[s.current].Some?
  {
    var p := s.table[s.current].value;
    var sp := StackTop(slot) - (StackTop(k) - p.ctx.spEl1);
    Process(s.nextPid, Ready, None, p.pid, p.ctx.(x0 := 0, ttbr0 := root, spEl1 := sp), 0, 0)
  }

  function Forked(s: State, root: nat, slot: nat, k: nat, e: nat): (r: State)
    requires s.current < |s.table| && s.table[s.current].Some? && slot < |s.stacks| && e < |s.table|
    ensures SameShape(s, r)
  {
    s.(table := s.table[e := Some(ChildOf(s, root, slot, k))], nextPid := s.nextPid + 1,
       stacks := s.stacks[slot := Allocated(s.nextPid)], live := s.live.(x0 := s.nextPid), spaces := s.spaces + {root})
  }

  /** `sys_fork`; root is the L1 table of the copied space, absent when frames ran out, and frames says whether
      there are enough of them for the pages of a new kernel stack. */
  function Fork(s: State, root: Option<nat>, frames: bool): (r: State)
    requires s.current < |s.table| && s.table[s.current].Some?
    ensures SameShape(s, r)
  {
    var p := s.table[s.current].value;
    var pid := s.nextPid;
    var had := ActiveStack(s.stacks, pid);
    var slot := if had.Some? then had else StackFrom(s.stacks, Free, 0);
    if root.None? || slot.None? then s.(phase := Panic(ForkFailed))
    else if had.None? && !frames then s.(phase := Panic(NoStackFrames))
    else
      var stacks := s.stacks[slot.value := Allocated(pid)];
      var from, empty := ActiveStack(stacks, p.pid), EmptyFrom(s.table, 0);
      if from.None? then s.(phase := Panic(NoKernelStack))
      else if p.ctx.spEl1 > StackTop(from.value) then s.(phase := Panic(StackUnderflow))
      else if empty.None? then s.(phase := Panic(ForkFailed))
      else Forked(s, root.value, slot.value, from.value, empty.value)
  }

  /** x3 to x30 as `ProcessContext::new` leaves them. */
  function ZeroRegisters(): seq<nat> {
    seq(28, i => 0)
  }

  /** What `load_elf` and `initialize_args` produced for an exec. */
  datatype Image = Image(entry: nat, argc: nat, argSp: nat, stackTop: nat, root: nat)

  /** What becomes of the file and the arguments of an exec: the call is refused before anything changes, `load_elf`
      panics or writes past a frame, or there is an image, whose arguments fit on its stack or do not. */
  datatype Loading = Refused | LoadPanics | WritesPastFrame | Loaded(image: Image, argsFit: bool)

  /** The registers with which an image starts on the kernel stack in the given slot. */
  function FirstContext(m: Image, slot: nat): Context {
    Context(m.argc, m.argSp, m.stackTop, ZeroRegisters(), m.entry, 0, m.argSp, StackTop(slot), m.root)
  }

  /** The current process with its new image, its stack in the given free slot. */
  function Imaged(s: State, m: Image, stacks: seq<StackState>, slot: nat): (r: State)
    requires s.current < |s.table| && s.table[s.current].Some? && slot < |stacks| && |stacks| == |s.stacks|
    ensures SameShape(s, r)
  {
    var p := s.table[s.current].value;
    var ctx := FirstContext(m, slot);
    SetCurrent(s, p.(ctx := ctx)).(
      stacks := stacks[slot := Allocated(p.pid)], live := ctx, spaces := s.spaces - {p.ctx.ttbr0} + {m.root})
  }

  /** `sys_exec` */
  function Exec(s: State, load: Loading): (r: State)
    requires s.current < |s.table| && s.table[s.current].Some?
    ensures SameShape(s, r)
  {
    match load
    case Refused => s.(live := s.live.(x0 := MINUS_ONE))
    case LoadPanics => s.(phase := Panic(LoadPanicked))
    case WritesPastFrame => s.(phase := Overrun)
    case Loaded(image, argsFit) => Replace(s, image, argsFit)
  }

  /** `exec` from where the old L1 table has been freed: a new stack, and the arguments on it. The frames of the old
      space are enough for the pages of the stack (`StackRoom.StackAfterTeardown`). */
  function Replace(s: State, image: Image, argsFit: bool): (r: State)
    requires s.current < |s.table| && s.table[s.current].Some?
    ensures SameShape(s, r)
  {
    var p := s.table[s.current].value;
    var used := ActiveStack(s.stacks, p.pid);
    if used.None? then s.(phase := HalfChanged)
    else
      var queued := s.stacks[used.value := QueuedToFree(p.pid)];
      var slot := StackFrom(queued, Free, 0);
      if ActiveStack(queued, p.pid).Some? || slot.None? then s.(phase := HalfChanged)
      else if !argsFit then s.(phase := HalfChanged)
      else Imaged(s, image, queued, slot.value)
  }

  /** `svc #0` from EL1, after `Scheduler::sleep` has set the channel and the reason. */
  function Sleep(s: State, chan: nat, reason: BlockReason, c: Context): (r: State)
    requires s.current < |s.table| && s.table[s.current].Some?
    ensures SameShape(s, r)
  {
    var p := s.table[s.current].value.(ctx := c, state := Blocked, chan := chan, reason := Some(reason));
    Schedule(SetCurrent(s, p).(cpu := None))
  }

  // ---------------------------------------------------------------- events and runs

  /** Why control came from EL0. `Other` is a call that only answers, in x0 and x1. */
  datatype Cause =
    | Timer
    | CallExit
    | CallWait
    | CallFork(root: Option<nat>, frames: bool)
    | CallExec(load: Loading)
    | Other(x0: nat, x1: nat)

  /** `Trap` is an exception from EL0 with registers c, `KernelSleep` a sleep inside the kernel, `KernelWake` a
      wakeup by the process inside the kernel, `Spin` one more turn of the idle loop. uart: has it a byte ready? */
  datatype Event =
    | Trap(c: Context, uart: bool, cause: Cause)
    | KernelSleep(c: Context, uart: bool, chan: nat, reason: BlockReason)
    | KernelWake(chan: nat)
    | Spin(uart: bool)

  /** The handler of an exception from EL0. */
  function Handle(s: State, cause: Cause): (r: State)
    requires s.current < |s.table| && s.table[s.current].Some?
    ensures SameShape(s, r)
  {
    match cause
    case Timer => Tick(s)
    case CallExit => Exit(s, s.live.x0)
    case CallWait => Wait(s, s.live.x0)
    case CallFork(root, frames) => Fork(s, root, frames)
    case CallExec(load) => Exec(s, load)
    case Other(x0, x1) => s.(live := s.live.(x0 := x0, x1 := x1))
  }

  /** One event. Nothing happens after a halt, a panic or an exec that went wrong half way. */
  function Step(s: State, e: Event): (r: State)
    requires s.current < |s.table|
    ensures SameShape(s, r)
  {
    match e
    case Trap(c, uart, cause) =>
      if s.phase != User then s
      else
        var s1 := Enter(s, c, uart);
        if s1.phase.Panic? then s1 else Handle(s1, cause)
    case KernelSleep(c, uart, chan, reason) =>
      if s.phase != User then s
      else if s.table[s.current].None? then s.(phase := Panic(CurrentGone))
      else Sleep(AwakeCommon(s, uart), chan, reason, c)
    case KernelWake(chan) => if s.phase != User then s else s.(table := Wake(s.table, chan))
    case Spin(uart) => if s.phase != Idle then s else Schedule(AwakeCommon(s, uart))
  }

  /** The state after a run of events. */
  function Run(s: State, es: seq<Event>): (r: State)
    requires s.current < |s.table|
    ensures SameShape(s, r)
    decreases |es|
  {
    if es == [] then s else Run(Step(s, es[0]), es[1..])
  }

  /** After boot: init has been spawned into slot 0, and `Scheduler::start` has run. */
  function Boot(n: nat, m: Image): (r: State)
    requires n >= 2
    ensures r.current < |r.table|
  {
    Schedule(Spawned(n, m))
  }

  /** Before the first scheduling: init is ready in slot 0, and the current slot, 1, is empty. */
  function Spawned(n: nat, m: Image): (r: State)
    requires n >= 2
    ensures |r.table| == n && r.current == 1
  {
    var ctx := FirstContext(m, 0);
    var init := Process(INIT, Ready, None, 0, ctx, 0, 0);
    var table: Table := seq(n, i => if i == 0 then Some(init) else None);
    var stacks := seq(n, i => if i == 0 then Allocated(INIT) else Free);
    State(table, 1, None, 2, stacks, ctx, User, {m.root}, map[], [])
  }
}
