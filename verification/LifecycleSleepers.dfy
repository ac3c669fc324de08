/** What becomes of a process that is not in control: who is woken and who is not, and with which registers a process
    that slept goes on. */
module LifecycleSleepers {
  import opened Words
  import opened Lifecycle
  import opened LifecycleInvariant
  import opened LifecycleSteps
  import opened LifecycleExit
  import opened LifecycleFork
  import opened LifecycleRuns
  import opened LifecycleTurns
  import opened LifecycleDelivery
  import opened LifecycleOrphans

  /** The process in slot i sleeps on channel c. */
  predicate Asleep(t: Table, i: nat, c: nat) {
    i < |t| && t[i].Some? && t[i].value.state == Blocked && t[i].value.chan == c && c != 0
  }

  /** Does this event wake those who sleep on channel c: a wakeup on it, or, on the channel of the UART, a byte found
      there on the way into the kernel or in the idle loop? */
  predicate Wakes(s: State, e: Event, c: nat) {
    match e
    case KernelWake(chan) => s.phase == User && chan == c
    case Trap(_, uart, _) => s.phase == User && uart && c == 0xffff_ffff_ffff_ffff
    case KernelSleep(_, uart, _, _) => s.phase == User && uart && c == 0xffff_ffff_ffff_ffff
    case Spin(uart) => s.phase == Idle && uart && c == 0xffff_ffff_ffff_ffff
  }

  /** q is what becomes of p in an event that may wake it: the same process with the same registers, awake if it is
      woken, set running at most if it is ready. If its parent, with pid `gone`, exits, its parent is init. */
  predicate Passes(p: Process, q: Process, woken: bool, gone: Option<nat>) {
    && q.pid == p.pid && q.ctx == p.ctx && q.exitCode == p.exitCode
    && q.parent == (if gone == Some(p.parent) then INIT else p.parent)
    && if woken then (q.state == Ready || q.state == Running) && q.reason == None && q.chan == 0
       else q.reason == p.reason && q.chan == p.chan && (q.state == p.state || (p.state == Ready && q.state == Running))
  }

  predicate SlotPasses(t: Table, u: Table, i: nat, woken: bool, gone: Option<nat>) {
    i < |t| == |u| && t[i].Some? && u[i].Some? && Passes(t[i].value, u[i].value, woken, gone)
  }

  // ---------------------------------------------------------------- the parts of a step

  lemma SchedulePasses(m: State, i: nat, r: State)
    requires m.current < |m.table| && i < |m.table| && m.table[i].Some? && Nobody(m.table, Running) && r == Schedule(m)
    ensures SlotPasses(m.table, r.table, i, false, None)
  {
    ScheduledSlot(m, i);
  }

  /** q is p, woken if it sleeps on the channel of the UART and that has a byte ready. */
  predicate Roused(t: Table, u: Table, i: nat, uart: bool) {
    i < |t| == |u| && t[i].Some? && u[i].Some?
    && u[i].value == if uart && Asleep(t, i, AWAITING_UART_READ)
                     then t[i].value.(state := Ready, reason := None, chan := 0) else t[i].value
  }

  lemma RousedPasses(t: Table, u: Table, v: Table, i: nat, uart: bool, gone: Option<nat>)
    requires Roused(t, u, i, uart) && SlotPasses(u, v, i, false, gone)
    ensures SlotPasses(t, v, i, uart && Asleep(t, i, AWAITING_UART_READ), gone)
  {
  }

  lemma AwakeRouses(s: State, uart: bool, i: nat, u: Table)
    requires s.current < |s.table| && i < |s.table| && s.table[i].Some? && u == AwakeCommon(s, uart).table
    ensures Roused(s.table, u, i, uart)
  {
    assert uart ==> u[i] == Woken(s.table[i], AWAITING_UART_READ);
  }

  lemma EnterRouses(s: State, c: Context, uart: bool, i: nat, u: Table)
    requires s.current < |s.table| && s.table[s.current].Some? && i < |s.table| && s.table[i].Some? && i != s.current
    requires u == Enter(s, c, uart).table
    ensures Roused(s.table, u, i, uart)
  {
    var mid: Table := s.table[s.current := Some(s.table[s.current].value.(ctx := c))];
    assert uart ==> u[i] == Woken(mid[i], AWAITING_UART_READ);
  }

  /** The current process is set aside, and another dispatched. */
  lemma AsidePasses(s: State, m: State, q: Process, i: nat, r: State)
    requires s.current < |s.table| && Runs(s) && q.state != Running && m.current == s.current
    requires m.table == s.table[s.current := Some(q)] && i < |s.table| && i != s.current && s.table[i].Some?
    requires r == Schedule(m)
    ensures SlotPasses(s.table, r.table, i, false, None)
  {
    SetAside(s, m, q);
    SchedulePasses(m, i, r);
  }

  lemma TickPasses(s: State, i: nat, r: State)
    requires Entered(s) && i < |s.table| && i != s.current && s.table[i].Some? && r == Tick(s)
    ensures SlotPasses(s.table, r.table, i, false, None)
  {
    var q := s.table[s.current].value.(state := Ready);
    AsidePasses(s, SetCurrent(s, q), q, i, r);
  }

  lemma BlockingPasses(s: State, i: nat, r: State)
    requires Entered(s) && i < |s.table| && i != s.current && s.table[i].Some? && MustWait(s)
    requires r == Wait(s, s.live.x0)
    ensures SlotPasses(s.table, r.table, i, false, None)
  {
    var q := s.table[s.current].value.(state := Blocked, reason := Some(WaitingForChild));
    AsidePasses(s, SetCurrent(s, q), q, i, r);
  }

  lemma AnsweredPasses(s: State, i: nat, r: State)
    requires s.current < |s.table| && i < |s.table| && s.table[i].Some? && Alive(s.table[i].value)
    requires s.table[s.current].Some? && !MustWait(s) && r == Wait(s, s.live.x0)
    ensures SlotPasses(s.table, r.table, i, false, None)
  {
  }

  lemma ExitPasses(s: State, code: nat, i: nat, r: State)
    requires Entered(s) && i < |s.table| && i != s.current && s.table[i].Some?
      && !AwaitedBy(s.table, i, s.table[s.current].value)
    requires r == Exit(s, code)
    ensures SlotPasses(s.table, r.table, i, false, Some(s.table[s.current].value.pid))
  {
    var pid, m := s.table[s.current].value.pid, NotifyParent(Terminate(s, code));
    assert HasState(s.table, s.current, Running) && Holds(s.table, s.current, pid);
    assert Holds(s.table, i, s.table[i].value.pid);
    NotifiedSlot(s, code, i, m);
    ExitSchedules(s, code);
    ScheduledSlot(m, i);
  }

  lemma ExecPasses(s: State, load: Loading, i: nat, r: State)
    requires s.current < |s.table| && s.table[s.current].Some? && i < |s.table| && i != s.current && s.table[i].Some?
    requires r == Exec(s, load)
    ensures SlotPasses(s.table, r.table, i, false, None)
  {
  }

  lemma HandlePasses(s: State, cause: Cause, i: nat, r: State)
    requires Entered(s) && i < |s.table| && i != s.current && s.table[i].Some? && Alive(s.table[i].value)
    requires cause.CallExit? ==> !AwaitedBy(s.table, i, s.table[s.current].value)
    requires r == Handle(s, cause)
    ensures SlotPasses(s.table, r.table, i, false, if cause.CallExit? then Some(s.table[s.current].value.pid) else None)
  {
    match cause
    case Timer => TickPasses(s, i, r);
    case CallExit => ExitPasses(s, s.live.x0, i, r);
    case CallWait => if MustWait(s) { BlockingPasses(s, i, r); } else { AnsweredPasses(s, i, r); }
    case CallFork(root, frames) => ForkSlot(s, root, frames, i, r);
    case CallExec(load) => ExecPasses(s, load, i, r);
    case Other(_, _) =>
  }

  lemma TrapPasses(s: State, c: Context, uart: bool, cause: Cause, i: nat)
    requires Inv(s) && s.phase == User && Allowed(s, Trap(c, uart, cause))
    requires i < |s.table| && i != s.current && s.table[i].Some? && Alive(s.table[i].value)
    requires cause.CallExit? ==> !AwaitedBy(s.table, i, s.table[s.current].value)
    ensures SlotPasses(s.table, Step(s, Trap(c, uart, cause)).table, i,
                       uart && Asleep(s.table, i, AWAITING_UART_READ),
                       if cause.CallExit? then Some(s.table[s.current].value.pid) else None)
  {
    assert HasState(s.table, s.current, Running);
    var s1 := EnteredBy(s, c, uart, cause);
    EnterKeeps(s, c, uart);
    EnterRouses(s, c, uart, i, s1.table);
    EnterLeaves(s, c, uart, i);
    assert AwaitedBy(s1.table, i, s1.table[s.current].value) ==> AwaitedBy(s.table, i, s.table[s.current].value);
    var r := Step(s, Trap(c, uart, cause));
    HandlePasses(s1, cause, i, r);
    RousedPasses(s.table, s1.table, r.table, i, uart,
                 if cause.CallExit? then Some(s.table[s.current].value.pid) else None);
  }

  /** The state in which a process that goes to sleep leaves control to the scheduler. */
  function Dozing(s: State, c: Context, uart: bool, chan: nat, reason: BlockReason): (m: State)
    requires s.current < |s.table| && s.table[s.current].Some?
    ensures SameShape(s, m)
  {
    var p := s.table[s.current].value.(ctx := c, state := Blocked, chan := chan, reason := Some(reason));
    SetCurrent(AwakeCommon(s, uart), p).(cpu := None)
  }

  lemma DozingSchedules(s: State, c: Context, uart: bool, chan: nat, reason: BlockReason)
    requires Inv(s) && s.phase == User && s.table[s.current].Some?
    ensures var m := Dozing(s, c, uart, chan, reason);
      && Nobody(m.table, Running) && m.current == s.current
      && Step(s, KernelSleep(c, uart, chan, reason)) == Schedule(m)
  {
    UartKeeps(s, uart);
    DozingIs(s, c, uart, chan, reason, AwakeCommon(s, uart), Dozing(s, c, uart, chan, reason));
  }

  lemma DozingIs(s: State, c: Context, uart: bool, chan: nat, reason: BlockReason, s1: State, m: State)
    requires s.current < |s.table| && s.table[s.current].Some? && s.phase == User
    requires s1 == AwakeCommon(s, uart) && s1.table[s.current] == s.table[s.current] && Runs(s1)
    requires m == Dozing(s, c, uart, chan, reason)
    ensures Nobody(m.table, Running) && m.current == s.current
    ensures Step(s, KernelSleep(c, uart, chan, reason)) == Schedule(m)
  {
    var p := s1.table[s.current].value.(ctx := c, state := Blocked, chan := chan, reason := Some(reason));
    SetAside(s1, m, p);
  }

  lemma SleepPasses(s: State, c: Context, uart: bool, chan: nat, reason: BlockReason, i: nat)
    requires Inv(s) && s.phase == User && s.table[s.current].Some?
    requires i < |s.table| && i != s.current && s.table[i].Some?
    ensures SlotPasses(s.table, Step(s, KernelSleep(c, uart, chan, reason)).table, i,
                       uart && Asleep(s.table, i, AWAITING_UART_READ), None)
  {
    var m, r := Dozing(s, c, uart, chan, reason), Step(s, KernelSleep(c, uart, chan, reason));
    DozingSchedules(s, c, uart, chan, reason);
    AwakeRouses(s, uart, i, AwakeCommon(s, uart).table);
    assert m.table[i] == AwakeCommon(s, uart).table[i];
    SchedulePasses(m, i, r);
    RousedPasses(s.table, m.table, r.table, i, uart, None);
  }

  lemma SpinPasses(s: State, uart: bool, i: nat, m: State, r: State)
    requires Inv(s) && s.phase == Idle && i < |s.table| && s.table[i].Some?
    requires m == AwakeCommon(s, uart) && r == Schedule(m)
    ensures SlotPasses(s.table, r.table, i, uart && Asleep(s.table, i, AWAITING_UART_READ), None)
  {
    if uart { WakeKeeps(s, m, AWAITING_UART_READ); }
    AwakeRouses(s, uart, i, m.table);
    SchedulePasses(m, i, r);
    RousedPasses(s.table, m.table, r.table, i, uart, None);
  }

  lemma WakePasses(s: State, chan: nat, i: nat, r: State)
    requires s.current < |s.table| && i < |s.table| && s.table[i].Some? && r == Step(s, KernelWake(chan))
    requires s.phase == User ==> chan != 0
    ensures SlotPasses(s.table, r.table, i, s.phase == User && Asleep(s.table, i, chan), None)
  {
    assert s.phase == User ==> r.table[i] == Woken(s.table[i], chan);
  }

  // ---------------------------------------------------------------- a whole step

  /** The process in slot i is in control. */
  predicate InControl(s: State, i: nat) {
    s.phase == User && s.current == i
  }

  /** Whose children does this event orphan? */
  function Leaver(s: State, e: Event): Option<nat>
    requires s.current < |s.table|
  {
    if Exits(s, e) then Some(s.table[s.current].value.pid) else None
  }

  /** What any event does to any living process that is not in control, but a parent waiting for the process that
      exits: it wakes it exactly if it sleeps on the channel of the event, and changes nothing else of it. */
  lemma StepPasses(s: State, e: Event, i: nat)
    requires s.current < |s.table| && Inv(s) && Sound(s) && Allowed(s, e)
    requires i < |s.table| && s.table[i].Some? && Alive(s.table[i].value) && !InControl(s, i)
    requires Exits(s, e) ==> !AwaitedBy(s.table, i, s.table[s.current].value)
    ensures SlotPasses(s.table, Step(s, e).table, i,
                       Asleep(s.table, i, s.table[i].value.chan) && Wakes(s, e, s.table[i].value.chan), Leaver(s, e))
  {
    assert s.phase == User ==> HasState(s.table, s.current, Running);
    match e
    case Trap(c, uart, cause) => if s.phase == User { TrapPasses(s, c, uart, cause, i); }
    case KernelSleep(c, uart, chan, reason) => if s.phase == User { SleepPasses(s, c, uart, chan, reason, i); }
    case KernelWake(chan) => WakePasses(s, chan, i, Step(s, e));
    case Spin(uart) => if s.phase == Idle { SpinPasses(s, uart, i, AwakeCommon(s, uart), Step(s, e)); }
  }

  lemma SleeperNotRunning(s: State, i: nat, c: nat)
    requires s.current < |s.table| && Inv(s) && Asleep(s.table, i, c)
    ensures !InControl(s, i) && (Sound(s) ==> !IsWaiting(s.table[i].value))
  {
    assert s.phase == User ==> HasState(s.table, s.current, Running);
    assert Sound(s) && s.phase != Halted ==> Settled(s.table[i].value);
  }

  /** In any event, a process asleep on channel c stays asleep on it, for the same reason, unless the event wakes those
      who sleep on c; then it is ready, or already runs, without reason and channel. It is the same process with the
      same registers. */
  lemma SleeperWakes(s: State, e: Event, i: nat, c: nat)
    requires s.current < |s.table| && Inv(s) && Allowed(s, e) && Asleep(s.table, i, c)
    ensures var t, u := s.table, Step(s, e).table;
      && |u| == |t| && u[i].Some? && u[i].value.pid == t[i].value.pid && u[i].value.ctx == t[i].value.ctx
      && u[i].value.parent == (if Leaver(s, e) == Some(t[i].value.parent) then INIT else t[i].value.parent)
      && if Wakes(s, e, c)
         then (u[i].value.state == Ready || u[i].value.state == Running)
              && u[i].value.reason == None && u[i].value.chan == 0
         else Asleep(u, i, c) && u[i].value.reason == t[i].value.reason
  {
    SleeperNotRunning(s, i, c);
    if Sound(s) { StepPasses(s, e, i); }
  }

  /** A wakeup inside the kernel leaves every slot as it is but those of the processes it wakes, and all else too. */
  lemma WakeupSparesOthers(s: State, c: nat, i: nat)
    requires s.current < |s.table| && i < |s.table| && !Asleep(s.table, i, c) && c != 0
    ensures Step(s, KernelWake(c)).table[i] == s.table[i]
    ensures Step(s, KernelWake(c)) == s.(table := Step(s, KernelWake(c)).table)
  {
  }

  // ---------------------------------------------------------------- falling asleep

  /** A process that goes to sleep inside the kernel is set aside with the registers of that moment, asleep on its
      channel for its reason; and when nobody is ready the processor names nobody. */
  lemma SleepSaves(s: State, c: Context, uart: bool, chan: nat, reason: BlockReason)
    requires Inv(s) && s.phase == User && Allowed(s, KernelSleep(c, uart, chan, reason))
    ensures s.current < |s.table| && s.table[s.current].Some?
    ensures var p, r := s.table[s.current].value, Step(s, KernelSleep(c, uart, chan, reason));
      && |r.table| == |s.table| && Asleep(r.table, s.current, chan) && !InControl(r, s.current)
      && r.table[s.current].value == Process(p.pid, Blocked, Some(reason), p.parent, c, chan, p.exitCode)
      && (r.phase != User ==> r.cpu == None)
  {
    assert HasState(s.table, s.current, Running);
    var m := Dozing(s, c, uart, chan, reason);
    DozingSchedules(s, c, uart, chan, reason);
    BlockedStays(m, s.current, Step(s, KernelSleep(c, uart, chan, reason)));
  }

  /** The scheduler leaves a blocked process as it is, and does not put it in control. */
  lemma BlockedStays(m: State, i: nat, r: State)
    requires m.current < |m.table| && i < |m.table| && Nobody(m.table, Running) && HasState(m.table, i, Blocked)
    requires r == Schedule(m)
    ensures |r.table| == |m.table| && r.table[i] == m.table[i] && !InControl(r, i)
    ensures r.phase != User ==> r.cpu == m.cpu
  {
    assert !HasState(m.table, m.current, Running);
  }

  // ---------------------------------------------------------------- going on

  /** Slot i holds a living process with registers c that is not in control and does not wait for a child. */
  predicate SetDown(s: State, i: nat, c: Context) {
    && !InControl(s, i) && i < |s.table| && s.table[i].Some?
    && Alive(s.table[i].value) && !IsWaiting(s.table[i].value) && s.table[i].value.ctx == c
  }

  lemma ArrivesByDispatch(s: State, e: Event, i: nat)
    requires s.current < |s.table| && Inv(s) && Sound(s) && Allowed(s, e) && !InControl(s, i)
    requires InControl(Step(s, e), i)
    ensures Dispatches(s, e)
  {
    if !Dispatches(s, e) { DispatchlessStays(s, e); }
  }

  lemma SetDownPasses(s: State, e: Event, i: nat, c: Context, r: State)
    requires s.current < |s.table| && Inv(s) && Sound(s) && Allowed(s, e) && SetDown(s, i, c) && r == Step(s, e)
    ensures |r.table| == |s.table| && r.table[i].Some? && r.table[i].value.pid == s.table[i].value.pid
    ensures r.table[i].value.ctx == c && (InControl(r, i) || SetDown(r, i, c))
  {
    var p := s.table[i].value;
    StepPasses(s, e, i);
    StaysDown(p, r.table[i].value, Asleep(s.table, i, p.chan) && Wakes(s, e, p.chan), Leaver(s, e));
  }

  lemma StaysDown(p: Process, q: Process, woken: bool, gone: Option<nat>)
    requires Passes(p, q, woken, gone) && Alive(p) && !IsWaiting(p)
    ensures Alive(q) && !IsWaiting(q)
  {
  }

  lemma SetDownNext(s: State, e: Event, i: nat, c: Context, r: State)
    requires s.current < |s.table| && Inv(s) && Allowed(s, e) && SetDown(s, i, c) && r == Step(s, e)
    ensures |r.table| == |s.table| && r.table[i].Some? && r.table[i].value.pid == s.table[i].value.pid
    ensures if InControl(r, i) then r.live == c else SetDown(r, i, c)
  {
    if Sound(s) {
      SetDownPasses(s, e, i, c, r);
      if InControl(r, i) {
        ArrivesByDispatch(s, e, i);
        DispatchRestores(s, e);
      }
    }
  }

  /** The process in slot i is not in control in any state of the run but the last. */
  predicate AwayUntilEnd(s: State, es: seq<Event>, i: nat)
    requires s.current < |s.table|
    decreases |es|
  {
    es == [] || (!InControl(s, i) && AwayUntilEnd(Step(s, es[0]), es[1..], i))
  }

  /** Whatever happens in between, a process set down goes on with the registers with which it was set down, when it
      is next in control. */
  lemma {:induction false} GoesOn(s: State, es: seq<Event>, i: nat, c: Context)
    requires s.current < |s.table| && Inv(s) && AllowedRun(s, es) && SetDown(s, i, c)
    requires AwayUntilEnd(s, es, i) && InControl(Run(s, es), i)
    ensures var r := Run(s, es);
      |r.table| == |s.table| && r.live == c && r.table[i].Some? && r.table[i].value.pid == s.table[i].value.pid
    decreases |es|
  {
    if es != [] {
      var r := Step(s, es[0]);
      StepKeeps(s, es[0]);
      SetDownNext(s, es[0], i, c, r);
      if InControl(r, i) { assert es[1..] == []; } else { GoesOn(r, es[1..], i, c); }
    }
  }

  /** A process that slept inside the kernel goes on with the registers with which it went to sleep, so after its call
      of the sleep, when it is next in control. */
  lemma SleeperGoesOn(s: State, c: Context, uart: bool, chan: nat, reason: BlockReason, es: seq<Event>)
    requires Inv(s) && s.phase == User && Allowed(s, KernelSleep(c, uart, chan, reason))
    requires var r := Step(s, KernelSleep(c, uart, chan, reason));
      AllowedRun(r, es) && AwayUntilEnd(r, es, s.current) && InControl(Run(r, es), s.current)
    ensures var r := Run(Step(s, KernelSleep(c, uart, chan, reason)), es);
      && s.current < |s.table| == |r.table| && s.table[s.current].Some? && r.table[s.current].Some?
      && r.table[s.current].value.pid == s.table[s.current].value.pid && r.live == c
  {
    StepKeeps(s, KernelSleep(c, uart, chan, reason));
    SleepSaves(s, c, uart, chan, reason);
    GoesOn(Step(s, KernelSleep(c, uart, chan, reason)), es, s.current, c);
  }

  // ---------------------------------------------------------------- a time slice that ends

  lemma TickSaves(s: State, r: State)
    requires Entered(s) && r == Tick(s)
    ensures |r.table| == |s.table| && r.table[s.current].Some? && s.table[s.current].Some?
    ensures var p, q := s.table[s.current].value, r.table[s.current].value;
      q == p.(state := if InControl(r, s.current) then Running else Ready)
    ensures InControl(r, s.current) ==> r.live == s.live
  {
    var q := s.table[s.current].value.(state := Ready);
    var m := SetCurrent(s, q);
    SetAside(s, m, q);
    ReadyScheduled(m, s.current, r);
  }

  lemma ReadyScheduled(m: State, i: nat, r: State)
    requires m.current < |m.table| && Nobody(m.table, Running) && i < |m.table| && IsReady(m.table, i)
    requires r == Schedule(m)
    ensures var q := m.table[i].value;
      |r.table| == |m.table| && r.table[i] == Some(if InControl(r, i) then q.(state := Running) else q)
    ensures InControl(r, i) ==> r.live == m.table[i].value.ctx
  {
    assert !HasState(m.table, m.current, Running);
    ScanFinds(m.table, m.current, i);
  }

  lemma ScanFinds(t: Table, current: nat, i: nat)
    requires current < |t| && i < |t| && IsReady(t, i)
    ensures ReadyFrom(t, current, 1).Some?
  {
    ScanIsNearest(t, current, 1, i);
  }

  /** At the end of a time slice the process is ready, with the registers it came in with, or goes on with them at
      once; nothing else of it changes. */
  lemma TickSetsDown(s: State, c: Context, uart: bool)
    requires Inv(s) && s.phase == User && Allowed(s, Trap(c, uart, Timer))
    ensures s.current < |s.table| && s.table[s.current].Some?
    ensures var r := Step(s, Trap(c, uart, Timer));
      && |r.table| == |s.table| && r.table[s.current].Some?
      && r.table[s.current].value
         == s.table[s.current].value.(ctx := c, state := if InControl(r, s.current) then Running else Ready)
      && if InControl(r, s.current) then r.live == c else SetDown(r, s.current, c)
  {
    assert HasState(s.table, s.current, Running);
    EnterKeeps(s, c, uart);
    var s1 := EnteredBy(s, c, uart, Timer);
    var r := Step(s, Trap(c, uart, Timer));
    TickSaves(s1, r);
    TickedDown(s.table[s.current].value, s1.table[s.current].value, r.table[s.current].value, c,
               InControl(r, s.current));
  }

  lemma TickedDown(p: Process, p1: Process, q: Process, c: Context, chosen: bool)
    requires p1 == p.(ctx := c) && q == p1.(state := if chosen then Running else Ready)
    ensures q == p.(ctx := c, state := if chosen then Running else Ready) && Alive(q) && !IsWaiting(q)
  {
  }

  /** A process whose time slice ended goes on with the registers it came in with, when it is next in control. */
  lemma PreemptedGoesOn(s: State, c: Context, uart: bool, es: seq<Event>)
    requires Inv(s) && s.phase == User && Allowed(s, Trap(c, uart, Timer))
    requires var r := Step(s, Trap(c, uart, Timer));
      AllowedRun(r, es) && AwayUntilEnd(r, es, s.current) && InControl(Run(r, es), s.current)
    ensures var r := Run(Step(s, Trap(c, uart, Timer)), es);
      && s.current < |s.table| == |r.table| && s.table[s.current].Some? && r.table[s.current].Some?
      && r.table[s.current].value.pid == s.table[s.current].value.pid && r.live == c
  {
    StepKeeps(s, Trap(c, uart, Timer));
    TickSetsDown(s, c, uart);
    var r := Step(s, Trap(c, uart, Timer));
    if InControl(r, s.current) { assert es == []; } else { GoesOn(r, es, s.current, c); }
  }
}
