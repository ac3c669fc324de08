/** Who runs next: what a dispatch restores, and how long a ready process can be passed over. */
module LifecycleTurns {
  import opened Words
  import opened Lifecycle
  import opened LifecycleInvariant
  import opened LifecycleSteps
  import opened LifecycleExit
  import opened LifecycleFork
  import opened LifecycleRuns

  // ---------------------------------------------------------------- switching

  /** Does the current process wait for a child, none of those it may wait for having exited? */
  predicate MustWait(s: State)
    requires s.current < |s.table|
  {
    && s.table[s.current].Some?
    && DeadChildFrom(s.table, s.table[s.current].value.pid, s.live.x0, 0).None?
    && HasChild(s.table, s.table[s.current].value.pid, s.live.x0)
  }

  /** Does this step end in the scheduler: a tick, an exit, a sleep, a wait that blocks, a turn of the idle loop? */
  predicate Yields(s: State, e: Event)
    requires s.current < |s.table|
  {
    match e
    case Trap(c, uart, Timer) => s.phase == User
    case Trap(c, uart, CallExit) => s.phase == User
    case Trap(c, uart, CallWait) => s.phase == User && MustWait(Enter(s, c, uart))
    case KernelSleep(_, _, _, _) => s.phase == User
    case Spin(_) => s.phase == Idle
    case _ => false
  }

  predicate Dispatches(s: State, e: Event)
    requires s.current < |s.table|
  {
    Yields(s, e) && Step(s, e).phase == User
  }

  lemma SetAside(s: State, m: State, q: Process)
    requires s.current < |s.table| && Runs(s) && q.state != Running
    requires m.table == s.table[s.current := Some(q)]
    ensures Nobody(m.table, Running)
  {
    forall i: nat ensures !HasState(m.table, i, Running) {
      assert HasState(s.table, i, Running) ==> i == s.current;
    }
  }

  /** The state in which a yielding step calls the scheduler. */
  lemma YieldSchedules(s: State, e: Event) returns (m: State)
    requires s.current < |s.table| && Inv(s) && Allowed(s, e) && Yields(s, e)
    ensures m.current == s.current && |m.table| == |s.table| && Nobody(m.table, Running)
    ensures Step(s, e) == Schedule(m)
  {
    match e
    case Trap(c, uart, cause) =>
      assert HasState(s.table, s.current, Running);
      EnterKeeps(s, c, uart);
      m := TrapSchedules(Enter(s, c, uart), cause);
    case KernelSleep(c, uart, chan, reason) =>
      assert HasState(s.table, s.current, Running);
      UartKeeps(s, uart);
      var s1 := AwakeCommon(s, uart);
      var p := s1.table[s.current].value.(ctx := c, state := Blocked, chan := chan, reason := Some(reason));
      m := SetCurrent(s1, p).(cpu := None);
      SetAside(s1, m, p);
    case Spin(uart) =>
      m := AwakeCommon(s, uart);
      if uart { WakeKeeps(s, m, AWAITING_UART_READ); }
  }

  lemma TrapSchedules(s: State, cause: Cause) returns (m: State)
    requires Entered(s) && (cause.Timer? || cause.CallExit? || (cause.CallWait? && MustWait(s)))
    ensures m.current == s.current && |m.table| == |s.table| && Nobody(m.table, Running)
    ensures Handle(s, cause) == Schedule(m)
  {
    match cause
    case Timer =>
      var p := s.table[s.current].value.(state := Ready);
      m := SetCurrent(s, p);
      SetAside(s, m, p);
    case CallExit =>
      m := NotifyParent(Terminate(s, s.live.x0));
      ExitSchedules(s, s.live.x0);
    case CallWait =>
      var p := s.table[s.current].value.(state := Blocked, reason := Some(WaitingForChild));
      m := SetCurrent(s, p);
      SetAside(s, m, p);
  }

  /** After a dispatch the live registers are the ones saved for the process that runs. */
  lemma DispatchRestores(s: State, e: Event)
    requires s.current < |s.table| && Inv(s) && Allowed(s, e) && Dispatches(s, e)
    ensures var r := Step(s, e); HasState(r.table, r.current, Running) && r.live == r.table[r.current].value.ctx
  {
    var m := YieldSchedules(s, e);
    ScheduleRestores(m);
  }

  lemma ScheduleRestores(m: State)
    requires m.current < |m.table| && Nobody(m.table, Running) && Schedule(m).phase == User
    ensures var r := Schedule(m); HasState(r.table, r.current, Running) && r.live == r.table[r.current].value.ctx
  {
    assert !HasState(m.table, m.current, Running);
  }

  // ---------------------------------------------------------------- round robin

  /** How many slots after `current`, going round, slot i is: from 1 to n. */
  function Distance(n: nat, current: nat, i: nat): (d: nat)
    requires current < n && i < n
    ensures 1 <= d <= n
  {
    if i > current then i - current else i + n - current
  }

  /** The scan takes the nearest ready slot. */
  lemma {:induction false} ScanIsNearest(t: Table, current: nat, d: nat, i: nat)
    requires current < |t| && 1 <= d <= |t| && i < |t| && IsReady(t, i) && d <= Distance(|t|, current, i)
    ensures ReadyFrom(t, current, d).Some?
    ensures Distance(|t|, current, ReadyFrom(t, current, d).value) <= Distance(|t|, current, i)
    decreases |t| - d
  {
    AroundIs(|t|, current, d);
    if !IsReady(t, Around(|t|, current, d)) {
      assert d != Distance(|t|, current, i);
      ScanIsNearest(t, current, d + 1, i);
    }
  }

  /** A scheduling that passes over a ready process brings the scan nearer to it. */
  lemma PassedOver(m: State, i: nat)
    requires m.current < |m.table| && Nobody(m.table, Running) && Schedule(m).phase == User
    requires HasState(Schedule(m).table, i, Ready)
    ensures Distance(|m.table|, Schedule(m).current, i) < Distance(|m.table|, m.current, i)
  {
    assert !HasState(m.table, m.current, Running);
    var j := Choose(m.table, m.current).value;
    assert i != j && m.table[i] == Schedule(m).table[i];
    ScanIsNearest(m.table, m.current, 1, i);
  }

  lemma TrapStays(s: State, c: Context, uart: bool, cause: Cause)
    requires s.current < |s.table| && Inv(s) && s.phase == User && !Yields(s, Trap(c, uart, cause))
    ensures Step(s, Trap(c, uart, cause)).current == s.current
  {
    assert HasState(s.table, s.current, Running);
    var s1 := Enter(s, c, uart);
    EnterStays(s, c, uart, s1);
    HandleStays(s1, cause);
  }

  lemma EnterStays(s: State, c: Context, uart: bool, s1: State)
    requires s.current < |s.table| && s.table[s.current].Some? && s.phase == User && s1 == Enter(s, c, uart)
    ensures s1.current == s.current && s1.table[s.current].Some? && s1.phase == User
  {
  }

  lemma HandleStays(s: State, cause: Cause)
    requires s.current < |s.table| && s.table[s.current].Some?
    requires !cause.Timer? && !cause.CallExit? && !(cause.CallWait? && MustWait(s))
    ensures Handle(s, cause).current == s.current
  {
    match cause
    case CallWait =>
    case CallFork(_, _) =>
    case CallExec(_) =>
    case Other(_, _) =>
  }

  /** Nothing but a dispatch changes the current slot. */
  lemma DispatchlessStays(s: State, e: Event)
    requires s.current < |s.table| && Inv(s) && Allowed(s, e) && !Dispatches(s, e)
    ensures Step(s, e).current == s.current
  {
    if Yields(s, e) {
      var m := YieldSchedules(s, e);
      IdlingStays(m);
    } else if e.Trap? && s.phase == User {
      TrapStays(s, e.c, e.uart, e.cause);
    } else {
      QuietStays(s, e);
    }
  }

  lemma IdlingStays(m: State)
    requires m.current < |m.table| && Schedule(m).phase != User
    ensures Schedule(m).current == m.current
  {
  }

  lemma QuietStays(s: State, e: Event)
    requires s.current < |s.table| && !Yields(s, e) && !(e.Trap? && s.phase == User)
    ensures Step(s, e).current == s.current
  {
  }

  /** The number of dispatches in a run. */
  function DispatchCount(s: State, es: seq<Event>): nat
    requires s.current < |s.table|
    decreases |es|
  {
    if es == [] then 0 else (if Dispatches(s, es[0]) then 1 else 0) + DispatchCount(Step(s, es[0]), es[1..])
  }

  /** Slot i is ready in every state of the run, so it is never dispatched. */
  predicate StaysReady(s: State, es: seq<Event>, i: nat)
    requires s.current < |s.table|
    decreases |es|
  {
    HasState(s.table, i, Ready) && (es == [] || StaysReady(Step(s, es[0]), es[1..], i))
  }

  /** Bounded bypass: while a process stays ready, there are fewer dispatches than slots from the current one to its
      own, whatever happens in the run. */
  lemma {:induction false} BoundedBypass(s: State, es: seq<Event>, i: nat)
    requires s.current < |s.table| && Inv(s) && s.phase == User && AllowedRun(s, es) && StaysReady(s, es, i)
    ensures DispatchCount(s, es) < Distance(|s.table|, s.current, i) <= |s.table|
    decreases |es|
  {
    if es != [] {
      var e := es[0];
      var r := Step(s, e);
      StepKeeps(s, e);
      if Dispatches(s, e) {
        var m := YieldSchedules(s, e);
        PassedOver(m, i);
        BoundedBypass(r, es[1..], i);
      } else {
        DispatchlessStays(s, e);
        ReadyKeepsUser(s, e, i);
        if r.phase == User { BoundedBypass(r, es[1..], i); } else { NothingMore(r, es[1..]); }
      }
    }
  }

  /** With a process ready the kernel neither idles nor halts. */
  lemma ReadyKeepsUser(s: State, e: Event, i: nat)
    requires s.current < |s.table| && Inv(s) && s.phase == User && Allowed(s, e) && HasState(Step(s, e).table, i, Ready)
    ensures Step(s, e).phase == User || !Sound(Step(s, e))
  {
    StepKeeps(s, e);
  }

  /** After a panic, or an exec that went wrong half way, nothing is dispatched any more. */
  lemma {:induction false} NothingMore(s: State, es: seq<Event>)
    requires s.current < |s.table| && !Sound(s)
    ensures DispatchCount(s, es) == 0
    decreases |es|
  {
    if es != [] { NothingMore(s, es[1..]); }
  }
}
