/** Every exit code reaches the parent of the child, in the parent's own registers, exactly once. */
module LifecycleDelivery {
  import opened Words
  import opened Lifecycle
  import opened LifecycleInvariant
  import opened LifecycleSteps
  import opened LifecycleExit
  import opened LifecycleRuns

  /** Slot i holds a dead child that p, whose x0 says which one it wants, may reap. */
  predicate DeadChild(t: Table, i: nat, p: Process) {
    Awaited(t, i, p) && !Alive(t[i].value)
  }

  /** The caller of wait takes the pid and code of a dead child of its own, and goes on running. */
  predicate Took(s: State, r: State, i: nat, d: Delivery)
    requires s.current < |s.table| && s.table[s.current].Some? && i < |s.table|
  {
    && s.table[i].Some? && !Alive(s.table[i].value)
    && s.table[i].value.parent == d.parent == s.table[s.current].value.pid
    && s.table[i].value.pid == d.child && s.table[i].value.exitCode == d.code
    && r.phase == User && r.current == s.current && r.live.x0 == d.child && r.live.x1 == d.code
    && |r.table| == |s.table| && r.table[i].None?
  }

  /** The parent in slot k waits, and finds the pid and code of the process that exits in its saved registers. */
  predicate Handed(s: State, r: State, k: nat, d: Delivery)
    requires s.current < |s.table| && s.table[s.current].Some? && k < |s.table|
  {
    && s.table[s.current].value.pid == d.child && s.table[s.current].value.parent == d.parent
    && AwaitedBy(s.table, k, s.table[s.current].value)
    && |r.table| == |s.table| && r.table[s.current].None? && r.table[k].Some? && r.table[k].value.pid == d.parent
    && (r.table[k].value.state == Ready || r.table[k].value.state == Running)
    && r.table[k].value.ctx == s.table[k].value.ctx.(x0 := d.child, x1 := d.code)
  }

  /** A wait by p takes the code of a dead child exactly when p has one of those it asks for. */
  ghost predicate WaitOutcome(s: State, p: Process, r: State)
    requires s.current < |s.table| && s.table[s.current].Some?
  {
    if exists i: nat :: DeadChild(s.table, i, p)
    then exists i: nat, d: Delivery :: i < |s.table| && Took(s, r, i, d) && r.reaped == s.reaped + [d]
    else r.reaped == s.reaped
  }

  lemma WaitTakes(s: State, i: nat)
    requires s.current < |s.table| && s.table[s.current].Some? && s.phase == User
    requires DeadChildFrom(s.table, s.table[s.current].value.pid, s.live.x0, 0) == Some(i)
    ensures var r := Wait(s, s.live.x0); var c := s.table[i].value;
      var d := Delivery(s.table[s.current].value.pid, c.pid, c.exitCode);
      Took(s, r, i, d) && r.reaped == s.reaped + [d]
  {
  }

  lemma WaitFindsNone(s: State)
    requires s.current < |s.table| && s.table[s.current].Some?
    requires DeadChildFrom(s.table, s.table[s.current].value.pid, s.live.x0, 0).None?
    ensures Wait(s, s.live.x0).reaped == s.reaped
  {
  }

  lemma WaitDelivers(s: State)
    requires Entered(s)
    ensures WaitOutcome(s, s.table[s.current].value, Wait(s, s.live.x0))
  {
    var p := s.table[s.current].value;
    var dead := DeadChildFrom(s.table, p.pid, s.live.x0, 0);
    if dead.Some? {
      WaitTakes(s, dead.value);
      assert DeadChild(s.table, dead.value, p);
    } else {
      WaitFindsNone(s);
      forall i: nat ensures !DeadChild(s.table, i, p) {}
    }
  }

  lemma SchedulingCopies(m: State, k: nat)
    requires m.current < |m.table| && k < |m.table|
    ensures var r := Schedule(m); r.reaped == m.reaped && (r.table[k].None? <==> m.table[k].None?)
    ensures var r := Schedule(m); m.table[k].Some? ==>
      && Akin(m.table[k].value, r.table[k].value) && r.table[k].value.ctx == m.table[k].value.ctx
      && (r.table[k].value.state == m.table[k].value.state || r.table[k].value.state == Running)
      && (!Alive(m.table[k].value) ==> !Alive(r.table[k].value) || k == r.current)
  {
  }

  lemma TerminateLeaves(s: State, code: nat, k: nat)
    requires Entered(s) && k < |s.table|
    ensures var r, p := Terminate(s, code), s.table[s.current].value;
      && r.reaped == s.reaped && r.current == s.current
      && r.table[s.current] == Some(p.(state := Terminated, exitCode := code))
      && (k != s.current ==> AwaitedBy(r.table, k, p) == AwaitedBy(s.table, k, p))
      && (k != s.current && s.table[k].Some? ==> r.table[k].Some? && r.table[k].value.pid == s.table[k].value.pid
                                                 && r.table[k].value.ctx == s.table[k].value.ctx)
  {
    var p := s.table[s.current].value;
    TerminateBuries(s, code);
    assert Buried(s.table[k], Terminate(s, code).table[k], p.pid, code);
    assert Buried(s.table[s.current], Terminate(s, code).table[s.current], p.pid, code) && HasParent(s.table, p);
    assert k != s.current && s.table[k].Some? ==>
      Holds(s.table, k, s.table[k].value.pid)
      && Holds(s.table, s.current, p.pid);
  }

  lemma NotifyHands(t: State, k: nat)
    requires Dying(t) && k < |t.table| && AwaitedBy(t.table, k, t.table[t.current].value)
    ensures var p, r := t.table[t.current].value, Schedule(NotifyParent(t));
      && r.reaped == t.reaped + [Delivery(p.parent, p.pid, p.exitCode)] && k != t.current
      && r.table[t.current].None? && r.table[k].Some? && r.table[k].value.pid == p.parent
      && (r.table[k].value.state == Ready || r.table[k].value.state == Running)
      && r.table[k].value.ctx == t.table[k].value.ctx.(x0 := p.pid, x1 := p.exitCode)
  {
    var m := NotifyParent(t);
    AwaitedNotified(t, k);
    SchedulingCopies(m, k);
    SchedulingCopies(m, t.current);
  }

  /** A waiting parent is handed the code in the step in which the child exits. */
  lemma ExitHands(s: State, code: nat, k: nat)
    requires Entered(s) && k < |s.table| && AwaitedBy(s.table, k, s.table[s.current].value)
    ensures var p, r := s.table[s.current].value, Exit(s, code); var d := Delivery(p.parent, p.pid, code);
      r.reaped == s.reaped + [d] && Handed(s, r, k, d)
  {
    assert HasState(s.table, s.current, Running);
    TerminateLeaves(s, code, k);
    TerminateDies(s, code);
    NotifyHands(Terminate(s, code), k);
    ExitSchedules(s, code);
  }

  /** Without a waiting parent the dead process stays in the table, with its code. */
  lemma ExitStays(s: State, code: nat)
    requires Entered(s) && forall k: nat :: !AwaitedBy(s.table, k, s.table[s.current].value)
    ensures var p, r := s.table[s.current].value, Exit(s, code);
      r.reaped == s.reaped && HasState(r.table, s.current, Terminated)
      && r.table[s.current].value.pid == p.pid && r.table[s.current].value.exitCode == code
  {
    var p := s.table[s.current].value;
    var t := Terminate(s, code);
    TerminateDies(s, code);
    forall k: nat ensures !AwaitedBy(t.table, k, t.table[t.current].value) {
      if k < |s.table| {
        TerminateLeaves(s, code, k);
        assert !AwaitedBy(s.table, k, p);
      }
    }
    TerminateLeaves(s, code, s.current);
    UnawaitedKeeps(t);
    ExitSchedules(s, code);
    SchedulingCopies(t, s.current);
    DeadNotChosen(t);
  }

  lemma DeadNotChosen(t: State)
    requires t.current < |t.table| && HasState(t.table, t.current, Terminated)
    ensures HasState(Schedule(t).table, t.current, Terminated)
  {
    assert !IsReady(t.table, t.current);
  }

  // ---------------------------------------------------------------- over a step

  /** Entering the kernel changes neither the dead nor the waiting. */
  lemma EnterLeaves(s: State, c: Context, uart: bool, i: nat)
    requires Inv(s) && s.phase == User && i < |s.table|
    ensures var u := Enter(s, c, uart).table;
      s.table[i].Some? && i != s.current && (!Alive(s.table[i].value) || IsWaiting(s.table[i].value)) ==>
          u[i] == s.table[i]
    ensures var u := Enter(s, c, uart).table;
      u[i].Some? && i != s.current && (!Alive(u[i].value) || IsWaiting(u[i].value)) ==> u[i] == s.table[i]
  {
    var mid: Table := s.table[s.current := Some(s.table[s.current].value.(ctx := c))];
    assert uart ==> Enter(s, c, uart).table[i] == Woken(mid[i], AWAITING_UART_READ);
    assert s.table[i].Some? ==> Settled(s.table[i].value);
  }

  /** The current process with the registers it came in with. */
  function Caller(s: State, c: Context): Process
    requires s.current < |s.table| && s.table[s.current].Some?
  {
    s.table[s.current].value.(ctx := c)
  }

  /** s1 differs from s only in processes that run or sleep, and in the registers of the current one. */
  ghost predicate SameIdle(s: State, s1: State) {
    && s1.current == s.current < |s.table| == |s1.table| && s1.reaped == s.reaped
    && s.table[s.current].Some? && s1.table[s.current] == Some(Caller(s, s1.live))
    && !IsWaiting(s.table[s.current].value) && Alive(s.table[s.current].value)
    && (forall i: nat | i < |s.table| && i != s.current ::
          && (s.table[i].Some? && (!Alive(s.table[i].value) || IsWaiting(s.table[i].value)) ==>
              s1.table[i] == s.table[i])
          && (s1.table[i].Some? && (!Alive(s1.table[i].value) || IsWaiting(s1.table[i].value)) ==>
              s1.table[i] == s.table[i]))
  }

  lemma EnterSameIdle(s: State, c: Context, uart: bool)
    requires Inv(s) && s.phase == User && Allowed(s, Trap(c, uart, CallWait))
    ensures Entered(Enter(s, c, uart)) && Enter(s, c, uart).live == c && SameIdle(s, Enter(s, c, uart))
  {
    assert HasState(s.table, s.current, Running);
    EnterKeeps(s, c, uart);
    forall i: nat | i < |s.table| && i != s.current
      ensures var u := Enter(s, c, uart).table;
        && (s.table[i].Some? && (!Alive(s.table[i].value) || IsWaiting(s.table[i].value)) ==> u[i] == s.table[i])
        && (u[i].Some? && (!Alive(u[i].value) || IsWaiting(u[i].value)) ==> u[i] == s.table[i])
    {
      EnterLeaves(s, c, uart, i);
    }
  }

  lemma WaitSeen(s: State, s1: State, r: State)
    requires SameIdle(s, s1) && WaitOutcome(s1, Caller(s, s1.live), r)
    ensures WaitOutcome(s, Caller(s, s1.live), r)
  {
    var p := Caller(s, s1.live);
    forall i: nat ensures DeadChild(s1.table, i, p) <==> DeadChild(s.table, i, p) {}
    if i: nat, d: Delivery :| i < |s1.table| && Took(s1, r, i, d) && r.reaped == s1.reaped + [d] {
      assert i != s.current;
      assert Took(s, r, i, d);
    }
  }

  /** A wait takes the code of a dead child exactly when the caller has one of those it asks for. */
  lemma WaitStep(s: State, c: Context, uart: bool)
    requires Inv(s) && s.phase == User && Allowed(s, Trap(c, uart, CallWait))
    ensures HasState(s.table, s.current, Running)
    ensures WaitOutcome(s, Caller(s, c), Step(s, Trap(c, uart, CallWait)))
  {
    EnterSameIdle(s, c, uart);
    var s1 := Enter(s, c, uart);
    WaitDelivers(s1);
    WaitSeen(s, s1, Wait(s1, s1.live.x0));
  }

  ghost predicate ExitOutcome(s: State, code: nat, r: State)
    requires s.current < |s.table| && s.table[s.current].Some?
  {
    var p := s.table[s.current].value;
    if exists k: nat :: AwaitedBy(s.table, k, p)
    then exists k: nat :: k < |s.table| && Handed(s, r, k, Delivery(p.parent, p.pid, code))
                          && r.reaped == s.reaped + [Delivery(p.parent, p.pid, code)]
    else r.reaped == s.reaped && HasState(r.table, s.current, Terminated)
         && r.table[s.current].value.pid == p.pid && r.table[s.current].value.exitCode == code
  }

  lemma ExitDelivers(s: State, code: nat)
    requires Entered(s)
    ensures ExitOutcome(s, code, Exit(s, code))
  {
    var p := s.table[s.current].value;
    if k: nat :| AwaitedBy(s.table, k, p) {
      ExitHands(s, code, k);
    } else {
      ExitStays(s, code);
    }
  }

  lemma ExitSeen(s: State, s1: State, code: nat, r: State)
    requires SameIdle(s, s1) && ExitOutcome(s1, code, r)
    ensures ExitOutcome(s, code, r)
  {
    var p, q := s.table[s.current].value, s1.table[s.current].value;
    forall k: nat ensures AwaitedBy(s1.table, k, q) <==> AwaitedBy(s.table, k, p) {}
    var d := Delivery(p.parent, p.pid, code);
    if k: nat :| AwaitedBy(s.table, k, p) {
      var j: nat :| j < |s1.table| && Handed(s1, r, j, d) && r.reaped == s1.reaped + [d];
      assert Handed(s, r, j, d);
    }
  }

  lemma ExitOfEntered(s: State, s1: State, code: nat, r: State)
    requires Entered(s1) && SameIdle(s, s1) && s1.live.x0 == code && r == Handle(s1, CallExit)
    ensures ExitOutcome(s, code, r)
  {
    ExitDelivers(s1, code);
    ExitSeen(s, s1, code, r);
  }

  lemma TrapIs(s: State, c: Context, uart: bool, cause: Cause, s1: State)
    requires s.current < |s.table| && s.phase == User && s.table[s.current].Some? && s1 == Enter(s, c, uart)
    ensures s1.current < |s1.table| && s1.table[s1.current].Some? && Step(s, Trap(c, uart, cause)) == Handle(s1, cause)
  {
  }

  /** A child that exits while its parent waits for it is delivered in that step; otherwise it stays, with its code,
      for a later wait. */
  lemma ExitStep(s: State, c: Context, uart: bool)
    requires Inv(s) && s.phase == User && Allowed(s, Trap(c, uart, CallExit))
    ensures HasState(s.table, s.current, Running)
    ensures ExitOutcome(s, c.x0, Step(s, Trap(c, uart, CallExit)))
  {
    EnterSameIdle(s, c, uart);
    var s1 := Enter(s, c, uart);
    TrapIs(s, c, uart, CallExit, s1);
    ExitOfEntered(s, s1, c.x0, Handle(s1, CallExit));
  }

  /** Deliveries happen in no other step than these two. */
  lemma NoOtherDelivery(s: State, e: Event)
    requires s.current < |s.table| && !(e.Trap? && (e.cause.CallWait? || e.cause.CallExit?))
    ensures Step(s, e).reaped == s.reaped
  {
    match e
    case Trap(c, uart, cause) =>
      if s.phase == User && s.table[s.current].Some? {
        assert Enter(s, c, uart).table[s.current].Some? && Enter(s, c, uart).reaped == s.reaped;
        match cause
        case Timer =>
        case CallFork(_, _) =>
        case CallExec(_) =>
        case Other(_, _) =>
      }
    case KernelSleep(_, _, _, _) =>
    case KernelWake(_) =>
    case Spin(_) =>
  }

  // ---------------------------------------------------------------- the slots an exit does not concern

  /** A process notified, or passed by, leaves every other slot as it was. */
  lemma NotifyLeaves(t: State, i: nat)
    requires Dying(t) && i < |t.table| && i != t.current && !AwaitedBy(t.table, i, t.table[t.current].value)
    ensures NotifyParent(t).table[i] == t.table[i]
  {
    if k: nat :| AwaitedBy(t.table, k, t.table[t.current].value) {
      AwaitedNotified(t, k);
    } else {
      UnawaitedKeeps(t);
    }
  }

  /** What an exit does to a slot that holds neither the process that exits nor a parent waiting for it. */
  predicate Outlives(p: Option<Process>, q: Option<Process>, pid: nat) {
    && (p.Some? <==> q.Some?)
    && (p.Some? ==>
        && q.value.pid == p.value.pid && q.value.ctx == p.value.ctx && (Alive(q.value) <==> Alive(p.value))
        && q.value.parent == (if p.value.parent == pid then INIT else p.value.parent)
        && (q.value.state == p.value.state || (p.value.state == Ready && q.value.state == Running))
        && (p.value.state == Blocked ==> q.value.reason == p.value.reason))
  }

  /** What the scheduler does to a slot when nobody runs: at most, it makes a ready process run. */
  predicate Rescheduled(p: Option<Process>, q: Option<Process>) {
    && (p.Some? <==> q.Some?)
    && (p.Some? ==> q.value == p.value || (p.value.state == Ready && q.value == p.value.(state := Running)))
  }

  lemma ScheduledSlot(m: State, k: nat)
    requires m.current < |m.table| && k < |m.table| && Nobody(m.table, Running)
    ensures Rescheduled(m.table[k], Schedule(m).table[k])
  {
    assert !HasState(m.table, m.current, Running);
  }

  lemma BuriedOutlives(p: Option<Process>, q: Option<Process>, r: Option<Process>, pid: nat, code: nat)
    requires Buried(p, q, pid, code) && Rescheduled(q, r) && (p.Some? ==> p.value.pid != pid)
    ensures Outlives(p, r, pid)
  {
  }

  lemma NotifiedSlot(s: State, code: nat, j: nat, m: State)
    requires Entered(s) && j < |s.table| && j != s.current && !AwaitedBy(s.table, j, s.table[s.current].value)
    requires m == NotifyParent(Terminate(s, code))
    ensures j < |m.table| && Buried(s.table[j], m.table[j], s.table[s.current].value.pid, code)
  {
    TerminateDies(s, code);
    TerminateBuries(s, code);
    TerminateLeaves(s, code, j);
    NotifyLeaves(Terminate(s, code), j);
  }

  lemma ExitSlot(s: State, code: nat, j: nat)
    requires Entered(s) && j < |s.table| && j != s.current && !AwaitedBy(s.table, j, s.table[s.current].value)
    ensures Outlives(s.table[j], Exit(s, code).table[j], s.table[s.current].value.pid)
  {
    var pid, m := s.table[s.current].value.pid, NotifyParent(Terminate(s, code));
    assert HasState(s.table, s.current, Running) && Holds(s.table, s.current, pid);
    assert s.table[j].Some? ==> Holds(s.table, j, s.table[j].value.pid);
    NotifiedSlot(s, code, j, m);
    ExitSchedules(s, code);
    ScheduledSlot(m, j);
    BuriedOutlives(s.table[j], m.table[j], Exit(s, code).table[j], pid, code);
  }
}
