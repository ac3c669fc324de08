/** The one process that can be left waiting beside a dead child: init, which takes over the dead without waking. */
module LifecycleOrphans {
  import opened Words
  import opened Lifecycle
  import opened LifecycleInvariant
  import opened LifecycleSteps
  import opened LifecycleExit
  import opened LifecycleFork
  import opened LifecycleRuns
  import opened LifecycleTurns
  import opened LifecycleDelivery

  /** Init waits in slot i, and slot j holds a dead child it waits for. */
  predicate Neglects(t: Table, i: nat, j: nat) {
    Holds(t, i, INIT) && IsWaiting(t[i].value) && DeadChild(t, j, t[i].value)
  }

  ghost predicate Unnoticed(t: Table) {
    exists i: nat, j: nat :: Neglects(t, i, j)
  }

  // ---------------------------------------------------------------- steps that change nothing of it

  predicate InitWaits(p: Option<Process>) {
    p.Some? && p.value.pid == INIT && IsWaiting(p.value)
  }

  predicate DeadOfInit(p: Option<Process>) {
    p.Some? && !Alive(p.value) && p.value.parent == INIT
  }

  predicate KeptSlot(p: Option<Process>, q: Option<Process>) {
    && (InitWaits(p) <==> InitWaits(q)) && (InitWaits(p) ==> q.value.ctx.x0 == p.value.ctx.x0)
    && (DeadOfInit(p) <==> DeadOfInit(q)) && (DeadOfInit(p) ==> q.value.pid == p.value.pid)
  }

  ghost predicate Kept(t: Table, u: Table) {
    |t| == |u| && forall i: nat | i < |t| :: KeptSlot(t[i], u[i])
  }

  lemma KeptSame(t: Table, u: Table)
    requires Kept(t, u)
    ensures Unnoticed(t) <==> Unnoticed(u)
  {
    forall i: nat, j: nat ensures Neglects(t, i, j) <==> Neglects(u, i, j) {
      if i < |t| && j < |t| { assert KeptSlot(t[i], u[i]) && KeptSlot(t[j], u[j]); }
    }
    if i: nat, j: nat :| Neglects(t, i, j) { assert Neglects(u, i, j); }
    if i: nat, j: nat :| Neglects(u, i, j) { assert Neglects(t, i, j); }
  }

  lemma KeptTwice(t: Table, u: Table, v: Table)
    requires Kept(t, u) && Kept(u, v)
    ensures Kept(t, v)
  {
    forall i: nat | i < |t| ensures KeptSlot(t[i], v[i]) { assert KeptSlot(t[i], u[i]) && KeptSlot(u[i], v[i]); }
  }

  lemma ScheduleKept(m: State)
    requires m.current < |m.table| && Nobody(m.table, Running)
    ensures Kept(m.table, Schedule(m).table)
  {
    forall i: nat | i < |m.table| ensures KeptSlot(m.table[i], Schedule(m).table[i]) { ScheduledSlot(m, i); }
  }

  lemma WakeKept(t: Table, chan: nat)
    requires AllSettled(t) && chan != 0
    ensures Kept(t, Wake(t, chan))
  {
    forall i: nat | i < |t| ensures KeptSlot(t[i], Wake(t, chan)[i]) {
      assert t[i].Some? ==> Settled(t[i].value);
    }
  }

  lemma EnterKept(s: State, c: Context, uart: bool)
    requires Inv(s) && s.phase == User && Arrives(s, c)
    ensures Kept(s.table, Enter(s, c, uart).table)
  {
    assert HasState(s.table, s.current, Running);
    EnterKeeps(s, c, uart);
    forall i: nat | i < |s.table| ensures KeptSlot(s.table[i], Enter(s, c, uart).table[i]) {
      if i != s.current { EnterLeaves(s, c, uart, i); }
    }
  }

  /** The current process set aside, in any state but as a waiting init, and another dispatched. */
  lemma AsideKept(s: State, m: State, q: Process)
    requires s.current < |s.table| && Runs(s) && q.state != Running && Alive(q) && !(q.pid == INIT && IsWaiting(q))
    requires m.table == s.table[s.current := Some(q)] && m.current == s.current
    ensures Kept(s.table, Schedule(m).table)
  {
    SetAside(s, m, q);
    assert HasState(s.table, s.current, Running);
    forall i: nat | i < |s.table| ensures KeptSlot(s.table[i], m.table[i]) {}
    ScheduleKept(m);
    KeptTwice(s.table, m.table, Schedule(m).table);
  }

  lemma CurrentNotWaiting(t: Table, nextPid: nat, i: nat)
    requires Numbered(t, nextPid) && Holds(t, i, INIT) && !IsWaiting(t[i].value)
    ensures !Unnoticed(t)
  {
    forall j: nat, k: nat ensures !Neglects(t, j, k) {}
  }

  lemma InitBlocks(s: State, m: State, q: Process)
    requires Entered(s) && q.pid == INIT && m.table == s.table[s.current := Some(q)] && m.current == s.current
    requires s.table[s.current].value.pid == INIT && q.state == Blocked
    requires forall j: nat :: !DeadChild(s.table, j, q)
    ensures !Unnoticed(Schedule(m).table)
  {
    assert HasState(s.table, s.current, Running);
    SetAside(s, m, q);
    assert Holds(s.table, s.current, INIT);
    forall i: nat, j: nat ensures !Neglects(m.table, i, j) {
      if Holds(m.table, i, INIT) {
        assert i != s.current ==> Holds(s.table, i, INIT);
        assert !DeadChild(s.table, j, q);
      }
    }
    ScheduleKept(m);
    KeptSame(m.table, Schedule(m).table);
  }

  lemma WaitKept(s: State, r: State)
    requires Entered(s) && r == Wait(s, s.live.x0)
    ensures Unnoticed(r.table) <==> Unnoticed(s.table)
  {
    var p := s.table[s.current].value;
    assert HasState(s.table, s.current, Running);
    var dead := DeadChildFrom(s.table, p.pid, s.live.x0, 0);
    if p.pid == INIT { CurrentNotWaiting(s.table, s.nextPid, s.current); }
    if dead.Some? {
      WaitReapsKept(s, r, dead.value);
    } else if HasChild(s.table, p.pid, s.live.x0) {
      var q := p.(state := Blocked, reason := Some(WaitingForChild));
      if p.pid == INIT {
        forall j: nat ensures !DeadChild(s.table, j, q) {}
        InitBlocks(s, SetCurrent(s, q), q);
      } else {
        AsideKept(s, SetCurrent(s, q), q);
        KeptSame(s.table, r.table);
      }
    }
  }

  lemma WaitReapsKept(s: State, r: State, i: nat)
    requires Entered(s) && r == Wait(s, s.live.x0)
    requires DeadChildFrom(s.table, s.table[s.current].value.pid, s.live.x0, 0) == Some(i)
    ensures Unnoticed(r.table) <==> Unnoticed(s.table)
  {
    var p := s.table[s.current].value;
    assert HasState(s.table, s.current, Running) && Holds(s.table, s.current, p.pid) && i != s.current;
    assert r.table == s.table[i := None];
    if p.pid == INIT {
      CurrentNotWaiting(s.table, s.nextPid, s.current);
      forall j: nat, k: nat ensures !Neglects(r.table, j, k) {
        assert Holds(r.table, j, INIT) ==> Holds(s.table, j, INIT);
      }
    } else {
      forall j: nat | j < |s.table| ensures KeptSlot(s.table[j], r.table[j]) {}
      KeptSame(s.table, r.table);
    }
  }

  lemma ForkSlot(s: State, root: Option<nat>, frames: bool, i: nat, r: State)
    requires s.current < |s.table| && s.table[s.current].Some? && i < |s.table| && r == Fork(s, root, frames)
    ensures r.table[i] == s.table[i] || (s.table[i].None? && r.table[i].Some? && r.table[i].value.state == Ready)
  {
    var empty := EmptyFrom(s.table, 0);
  }

  lemma ForkKept(s: State, root: Option<nat>, frames: bool, r: State)
    requires s.current < |s.table| && s.table[s.current].Some? && r == Fork(s, root, frames)
    ensures Kept(s.table, r.table)
  {
    forall i: nat | i < |s.table| ensures KeptSlot(s.table[i], r.table[i]) { ForkSlot(s, root, frames, i, r); }
  }

  lemma ExecKept(s: State, load: Loading, r: State)
    requires Entered(s) && r == Exec(s, load)
    ensures Kept(s.table, r.table)
  {
    assert HasState(s.table, s.current, Running);
    forall i: nat | i < |s.table| ensures KeptSlot(s.table[i], r.table[i]) {}
  }

  lemma HandleKept(s: State, cause: Cause, r: State)
    requires Entered(s) && FreshRoot(s, cause) && !cause.CallExit? && r == Handle(s, cause)
    ensures Unnoticed(r.table) <==> Unnoticed(s.table)
  {
    assert HasState(s.table, s.current, Running);
    match cause
    case Timer =>
      var q := s.table[s.current].value.(state := Ready);
      AsideKept(s, SetCurrent(s, q), q);
      KeptSame(s.table, r.table);
    case CallWait => WaitKept(s, r);
    case CallFork(root, frames) =>
      ForkKept(s, root, frames, r);
      KeptSame(s.table, r.table);
    case CallExec(load) =>
      ExecKept(s, load, r);
      KeptSame(s.table, r.table);
    case Other(_, _) =>
  }

  // ---------------------------------------------------------------- exits

  /** What an exit leaves in a slot: nothing or the dead process in its own, a parent that goes on in that of a waiting
      parent, and what was there in any other. */
  predicate ExitedSlot(t: Table, u: Table, current: nat, j: nat)
    requires current < |t| == |u| && j < |t| && t[current].Some?
  {
    var p := t[current].value;
    if j == current then
      u[j].None? || (!Alive(u[j].value) && u[j].value.pid == p.pid && u[j].value.parent == p.parent)
    else if AwaitedBy(t, j, p) then u[j].Some? && Alive(u[j].value) && u[j].value.state != Blocked
    else Outlives(t[j], u[j], p.pid)
  }

  lemma OwnSlotStays(s: State, code: nat)
    requires Entered(s) && forall k: nat :: !AwaitedBy(s.table, k, s.table[s.current].value)
    ensures ExitedSlot(s.table, Exit(s, code).table, s.current, s.current)
  {
    var p := s.table[s.current].value;
    var t := Terminate(s, code);
    TerminateDies(s, code);
    forall k: nat ensures !AwaitedBy(t.table, k, t.table[t.current].value) {
      if k < |s.table| {
        TerminateLeaves(s, code, k);
        assert !AwaitedBy(s.table, k, p);
      }
    }
    TerminateLeaves(s, code, s.current);
    UnawaitedKeeps(t);
    ExitSchedules(s, code);
    SchedulingCopies(t, s.current);
    DeadNotChosen(t);
  }

  lemma ExitSlots(s: State, code: nat, j: nat)
    requires Entered(s) && j < |s.table|
    ensures ExitedSlot(s.table, Exit(s, code).table, s.current, j)
  {
    var p := s.table[s.current].value;
    assert HasState(s.table, s.current, Running);
    if j == s.current {
      if k: nat :| AwaitedBy(s.table, k, p) { ExitHands(s, code, k); } else { OwnSlotStays(s, code); }
    } else if AwaitedBy(s.table, j, p) {
      ExitHands(s, code, j);
    } else {
      ExitSlot(s, code, j);
    }
  }

  /** A dead child of the process that exits, which init takes over. */
  predicate Orphan(t: Table, j: nat, pid: nat, target: nat) {
    j < |t| && t[j].Some? && !Alive(t[j].value) && t[j].value.parent == pid && (target == 0 || t[j].value.pid == target)
  }

  /** Init waits in slot i, and takes over the dead child in slot j from the process that exits. */
  predicate TakesOver(t: Table, i: nat, j: nat, pid: nat) {
    Holds(t, i, INIT) && IsWaiting(t[i].value) && Orphan(t, j, pid, t[i].value.ctx.x0)
  }

  ghost predicate Inherits(t: Table, pid: nat) {
    exists i: nat, j: nat :: TakesOver(t, i, j, pid)
  }

  /** Does init wait for this process, its child? */
  ghost predicate InitAwaits(t: Table, p: Process) {
    p.parent == INIT && exists i: nat :: AwaitedBy(t, i, p)
  }

  lemma ExitAwaited(t: Table, u: Table, current: nat, i: nat, nextPid: nat)
    requires current < |t| == |u| && t[current].Some? && Numbered(t, nextPid)
    requires forall j: nat | j < |t| :: ExitedSlot(t, u, current, j)
    requires AwaitedBy(t, i, t[current].value) && t[current].value.parent == INIT
    ensures !Unnoticed(u)
  {
    forall k: nat, j: nat ensures !Neglects(u, k, j) {
      if k < |u| {
        assert Holds(t, i, INIT) && (Holds(t, k, INIT) ==> k == i);
        assert ExitedSlot(t, u, current, k);
      }
    }
  }

  lemma ExitUnawaited(t: Table, u: Table, current: nat, nextPid: nat, i: nat, j: nat)
    requires current < |t| == |u| && t[current].Some? && Numbered(t, nextPid)
    requires Alive(t[current].value) && !IsWaiting(t[current].value)
    requires forall j: nat | j < |t| :: ExitedSlot(t, u, current, j)
    requires !InitAwaits(t, t[current].value)
    ensures Neglects(u, i, j) <==> Neglects(t, i, j) || TakesOver(t, i, j, t[current].value.pid)
  {
    if i < |t| && j < |t| {
      assert ExitedSlot(t, u, current, i) && ExitedSlot(t, u, current, j);
      assert Holds(t, current, t[current].value.pid);
    }
  }

  lemma ExitChanges(s: State, code: nat, r: State)
    requires Entered(s) && r == Exit(s, code)
    ensures var p := s.table[s.current].value;
      Unnoticed(r.table) <==> !InitAwaits(s.table, p) && (Unnoticed(s.table) || Inherits(s.table, p.pid))
  {
    var p := s.table[s.current].value;
    assert HasState(s.table, s.current, Running);
    forall j: nat | j < |s.table| ensures ExitedSlot(s.table, r.table, s.current, j) { ExitSlots(s, code, j); }
    if InitAwaits(s.table, p) {
      var i: nat :| AwaitedBy(s.table, i, p);
      ExitAwaited(s.table, r.table, s.current, i, s.nextPid);
    } else {
      forall i: nat, j: nat
        ensures Neglects(r.table, i, j) <==> Neglects(s.table, i, j) || TakesOver(s.table, i, j, p.pid)
      {
        ExitUnawaited(s.table, r.table, s.current, s.nextPid, i, j);
      }
      if i: nat, j: nat :| TakesOver(s.table, i, j, p.pid) { assert Neglects(r.table, i, j); }
      if i: nat, j: nat :| Neglects(s.table, i, j) { assert Neglects(r.table, i, j); }
      if i: nat, j: nat :| Neglects(r.table, i, j) {
        assert Neglects(s.table, i, j) || TakesOver(s.table, i, j, p.pid);
      }
    }
  }

  // ---------------------------------------------------------------- one step

  predicate Exits(s: State, e: Event)
    requires s.current < |s.table|
  {
    s.phase == User && s.table[s.current].Some? && e.Trap? && e.cause.CallExit?
  }

  /** Does this event make init take over a dead child it waits for, without waking? */
  ghost predicate Neglecting(s: State, e: Event)
    requires s.current < |s.table|
  {
    Exits(s, e) && var p := s.table[s.current].value; !InitAwaits(s.table, p) && Inherits(s.table, p.pid)
  }

  /** Is this the exit of a child that init waits for? */
  ghost predicate Noticing(s: State, e: Event)
    requires s.current < |s.table|
  {
    Exits(s, e) && InitAwaits(s.table, s.table[s.current].value)
  }

  lemma EnterSeesOrphans(s: State, s1: State)
    requires Inv(s) && s.phase == User && SameIdle(s, s1)
    ensures InitAwaits(s1.table, s1.table[s.current].value) <==> InitAwaits(s.table, s.table[s.current].value)
    ensures Inherits(s1.table, s.table[s.current].value.pid) <==> Inherits(s.table, s.table[s.current].value.pid)
  {
    var p, q := s.table[s.current].value, s1.table[s.current].value;
    forall k: nat ensures AwaitedBy(s1.table, k, q) <==> AwaitedBy(s.table, k, p) {}
    EnterSeesHeirs(s, s1, p);
  }

  lemma EnterSeesHeirs(s: State, s1: State, p: Process)
    requires SameIdle(s, s1) && p == s.table[s.current].value
    ensures Inherits(s1.table, p.pid) <==> Inherits(s.table, p.pid)
  {
    forall i: nat, j: nat ensures TakesOver(s1.table, i, j, p.pid) <==> TakesOver(s.table, i, j, p.pid) {}
    if i: nat, j: nat :| TakesOver(s.table, i, j, p.pid) { assert TakesOver(s1.table, i, j, p.pid); }
    if i: nat, j: nat :| TakesOver(s1.table, i, j, p.pid) { assert TakesOver(s.table, i, j, p.pid); }
  }

  lemma TrapChanges(s: State, c: Context, uart: bool, cause: Cause, s1: State, r: State)
    requires Inv(s) && s.phase == User && Allowed(s, Trap(c, uart, cause))
    requires s1 == Enter(s, c, uart) && Entered(s1) && r == Handle(s1, cause)
    ensures var e := Trap(c, uart, cause);
      Unnoticed(r.table) <==> Neglecting(s, e) || (Unnoticed(s.table) && !Noticing(s, e))
  {
    assert HasState(s.table, s.current, Running);
    EnterKept(s, c, uart);
    KeptSame(s.table, s1.table);
    if cause.CallExit? {
      EnterSameIdle(s, c, uart);
      EnterSeesOrphans(s, s1);
      ExitChanges(s1, s1.live.x0, r);
    } else {
      EnterSpaces(s, c, uart);
      HandleKept(s1, cause, r);
    }
  }

  lemma QuietSame(s: State, e: Event, r: State)
    requires s.current < |s.table| && Inv(s) && Allowed(s, e) && !(s.phase == User && e.Trap?) && r == Step(s, e)
    ensures Unnoticed(r.table) <==> Unnoticed(s.table)
  {
    if s.phase == User && e.KernelSleep? {
      assert HasState(s.table, s.current, Running);
      UartKeeps(s, e.uart);
      var s1 := AwakeCommon(s, e.uart);
      if e.uart { WakeKept(s.table, AWAITING_UART_READ); KeptSame(s.table, s1.table); }
      var q := s1.table[s.current].value.(ctx := e.c, state := Blocked, chan := e.chan, reason := Some(e.reason));
      AsideKept(s1, SetCurrent(s1, q).(cpu := None), q);
      KeptSame(s1.table, r.table);
    } else if s.phase == User && e.KernelWake? {
      WakeKept(s.table, e.chan);
      KeptSame(s.table, r.table);
    } else if s.phase == Idle && e.Spin? {
      SpinSame(s, e.uart, AwakeCommon(s, e.uart));
    }
  }

  lemma SpinSame(s: State, uart: bool, m: State)
    requires Inv(s) && s.phase == Idle && m == AwakeCommon(s, uart)
    ensures Unnoticed(Schedule(m).table) <==> Unnoticed(s.table)
  {
    if uart {
      WakeKept(s.table, AWAITING_UART_READ);
      KeptSame(s.table, m.table);
      WakeKeeps(s, m, AWAITING_UART_READ);
    }
    ScheduleKept(m);
    KeptSame(m.table, Schedule(m).table);
  }

  /** After any event init waits beside a dead child it waits for exactly when it takes over one in it, or did so before
      and the event is not the exit of a child it waits for. */
  lemma InitInheritsUnnoticed(s: State, e: Event)
    requires s.current < |s.table| && Inv(s) && Allowed(s, e)
    ensures Unnoticed(Step(s, e).table) <==> Neglecting(s, e) || (Unnoticed(s.table) && !Noticing(s, e))
  {
    if s.phase == User && e.Trap? {
      var s1 := EnteredBy(s, e.c, e.uart, e.cause);
      TrapChanges(s, e.c, e.uart, e.cause, s1, Step(s, e));
    } else {
      QuietSame(s, e, Step(s, e));
    }
  }

  // ---------------------------------------------------------------- whole runs

  /** The event with index k makes init take over a dead child unnoticed. */
  ghost predicate NeglectsAt(s: State, es: seq<Event>, k: nat)
    requires s.current < |s.table|
  {
    k < |es| && Neglecting(Run(s, es[..k]), es[k])
  }

  /** The event with index k is the exit of a child init waits for. */
  ghost predicate NoticesAt(s: State, es: seq<Event>, k: nat)
    requires s.current < |s.table|
  {
    k < |es| && Noticing(Run(s, es[..k]), es[k])
  }

  /** From the event with index k on, no child init waits for exits. */
  ghost predicate NoneNoticed(s: State, es: seq<Event>, k: nat)
    requires s.current < |s.table|
  {
    forall m: nat | k <= m :: !NoticesAt(s, es, m)
  }

  lemma Shifted(s: State, e: Event, es: seq<Event>, k: nat)
    requires s.current < |s.table|
    ensures NeglectsAt(s, [e] + es, k + 1) <==> NeglectsAt(Step(s, e), es, k)
    ensures NoticesAt(s, [e] + es, k + 1) <==> NoticesAt(Step(s, e), es, k)
  {
    if k < |es| {
      assert ([e] + es)[..k + 1] == [e] + es[..k];
      assert ([e] + es[..k])[1..] == es[..k];
    }
  }

  lemma NoneNoticedShifted(s: State, e: Event, es: seq<Event>, k: nat)
    requires s.current < |s.table|
    ensures NoneNoticed(s, [e] + es, k + 1) <==> NoneNoticed(Step(s, e), es, k)
  {
    if NoneNoticed(s, [e] + es, k + 1) {
      forall m: nat | k <= m ensures !NoticesAt(Step(s, e), es, m) { Shifted(s, e, es, m); }
    }
    if NoneNoticed(Step(s, e), es, k) {
      forall m: nat | k + 1 <= m ensures !NoticesAt(s, [e] + es, m) { Shifted(s, e, es, m - 1); }
    }
  }

  /** Some event makes init take over a dead child unnoticed, and after it no child init waits for exits. */
  ghost predicate NeglectedFor(s: State, es: seq<Event>)
    requires s.current < |s.table|
  {
    exists k: nat :: NeglectsAt(s, es, k) && NoneNoticed(s, es, k + 1)
  }

  lemma NeglectedForShifted(s: State, e: Event, es: seq<Event>)
    requires s.current < |s.table|
    ensures NeglectedFor(s, [e] + es) <==>
      (Neglecting(s, e) && NoneNoticed(Step(s, e), es, 0)) || NeglectedFor(Step(s, e), es)
  {
    assert ([e] + es)[..0] == [];
    assert NeglectsAt(s, [e] + es, 0) <==> Neglecting(s, e);
    NoneNoticedShifted(s, e, es, 0);
    if k: nat :| NeglectsAt(s, [e] + es, k) && NoneNoticed(s, [e] + es, k + 1) {
      if k > 0 {
        Shifted(s, e, es, k - 1);
        NoneNoticedShifted(s, e, es, k);
      }
    }
    if k: nat :| NeglectsAt(Step(s, e), es, k) && NoneNoticed(Step(s, e), es, k + 1) {
      Shifted(s, e, es, k);
      NoneNoticedShifted(s, e, es, k + 1);
    }
  }

  lemma NoneNoticedSplit(s: State, e: Event, es: seq<Event>)
    requires s.current < |s.table|
    ensures NoneNoticed(s, [e] + es, 0) <==> !Noticing(s, e) && NoneNoticed(Step(s, e), es, 0)
  {
    assert ([e] + es)[..0] == [];
    assert NoticesAt(s, [e] + es, 0) <==> Noticing(s, e);
    NoneNoticedShifted(s, e, es, 0);
    if NoneNoticed(s, [e] + es, 1) && !Noticing(s, e) {
      forall m: nat ensures !NoticesAt(s, [e] + es, m) {}
    }
  }

  lemma {:induction false} UnnoticedInRun(s: State, es: seq<Event>)
    requires s.current < |s.table| && Inv(s) && AllowedRun(s, es)
    ensures Unnoticed(Run(s, es).table) <==> (Unnoticed(s.table) && NoneNoticed(s, es, 0)) || NeglectedFor(s, es)
    decreases |es|
  {
    if es != [] {
      var e, rest := es[0], es[1..];
      assert es == [e] + rest;
      StepKeeps(s, e);
      UnnoticedInRun(Step(s, e), rest);
      InitInheritsUnnoticed(s, e);
      NeglectedForShifted(s, e, rest);
      NoneNoticedSplit(s, e, rest);
    }
  }

  /** In a run from boot, init stays beside a dead child it waits for exactly when some exit made it take one over, and
      no child it waits for has exited since. */
  lemma UnnoticedSinceBoot(n: nat, m: Image, es: seq<Event>)
    requires n >= 2 && AllowedRun(Boot(n, m), es)
    ensures Unnoticed(Run(Boot(n, m), es).table) <==> NeglectedFor(Boot(n, m), es)
  {
    BootInv(n, m);
    SpawnedCore(n, m);
    var s := Spawned(n, m);
    forall i: nat, j: nat ensures !Neglects(s.table, i, j) {}
    ScheduleKept(s);
    KeptSame(s.table, Boot(n, m).table);
    UnnoticedInRun(Boot(n, m), es);
  }
}
