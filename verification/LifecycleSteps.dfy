/** Every step of the kernel keeps the invariant. */
module LifecycleSteps {
  import opened Words
  import opened Lifecycle
  import opened LifecycleInvariant

  /** The mode in a saved SPSR is EL0. */
  predicate InUserMode(c: Context) {
    c.spsr % 16 == 0
  }

  /** The kernel stack pointer is in the kernel stack of the process that runs. */
  ghost predicate OnOwnStack(s: State, sp: int)
    requires s.current < |s.table| && s.table[s.current].Some?
  {
    StackHolds(s.stacks, s.table[s.current].value, sp)
  }

  /** An exception from EL0 does not change the address space and finds the kernel stack pointer where the last return
      to EL0 left it. After a sleep the return was to EL1; then the kernel is to have kept to its stack. */
  ghost predicate Arrives(s: State, c: Context)
    requires s.current < |s.table| && s.table[s.current].Some?
  {
    && c.ttbr0 == s.live.ttbr0 && InUserMode(c)
    && if InUserMode(s.live) then c.spEl1 == s.live.spEl1 else OnOwnStack(s, c.spEl1)
  }

  /** What the hardware and the rest of the kernel promise of an event: exceptions arrive as above, and the kernel goes
      to sleep on the stack of the process; a new L1 table is not one in use; channels are not null; and nobody but
      `sys_wait` blocks to wait for a child. */
  ghost predicate Allowed(s: State, e: Event) {
    s.phase == User && s.current < |s.table| && s.table[s.current].Some? ==>
      match e
      case Trap(c, _, cause) => Arrives(s, c) && FreshRoot(s, cause)
      case KernelSleep(c, _, chan, reason) =>
        c.ttbr0 == s.live.ttbr0 && !InUserMode(c) && OnOwnStack(s, c.spEl1) && chan != 0 && reason != WaitingForChild
      case KernelWake(chan) => chan != 0
      case Spin(_) => true
  }

  predicate FreshRoot(s: State, cause: Cause) {
    match cause
    case CallFork(root, _) => root.Some? ==> root.value !in s.spaces
    case CallExec(load) => load.Loaded? ==> load.image.root !in s.spaces
    case _ => true
  }

  /** In a handler: the current process runs, and its saved context is the one that came in. */
  ghost predicate Entered(s: State) {
    && s.phase == User && Inv(s)
    && s.live == s.table[s.current].value.ctx
  }

  lemma RunsIs(s: State, r: State)
    requires Runs(s) && SameShape(s, r) && r.current == s.current
    requires forall i: nat :: HasState(r.table, i, Running) <==> HasState(s.table, i, Running)
    ensures Runs(r)
  {
  }

  /** The registers of the current process are saved, and the stacks queued by others are free. */
  function Saved(s: State, c: Context): (r: State)
    requires s.current < |s.table| && s.table[s.current].Some?
    ensures SameShape(s, r)
  {
    var p := s.table[s.current].value;
    SetCurrent(s, p.(ctx := c)).(live := c, stacks := FreeQueued(s.stacks, p.pid))
  }

  lemma ArrivesOnStack(s: State, c: Context) returns (k: nat)
    requires Inv(s) && s.phase == User && Arrives(s, c)
    ensures Owns(s.stacks, k, s.table[s.current].value.pid) && InStack(k, c.spEl1)
  {
    k :| Owns(s.stacks, k, s.table[s.current].value.pid) && InStack(k, c.spEl1);
  }

  lemma FreeingKeepsOwners(stacks: seq<StackState>, after: seq<StackState>, pid: nat)
    requires after == FreeQueued(stacks, pid)
    ensures SameOwners(stacks, after)
  {
    forall k: nat, other: nat ensures Owns(after, k, other) <==> Owns(stacks, k, other) {
      if k < |stacks| { assert after[k] == Released(stacks[k], pid); }
    }
  }

  lemma SavedKeeps(s: State, c: Context, r: State)
    requires Inv(s) && s.phase == User && Arrives(s, c) && r == Saved(s, c)
    ensures Core(r) && Runs(r) && StackHolds(r.stacks, r.table[r.current].value, c.spEl1)
  {
    var p := s.table[s.current].value;
    assert HasState(s.table, s.current, Running);
    FreeingKeepsOwners(s.stacks, r.stacks, p.pid);
    var q := p.(ctx := c);
    var k := ArrivesOnStack(s, c);
    assert Owns(s.stacks, k, q.pid) && Owns(r.stacks, k, q.pid) && Settled(p);
    ChangeOne(s, r, s.current, q);
    ChangeHopeful(s.table, r.table, s.current, q);
    forall i: nat ensures HasState(r.table, i, Running) <==> HasState(s.table, i, Running) {}
    RunsIs(s, r);
  }

  lemma SavedEntered(s: State, c: Context, r: State)
    requires Inv(s) && s.phase == User && Arrives(s, c) && r == Saved(s, c)
    ensures Entered(r)
  {
    assert HasState(s.table, s.current, Running);
    SavedKeeps(s, c, r);
  }

  lemma AwokenEntered(s: State, uart: bool, r: State)
    requires Entered(s) && r == AwakeCommon(s, uart)
    ensures Entered(r) && r.table[s.current] == s.table[s.current]
  {
    assert HasState(s.table, s.current, Running);
    if uart {
      WakeKeeps(s, r, AWAITING_UART_READ);
      assert r == s.(table := r.table) && r.table[s.current] == s.table[s.current];
      RunsIs(s, r);
    }
  }

  lemma EnterIs(s: State, c: Context, uart: bool)
    requires s.current < |s.table| && s.table[s.current].Some?
    ensures Enter(s, c, uart) == AwakeCommon(Saved(s, c), uart)
    ensures Enter(s, c, uart).live == c && Enter(s, c, uart).spaces == s.spaces
    ensures Enter(s, c, uart).current == s.current
  {
  }

  lemma EnterKeeps(s: State, c: Context, uart: bool)
    requires Inv(s) && s.phase == User && Arrives(s, c)
    ensures Entered(Enter(s, c, uart)) && Enter(s, c, uart).live == c && Enter(s, c, uart).spaces == s.spaces
    ensures Enter(s, c, uart).current == s.current
    ensures Enter(s, c, uart).table[s.current] == Some(s.table[s.current].value.(ctx := c))
  {
    assert HasState(s.table, s.current, Running);
    EnterIs(s, c, uart);
    var s1 := Saved(s, c);
    SavedEntered(s, c, s1);
    AwokenEntered(s1, uart, Enter(s, c, uart));
  }

  /** The current process stops running, and the next is chosen. */
  lemma LeaveKeeps(s: State, r: State, q: Process)
    requires Base(s) && AllHopeful(s.table) && Runs(s)
    requires r.table == s.table[s.current := Some(q)] && SameShape(s, r) && r.stacks == s.stacks
    requires (r.nextPid, r.spaces, r.exits, r.reaped) == (s.nextPid, s.spaces, s.exits, s.reaped)
    requires Like(s.table[s.current].value, q) && Settled(q) && q.state != Running && Seated(s.stacks, q)
    requires IsWaiting(q) ==> Hopeful(s.table, q)
    ensures Core(r) && Nobody(r.table, Running)
  {
    ChangeOne(s, r, s.current, q);
    ChangeHopeful(s.table, r.table, s.current, q);
    forall i: nat ensures !HasState(r.table, i, Running) {
      assert HasState(s.table, i, Running) ==> i == s.current;
    }
  }

  lemma TickKeeps(s: State)
    requires Entered(s)
    ensures Inv(Tick(s)) && Sound(Tick(s))
  {
    var p := s.table[s.current].value;
    var q := p.(state := Ready);
    assert Seated(s.stacks, p) && Settled(p);
    assert Seated(s.stacks, q) by {
      var k: nat :| Owns(s.stacks, k, p.pid) && InStack(k, p.ctx.spEl1);
      assert Owns(s.stacks, k, q.pid);
    }
    var r := SetCurrent(s, q);
    LeaveKeeps(s, r, q);
    ScheduleKeeps(r);
  }

  lemma SleepKeeps(s: State, chan: nat, reason: BlockReason, c: Context)
    requires Inv(s) && s.phase == User && chan != 0 && reason != WaitingForChild
    requires c.ttbr0 == s.live.ttbr0 && OnOwnStack(s, c.spEl1)
    ensures Inv(Sleep(s, chan, reason, c)) && Sound(Sleep(s, chan, reason, c))
  {
    var p := s.table[s.current].value.(ctx := c, state := Blocked, chan := chan, reason := Some(reason));
    assert Seated(s.stacks, p) by {
      var k: nat :| Owns(s.stacks, k, s.table[s.current].value.pid) && InStack(k, c.spEl1);
      assert Owns(s.stacks, k, p.pid);
    }
    var r := SetCurrent(s, p).(cpu := None);
    LeaveKeeps(s, r, p);
    ScheduleKeeps(r);
  }

  // ---------------------------------------------------------------- reaping

  lemma ReapHolds(t: Table, u: Table, i: nat)
    requires i < |t| && t[i].Some? && !Alive(t[i].value) && u == t[i := None]
    ensures forall j: nat, pid: nat :: Holds(u, j, pid) <==> Holds(t, j, pid) && j != i
    ensures forall j: nat, pid: nat :: HoldsAlive(u, j, pid) <==> HoldsAlive(t, j, pid)
    ensures forall j: nat, root: nat :: UsesSpace(u, j, root) <==> UsesSpace(t, j, root)
  {
  }

  lemma ReapRelated(t: Table, u: Table, i: nat, nextPid: nat)
    requires i < |t| && t[i].Some? && !Alive(t[i].value) && u == t[i := None]
    requires Related(t) && Numbered(t, nextPid) && t[i].value.pid != INIT
    ensures Related(u)
  {
    ReapHolds(t, u, i);
    var k: nat :| Holds(t, k, INIT);
    assert Holds(u, k, INIT);
    forall j: nat | j < |u| && u[j].Some? ensures HasParent(u, u[j].value) {
      var p := t[j].value;
      assert HasParent(t, p);
      if p.pid != INIT {
        var m: nat :| Holds(t, m, p.parent) && (Alive(t[m].value) || p.parent == INIT);
        assert Holds(u, m, p.parent);
      }
    }
  }

  lemma ReapStacked(t: Table, u: Table, i: nat, stacks: seq<StackState>, spaces: set<nat>)
    requires i < |t| && t[i].Some? && !Alive(t[i].value) && u == t[i := None]
    requires Stacked(t, stacks) && Spaced(t, spaces)
    ensures Stacked(u, stacks) && Spaced(u, spaces)
  {
    ReapHolds(t, u, i);
    forall k: nat, pid: nat | Owns(stacks, k, pid) ensures AliveSomewhere(u, pid) {
      var j: nat :| HoldsAlive(t, j, pid);
      assert HoldsAlive(u, j, pid);
    }
    forall root: nat ensures SpaceUsed(u, root) <==> SpaceUsed(t, root) {
      if SpaceUsed(t, root) { var j: nat :| UsesSpace(t, j, root); assert UsesSpace(u, j, root); }
      if SpaceUsed(u, root) { var j: nat :| UsesSpace(u, j, root); assert UsesSpace(t, j, root); }
    }
  }

  lemma ReapRecorded(t: Table, u: Table, i: nat, nextPid: nat, exits: map<nat, nat>, reaped: seq<Delivery>, d: Delivery)
    requires i < |t| && t[i].Some? && !Alive(t[i].value) && u == t[i := None]
    requires Recorded(t, nextPid, exits, reaped) && Numbered(t, nextPid)
    requires d.child == t[i].value.pid && d.code == t[i].value.exitCode
    ensures Recorded(u, nextPid, exits, reaped + [d])
  {
    ReapHolds(t, u, i);
    var after := reaped + [d];
    assert Holds(t, i, d.child);
    forall pid: nat ensures WasReaped(after, pid) <==> WasReaped(reaped, pid) || pid == d.child {
      if WasReaped(reaped, pid) {
        var n :| 0 <= n < |reaped| && reaped[n].child == pid;
        assert after[n].child == pid;
      }
      if pid == d.child { assert after[|reaped|].child == pid; }
    }
    forall m, n | 0 <= m < n < |after| ensures after[m].child != after[n].child {
      if n == |reaped| { assert reaped[m] == after[m]; assert WasReaped(reaped, reaped[m].child); }
    }
    forall pid: nat | 0 < pid < nextPid ensures Present(u, pid) || WasReaped(after, pid) {
      if Present(t, pid) && pid != d.child {
        var j: nat :| Holds(t, j, pid);
        assert Holds(u, j, pid);
      }
    }
  }

  /** A dead child other than init leaves the table, and the delivery of its code is recorded. */
  lemma ReapKeeps(s: State, r: State, i: nat, d: Delivery)
    requires Base(s) && SameShape(s, r) && i < |s.table| && s.table[i].Some? && !Alive(s.table[i].value)
    requires s.table[i].value.pid != INIT
    requires d.child == s.table[i].value.pid && d.code == s.table[i].value.exitCode
    requires r.table == s.table[i := None] && r.reaped == s.reaped + [d]
    requires (r.nextPid, r.stacks, r.spaces, r.exits) == (s.nextPid, s.stacks, s.spaces, s.exits)
    ensures Base(r)
  {
    ReapHolds(s.table, r.table, i);
    ReapRelated(s.table, r.table, i, s.nextPid);
    ReapStacked(s.table, r.table, i, s.stacks, s.spaces);
    ReapRecorded(s.table, r.table, i, s.nextPid, s.exits, s.reaped, d);
  }

  lemma ReapHopeful(t: Table, u: Table, i: nat, p: Process)
    requires i < |t| && t[i].Some? && !Alive(t[i].value) && u == t[i := None] && Hopeful(t, p)
    ensures Hopeful(u, p)
  {
    var j: nat :| Awaited(t, j, p) && Alive(t[j].value);
    assert Awaited(u, j, p);
    forall k: nat | p.pid != INIT && Awaited(u, k, p) ensures Alive(u[k].value) {
      assert Awaited(t, k, p);
    }
  }
}
