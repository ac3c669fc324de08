/** `sys_fork` and `sys_exec` keep the invariant, and fail exactly when a resource is lacking. */
module LifecycleFork {
  import opened Words
  import opened Lifecycle
  import opened LifecycleInvariant
  import opened LifecycleSteps
  import opened LifecycleExit

  // ---------------------------------------------------------------- a new process

  /** The child takes the empty slot e. */
  predicate Birth(t: Table, u: Table, e: nat, child: Process) {
    e < |t| && t[e].None? && u == t[e := Some(child)]
  }

  lemma BirthHolds(t: Table, u: Table, e: nat, child: Process)
    requires Birth(t, u, e, child) && Alive(child)
    ensures forall i: nat, pid: nat :: Holds(u, i, pid) <==> Holds(t, i, pid) || (i == e && pid == child.pid)
    ensures forall i: nat, pid: nat :: HoldsAlive(u, i, pid) <==> HoldsAlive(t, i, pid) || (i == e && pid == child.pid)
    ensures forall i: nat, root: nat ::
      UsesSpace(u, i, root) <==> UsesSpace(t, i, root) || (i == e && root == child.ctx.ttbr0)
  {
  }

  lemma BirthRelated(t: Table, u: Table, e: nat, child: Process, parent: nat)
    requires Birth(t, u, e, child) && Alive(child) && Related(t)
    requires HoldsAlive(t, parent, child.parent) && 0 < child.parent < child.pid
    ensures Related(u)
  {
    BirthHolds(t, u, e, child);
    var k: nat :| Holds(t, k, INIT);
    assert Holds(u, k, INIT);
    assert Holds(u, parent, child.parent);
    forall i: nat | i < |u| && u[i].Some? ensures HasParent(u, u[i].value) {
      if i != e && u[i].value.pid != INIT {
        assert HasParent(t, t[i].value);
        var j: nat :| Holds(t, j, t[i].value.parent) && (Alive(t[j].value) || t[i].value.parent == INIT);
        assert Holds(u, j, t[i].value.parent);
      }
    }
  }

  lemma BirthStacked(t: Table, u: Table, e: nat, child: Process, stacks: seq<StackState>, after: seq<StackState>,
                     slot: nat)
    requires Birth(t, u, e, child) && Alive(child) && Stacked(t, stacks)
    requires slot < |stacks| && stacks[slot] == Free && after == stacks[slot := Allocated(child.pid)]
    requires forall k: nat :: !Owns(stacks, k, child.pid)
    requires InStack(slot, child.ctx.spEl1)
    ensures Stacked(u, after)
  {
    BirthHolds(t, u, e, child);
    forall k: nat, pid: nat ensures Owns(after, k, pid) <==> Owns(stacks, k, pid) || (k == slot && pid == child.pid) {}
    forall k: nat, pid: nat | Owns(after, k, pid) ensures AliveSomewhere(u, pid) {
      if pid == child.pid {
        assert HoldsAlive(u, e, pid);
      } else {
        assert Owns(stacks, k, pid);
        var i: nat :| HoldsAlive(t, i, pid);
        assert HoldsAlive(u, i, pid);
      }
    }
    forall i: nat | i < |u| && u[i].Some? && Alive(u[i].value) ensures Seated(after, u[i].value) {
      if i == e {
        assert Owns(after, slot, child.pid);
      } else {
        assert Seated(stacks, t[i].value);
        var k: nat :| Owns(stacks, k, t[i].value.pid) && InStack(k, t[i].value.ctx.spEl1);
        assert Owns(after, k, u[i].value.pid);
      }
    }
  }

  lemma BirthSpaced(t: Table, u: Table, e: nat, child: Process, spaces: set<nat>)
    requires Birth(t, u, e, child) && Alive(child) && Spaced(t, spaces) && child.ctx.ttbr0 !in spaces
    ensures Spaced(u, spaces + {child.ctx.ttbr0})
  {
    BirthHolds(t, u, e, child);
    var root := child.ctx.ttbr0;
    assert !SpaceUsed(t, root) && UsesSpace(u, e, root);
    forall r: nat ensures SpaceUsed(u, r) <==> SpaceUsed(t, r) || r == root {
      if SpaceUsed(t, r) { var j: nat :| UsesSpace(t, j, r); assert UsesSpace(u, j, r); }
      if SpaceUsed(u, r) { var j: nat :| UsesSpace(u, j, r); assert UsesSpace(t, j, r) || r == root; }
    }
  }

  lemma BirthRecorded(t: Table, u: Table, e: nat, child: Process, nextPid: nat, exits: map<nat, nat>,
                      reaped: seq<Delivery>)
    requires Birth(t, u, e, child) && Alive(child) && Recorded(t, nextPid, exits, reaped) && child.pid == nextPid
    ensures Recorded(u, nextPid + 1, exits, reaped)
  {
    BirthHolds(t, u, e, child);
    assert Holds(u, e, nextPid);
    forall n | 0 <= n < |reaped| ensures reaped[n].child != nextPid {
      assert reaped[n].child in exits;
    }
    forall pid: nat | 0 < pid < nextPid + 1 ensures Present(u, pid) || WasReaped(reaped, pid) {
      if pid < nextPid && Present(t, pid) { var i: nat :| Holds(t, i, pid); assert Holds(u, i, pid); }
    }
  }

  lemma BirthHopeful(t: Table, u: Table, e: nat, child: Process)
    requires Birth(t, u, e, child) && Alive(child) && AllHopeful(t) && !IsWaiting(child)
    ensures AllHopeful(u)
  {
    forall i: nat | i < |u| && u[i].Some? && IsWaiting(u[i].value) ensures Hopeful(u, u[i].value) {
      var p := t[i].value;
      assert Hopeful(t, p);
      var j: nat :| Awaited(t, j, p) && Alive(t[j].value);
      assert Awaited(u, j, p);
      forall k: nat | p.pid != INIT && Awaited(u, k, p) ensures Alive(u[k].value) {
        if k != e { assert Awaited(t, k, p); }
      }
    }
  }

  lemma BirthNumbered(t: Table, u: Table, e: nat, child: Process)
    requires Birth(t, u, e, child) && Alive(child) && Settled(child) && Numbered(t, child.pid) && AllSettled(t)
      && child.pid > 0
    ensures Numbered(u, child.pid + 1) && AllSettled(u)
  {
    BirthHolds(t, u, e, child);
    forall i: nat | i < |u| && u[i].Some? ensures Settled(u[i].value) {}
  }

  lemma BirthBase(s: State, r: State, e: nat, child: Process, slot: nat, parent: nat)
    requires Core(s) && SameShape(s, r)
    requires Birth(s.table, r.table, e, child)
    requires child.state == Ready && Settled(child) && child.pid == s.nextPid && r.nextPid == s.nextPid + 1
    requires HoldsAlive(s.table, parent, child.parent)
    requires slot < |s.stacks| && s.stacks[slot] == Free && r.stacks == s.stacks[slot := Allocated(child.pid)]
    requires InStack(slot, child.ctx.spEl1)
    requires child.ctx.ttbr0 !in s.spaces && r.spaces == s.spaces + {child.ctx.ttbr0}
    requires (r.exits, r.reaped) == (s.exits, s.reaped)
    ensures Core(r)
  {
    assert Holds(s.table, parent, child.parent);
    NoStackYet(s);
    BirthNumbered(s.table, r.table, e, child);
    BirthRelated(s.table, r.table, e, child, parent);
    BirthStacked(s.table, r.table, e, child, s.stacks, r.stacks, slot);
    BirthSpaced(s.table, r.table, e, child, s.spaces);
    BirthRecorded(s.table, r.table, e, child, s.nextPid, s.exits, s.reaped);
    BirthHopeful(s.table, r.table, e, child);
  }

  lemma BirthRuns(s: State, r: State, e: nat, child: Process)
    requires Runs(s) && SameShape(s, r) && r.current == s.current
    requires Birth(s.table, r.table, e, child) && child.state == Ready
    ensures Runs(r) && r.table[s.current] == s.table[s.current]
  {
    forall i: nat ensures HasState(r.table, i, Running) <==> HasState(s.table, i, Running) {}
    RunsIs(s, r);
  }

  lemma NoStackYet(s: State)
    requires Base(s)
    ensures forall k: nat :: !Owns(s.stacks, k, s.nextPid)
    ensures ActiveStack(s.stacks, s.nextPid).None?
  {
    forall i: nat ensures !HoldsAlive(s.table, i, s.nextPid) {
      assert !Holds(s.table, i, s.nextPid);
    }
    var k := ActiveStack(s.stacks, s.nextPid);
    assert k.Some? ==> Owns(s.stacks, k.value, s.nextPid);
  }

  // ---------------------------------------------------------------- sys_fork

  /** What a fork needs beside an address space: a free kernel stack and an empty slot in the table. */
  predicate RoomForChild(s: State) {
    StackFrom(s.stacks, Free, 0).Some? && EmptyFrom(s.table, 0).Some?
  }

  /** The stack of the process that forks is found although the child's has just been allocated. */
  lemma ParentsStack(s: State, slot: nat, k: nat)
    requires Base(s) && slot < |s.stacks| && s.stacks[slot] == Free
    requires s.table[s.current].Some? && Owns(s.stacks, k, s.table[s.current].value.pid)
    ensures ActiveStack(s.stacks[slot := Allocated(s.nextPid)], s.table[s.current].value.pid) == Some(k)
  {
    var pid := s.table[s.current].value.pid;
    var after := s.stacks[slot := Allocated(s.nextPid)];
    assert Holds(s.table, s.current, pid);
    assert after[k] == Allocated(pid);
    var found := ActiveStack(after, pid);
    assert Owns(s.stacks, found.value, pid);
  }

  /** A fork with room for the child. */
  lemma ForkIs(s: State, root: nat, k: nat)
    requires Entered(s) && RoomForChild(s)
    requires Owns(s.stacks, k, s.table[s.current].value.pid) && InStack(k, s.table[s.current].value.ctx.spEl1)
    ensures Fork(s, Some(root), true) ==
      Forked(s, root, StackFrom(s.stacks, Free, 0).value, k, EmptyFrom(s.table, 0).value)
  {
    NoStackYet(s);
    var slot := StackFrom(s.stacks, Free, 0).value;
    ParentsStack(s, slot, k);
    ForkWith(s, root, slot, k, EmptyFrom(s.table, 0).value);
  }

  lemma ForkWith(s: State, root: nat, slot: nat, k: nat, e: nat)
    requires s.current < |s.table| && s.table[s.current].Some? && StackFrom(s.stacks, Free, 0) == Some(slot)
    requires ActiveStack(s.stacks, s.nextPid).None? && EmptyFrom(s.table, 0) == Some(e)
    requires ActiveStack(s.stacks[slot := Allocated(s.nextPid)], s.table[s.current].value.pid) == Some(k)
    requires s.table[s.current].value.ctx.spEl1 <= StackTop(k)
    ensures Fork(s, Some(root), true) == Forked(s, root, slot, k, e)
  {
  }

  /** How a fork ends: the copy of the space or a stack is lacking, then frames for the stack, then a slot. */
  function ForkEnds(s: State, root: Option<nat>, frames: bool): Phase {
    if root.None? || StackFrom(s.stacks, Free, 0).None? then Panic(ForkFailed)
    else if !frames then Panic(NoStackFrames)
    else if EmptyFrom(s.table, 0).None? then Panic(ForkFailed)
    else User
  }

  lemma ForkFails(s: State, root: Option<nat>, frames: bool)
    requires Entered(s) && !(root.Some? && RoomForChild(s) && frames)
    ensures Fork(s, root, frames).phase == ForkEnds(s, root, frames)
  {
    NoStackYet(s);
    if root.Some? && StackFrom(s.stacks, Free, 0).Some? {
      var k := OwnStack(s);
      ParentsStack(s, StackFrom(s.stacks, Free, 0).value, k);
      ForkFailsLate(s, root.value, frames, StackFrom(s.stacks, Free, 0).value, k);
    } else {
      ForkFailsEarly(s, root, frames);
    }
  }

  lemma ForkFailsEarly(s: State, root: Option<nat>, frames: bool)
    requires s.current < |s.table| && s.table[s.current].Some?
    requires ActiveStack(s.stacks, s.nextPid).None? && (root.None? || StackFrom(s.stacks, Free, 0).None?)
    ensures Fork(s, root, frames).phase == Panic(ForkFailed)
  {
  }

  lemma ForkFailsLate(s: State, root: nat, frames: bool, slot: nat, k: nat)
    requires s.current < |s.table| && s.table[s.current].Some? && !(RoomForChild(s) && frames)
    requires ActiveStack(s.stacks, s.nextPid).None? && StackFrom(s.stacks, Free, 0) == Some(slot)
    requires ActiveStack(s.stacks[slot := Allocated(s.nextPid)], s.table[s.current].value.pid) == Some(k)
    requires s.table[s.current].value.ctx.spEl1 <= StackTop(k)
    ensures Fork(s, Some(root), frames).phase == ForkEnds(s, Some(root), frames)
  {
  }

  lemma OwnStack(s: State) returns (k: nat)
    requires Entered(s)
    ensures Owns(s.stacks, k, s.table[s.current].value.pid) && InStack(k, s.table[s.current].value.ctx.spEl1)
  {
    var p := s.table[s.current].value;
    assert HasState(s.table, s.current, Running) && Seated(s.stacks, p);
    k :| Owns(s.stacks, k, p.pid) && InStack(k, p.ctx.spEl1);
  }

  lemma ForkedKeeps(s: State, r: State, root: nat, slot: nat, e: nat, k: nat)
    requires Entered(s) && root !in s.spaces && slot < |s.stacks| && s.stacks[slot] == Free && e < |s.table|
      && s.table[e].None?
    requires Owns(s.stacks, k, s.table[s.current].value.pid) && InStack(k, s.table[s.current].value.ctx.spEl1)
    requires r == Forked(s, root, slot, k, e)
    ensures Inv(r)
  {
    var child := ChildOf(s, root, slot, k);
    assert HasState(s.table, s.current, Running) && HoldsAlive(s.table, s.current, child.parent);
    BirthBase(s, r, e, child, slot, s.current);
    BirthRuns(s, r, e, child);
  }

  /** Fork fails exactly when the copy of the space, a stack, frames for it or a slot of the table is lacking. */
  lemma ForkKeeps(s: State, root: Option<nat>, frames: bool)
    requires Entered(s) && (root.Some? ==> root.value !in s.spaces)
    ensures Inv(Fork(s, root, frames)) && Fork(s, root, frames).phase == ForkEnds(s, root, frames)
  {
    if root.Some? && RoomForChild(s) && frames {
      var k := OwnStack(s);
      ForkIs(s, root.value, k);
      var slot, e := StackFrom(s.stacks, Free, 0).value, EmptyFrom(s.table, 0).value;
      ForkedKeeps(s, Fork(s, root, true), root.value, slot, e, k);
    } else {
      ForkFails(s, root, frames);
    }
  }

  // ---------------------------------------------------------------- sys_exec

  lemma ExecStacked(t: Table, u: Table, i: nat, q: Process, stacks: seq<StackState>, after: seq<StackState>,
                    used: nat, slot: nat)
    requires i < |t| && t[i].Some? && Alive(t[i].value) && Alive(q) && q.pid == t[i].value.pid && u == t[i := Some(q)]
    requires Stacked(t, stacks) && Owns(stacks, used, q.pid) && slot < |stacks| && stacks[slot] == Free
    requires after == stacks[used := QueuedToFree(q.pid)][slot := Allocated(q.pid)]
    requires InStack(slot, q.ctx.spEl1)
    requires forall j: nat :: Holds(t, j, q.pid) ==> j == i
    ensures Stacked(u, after)
  {
    forall k: nat, pid: nat
      ensures Owns(after, k, pid) <==> (if pid == q.pid then k == slot else Owns(stacks, k, pid))
    {
      if pid == q.pid && Owns(stacks, k, pid) { assert k == used; }
    }
    forall k: nat, pid: nat | Owns(after, k, pid) ensures AliveSomewhere(u, pid) {
      if pid == q.pid {
        assert HoldsAlive(u, i, pid);
      } else {
        assert Owns(stacks, k, pid);
        var j: nat :| HoldsAlive(t, j, pid);
        assert HoldsAlive(u, j, pid);
      }
    }
    forall j: nat | j < |u| && u[j].Some? && Alive(u[j].value) ensures Seated(after, u[j].value) {
      if j == i {
        assert Owns(after, slot, q.pid);
      } else {
        assert Seated(stacks, t[j].value) && Holds(t, j, t[j].value.pid);
        var k: nat :| Owns(stacks, k, t[j].value.pid) && InStack(k, t[j].value.ctx.spEl1);
        assert Owns(after, k, u[j].value.pid);
      }
    }
  }

  lemma ExecSpaced(t: Table, u: Table, i: nat, q: Process, spaces: set<nat>)
    requires i < |t| && t[i].Some? && Alive(t[i].value) && Alive(q) && u == t[i := Some(q)]
    requires Spaced(t, spaces) && q.ctx.ttbr0 !in spaces
    ensures Spaced(u, spaces - {t[i].value.ctx.ttbr0} + {q.ctx.ttbr0})
  {
    var gone, root := t[i].value.ctx.ttbr0, q.ctx.ttbr0;
    assert UsesSpace(t, i, gone) && UsesSpace(u, i, root) && !SpaceUsed(t, root);
    forall j: nat, r: nat
      ensures UsesSpace(u, j, r) <==> (UsesSpace(t, j, r) && r != gone) || (j == i && r == root)
    {
      if UsesSpace(t, j, r) { assert SpaceUsed(t, r); }
    }
    forall r: nat ensures SpaceUsed(u, r) <==> (SpaceUsed(t, r) && r != gone) || r == root {
      if SpaceUsed(t, r) && r != gone { var j: nat :| UsesSpace(t, j, r); assert UsesSpace(u, j, r); }
      if SpaceUsed(u, r) { var j: nat :| UsesSpace(u, j, r); assert UsesSpace(t, j, r) || r == root; }
    }
  }

  /** The same process with another image: what does not depend on its space and its stack is kept. */
  lemma ExecSameWho(s: State, u: Table, q: Process)
    requires Core(s) && s.table[s.current].Some? && u == s.table[s.current := Some(q)]
    requires Akin(s.table[s.current].value, q) && Settled(q) && !IsWaiting(q)
    ensures Related(u) && Numbered(u, s.nextPid) && Recorded(u, s.nextPid, s.exits, s.reaped)
    ensures AllSettled(u) && AllHopeful(u)
  {
    var t := s.table;
    forall i: nat | i < |t| ensures AkinSlot(t[i], u[i]) {}
    SameWhoHolds(t, u);
    SameWhoRelated(t, u);
    SameWhoRecorded(t, u, s.nextPid, s.exits, s.reaped);
    ChangeHopeful(t, u, s.current, q);
  }

  /** Queueing its stack leaves a process without one, and the free stacks as they were. */
  lemma Requeued(stacks: seq<StackState>, used: nat, pid: nat)
    requires Owns(stacks, used, pid)
    requires forall j: nat, k: nat :: Owns(stacks, j, pid) && Owns(stacks, k, pid) ==> j == k
    ensures var queued := stacks[used := QueuedToFree(pid)];
      ActiveStack(queued, pid).None? && StackFrom(queued, Free, 0) == StackFrom(stacks, Free, 0)
  {
    var queued := stacks[used := QueuedToFree(pid)];
    var k := ActiveStack(queued, pid);
    if k.Some? {
      assert Owns(stacks, k.value, pid);
      assert false;
    }
    SameFirst(stacks, queued, Free, 0);
  }

  lemma ImageKeeps(s: State, r: State, q: Process, used: nat, slot: nat)
    requires Core(s) && Runs(s) && SameShape(s, r) && r.current == s.current
    requires Owns(s.stacks, used, q.pid) && slot < |s.stacks| && s.stacks[slot] == Free
    requires Akin(s.table[s.current].value, q) && q.state == Running && Settled(q) && InStack(slot, q.ctx.spEl1)
    requires r.table == s.table[s.current := Some(q)]
    requires r.stacks == s.stacks[used := QueuedToFree(q.pid)][slot := Allocated(q.pid)]
    requires q.ctx.ttbr0 !in s.spaces && r.spaces == s.spaces - {s.table[s.current].value.ctx.ttbr0} + {q.ctx.ttbr0}
    requires (r.nextPid, r.exits, r.reaped) == (s.nextPid, s.exits, s.reaped)
    ensures Core(r) && Runs(r)
  {
    assert HasState(s.table, s.current, Running) && Holds(s.table, s.current, q.pid);
    ExecSameWho(s, r.table, q);
    ExecStacked(s.table, r.table, s.current, q, s.stacks, r.stacks, used, slot);
    ExecSpaced(s.table, r.table, s.current, q, s.spaces);
    forall i: nat ensures HasState(r.table, i, Running) <==> HasState(s.table, i, Running) {}
    RunsIs(s, r);
  }

  lemma ImagedIs(s: State, m: Image, stacks: seq<StackState>, slot: nat)
    requires s.current < |s.table| && s.table[s.current].Some? && slot < |stacks| && |stacks| == |s.stacks|
    ensures var p, r := s.table[s.current].value, Imaged(s, m, stacks, slot); var q := p.(ctx := FirstContext(m, slot));
      && r.table == s.table[s.current := Some(q)] && r.stacks == stacks[slot := Allocated(q.pid)]
      && r.spaces == s.spaces - {p.ctx.ttbr0} + {m.root} && r.live == q.ctx
      && (r.current, r.cpu, r.phase) == (s.current, s.cpu, s.phase)
      && (r.nextPid, r.exits, r.reaped) == (s.nextPid, s.exits, s.reaped)
      && InStack(slot, q.ctx.spEl1) && Akin(p, q) && q.ctx.ttbr0 == m.root
  {
  }

  lemma ImagedKeeps(s: State, m: Image, used: nat, slot: nat, r: State)
    requires Entered(s) && m.root !in s.spaces
    requires Owns(s.stacks, used, s.table[s.current].value.pid) && slot < |s.stacks| && s.stacks[slot] == Free
    requires r == Imaged(s, m, s.stacks[used := QueuedToFree(s.table[s.current].value.pid)], slot)
    ensures Inv(r) && r.phase == User
  {
    var p := s.table[s.current].value;
    assert HasState(s.table, s.current, Running) && Settled(p);
    ImagedIs(s, m, s.stacks[used := QueuedToFree(p.pid)], slot);
    ImageKeeps(s, r, p.(ctx := FirstContext(m, slot)), used, slot);
  }

  lemma ReplaceIs(s: State, m: Image, argsFit: bool, used: nat)
    requires Base(s) && s.table[s.current].Some? && Owns(s.stacks, used, s.table[s.current].value.pid)
    ensures var slot := StackFrom(s.stacks, Free, 0);
      Replace(s, m, argsFit) ==
        if slot.None? then s.(phase := HalfChanged)
        else if !argsFit then s.(phase := HalfChanged)
        else Imaged(s, m, s.stacks[used := QueuedToFree(s.table[s.current].value.pid)], slot.value)
  {
    var pid := s.table[s.current].value.pid;
    var k := ActiveStack(s.stacks, pid);
    assert Owns(s.stacks, k.value, pid);
    assert k == Some(used);
    Requeued(s.stacks, used, pid);
    ReplaceWith(s, m, argsFit, used);
  }

  lemma ReplaceWith(s: State, m: Image, argsFit: bool, used: nat)
    requires s.current < |s.table| && s.table[s.current].Some? && used < |s.stacks|
    requires ActiveStack(s.stacks, s.table[s.current].value.pid) == Some(used)
    requires var queued := s.stacks[used := QueuedToFree(s.table[s.current].value.pid)];
      ActiveStack(queued, s.table[s.current].value.pid).None?
      && StackFrom(queued, Free, 0) == StackFrom(s.stacks, Free, 0)
    ensures var slot := StackFrom(s.stacks, Free, 0);
      Replace(s, m, argsFit) ==
        if slot.None? then s.(phase := HalfChanged)
        else if !argsFit then s.(phase := HalfChanged)
        else Imaged(s, m, s.stacks[used := QueuedToFree(s.table[s.current].value.pid)], slot.value)
  {
  }

  /** How an exec ends. Once the old table is freed the process is left half changed exactly when no kernel stack is
      free for it or the arguments do not fit. */
  function ExecEnds(s: State, load: Loading): Phase {
    match load
    case Refused => User
    case LoadPanics => Panic(LoadPanicked)
    case WritesPastFrame => Overrun
    case Loaded(_, argsFit) =>
      if StackFrom(s.stacks, Free, 0).Some? && argsFit then User else HalfChanged
  }

  lemma ExecKeeps(s: State, load: Loading)
    requires Entered(s) && (load.Loaded? ==> load.image.root !in s.spaces)
    ensures Inv(Exec(s, load)) && Exec(s, load).phase == ExecEnds(s, load)
  {
    if load.Loaded? {
      FindsStack(s);
      var used := ActiveStack(s.stacks, s.table[s.current].value.pid).value;
      ReplaceIs(s, load.image, load.argsFit, used);
      var slot := StackFrom(s.stacks, Free, 0);
      if slot.Some? && load.argsFit {
        ImagedKeeps(s, load.image, used, slot.value, Exec(s, load));
      }
    }
  }

  lemma {:induction false} SameFirst(a: seq<StackState>, b: seq<StackState>, wanted: StackState, i: nat)
    requires |a| == |b| && i <= |a| && forall k | 0 <= k < |a| :: a[k] == wanted <==> b[k] == wanted
    ensures StackFrom(a, wanted, i) == StackFrom(b, wanted, i)
    decreases |a| - i
  {
    if i < |a| && a[i] != wanted { SameFirst(a, b, wanted, i + 1); }
  }
}
