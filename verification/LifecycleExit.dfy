/** `sys_wait` and `sys_exit` keep the invariant: every exit code reaches a parent at most once, and none is missed. */
module LifecycleExit {
  import opened Words
  import opened Lifecycle
  import opened LifecycleInvariant
  import opened LifecycleSteps

  // ---------------------------------------------------------------- sys_wait

  /** Another process than the current one, dead, leaves the table. */
  lemma OtherReaped(s: State, r: State, i: nat, d: Delivery)
    requires Core(s) && Runs(s) && SameShape(s, r) && r.current == s.current
    requires i < |s.table| && s.table[i].Some? && !Alive(s.table[i].value) && s.table[i].value.pid != INIT
    requires d.child == s.table[i].value.pid && d.code == s.table[i].value.exitCode
    requires r.table == s.table[i := None] && r.reaped == s.reaped + [d]
    requires (r.nextPid, r.stacks, r.spaces, r.exits) == (s.nextPid, s.stacks, s.spaces, s.exits)
    ensures Core(r) && Runs(r) && r.table[s.current] == s.table[s.current]
  {
    ReapKeeps(s, r, i, d);
    ReapAllHopeful(s.table, r.table, i);
    assert HasState(s.table, s.current, Running) && i != s.current;
    forall j: nat ensures HasState(r.table, j, Running) <==> HasState(s.table, j, Running) {}
    RunsIs(s, r);
  }

  /** The child found dead is reaped, and its pid and code are the answer. */
  lemma WaitReaps(s: State, i: nat)
    requires Entered(s) && DeadChildFrom(s.table, s.table[s.current].value.pid, s.live.x0, 0) == Some(i)
    ensures Inv(Wait(s, s.live.x0)) && Wait(s, s.live.x0).phase == User
  {
    var p, c := s.table[s.current].value, s.table[i].value;
    assert HasState(s.table, s.current, Running) && Holds(s.table, s.current, p.pid);
    assert HasParent(s.table, c);
    OtherReaped(s, Wait(s, s.live.x0), i, Delivery(p.pid, c.pid, c.exitCode));
  }

  lemma ReapAllHopeful(t: Table, u: Table, i: nat)
    requires i < |t| && t[i].Some? && !Alive(t[i].value) && u == t[i := None] && AllHopeful(t)
    ensures AllHopeful(u)
  {
    forall j: nat | j < |u| && u[j].Some? && IsWaiting(u[j].value) ensures Hopeful(u, u[j].value) {
      assert Hopeful(t, t[j].value);
      ReapHopeful(t, u, i, t[j].value);
    }
  }

  lemma HopesToWait(t: Table, q: Process)
    requires DeadChildFrom(t, q.pid, q.ctx.x0, 0).None? && HasChild(t, q.pid, q.ctx.x0)
    ensures Hopeful(t, q)
  {
    forall j: nat | Awaited(t, j, q) ensures Alive(t[j].value) {}
    var i :| 0 <= i < |t| && t[i].Some? && IsChild(t[i].value, q.pid, q.ctx.x0);
    assert Awaited(t, i, q);
  }

  lemma WaitBlocks(s: State)
    requires Entered(s)
    requires DeadChildFrom(s.table, s.table[s.current].value.pid, s.live.x0, 0).None?
    requires HasChild(s.table, s.table[s.current].value.pid, s.live.x0)
    ensures Inv(Wait(s, s.live.x0)) && Sound(Wait(s, s.live.x0))
  {
    var p := s.table[s.current].value;
    var q := p.(state := Blocked, reason := Some(WaitingForChild));
    assert HasState(s.table, s.current, Running) && Settled(p) && Seated(s.stacks, p);
    assert Seated(s.stacks, q) by {
      var k: nat :| Owns(s.stacks, k, p.pid) && InStack(k, p.ctx.spEl1);
      assert Owns(s.stacks, k, q.pid);
    }
    HopesToWait(s.table, q);
    WaitSetsAside(s, q, SetCurrent(s, q));
  }

  lemma WaitSetsAside(s: State, q: Process, r: State)
    requires Entered(s) && q == s.table[s.current].value.(state := Blocked, reason := Some(WaitingForChild))
    requires Settled(q) && Seated(s.stacks, q) && Hopeful(s.table, q) && r == SetCurrent(s, q)
    ensures Inv(Schedule(r)) && Sound(Schedule(r))
  {
    LeaveKeeps(s, r, q);
    ScheduleKeeps(r);
  }

  lemma WaitKeeps(s: State)
    requires Entered(s)
    ensures Inv(Wait(s, s.live.x0)) && Sound(Wait(s, s.live.x0))
  {
    var p := s.table[s.current].value;
    var dead := DeadChildFrom(s.table, p.pid, s.live.x0, 0);
    if dead.Some? {
      WaitReaps(s, dead.value);
    } else if HasChild(s.table, p.pid, s.live.x0) {
      WaitBlocks(s);
    }
  }

  // ---------------------------------------------------------------- terminate

  /** What `terminate` does to the slot i of the process that exits, and to the others. */
  predicate Buried(p: Option<Process>, q: Option<Process>, pid: nat, code: nat) {
    && (p.Some? <==> q.Some?)
    && (p.Some? ==>
        && q.value == p.value.(parent := q.value.parent, state := q.value.state, exitCode := q.value.exitCode)
        && q.value.parent == (if p.value.parent == pid then INIT else p.value.parent)
        && q.value.state == (if p.value.pid == pid then Terminated else p.value.state)
        && q.value.exitCode == (if p.value.pid == pid then code else p.value.exitCode))
  }

  ghost predicate Burial(t: Table, u: Table, pid: nat, code: nat) {
    |t| == |u| && forall i: nat | i < |t| :: Buried(t[i], u[i], pid, code)
  }

  lemma BurialHolds(t: Table, u: Table, pid: nat, code: nat)
    requires Burial(t, u, pid, code)
    ensures forall i: nat, p: nat :: Holds(u, i, p) <==> Holds(t, i, p)
    ensures forall i: nat, p: nat :: HoldsAlive(u, i, p) <==> HoldsAlive(t, i, p) && p != pid
  {
    forall i: nat | i < |t| ensures Buried(t[i], u[i], pid, code) {}
  }

  lemma BurialRelated(t: Table, u: Table, pid: nat, code: nat, nextPid: nat)
    requires Burial(t, u, pid, code) && Related(t) && Numbered(t, nextPid) && Present(t, pid)
    ensures Related(u)
  {
    BurialHolds(t, u, pid, code);
    var k: nat :| Holds(t, k, INIT);
    assert Holds(u, k, INIT);
    var me: nat :| Holds(t, me, pid);
    forall i: nat | i < |u| && u[i].Some? ensures HasParent(u, u[i].value) {
      var p := t[i].value;
      assert Buried(t[i], u[i], pid, code) && HasParent(t, p) && Holds(t, i, p.pid);
      if p.pid != INIT {
        var m: nat :| Holds(t, m, p.parent) && (Alive(t[m].value) || p.parent == INIT);
        assert Holds(u, m, p.parent) && Buried(t[m], u[m], pid, code);
        if p.parent == pid { assert Holds(u, k, u[i].value.parent); }
      }
    }
  }

  lemma BurialStacked(t: Table, u: Table, pid: nat, code: nat, stacks: seq<StackState>, after: seq<StackState>,
                      slot: nat)
    requires Burial(t, u, pid, code) && Stacked(t, stacks)
    requires slot < |stacks| && stacks[slot] == Allocated(pid) && after == stacks[slot := QueuedToFree(pid)]
    ensures Stacked(u, after)
  {
    BurialHolds(t, u, pid, code);
    assert Owns(stacks, slot, pid);
    forall k: nat, p: nat ensures Owns(after, k, p) <==> Owns(stacks, k, p) && p != pid {
      if Owns(stacks, k, p) && p == pid { assert k == slot; }
    }
    forall k: nat, p: nat | Owns(after, k, p) ensures AliveSomewhere(u, p) {
      assert Owns(stacks, k, p);
      var i: nat :| HoldsAlive(t, i, p);
      assert HoldsAlive(u, i, p);
    }
    forall i: nat | i < |u| && u[i].Some? && Alive(u[i].value) ensures Seated(after, u[i].value) {
      assert Buried(t[i], u[i], pid, code);
      assert Seated(stacks, t[i].value);
      var k: nat :| Owns(stacks, k, t[i].value.pid) && InStack(k, t[i].value.ctx.spEl1);
      assert Owns(after, k, u[i].value.pid);
    }
  }

  lemma BurialSpaced(t: Table, u: Table, pid: nat, code: nat, spaces: set<nat>, i: nat, nextPid: nat)
    requires Burial(t, u, pid, code) && Spaced(t, spaces) && HoldsAlive(t, i, pid) && Numbered(t, nextPid)
    ensures Spaced(u, spaces - {t[i].value.ctx.ttbr0})
  {
    var gone := t[i].value.ctx.ttbr0;
    assert UsesSpace(t, i, gone);
    forall j: nat, root: nat ensures UsesSpace(u, j, root) <==> UsesSpace(t, j, root) && root != gone {
      if j < |t| { assert Buried(t[j], u[j], pid, code); }
      if UsesSpace(t, j, root) { assert Holds(t, j, t[j].value.pid) && Holds(t, i, pid); }
    }
    forall root: nat ensures SpaceUsed(u, root) <==> SpaceUsed(t, root) && root != gone {
      if SpaceUsed(t, root) && root != gone { var j: nat :| UsesSpace(t, j, root); assert UsesSpace(u, j, root); }
      if SpaceUsed(u, root) { var j: nat :| UsesSpace(u, j, root); assert UsesSpace(t, j, root); }
    }
  }

  lemma BurialRecorded(t: Table, u: Table, pid: nat, code: nat, nextPid: nat, exits: map<nat, nat>,
                       reaped: seq<Delivery>)
    requires Burial(t, u, pid, code) && Recorded(t, nextPid, exits, reaped) && Numbered(t, nextPid)
    requires AliveSomewhere(t, pid)
    ensures Recorded(u, nextPid, exits[pid := code], reaped)
  {
    BurialHolds(t, u, pid, code);
    var me: nat :| HoldsAlive(t, me, pid);
    assert Holds(t, me, pid);
    forall n | 0 <= n < |reaped| ensures reaped[n].child != pid {
      assert WasReaped(reaped, reaped[n].child);
    }
    forall i: nat, p: nat | Holds(u, i, p) ensures Holds(t, i, p) && Buried(t[i], u[i], pid, code) {}
    forall p: nat | 0 < p < nextPid ensures Present(u, p) || WasReaped(reaped, p) {
      if Present(t, p) { var i: nat :| Holds(t, i, p); assert Holds(u, i, p); }
    }
  }

  lemma OneBuried(t: Table, u: Table, me: nat, dead: Process, code: nat, nextPid: nat)
    requires Numbered(t, nextPid) && me < |t| && t[me].Some?
    requires dead == t[me].value.(exitCode := code, state := Terminated) && dead.parent != dead.pid
    requires u == Reparent(t[me := Some(dead)], dead.pid, INIT)
    ensures Burial(t, u, dead.pid, code)
  {
    assert Holds(t, me, dead.pid);
    forall i: nat | i < |t| ensures Buried(t[i], u[i], dead.pid, code) {
      if t[i].Some? { assert Holds(t, i, t[i].value.pid); }
    }
  }

  lemma FindsStack(s: State)
    requires Entered(s)
    ensures ActiveStack(s.stacks, s.table[s.current].value.pid).Some? && HasParent(s.table, s.table[s.current].value)
  {
    var p := s.table[s.current].value;
    assert HasState(s.table, s.current, Running) && Seated(s.stacks, p);
    var k: nat :| Owns(s.stacks, k, p.pid) && InStack(k, p.ctx.spEl1);
  }

  lemma TerminateBuries(s: State, code: nat)
    requires Entered(s)
    ensures !Terminate(s, code).phase.Panic?
    ensures Burial(s.table, Terminate(s, code).table, s.table[s.current].value.pid, code)
  {
    var p := s.table[s.current].value;
    FindsStack(s);
    OneBuried(s.table, Terminate(s, code).table, s.current, p.(exitCode := code, state := Terminated), code, s.nextPid);
  }

  /** `terminate` finds the stack of the process and keeps everything but the hope of a parent that waits for it. */
  lemma TerminateKeeps(s: State, code: nat)
    requires Entered(s)
    ensures Base(Terminate(s, code)) && Nobody(Terminate(s, code).table, Running)
  {
    var p := s.table[s.current].value;
    var r := Terminate(s, code);
    TerminateBuries(s, code);
    assert HasState(s.table, s.current, Running) && HoldsAlive(s.table, s.current, p.pid);
    assert Holds(s.table, s.current, p.pid);
    BurialHolds(s.table, r.table, p.pid, code);
    BurialRelated(s.table, r.table, p.pid, code, s.nextPid);
    BurialStacked(s.table, r.table, p.pid, code, s.stacks, r.stacks, ActiveStack(s.stacks, p.pid).value);
    BurialSpaced(s.table, r.table, p.pid, code, s.spaces, s.current, s.nextPid);
    BurialRecorded(s.table, r.table, p.pid, code, s.nextPid, s.exits, s.reaped);
    forall i: nat | i < |r.table| && r.table[i].Some?
      ensures Settled(r.table[i].value) && !HasState(r.table, i, Running)
    {
      assert Buried(s.table[i], r.table[i], p.pid, code) && Settled(s.table[i].value);
      assert HasState(s.table, i, Running) ==> i == s.current;
    }
  }

  // ---------------------------------------------------------------- the parent

  /** A waiting process other than the one that exits keeps its hope, unless that was the child it waits for. */
  lemma BurialHopeful(t: Table, u: Table, me: nat, pid: nat, code: nat, w: Process)
    requires Burial(t, u, pid, code) && Hopeful(t, w) && Holds(t, me, pid) && !Awaited(t, me, w)
    requires forall i: nat :: Holds(t, i, pid) ==> i == me
    requires w.pid != pid
    ensures Hopeful(u, w)
  {
    var j: nat :| Awaited(t, j, w) && Alive(t[j].value);
    assert Buried(t[j], u[j], pid, code) && Awaited(u, j, w);
    assert Holds(t, j, t[j].value.pid);
    forall k: nat | w.pid != INIT && Awaited(u, k, w) ensures Alive(u[k].value) {
      assert Buried(t[k], u[k], pid, code) && Awaited(t, k, w) && Holds(t, k, t[k].value.pid);
    }
  }

  /** After `terminate`, every waiting process that does not wait for the dead one still has hope. */
  lemma OthersHopeful(s: State, code: nat, i: nat)
    requires Entered(s) && i < |s.table|
    ensures var r := Terminate(s, code); var p := s.table[s.current].value;
      r.table[i].Some? && IsWaiting(r.table[i].value)
          && !(p.parent == r.table[i].value.pid && Awaits(r.table[i].value, p.pid))
      ==> Hopeful(r.table, r.table[i].value)
  {
    var r, p := Terminate(s, code), s.table[s.current].value;
    TerminateBuries(s, code);
    assert Buried(s.table[i], r.table[i], p.pid, code);
    assert HasState(s.table, s.current, Running) && Holds(s.table, s.current, p.pid) && HasParent(s.table, p);
    if r.table[i].Some? && IsWaiting(r.table[i].value) {
      var w := s.table[i].value;
      assert Hopeful(s.table, w) && Holds(s.table, i, w.pid);
      if !(p.parent == w.pid && Awaits(w, p.pid)) {
        BurialHopeful(s.table, r.table, s.current, p.pid, code, w);
        HopeDependsOn(r.table, w, r.table[i].value);
      }
    }
  }

  /** p is awaited by the process in slot i, its parent. */
  predicate AwaitedBy(t: Table, i: nat, p: Process) {
    Holds(t, i, p.parent) && IsWaiting(t[i].value) && Awaits(t[i].value, p.pid)
  }

  /** The current process is dead, and at most its parent waits in vain. */
  ghost predicate Dying(s: State) {
    && Base(s) && Nobody(s.table, Running) && s.phase == User
    && s.table[s.current].Some? && !Alive(s.table[s.current].value)
    && (forall i: nat | i < |s.table| && s.table[i].Some? && IsWaiting(s.table[i].value) ::
          AwaitedBy(s.table, i, s.table[s.current].value) || Hopeful(s.table, s.table[i].value))
  }

  lemma TerminateDies(s: State, code: nat)
    requires Entered(s)
    ensures Dying(Terminate(s, code))
  {
    var r, p := Terminate(s, code), s.table[s.current].value;
    TerminateKeeps(s, code);
    TerminateBuries(s, code);
    assert Buried(s.table[s.current], r.table[s.current], p.pid, code) && HasParent(s.table, p);
    forall i: nat | i < |r.table| && r.table[i].Some? && IsWaiting(r.table[i].value)
      ensures AwaitedBy(r.table, i, r.table[s.current].value) || Hopeful(r.table, r.table[i].value)
    {
      OthersHopeful(s, code, i);
      assert p.parent == r.table[i].value.pid ==> Holds(r.table, i, p.parent);
    }
  }

  lemma OnlyHolder(s: State, i: nat, pid: nat)
    requires Numbered(s.table, s.nextPid) && Holds(s.table, i, pid)
    ensures Find(s.table, pid) == Some(i)
  {
    var k := Find(s.table, pid);
    assert Holds(s.table, k.value, pid);
  }

  function Noticed(q: Process, p: Process): Process {
    q.(state := Ready, ctx := q.ctx.(x0 := p.pid, x1 := p.exitCode))
  }

  /** A waiting parent gets the pid and the code of the dead process, which leaves the table. */
  lemma AwaitedNotified(r: State, k: nat)
    requires Dying(r) && AwaitedBy(r.table, k, r.table[r.current].value)
    ensures k != r.current
    ensures var p := r.table[r.current].value; var q := r.table[k].value;
      NotifyParent(r) == r.(table := r.table[k := Some(Noticed(q, p))][r.current := None],
                            reaped := r.reaped + [Delivery(q.pid, p.pid, p.exitCode)])
  {
    var p, q := r.table[r.current].value, r.table[k].value;
    assert Holds(r.table, r.current, p.pid) && Holds(r.table, k, q.pid);
    OnlyHolder(r, k, p.parent);
    var mid := r.table[k := Some(Noticed(q, p))];
    var gone := Find(mid, p.pid);
    assert Holds(mid, r.current, p.pid);
    assert Holds(mid, gone.value, p.pid);
    assert Holds(r.table, gone.value, p.pid);
  }

  lemma NoticedKeeps(r: State, mid: State, k: nat)
    requires Dying(r) && AwaitedBy(r.table, k, r.table[r.current].value)
    requires mid == r.(table := r.table[k := Some(Noticed(r.table[k].value, r.table[r.current].value))])
    ensures Base(mid) && Nobody(mid.table, Running)
  {
    var q := r.table[k].value;
    var woken := Noticed(q, r.table[r.current].value);
    assert Settled(q) && Seated(r.stacks, q);
    assert Seated(r.stacks, woken) by {
      var j: nat :| Owns(r.stacks, j, q.pid) && InStack(j, q.ctx.spEl1);
      assert Owns(r.stacks, j, woken.pid);
    }
    ChangeOne(r, mid, k, woken);
    forall i: nat ensures !HasState(mid.table, i, Running) {
      assert !HasState(r.table, i, Running);
    }
  }

  /** With the parent no longer waiting and the dead process gone, the others have what hope they had. */
  lemma OthersKeepHope(t: Table, me: nat, k: nat, woken: Process)
    requires me < |t| && k < |t| && me != k && t[me].Some? && t[k].Some?
    requires !Alive(t[me].value) && Akin(t[k].value, woken) && !IsWaiting(woken)
    requires forall i: nat | i < |t| && t[i].Some? && IsWaiting(t[i].value) && i != k :: Hopeful(t, t[i].value)
    ensures AllHopeful(t[k := Some(woken)][me := None])
  {
    var mid: Table := t[k := Some(woken)];
    var u := mid[me := None];
    forall j: nat | j < |t| ensures AkinSlot(t[j], mid[j]) {}
    forall i: nat | i < |u| && u[i].Some? && IsWaiting(u[i].value) ensures Hopeful(u, u[i].value) {
      HopefulKept(t, mid, t[i].value);
      ReapHopeful(mid, u, me, t[i].value);
    }
  }

  lemma NoticedReaped(r: State, mid: State, end: State, k: nat)
    requires Dying(r) && AwaitedBy(r.table, k, r.table[r.current].value) && k != r.current
    requires mid == r.(table := r.table[k := Some(Noticed(r.table[k].value, r.table[r.current].value))])
    requires var p := r.table[r.current].value;
      end == mid.(table := mid.table[r.current := None],
                  reaped := mid.reaped + [Delivery(r.table[k].value.pid, p.pid, p.exitCode)])
    ensures Base(end) && Nobody(end.table, Running)
  {
    var p := r.table[r.current].value;
    NoticedKeeps(r, mid, k);
    assert HasParent(r.table, p) && Holds(r.table, k, r.table[k].value.pid);
    ReapKeeps(mid, end, r.current, Delivery(r.table[k].value.pid, p.pid, p.exitCode));
    forall i: nat ensures !HasState(end.table, i, Running) {
      assert !HasState(mid.table, i, Running);
    }
  }

  lemma OthersHope(r: State, k: nat)
    requires Dying(r) && AwaitedBy(r.table, k, r.table[r.current].value)
    ensures forall i: nat | i < |r.table| && r.table[i].Some? && IsWaiting(r.table[i].value) && i != k ::
      Hopeful(r.table, r.table[i].value)
  {
    forall i: nat | i < |r.table| && r.table[i].Some? && IsWaiting(r.table[i].value) && i != k
      ensures Hopeful(r.table, r.table[i].value)
    {
      assert !AwaitedBy(r.table, i, r.table[r.current].value);
    }
  }

  lemma AwaitedKeeps(r: State, k: nat)
    requires Dying(r) && AwaitedBy(r.table, k, r.table[r.current].value)
    ensures NotifyParent(r).phase == User && Core(NotifyParent(r)) && Nobody(NotifyParent(r).table, Running)
  {
    var p, q := r.table[r.current].value, r.table[k].value;
    AwaitedNotified(r, k);
    NoticedReaped(r, r.(table := r.table[k := Some(Noticed(q, p))]), NotifyParent(r), k);
    OthersHope(r, k);
    OthersKeepHope(r.table, r.current, k, Noticed(q, p));
  }

  /** Nobody waits for the dead process: it stays in the table, to be reaped by a later wait. */
  lemma UnawaitedKeeps(r: State)
    requires Dying(r) && forall k: nat :: !AwaitedBy(r.table, k, r.table[r.current].value)
    ensures NotifyParent(r) == r && Core(r)
  {
    var p := r.table[r.current].value;
    assert HasParent(r.table, p);
    var k := Find(r.table, p.parent);
    if k.Some? {
      assert Holds(r.table, k.value, p.parent) && !AwaitedBy(r.table, k.value, p);
    } else {
      forall j: nat ensures !Holds(r.table, j, p.parent) {}
    }
  }

  lemma NotifyKeeps(r: State)
    requires Dying(r)
    ensures var m := NotifyParent(r); m.phase == User && m.current == r.current && Core(m) && Nobody(m.table, Running)
  {
    if k: nat :| AwaitedBy(r.table, k, r.table[r.current].value) {
      AwaitedKeeps(r, k);
    } else {
      UnawaitedKeeps(r);
    }
  }

  /** `sys_exit` ends in the scheduler: the stack of the process was found, and so was its parent. */
  lemma ExitSchedules(s: State, code: nat)
    requires Entered(s)
    ensures var m := NotifyParent(Terminate(s, code));
      Exit(s, code) == Schedule(m) && m.current == s.current && Core(m) && Nobody(m.table, Running)
  {
    TerminateDies(s, code);
    NotifyKeeps(Terminate(s, code));
  }

  lemma ExitKeeps(s: State, code: nat)
    requires Entered(s)
    ensures Inv(Exit(s, code)) && Sound(Exit(s, code))
  {
    ExitSchedules(s, code);
    ScheduleKeeps(NotifyParent(Terminate(s, code)));
  }
}
