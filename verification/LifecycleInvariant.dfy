/** What every state of a run of the kernel satisfies, one group of facts at a time. */
module LifecycleInvariant {
  import opened Words
  import opened Lifecycle

  predicate Alive(p: Process) {
    p.state != Terminated
  }

  /** Slot i holds the process with this pid. */
  predicate Holds(t: Table, i: nat, pid: nat) {
    i < |t| && t[i].Some? && t[i].value.pid == pid
  }

  ghost predicate Present(t: Table, pid: nat) {
    exists i: nat :: Holds(t, i, pid)
  }

  predicate HoldsAlive(t: Table, i: nat, pid: nat) {
    Holds(t, i, pid) && Alive(t[i].value)
  }

  // ---------------------------------------------------------------- the groups

  /** Pids are positive, below the next one, and distinct. */
  ghost predicate Numbered(t: Table, nextPid: nat) {
    && (forall i: nat, pid: nat :: Holds(t, i, pid) ==> 0 < pid < nextPid)
    && (forall i: nat, j: nat, pid: nat :: Holds(t, i, pid) && Holds(t, j, pid) ==> i == j)
  }

  /** The parent of p is in the table with a smaller pid, and alive unless it is init. Only init has no parent. */
  ghost predicate HasParent(t: Table, p: Process) {
    if p.pid == INIT then p.parent == 0
    else 0 < p.parent < p.pid && exists k: nat :: Holds(t, k, p.parent) && (Alive(t[k].value) || p.parent == INIT)
  }

  ghost predicate Related(t: Table) {
    && Present(t, INIT)
    && (forall i: nat | i < |t| && t[i].Some? :: HasParent(t, t[i].value))
  }

  predicate Owns(stacks: seq<StackState>, k: nat, pid: nat) {
    k < |stacks| && stacks[k] == Allocated(pid)
  }

  /** Is sp a stack pointer into slot k? */
  predicate InStack(k: nat, sp: int) {
    StackStart(k) < sp <= StackTop(k)
  }

  /** p has a kernel stack of its own, and its saved kernel stack pointer lies in it. */
  ghost predicate Seated(stacks: seq<StackState>, p: Process) {
    exists k: nat :: Owns(stacks, k, p.pid) && InStack(k, p.ctx.spEl1)
  }

  ghost predicate AliveSomewhere(t: Table, pid: nat) {
    exists i: nat :: HoldsAlive(t, i, pid)
  }

  /** The allocated stack slots and the processes that have not terminated correspond one to one. */
  ghost predicate Stacked(t: Table, stacks: seq<StackState>) {
    && |stacks| == |t|
    && (forall j: nat, k: nat, pid: nat :: Owns(stacks, j, pid) && Owns(stacks, k, pid) ==> j == k)
    && (forall k: nat, pid: nat :: Owns(stacks, k, pid) ==> AliveSomewhere(t, pid))
    && (forall i: nat | i < |t| && t[i].Some? && Alive(t[i].value) :: Seated(stacks, t[i].value))
  }

  predicate UsesSpace(t: Table, i: nat, root: nat) {
    i < |t| && t[i].Some? && Alive(t[i].value) && t[i].value.ctx.ttbr0 == root
  }

  ghost predicate SpaceUsed(t: Table, root: nat) {
    exists i: nat :: UsesSpace(t, i, root)
  }

  /** The address spaces in use and the processes that have not terminated correspond one to one. */
  ghost predicate Spaced(t: Table, spaces: set<nat>) {
    && (forall root: nat :: root in spaces <==> SpaceUsed(t, root))
    && (forall i: nat, j: nat, root: nat :: UsesSpace(t, i, root) && UsesSpace(t, j, root) ==> i == j)
  }

  ghost predicate WasReaped(reaped: seq<Delivery>, pid: nat) {
    exists n :: 0 <= n < |reaped| && reaped[n].child == pid
  }

  /** Every pid issued is in the table or was reaped; the exit codes recorded are those of the dead, in the table or
      reaped; each was reaped at most once and with its own code. */
  ghost predicate Recorded(t: Table, nextPid: nat, exits: map<nat, nat>, reaped: seq<Delivery>) {
    && (forall m, n | 0 <= m < n < |reaped| :: reaped[m].child != reaped[n].child)
    && (forall n | 0 <= n < |reaped| :: reaped[n].child in exits && reaped[n].code == exits[reaped[n].child])
    && (forall i: nat, pid: nat :: Holds(t, i, pid) ==> !WasReaped(reaped, pid))
    && (forall pid: nat | pid in exits :: 0 < pid < nextPid)
    && (forall i: nat, pid: nat :: Holds(t, i, pid) ==> (pid in exits <==> !Alive(t[i].value)))
    && (forall i: nat, pid: nat :: Holds(t, i, pid) && !Alive(t[i].value) ==> exits[pid] == t[i].value.exitCode)
    && (forall pid: nat {:trigger WasReaped(reaped, pid)} | 0 < pid < nextPid ::
          Present(t, pid) || WasReaped(reaped, pid))
  }

  /** A blocked process has a reason, and a channel unless it waits for a child; no other has a channel. (A parent
      that an exit wakes keeps the reason it had.) */
  predicate Settled(p: Process) {
    if p.state == Blocked then p.reason.Some? && (p.chan == 0 <==> p.reason == Some(WaitingForChild)) else p.chan == 0
  }

  ghost predicate AllSettled(t: Table) {
    forall i: nat | i < |t| && t[i].Some? :: Settled(t[i].value)
  }

  /** Slot j holds a child that p, if it waits, waits for. */
  predicate Awaited(t: Table, j: nat, p: Process) {
    j < |t| && t[j].Some? && IsChild(t[j].value, p.pid, p.ctx.x0)
  }

  /** A child p waits for is still to exit; and unless p is init, none of them has exited unnoticed. */
  ghost predicate Hopeful(t: Table, p: Process) {
    && (exists j: nat :: Awaited(t, j, p) && Alive(t[j].value))
    && (p.pid != INIT ==> forall j: nat :: Awaited(t, j, p) ==> Alive(t[j].value))
  }

  ghost predicate AllHopeful(t: Table) {
    forall i: nat | i < |t| && t[i].Some? && IsWaiting(t[i].value) :: Hopeful(t, t[i].value)
  }

  ghost predicate Base(s: State) {
    && s.current < |s.table|
    && Numbered(s.table, s.nextPid)
    && Related(s.table)
    && Stacked(s.table, s.stacks)
    && Spaced(s.table, s.spaces)
    && Recorded(s.table, s.nextPid, s.exits, s.reaped)
    && AllSettled(s.table)
  }

  ghost predicate Core(s: State) {
    Base(s) && AllHopeful(s.table)
  }

  predicate HasState(t: Table, i: nat, state: ProcessState) {
    i < |t| && t[i].Some? && t[i].value.state == state
  }

  ghost predicate Nobody(t: Table, state: ProcessState) {
    forall i: nat :: !HasState(t, i, state)
  }

  /** The current process runs, and no other. */
  ghost predicate Runs(s: State) {
    HasState(s.table, s.current, Running) && forall i: nat :: HasState(s.table, i, Running) ==> i == s.current
  }

  /** p has a kernel stack, and sp lies in it. */
  ghost predicate StackHolds(stacks: seq<StackState>, p: Process, sp: int) {
    exists k: nat :: Owns(stacks, k, p.pid) && InStack(k, sp)
  }

  ghost predicate Inv(s: State) {
    match s.phase
    case User =>
      && Core(s) && Runs(s)
      && s.cpu == Some(s.table[s.current].value.pid)
      && s.live.ttbr0 == s.table[s.current].value.ctx.ttbr0
      && StackHolds(s.stacks, s.table[s.current].value, s.live.spEl1)
    case Idle => Core(s) && Nobody(s.table, Running) && Nobody(s.table, Ready)
    case Halted => Core(s) && forall i: nat | i < |s.table| && s.table[i].Some? :: !Alive(s.table[i].value)
    case Panic(site) => site == ForkFailed || site == NoStackFrames || site == LoadPanicked
    case HalfChanged => true
    case Overrun => true
  }

  /** A state in which the kernel has neither panicked nor left a process half changed. */
  predicate Sound(s: State) {
    s.phase == User || s.phase == Idle || s.phase == Halted
  }

  // ---------------------------------------------------------------- changes that keep who is who

  /** q is p with another state, another reason to block, other registers or another address space. */
  predicate Akin(p: Process, q: Process) {
    q.pid == p.pid && q.parent == p.parent && (Alive(q) <==> Alive(p)) && q.exitCode == p.exitCode
  }

  predicate AkinSlot(p: Option<Process>, q: Option<Process>) {
    (p.Some? <==> q.Some?) && (p.Some? ==> Akin(p.value, q.value))
  }

  /** The same processes in the same slots, with the same parents. */
  ghost predicate SameWho(t: Table, u: Table) {
    |t| == |u| && forall i: nat | i < |t| :: AkinSlot(t[i], u[i])
  }

  /** Akin, and in the same address space. */
  predicate Like(p: Process, q: Process) {
    Akin(p, q) && q.ctx.ttbr0 == p.ctx.ttbr0
  }

  predicate LikeSlot(p: Option<Process>, q: Option<Process>) {
    (p.Some? <==> q.Some?) && (p.Some? ==> Like(p.value, q.value))
  }

  ghost predicate Similar(t: Table, u: Table) {
    |t| == |u| && forall i: nat | i < |t| :: LikeSlot(t[i], u[i])
  }

  lemma SimilarSameWho(t: Table, u: Table)
    requires Similar(t, u)
    ensures SameWho(t, u)
  {
    forall i: nat | i < |t| ensures AkinSlot(t[i], u[i]) { assert LikeSlot(t[i], u[i]); }
  }

  /** Whoever waits in u waited in t, for the same child. */
  ghost predicate NoNewWaiter(t: Table, u: Table) {
    |t| == |u| && forall i: nat | i < |t| && u[i].Some? && IsWaiting(u[i].value) ::
      t[i].Some? && IsWaiting(t[i].value) && t[i].value.ctx.x0 == u[i].value.ctx.x0
  }

  ghost predicate SameOwners(stacks: seq<StackState>, after: seq<StackState>) {
    |stacks| == |after| && forall k: nat, pid: nat :: Owns(after, k, pid) <==> Owns(stacks, k, pid)
  }

  lemma SameWhoHolds(t: Table, u: Table)
    requires SameWho(t, u)
    ensures forall i: nat, pid: nat :: Holds(u, i, pid) <==> Holds(t, i, pid)
    ensures forall i: nat, pid: nat :: HoldsAlive(u, i, pid) <==> HoldsAlive(t, i, pid)
  {
    forall i: nat | i < |t| ensures AkinSlot(t[i], u[i]) {}
  }

  lemma SameWhoRelated(t: Table, u: Table)
    requires SameWho(t, u) && Related(t)
    ensures Related(u)
  {
    SameWhoHolds(t, u);
    var k: nat :| Holds(t, k, INIT);
    assert Holds(u, k, INIT);
    forall i: nat | i < |u| && u[i].Some? ensures HasParent(u, u[i].value) {
      assert AkinSlot(t[i], u[i]) && HasParent(t, t[i].value);
      if t[i].value.pid != INIT {
        var j: nat :| Holds(t, j, t[i].value.parent) && (Alive(t[j].value) || t[i].value.parent == INIT);
        assert Holds(u, j, t[i].value.parent) && AkinSlot(t[j], u[j]);
      }
    }
  }

  lemma SameWhoRecorded(t: Table, u: Table, nextPid: nat, exits: map<nat, nat>, reaped: seq<Delivery>)
    requires SameWho(t, u) && Recorded(t, nextPid, exits, reaped)
    ensures Recorded(u, nextPid, exits, reaped)
  {
    SameWhoHolds(t, u);
    forall i: nat, pid: nat | Holds(u, i, pid)
      ensures Holds(t, i, pid) && AkinSlot(t[i], u[i])
    {}
    forall pid: nat | 0 < pid < nextPid ensures Present(u, pid) || WasReaped(reaped, pid) {
      if Present(t, pid) { var i: nat :| Holds(t, i, pid); assert Holds(u, i, pid); }
    }
  }

  lemma SameWhoStacked(t: Table, u: Table, stacks: seq<StackState>, after: seq<StackState>)
    requires SameWho(t, u) && Stacked(t, stacks) && SameOwners(stacks, after)
    requires forall i: nat | i < |u| && u[i].Some? && Alive(u[i].value) :: Seated(stacks, u[i].value)
    ensures Stacked(u, after)
  {
    SameWhoHolds(t, u);
    forall k: nat, pid: nat | Owns(after, k, pid) ensures AliveSomewhere(u, pid) {
      assert Owns(stacks, k, pid);
      var i: nat :| HoldsAlive(t, i, pid);
      assert HoldsAlive(u, i, pid);
    }
    forall i: nat | i < |u| && u[i].Some? && Alive(u[i].value) ensures Seated(after, u[i].value) {
      var k: nat :| Owns(stacks, k, u[i].value.pid) && InStack(k, u[i].value.ctx.spEl1);
      assert Owns(after, k, u[i].value.pid);
    }
  }

  lemma SimilarSpaced(t: Table, u: Table, spaces: set<nat>)
    requires Similar(t, u) && Spaced(t, spaces)
    ensures Spaced(u, spaces)
  {
    forall i: nat, root: nat ensures UsesSpace(u, i, root) <==> UsesSpace(t, i, root) {
      if i < |t| { assert LikeSlot(t[i], u[i]); }
    }
    forall root: nat ensures SpaceUsed(u, root) <==> SpaceUsed(t, root) {
      if SpaceUsed(t, root) { var i: nat :| UsesSpace(t, i, root); assert UsesSpace(u, i, root); }
      if SpaceUsed(u, root) { var i: nat :| UsesSpace(u, i, root); assert UsesSpace(t, i, root); }
    }
  }

  lemma SameWhoHopeful(t: Table, u: Table)
    requires SameWho(t, u) && NoNewWaiter(t, u) && AllHopeful(t)
    ensures AllHopeful(u)
  {
    forall i: nat | i < |u| && u[i].Some? && IsWaiting(u[i].value) ensures Hopeful(u, u[i].value) {
      assert AkinSlot(t[i], u[i]) && Hopeful(t, t[i].value);
      HopeDependsOn(t, t[i].value, u[i].value);
      HopefulKept(t, u, u[i].value);
    }
  }

  lemma HopeDependsOn(t: Table, p: Process, q: Process)
    requires Hopeful(t, p) && p.pid == q.pid && p.ctx.x0 == q.ctx.x0
    ensures Hopeful(t, q)
  {
    forall j: nat ensures Awaited(t, j, p) <==> Awaited(t, j, q) {}
  }

  lemma HopefulKept(t: Table, u: Table, p: Process)
    requires Hopeful(t, p) && SameWho(t, u)
    ensures Hopeful(u, p)
  {
    forall j: nat ensures Awaited(t, j, p) <==> Awaited(u, j, p) {
      if j < |t| { assert AkinSlot(t[j], u[j]); }
    }
    var j: nat :| Awaited(t, j, p) && Alive(t[j].value);
    assert Awaited(u, j, p) && AkinSlot(t[j], u[j]);
    forall j: nat | p.pid != INIT && Awaited(u, j, p) ensures Alive(u[j].value) {
      assert Awaited(t, j, p) && AkinSlot(t[j], u[j]);
    }
  }

  /** A change that keeps who is who keeps every group. */
  lemma SimilarKeeps(s: State, r: State)
    requires Base(s) && SameShape(s, r) && Similar(s.table, r.table) && SameOwners(s.stacks, r.stacks)
    requires (r.nextPid, r.spaces, r.exits, r.reaped) == (s.nextPid, s.spaces, s.exits, s.reaped)
    requires AllSettled(r.table)
    requires forall i: nat | i < |r.table| && r.table[i].Some? && Alive(r.table[i].value) ::
      Seated(s.stacks, r.table[i].value)
    ensures Base(r)
    ensures NoNewWaiter(s.table, r.table) && AllHopeful(s.table) ==> Core(r)
  {
    SimilarSameWho(s.table, r.table);
    SameWhoHolds(s.table, r.table);
    SameWhoRelated(s.table, r.table);
    SameWhoStacked(s.table, r.table, s.stacks, r.stacks);
    SimilarSpaced(s.table, r.table, s.spaces);
    SameWhoRecorded(s.table, r.table, s.nextPid, s.exits, s.reaped);
    if NoNewWaiter(s.table, r.table) && AllHopeful(s.table) {
      SameWhoHopeful(s.table, r.table);
    }
  }

  /** One process changed, its identity and its slot kept. */
  lemma ChangeOne(s: State, r: State, i: nat, q: Process)
    requires Base(s) && i < |s.table| && s.table[i].Some? && Like(s.table[i].value, q)
    requires r.table == s.table[i := Some(q)] && SameShape(s, r) && SameOwners(s.stacks, r.stacks)
    requires (r.nextPid, r.spaces, r.exits, r.reaped) == (s.nextPid, s.spaces, s.exits, s.reaped)
    requires Settled(q) && (Alive(q) ==> Seated(s.stacks, q))
    ensures Base(r)
  {
    forall j: nat | j < |s.table|
      ensures LikeSlot(s.table[j], r.table[j])
      ensures r.table[j].Some? ==> Settled(r.table[j].value)
      ensures r.table[j].Some? && Alive(r.table[j].value) ==> Seated(s.stacks, r.table[j].value)
    {
      assert r.table[j] == if j == i then Some(q) else s.table[j];
    }
    SimilarKeeps(s, r);
  }

  lemma ChangeHopeful(t: Table, u: Table, i: nat, q: Process)
    requires AllHopeful(t) && i < |t| && t[i].Some? && Akin(t[i].value, q) && u == t[i := Some(q)]
    requires IsWaiting(q) ==> Hopeful(t, q)
    ensures AllHopeful(u)
  {
    forall j: nat | j < |t| ensures AkinSlot(t[j], u[j]) {}
    forall j: nat | j < |u| && u[j].Some? && IsWaiting(u[j].value) ensures Hopeful(u, u[j].value) {
      if j != i { assert Hopeful(t, t[j].value); }
      HopefulKept(t, u, u[j].value);
    }
  }

  lemma WakeKeeps(s: State, r: State, chan: nat)
    requires Base(s) && chan != 0 && r == s.(table := Wake(s.table, chan))
    ensures Base(r)
    ensures AllHopeful(s.table) ==> Core(r)
    ensures forall i: nat :: HasState(r.table, i, Running) <==> HasState(s.table, i, Running)
    ensures forall i: nat | i < |s.table| && HasState(s.table, i, Running) :: r.table[i] == s.table[i]
  {
    forall i: nat | i < |s.table|
      ensures LikeSlot(s.table[i], r.table[i])
      ensures r.table[i].Some? ==> Settled(r.table[i].value)
      ensures r.table[i].Some? && Alive(r.table[i].value) ==> Seated(s.stacks, r.table[i].value)
    {
      assert r.table[i] == Woken(s.table[i], chan);
      if s.table[i].Some? && Alive(s.table[i].value) {
        assert Seated(s.stacks, s.table[i].value) && Settled(s.table[i].value);
        var k: nat :| Owns(s.stacks, k, s.table[i].value.pid) && InStack(k, s.table[i].value.ctx.spEl1);
        assert Owns(s.stacks, k, r.table[i].value.pid) && InStack(k, r.table[i].value.ctx.spEl1);
      }
    }
    SimilarKeeps(s, r);
  }

  // ---------------------------------------------------------------- scheduling

  /** With nobody running, the scheduler picks a process and runs it, or idles, or halts when all have terminated. */
  lemma ScheduleKeeps(s: State)
    requires Core(s) && Nobody(s.table, Running)
    ensures Inv(Schedule(s)) && Sound(Schedule(s))
  {
    var next := Choose(s.table, s.current);
    var r := Schedule(s);
    assert !HasState(s.table, s.current, Running);
    if next.Some? {
      var q := s.table[next.value].value;
      assert IsReady(s.table, next.value) && Seated(s.stacks, q);
      var p := q.(state := Running);
      var k: nat :| Owns(s.stacks, k, q.pid) && InStack(k, q.ctx.spEl1);
      assert Owns(s.stacks, k, p.pid) && InStack(k, p.ctx.spEl1);
      ChangeOne(s, r, next.value, p);
      ChangeHopeful(s.table, r.table, next.value, p);
      assert HasState(r.table, next.value, Running);
      forall i: nat | HasState(r.table, i, Running) ensures i == next.value {
        assert !HasState(s.table, i, Running);
      }
    } else {
      NothingReady(s.table, s.current);
      if !AnyBlocked(s.table) {
        forall i: nat | i < |s.table| && s.table[i].Some? ensures !Alive(s.table[i].value) {
          assert !HasState(s.table, i, Running) && !HasState(s.table, i, Ready);
        }
      }
    }
  }

  lemma AroundIs(n: nat, current: nat, j: nat)
    requires current < n && j <= n
    ensures Around(n, current, j) == if current + j < n then current + j else current + j - n
  {
    var x := current + j;
    var q, m := x / n, x % n;
    assert x == n * q + m && m < n;
    assert q == 0 || q == 1;
  }

  /** A scan that finds nothing has seen every slot. */
  lemma NothingReady(t: Table, current: nat)
    requires current < |t| && ReadyFrom(t, current, 1).None?
    ensures Nobody(t, Ready)
  {
    forall i: nat | i < |t| ensures !HasState(t, i, Ready) {
      var j := if i > current then i - current else i + |t| - current;
      AroundIs(|t|, current, j);
    }
  }
}
