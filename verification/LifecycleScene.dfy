/** A short run from boot after which init waits beside a dead child: 2 forks 3, 3 forks 4, and 4 and 3 exit. */
module LifecycleScene {
  import opened Words
  import opened Lifecycle
  import opened LifecycleInvariant
  import opened LifecycleSteps
  import opened LifecycleFork
  import opened LifecycleRuns
  import opened LifecycleOrphans

  const IMAGE: Image := Image(0, 0, 0, 0, 1)

  /** The registers of the process whose L1 table is root and whose kernel stack is slot k. */
  function Regs(root: nat, k: nat, x0: nat): (c: Context)
    ensures InUserMode(c) && c.x0 == x0 && c.ttbr0 == root && c.spEl1 == StackTop(k)
  {
    FirstContext(IMAGE, k).(x0 := x0, ttbr0 := root)
  }

  /** The process with this pid, whose L1 table has the same number, on the stack with the number below. */
  function Proc(pid: nat, state: ProcessState, parent: nat, x0: nat): Option<Process>
    requires pid > 0
  {
    Some(Process(pid, state, None, parent, Regs(pid, pid - 1, x0), 0, 0))
  }

  /** Init, blocked in a wait for any child. */
  const WAITING: Option<Process> :=
    Some(Process(INIT, Blocked, Some(WaitingForChild), 0, Regs(1, 0, 0), 0, 0))

  /** Process pid runs, in slot pid - 1, with x0 as given. */
  function Scene(table: Table, pid: nat, x0: nat, nextPid: nat, stacks: seq<StackState>, spaces: set<nat>,
                 exits: map<nat, nat>): State
    requires pid > 0
  {
    State(table, pid - 1, Some(pid), nextPid, stacks, Regs(pid, pid - 1, x0), User, spaces, exits, [])
  }

  const S0: State :=
    Scene([Proc(1, Running, 0, 0), None, None, None], 1, 0, 2, [Allocated(1), Free, Free, Free], {1}, map[])

  const S1: State :=
    Scene([Proc(1, Running, 0, 0), Proc(2, Ready, 1, 0), None, None], 1, 2, 3,
          [Allocated(1), Allocated(2), Free, Free], {1, 2}, map[])

  const S2: State :=
    Scene([WAITING, Proc(2, Running, 1, 0), None, None], 2, 0, 3,
          [Allocated(1), Allocated(2), Free, Free], {1, 2}, map[])

  const S3: State :=
    Scene([WAITING, Proc(2, Running, 1, 0), Proc(3, Ready, 2, 0), None], 2, 3, 4,
          [Allocated(1), Allocated(2), Allocated(3), Free], {1, 2, 3}, map[])

  const S4: State :=
    Scene([WAITING, Proc(2, Ready, 1, 3), Proc(3, Running, 2, 0), None], 3, 0, 4,
          [Allocated(1), Allocated(2), Allocated(3), Free], {1, 2, 3}, map[])

  const S5: State :=
    Scene([WAITING, Proc(2, Ready, 1, 3), Proc(3, Running, 2, 0), Proc(4, Ready, 3, 0)], 3, 4, 5,
          [Allocated(1), Allocated(2), Allocated(3), Allocated(4)], {1, 2, 3, 4}, map[])

  const S6: State :=
    Scene([WAITING, Proc(2, Ready, 1, 3), Proc(3, Ready, 2, 4), Proc(4, Running, 3, 0)], 4, 0, 5,
          [Allocated(1), Allocated(2), Allocated(3), Allocated(4)], {1, 2, 3, 4}, map[])

  const S7: State :=
    Scene([WAITING, Proc(2, Running, 1, 3), Proc(3, Ready, 2, 4), Proc(4, Terminated, 3, 0)], 2, 3, 5,
          [Allocated(1), Allocated(2), Allocated(3), QueuedToFree(4)], {1, 2, 3}, map[4 := 0])

  const S8: State :=
    Scene([WAITING, Proc(2, Ready, 1, 3), Proc(3, Running, 2, 4), Proc(4, Terminated, 3, 0)], 3, 4, 5,
          [Allocated(1), Allocated(2), Allocated(3), Free], {1, 2, 3}, map[4 := 0])

  /** Three has exited with code 4, and its dead child has gone to init. */
  const DEAD_THREE: Option<Process> := Some(Process(3, Terminated, None, 2, Regs(3, 2, 4), 0, 4))

  const S9: State :=
    Scene([WAITING, Proc(2, Running, 1, 3), DEAD_THREE, Proc(4, Terminated, 1, 0)], 2, 3, 5,
          [Allocated(1), Allocated(2), QueuedToFree(3), Free], {1, 2}, map[4 := 0, 3 := 4])

  /** An exception finds the registers as they were left, but for x0. */
  function Call(s: State, x0: nat, cause: Cause): Event {
    Trap(s.live.(x0 := x0), false, cause)
  }

  lemma Boots()
    ensures Boot(4, IMAGE) == S0
  {
    var t := Spawned(4, IMAGE).table;
    assert t == [Proc(1, Ready, 0, 0), None, None, None];
    assert Spawned(4, IMAGE).stacks == S0.stacks;
    assert ReadyFrom(t, 1, 3) == Some(0);
    assert ReadyFrom(t, 1, 2) == Some(0);
    assert Choose(t, 1) == Some(0);
    assert t[0 := Proc(1, Running, 0, 0)] == S0.table;
  }

  lemma FirstFork()
    ensures var e := Call(S0, 0, CallFork(Some(2), true)); Allowed(S0, e) && Step(S0, e) == S1
  {
    assert Owns(S0.stacks, 0, 1) && InStack(0, StackTop(0));
    var s := Enter(S0, S0.live, false);
    assert s.stacks == S0.stacks && s.table == S0.table;
    assert StackFrom(s.stacks, Free, 0) == Some(1);
  }

  lemma InitWaitsForAny()
    ensures var e := Call(S1, 0, CallWait); Allowed(S1, e) && Step(S1, e) == S2
  {
    var s := Enter(S1, S1.live.(x0 := 0), false);
    assert s.stacks == S1.stacks && s.table == S1.table;
    assert s.table[1].Some? && IsChild(s.table[1].value, 1, 0);
    var t: Table := s.table[0 := WAITING];
    assert ReadyFrom(t, 0, 1) == Some(1);
  }

  lemma SecondFork()
    ensures var e := Call(S2, 0, CallFork(Some(3), true)); Allowed(S2, e) && Step(S2, e) == S3
  {
    var s := Enter(S2, S2.live, false);
    assert s.stacks == S2.stacks && s.table == S2.table;
    assert StackFrom(s.stacks, Free, 2) == Some(2) && EmptyFrom(s.table, 2) == Some(2);
    assert ActiveStack(s.stacks, 3).None? by { assert StackFrom(s.stacks, Allocated(3), 2).None?; }
    assert ActiveStack(S3.stacks, 2) == Some(1) by { assert StackFrom(S3.stacks, Allocated(2), 1) == Some(1); }
    assert StackFrom(s.stacks, Free, 0) == Some(2) by { assert StackFrom(s.stacks, Free, 1) == Some(2); }
    assert EmptyFrom(s.table, 0) == Some(2) by { assert EmptyFrom(s.table, 1) == Some(2); }
    assert s.stacks[2 := Allocated(3)] == S3.stacks;
    ForkWith(s, 3, 2, 1, 2);
    assert ChildOf(s, 3, 2, 1) == Proc(3, Ready, 2, 0).value;
    assert Forked(s, 3, 2, 1, 2).table == S3.table;
  }

  lemma FirstTick()
    ensures var e := Call(S3, 3, Timer); Allowed(S3, e) && Step(S3, e) == S4
  {
    var s := Enter(S3, S3.live, false);
    assert s.stacks == S3.stacks;
    var t: Table := s.table[1 := Proc(2, Ready, 1, 3)];
    assert ReadyFrom(t, 1, 1) == Some(2);
  }

  lemma ThirdFork()
    ensures var e := Call(S4, 0, CallFork(Some(4), true)); Allowed(S4, e) && Step(S4, e) == S5
  {
    var s := Enter(S4, S4.live, false);
    assert s.stacks == S4.stacks && s.table == S4.table;
    assert StackFrom(s.stacks, Free, 2) == Some(3) && EmptyFrom(s.table, 2) == Some(3);
    assert ActiveStack(s.stacks, 4).None? by { assert StackFrom(s.stacks, Allocated(4), 2).None?; }
    assert StackFrom(s.stacks, Free, 0) == Some(3) by { assert StackFrom(s.stacks, Free, 1) == Some(3); }
    assert EmptyFrom(s.table, 0) == Some(3) by { assert EmptyFrom(s.table, 1) == Some(3); }
    assert ActiveStack(S5.stacks, 3) == Some(2) by { assert StackFrom(S5.stacks, Allocated(3), 1) == Some(2); }
    assert s.stacks[3 := Allocated(4)] == S5.stacks;
    ForkWith(s, 4, 3, 2, 3);
    assert ChildOf(s, 4, 3, 2) == Proc(4, Ready, 3, 0).value;
    assert Forked(s, 4, 3, 2, 3).table == S5.table;
  }

  lemma SecondTick()
    ensures var e := Call(S5, 4, Timer); Allowed(S5, e) && Step(S5, e) == S6
  {
    var s := Enter(S5, S5.live, false);
    assert s.stacks == S5.stacks;
    var t: Table := s.table[2 := Proc(3, Ready, 2, 4)];
    assert ReadyFrom(t, 2, 1) == Some(3);
  }

  lemma FourExits()
    ensures var e := Call(S6, 0, CallExit); Allowed(S6, e) && Step(S6, e) == S7
  {
    var s := Enter(S6, S6.live, false);
    assert s.stacks == S6.stacks && s.table == S6.table;
    assert ActiveStack(s.stacks, 4) == Some(3) by { assert StackFrom(s.stacks, Allocated(4), 2) == Some(3); }
    var t := Terminate(s, 0);
    assert t.table == [WAITING, Proc(2, Ready, 1, 3), Proc(3, Ready, 2, 4), Proc(4, Terminated, 3, 0)];
    assert Find(t.table, 3) == Some(2) by { assert FindFrom(t.table, 3, 1) == Some(2); }
    assert ReadyFrom(t.table, 3, 1) == Some(1) by { assert ReadyFrom(t.table, 3, 2) == Some(1); }
    assert t.spaces == {1, 2, 3};
  }

  lemma ThirdTick()
    ensures var e := Call(S7, 3, Timer); Allowed(S7, e) && Step(S7, e) == S8
  {
    var s := Enter(S7, S7.live, false);
    assert s.stacks == S8.stacks;
    var t: Table := s.table[1 := Proc(2, Ready, 1, 3)];
    assert ReadyFrom(t, 1, 1) == Some(2);
  }

  lemma ThreeExits()
    ensures var e := Call(S8, 4, CallExit); Allowed(S8, e) && Step(S8, e) == S9
  {
    var s := Enter(S8, S8.live, false);
    assert s.stacks == S8.stacks && s.table == S8.table;
    assert ActiveStack(s.stacks, 3) == Some(2) by { assert StackFrom(s.stacks, Allocated(3), 1) == Some(2); }
    var t := Terminate(s, 4);
    assert t.table == [WAITING, Proc(2, Ready, 1, 3), DEAD_THREE, Proc(4, Terminated, 1, 0)];
    assert Find(t.table, 2) == Some(1) by { assert FindFrom(t.table, 2, 1) == Some(1); }
    assert ReadyFrom(t.table, 2, 3) == Some(1);
    assert ReadyFrom(t.table, 2, 1) == Some(1) by { assert ReadyFrom(t.table, 2, 2) == Some(1); }
    assert t.spaces == {1, 2};
  }

  /** One more event in front of a run. */
  lemma Prepend(s: State, e: Event, r: State, es: seq<Event>, end: State)
    requires s.current < |s.table| && Allowed(s, e) && Step(s, e) == r && AllowedRun(r, es) && Run(r, es) == end
    ensures AllowedRun(s, [e] + es) && Run(s, [e] + es) == end
  {
    assert ([e] + es)[1..] == es;
  }

  lemma LastFive() returns (es: seq<Event>)
    ensures AllowedRun(S4, es) && Run(S4, es) == S9
  {
    es := [];
    ThreeExits(); Prepend(S8, Call(S8, 4, CallExit), S9, es, S9);
    es := [Call(S8, 4, CallExit)] + es;
    ThirdTick(); Prepend(S7, Call(S7, 3, Timer), S8, es, S9);
    es := [Call(S7, 3, Timer)] + es;
    FourExits(); Prepend(S6, Call(S6, 0, CallExit), S7, es, S9);
    es := [Call(S6, 0, CallExit)] + es;
    SecondTick(); Prepend(S5, Call(S5, 4, Timer), S6, es, S9);
    es := [Call(S5, 4, Timer)] + es;
    ThirdFork(); Prepend(S4, Call(S4, 0, CallFork(Some(4), true)), S5, es, S9);
    es := [Call(S4, 0, CallFork(Some(4), true))] + es;
  }

  /** There is a run from boot that leaves init waiting beside a dead child. */
  lemma InitCanBeLeft() returns (s: State)
    ensures Reached(s) && Sound(s) && Unnoticed(s.table)
  {
    s := S9;
    assert Neglects(S9.table, 0, 3);
    var es := LastFive();
    FirstTick(); Prepend(S3, Call(S3, 3, Timer), S4, es, S9);
    es := [Call(S3, 3, Timer)] + es;
    SecondFork(); Prepend(S2, Call(S2, 0, CallFork(Some(3), true)), S3, es, S9);
    es := [Call(S2, 0, CallFork(Some(3), true))] + es;
    InitWaitsForAny(); Prepend(S1, Call(S1, 0, CallWait), S2, es, S9);
    es := [Call(S1, 0, CallWait)] + es;
    FirstFork(); Prepend(S0, Call(S0, 0, CallFork(Some(2), true)), S1, es, S9);
    es := [Call(S0, 0, CallFork(Some(2), true))] + es;
    Boots();
    assert ReachedBy(4, IMAGE, es, S9);
  }

  // ---------------------------------------------------------------- a panic from user space

  const T0: State := Scene([Proc(1, Running, 0, 0), None], 1, 0, 2, [Allocated(1), Free], {1}, map[])

  const T1: State :=
    Scene([Proc(1, Running, 0, 0), Proc(2, Ready, 1, 0)], 1, 2, 3, [Allocated(1), Allocated(2)], {1, 2}, map[])

  lemma BootsSmall()
    ensures Boot(2, IMAGE) == T0
  {
    var t := Spawned(2, IMAGE).table;
    assert t == [Proc(1, Ready, 0, 0), None];
    assert Spawned(2, IMAGE).stacks == T0.stacks;
    assert ReadyFrom(t, 1, 1) == Some(0);
    assert t[0 := Proc(1, Running, 0, 0)] == T0.table;
  }

  lemma ForkFills()
    ensures var e := Call(T0, 0, CallFork(Some(2), true)); Allowed(T0, e) && Step(T0, e) == T1
  {
    assert Owns(T0.stacks, 0, 1) && InStack(0, StackTop(0));
    var s := Enter(T0, T0.live, false);
    assert s.stacks == T0.stacks && s.table == T0.table;
    assert StackFrom(s.stacks, Free, 0) == Some(1);
  }

  lemma ForkPanics()
    ensures var e := Call(T1, 0, CallFork(Some(3), true)); Allowed(T1, e) && Step(T1, e).phase == Panic(ForkFailed)
  {
    var s := Enter(T1, T1.live.(x0 := 0), false);
    assert s.stacks == T1.stacks && s.table == T1.table;
    assert StackFrom(s.stacks, Free, 0).None? && ActiveStack(s.stacks, 3).None?;
  }

  /** There is a run from boot, of two forks, in which the kernel panics for want of a slot for a stack alone. */
  lemma ForkCanPanic() returns (s: State)
    ensures Reached(s) && s.phase == Panic(ForkFailed)
  {
    ForkPanics();
    var e := Call(T1, 0, CallFork(Some(3), true));
    s := Step(T1, e);
    assert AllowedRun(s, []) && Run(s, []) == s;
    Prepend(T1, e, s, [], s);
    ForkFills();
    var d := Call(T0, 0, CallFork(Some(2), true));
    Prepend(T0, d, T1, [e] + [], s);
    BootsSmall();
    assert ReachedBy(2, IMAGE, [d] + ([e] + []), s);
  }
}
