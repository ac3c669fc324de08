/** The kernel's tables, changed in place: every operation computes the step the model gives for it. */
module KernelTables {
  import opened Words
  import opened Lifecycle

  class Kernel {
    const table: array<Option<Process>>
    const stacks: array<StackState>
    var current: nat
    var cpu: Option<nat>
    var nextPid: nat
    var live: Context
    var phase: Phase
    ghost var spaces: set<nat>
    ghost var exits: map<nat, nat>
    ghost var reaped: seq<Delivery>

    ghost predicate Valid()
      reads this
    {
      2 <= table.Length == stacks.Length && current < table.Length
    }

    ghost function View(): (s: State)
      reads this, table, stacks
    {
      State(table[..], current, cpu, nextPid, stacks[..], live, phase, spaces, exits, reaped)
    }

    /** The kernel's static tables, with init spawned and ready. */
    constructor (n: nat, m: Image)
      requires n >= 2
      ensures Valid() && fresh(table) && fresh(stacks) && View() == Spawned(n, m)
    {
      var ctx := FirstContext(m, 0);
      table := new Option<Process>[n](i => None);
      stacks := new StackState[n](i => Free);
      current, cpu, nextPid, live, phase := 1, None, 2, ctx, User;
      spaces, exits, reaped := {m.root}, map[], [];
      new;
      table[0] := Some(Process(INIT, Ready, None, 0, ctx, 0, 0));
      stacks[0] := Allocated(INIT);
      assert table[..] == Spawned(n, m).table;
      assert stacks[..] == Spawned(n, m).stacks;
    }

    // -------------------------------------------------------------- the process table

    method FindById(pid: nat) returns (r: Option<nat>)
      ensures r == Find(table[..], pid)
    {
      var i := 0;
      while i < table.Length
        invariant 0 <= i <= table.Length
        invariant Find(table[..], pid) == FindFrom(table[..], pid, i)
      {
        if table[i].Some? && table[i].value.pid == pid { return Some(i); }
        i := i + 1;
      }
      return None;
    }

    /** `add_process_to_ptable` */
    method AddProcess(p: Process) returns (ok: bool)
      modifies table
      ensures var e := EmptyFrom(old(table[..]), 0);
        ok == e.Some? && table[..] == if e.Some? then old(table[..])[e.value := Some(p)] else old(table[..])
    {
      var i := 0;
      while i < table.Length
        invariant 0 <= i <= table.Length
        invariant table[..] == old(table[..]) && EmptyFrom(table[..], 0) == EmptyFrom(table[..], i)
      {
        if table[i].None? {
          table[i] := Some(p);
          return true;
        }
        i := i + 1;
      }
      return false;
    }

    /** `remove_process_from_ptable` */
    method RemoveProcess(pid: nat) returns (ok: bool)
      modifies table
      ensures var k := Find(old(table[..]), pid);
        ok == k.Some? && table[..] == if k.Some? then old(table[..])[k.value := None] else old(table[..])
    {
      var k := FindById(pid);
      if k.None? { return false; }
      table[k.value] := None;
      return true;
    }

    method ReparentChildrenTo(pid: nat, parent: nat)
      modifies table
      ensures table[..] == Reparent(old(table[..]), pid, parent)
    {
      var i := 0;
      while i < table.Length
        invariant 0 <= i <= table.Length
        invariant forall j | 0 <= j < table.Length ::
          table[j] == if j < i then Adopted(old(table[j]), pid, parent) else old(table[j])
      {
        if table[i].Some? && table[i].value.parent == pid {
          table[i] := Some(table[i].value.(parent := parent));
        }
        i := i + 1;
      }
    }

    method Wakeup(chan: nat)
      modifies table
      ensures table[..] == Wake(old(table[..]), chan)
    {
      var i := 0;
      while i < table.Length
        invariant 0 <= i <= table.Length
        invariant forall j | 0 <= j < table.Length ::
          table[j] == if j < i then Woken(old(table[j]), chan) else old(table[j])
      {
        if table[i].Some? && table[i].value.state == Blocked && table[i].value.chan == chan {
          table[i] := Some(table[i].value.(state := Ready, reason := None, chan := 0));
        }
        i := i + 1;
      }
    }

    // -------------------------------------------------------------- kernel stacks

    method GetActiveStackIndex(pid: nat) returns (r: Option<nat>)
      ensures r == ActiveStack(stacks[..], pid)
    {
      var i := 0;
      while i < stacks.Length
        invariant 0 <= i <= stacks.Length
        invariant ActiveStack(stacks[..], pid) == StackFrom(stacks[..], Allocated(pid), i)
      {
        if stacks[i] == Allocated(pid) { return Some(i); }
        i := i + 1;
      }
      return None;
    }

    method FirstFreeStack() returns (slot: Option<nat>)
      ensures slot == StackFrom(stacks[..], Free, 0)
    {
      var i := 0;
      while i < stacks.Length
        invariant 0 <= i <= stacks.Length && StackFrom(stacks[..], Free, 0) == StackFrom(stacks[..], Free, i)
      {
        if stacks[i] == Free { return Some(i); }
        i := i + 1;
      }
      return None;
    }

    /** The slot allocated; absent when the process already has one, or none is free. */
    method AllocStack(pid: nat) returns (slot: Option<nat>)
      modifies stacks
      ensures slot == if ActiveStack(old(stacks[..]), pid).Some? then None else StackFrom(old(stacks[..]), Free, 0)
      ensures stacks[..] == if slot.Some? then old(stacks[..])[slot.value := Allocated(pid)] else old(stacks[..])
    {
      var has := GetActiveStackIndex(pid);
      if has.Some? { return None; }
      slot := FirstFreeStack();
      if slot.Some? { stacks[slot.value] := Allocated(pid); }
    }

    method QueueStackToFree(pid: nat) returns (ok: bool)
      modifies stacks
      ensures var k := ActiveStack(old(stacks[..]), pid);
        ok == k.Some?
        && stacks[..] == if k.Some? then old(stacks[..])[k.value := QueuedToFree(pid)] else old(stacks[..])
    {
      var k := GetActiveStackIndex(pid);
      if k.None? { return false; }
      stacks[k.value] := QueuedToFree(pid);
      return true;
    }

    method FreeQueuedStacks()
      requires Valid() && table[current].Some?
      modifies stacks
      ensures stacks[..] == FreeQueued(old(stacks[..]), table[current].value.pid)
    {
      var i := 0;
      while i < stacks.Length
        invariant 0 <= i <= stacks.Length
        invariant forall j | 0 <= j < stacks.Length ::
          stacks[j] == if j < i then Released(old(stacks[j]), table[current].value.pid) else old(stacks[j])
      {
        if stacks[i].QueuedToFree? && stacks[i].pid != table[current].value.pid {
          stacks[i] := Free;
        }
        i := i + 1;
      }
    }

    // -------------------------------------------------------------- the scheduler

    method ChooseNextProcess() returns (next: Option<nat>)
      requires Valid()
      modifies this`current
      ensures next == Choose(old(table[..]), old(current))
      ensures current == if next.Some? then next.value else old(current)
    {
      if table[current].Some? && table[current].value.state == Running { return Some(current); }
      var i := 1;
      while i < table.Length + 1
        invariant 1 <= i <= table.Length + 1 && current == old(current)
        invariant ReadyFrom(table[..], current, 1) == ReadyFrom(table[..], current, i)
      {
        var idx := Around(table.Length, current, i);
        if table[idx].Some? && table[idx].value.state == Ready {
          assert IsReady(table[..], idx);
          current := idx;
          return Some(idx);
        }
        i := i + 1;
      }
      return None;
    }

    method HasBlocked() returns (r: bool)
      ensures r == AnyBlocked(table[..])
    {
      var i := 0;
      while i < table.Length
        invariant 0 <= i <= table.Length
        invariant forall j | 0 <= j < i :: !(table[j].Some? && table[j].value.state == Blocked)
      {
        if table[i].Some? && table[i].value.state == Blocked {
          assert table[..][i].Some?;
          return true;
        }
        i := i + 1;
      }
      return false;
    }

    /** The body of `schedule_next`'s loop: a process is loaded, or the kernel idles or halts. */
    method ScheduleNext()
      requires Valid()
      modifies this`current, this`cpu, this`live, this`phase, table
      ensures Valid() && View() == Schedule(old(View()))
    {
      var next := ChooseNextProcess();
      if next.Some? {
        var i := next.value;
        current := i;
        table[i] := Some(table[i].value.(state := Running));
        cpu := Some(table[i].value.pid);
        live := table[i].value.ctx;
        phase := User;
      } else {
        var blocked := HasBlocked();
        phase := if blocked then Idle else Halted;
      }
    }

    // -------------------------------------------------------------- exceptions and system calls

    method AwakeCommonChans(uart: bool)
      requires Valid()
      modifies table
      ensures View() == AwakeCommon(old(View()), uart)
    {
      if uart { Wakeup(AWAITING_UART_READ); }
    }

    method EnterFromUser(c: Context, uart: bool)
      requires Valid() && phase == User
      modifies this`live, this`phase, table, stacks
      ensures Valid() && View() == Enter(old(View()), c, uart)
    {
      if table[current].None? {
        phase := Panic(CurrentGone);
        return;
      }
      FreeQueuedStacks();
      table[current] := Some(table[current].value.(ctx := c));
      live := c;
      ghost var mid := table[..];
      assert mid == old(table[..])[current := Some(old(table[current].value).(ctx := c))];
      AwakeCommonChans(uart);
    }

    method TimesliceUp()
      requires Valid() && table[current].Some?
      modifies this`current, this`cpu, this`live, this`phase, table
      ensures Valid() && View() == Tick(old(View()))
    {
      table[current] := Some(table[current].value.(state := Ready));
      assert table[..] == old(table[..])[current := Some(old(table[current].value).(state := Ready))];
      ScheduleNext();
    }

    method TerminateCurrent(code: nat)
      requires Valid() && table[current].Some?
      modifies this`phase, this`spaces, this`exits, table, stacks
      ensures Valid() && View() == Terminate(old(View()), code)
    {
      var p := table[current].value;
      var queued := QueueStackToFree(p.pid);
      if !queued {
        phase := Panic(NoKernelStack);
        return;
      }
      table[current] := Some(p.(exitCode := code, state := Terminated));
      assert table[..] == old(table[..])[current := Some(p.(exitCode := code, state := Terminated))];
      ReparentChildrenTo(p.pid, INIT);
      spaces, exits := spaces - {p.ctx.ttbr0}, exits[p.pid := code];
    }

    /** The part of `sys_exit` after `terminate`, up to the scheduling. */
    method NotifyParentOfExit()
      requires Valid() && table[current].Some?
      modifies this`phase, this`reaped, table
      ensures Valid() && View() == NotifyParent(old(View()))
    {
      var p := table[current].value;
      var k := FindById(p.parent);
      if k.None? {
        if p.parent != 0 { phase := Panic(ParentGone); }
        return;
      }
      var q := table[k.value].value;
      if q.state == Blocked && q.reason == Some(WaitingForChild) && (q.ctx.x0 == 0 || p.pid == q.ctx.x0) {
        table[k.value] := Some(q.(state := Ready, ctx := q.ctx.(x0 := p.pid, x1 := p.exitCode)));
        var removed := RemoveProcess(p.pid);
        if removed {
          reaped := reaped + [Delivery(q.pid, p.pid, p.exitCode)];
        } else {
          phase := Panic(ReapedGone);
        }
      }
    }

    /** `sys_exit`, for the process whose registers are live. */
    method SysExit()
      requires Valid() && table[current].Some?
      modifies this, table, stacks
      ensures Valid() && View() == Exit(old(View()), old(live.x0))
    {
      TerminateCurrent(live.x0);
      if phase.Panic? { return; }
      NotifyParentOfExit();
      if phase.Panic? { return; }
      ScheduleNext();
    }

    method SysWait()
      requires Valid() && table[current].Some?
      modifies this, table
      ensures Valid() && View() == Wait(old(View()), old(live.x0))
    {
      var p, target := table[current].value, live.x0;
      var i, found := 0, false;
      while i < table.Length
        invariant 0 <= i <= table.Length
        invariant View() == old(View())
        invariant DeadChildFrom(table[..], p.pid, target, 0) == DeadChildFrom(table[..], p.pid, target, i)
        invariant found <==> exists j | 0 <= j < i :: table[..][j].Some? && IsChild(table[..][j].value, p.pid, target)
      {
        if table[i].Some? {
          var c := table[i].value;
          if c.parent == p.pid && (target == 0 || c.pid == target) {
            found := true;
            assert table[..][i].Some? && IsChild(table[..][i].value, p.pid, target);
            if c.state == Terminated {
              table[i] := None;
              live := live.(x0 := c.pid, x1 := c.exitCode);
              reaped := reaped + [Delivery(p.pid, c.pid, c.exitCode)];
              return;
            }
          }
        }
        i := i + 1;
      }
      if !found {
        live := live.(x0 := MINUS_ONE);
        return;
      }
      table[current] := Some(p.(state := Blocked, reason := Some(WaitingForChild)));
      assert table[..] == old(table[..])[current := Some(p.(state := Blocked, reason := Some(WaitingForChild)))];
      ScheduleNext();
    }

    /** root: the L1 table of the copied space, if there were frames for it; frames: are there for the stack? */
    method SysFork(root: Option<nat>, frames: bool)
      requires Valid() && table[current].Some?
      modifies this, table, stacks
      ensures Valid() && phase == Fork(old(View()), root, frames).phase
      ensures !phase.Panic? ==> View() == Fork(old(View()), root, frames)
    {
      var p, pid := table[current].value, nextPid;
      if root.None? {
        phase := Panic(ForkFailed);
        return;
      }
      nextPid := nextPid + 1;
      var slot := GetActiveStackIndex(pid);
      if slot.None? {
        slot := AllocStack(pid);
        if slot.None? {
          phase := Panic(ForkFailed);
          return;
        }
        if !frames {
          phase := Panic(NoStackFrames);
          return;
        }
      }
      assert stacks[..] == old(stacks[..])[slot.value := Allocated(pid)];
      var from := GetActiveStackIndex(p.pid);
      if from.None? {
        phase := Panic(NoKernelStack);
        return;
      }
      if p.ctx.spEl1 > StackTop(from.value) {
        phase := Panic(StackUnderflow);
        return;
      }
      AddChild(root.value, slot.value, from.value, old(View()));
    }

    /** The end of `sys_fork`: the pid and the stack slot are taken, and the child goes into the table. */
    method AddChild(root: nat, slot: nat, from: nat, ghost s: State)
      requires Valid() && table[current].Some? && slot < |s.stacks|
      requires View() == s.(nextPid := s.nextPid + 1, stacks := s.stacks[slot := Allocated(s.nextPid)])
      modifies this, table
      ensures Valid()
      ensures var e := EmptyFrom(s.table, 0);
        if e.None? then phase == Panic(ForkFailed) else View() == Forked(s, root, slot, from, e.value)
    {
      var p, pid := table[current].value, nextPid - 1;
      var sp := StackTop(slot) - (StackTop(from) - p.ctx.spEl1);
      live := live.(x0 := pid);
      var added := AddProcess(Process(pid, Ready, None, p.pid, p.ctx.(x0 := 0, ttbr0 := root, spEl1 := sp), 0, 0));
      if added {
        spaces := spaces + {root};
      } else {
        phase := Panic(ForkFailed);
      }
    }

    /** load: what became of the file and the arguments. */
    method SysExec(load: Loading)
      requires Valid() && table[current].Some?
      modifies this, table, stacks
      ensures Valid() && phase == Exec(old(View()), load).phase
      ensures !phase.Panic? && phase != HalfChanged ==> View() == Exec(old(View()), load)
    {
      match load
      case Refused => live := live.(x0 := MINUS_ONE);
      case LoadPanics => phase := Panic(LoadPanicked);
      case WritesPastFrame => phase := Overrun;
      case Loaded(image, argsFit) => ReplaceImage(image, argsFit);
    }

    /** The rest of `exec`, once the old space is freed. */
    method ReplaceImage(image: Image, argsFit: bool)
      requires Valid() && table[current].Some?
      modifies this, table, stacks
      ensures Valid() && phase == Replace(old(View()), image, argsFit).phase
      ensures !phase.Panic? && phase != HalfChanged ==> View() == Replace(old(View()), image, argsFit)
    {
      var p := table[current].value;
      var queued := QueueStackToFree(p.pid);
      if !queued {
        phase := HalfChanged;
        return;
      }
      var slot := AllocStack(p.pid);
      if slot.None? {
        phase := HalfChanged;
        return;
      }
      var ctx := FirstContext(image, slot.value);
      table[current] := Some(p.(ctx := ctx));
      assert table[..] == old(table[..])[current := Some(p.(ctx := ctx))];
      live := ctx;
      spaces := spaces - {p.ctx.ttbr0} + {image.root};
      if !argsFit { phase := HalfChanged; }
    }

    /** The sleep of a process inside the kernel, from `Scheduler::sleep` to the scheduling in the handler. */
    method SleepInKernel(chan: nat, reason: BlockReason, c: Context, uart: bool)
      requires Valid() && table[current].Some? && table[current].value.state == Running
      modifies this, table
      ensures Valid() && View() == Sleep(AwakeCommon(old(View()), uart), chan, reason, c)
    {
      var p := table[current].value;
      table[current] := Some(p.(chan := chan, reason := Some(reason)));
      ghost var marked := table[..];
      AwakeCommonChans(uart);
      assert table[current] == Some(p.(chan := chan, reason := Some(reason)));
      table[current] := Some(table[current].value.(ctx := c, state := Blocked));
      cpu := None;
      ghost var woken := AwakeCommon(old(View()), uart);
      ghost var q := p.(chan := chan, reason := Some(reason), ctx := c, state := Blocked);
      assert table[..] == woken.table[current := Some(q)] by {
        forall i | 0 <= i < table.Length && i != current ensures table[i] == woken.table[i] {
          assert marked[i] == old(table[..])[i];
          assert uart ==> woken.table[i] == Woken(old(table[..])[i], AWAITING_UART_READ);
        }
      }
      ScheduleNext();
    }

    /** `handle_exception_el1` for an exception from EL0. */
    method HandleException(c: Context, uart: bool, cause: Cause)
      requires Valid() && phase == User
      modifies this, table, stacks
      ensures Valid() && phase == Step(old(View()), Trap(c, uart, cause)).phase
      ensures !phase.Panic? && phase != HalfChanged ==> View() == Step(old(View()), Trap(c, uart, cause))
    {
      EnterFromUser(c, uart);
      if phase.Panic? { return; }
      assert View().table[current].Some?;
      match cause
      case Timer => TimesliceUp();
      case CallExit => SysExit();
      case CallWait => SysWait();
      case CallFork(root, frames) => SysFork(root, frames);
      case CallExec(load) => SysExec(load);
      case Other(x0, x1) => live := live.(x0 := x0, x1 := x1);
    }
  }
}
