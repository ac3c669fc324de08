/** Nested interrupt masking, and the spinlock that uses it. */
module Spinlocks {
  import opened Words

  /** One processor: the depth of nested masking, whether interrupts were on before it, and whether they are now. */
  datatype Mask = Mask(ncli: nat, before: bool, on: bool)

  function Push(m: Mask): Mask {
    Mask(m.ncli + 1, if m.ncli == 0 then m.on else m.before, false)
  }

  /** Absent when `pop_off` panics. */
  function Pop(m: Mask): Option<Mask> {
    if m.on || m.ncli < 1 then None else Some(Mask(m.ncli - 1, m.before, m.ncli == 1 && m.before))
  }

  datatype Op = Off | Back

  function RunOps(m: Mask, ops: seq<Op>): Option<Mask>
    decreases |ops|
  {
    if ops == [] then Some(m)
    else if ops[0].Off? then RunOps(Push(m), ops[1..])
    else
      var r := Pop(m);
      if r.None? then None else RunOps(r.value, ops[1..])
  }

  /** From the given depth, no `pop_off` without its `push_off`, and none missing at the end. */
  predicate Balanced(ops: seq<Op>, depth: nat) {
    if ops == [] then depth == 0
    else if ops[0].Off? then Balanced(ops[1..], depth + 1)
    else depth > 0 && Balanced(ops[1..], depth - 1)
  }

  /** m is what depth unmatched `push_off`s made of m0. */
  predicate Nested(m0: Mask, m: Mask, depth: nat) {
    && m.ncli == m0.ncli + depth
    && m.on == (depth == 0 && m0.on)
    && (depth > 0 ==> m.before == if m0.ncli == 0 then m0.on else m0.before)
    && (m0.ncli > 0 ==> m.before == m0.before)
  }

  /** Interrupts are off while any `push_off` is unmatched. */
  predicate Masked(m: Mask) {
    m.ncli > 0 ==> !m.on
  }

  lemma {:induction false} NestedRestores(m0: Mask, m: Mask, ops: seq<Op>, depth: nat)
    requires Masked(m0) && Nested(m0, m, depth) && Balanced(ops, depth)
    ensures var r := RunOps(m, ops); r.Some? && Nested(m0, r.value, 0)
    decreases |ops|
  {
    if ops != [] {
      if ops[0].Off? {
        NestedRestores(m0, Push(m), ops[1..], depth + 1);
      } else {
        NestedRestores(m0, Pop(m).value, ops[1..], depth - 1);
      }
    }
  }

  /** However deeply and in whatever order they nest, balanced calls never panic and restore the interrupt mask. */
  lemma BalancedRestores(m: Mask, ops: seq<Op>)
    requires Masked(m) && Balanced(ops, 0)
    ensures var r := RunOps(m, ops); r.Some? && r.value.on == m.on && r.value.ncli == m.ncli
  {
    NestedRestores(m, m, ops, 0);
  }

  /** In between, interrupts are off exactly as long as a call is unmatched. */
  lemma {:induction false} MaskedInBetween(m0: Mask, m: Mask, ops: seq<Op>, depth: nat, k: nat)
    requires Masked(m0) && Nested(m0, m, depth) && Balanced(ops, depth) && k <= |ops|
    ensures var r := RunOps(m, ops[..k]); r.Some? && Masked(r.value) && r.value.ncli >= m0.ncli
    ensures RunOps(m, ops[..k]).value.on <==> m0.on && RunOps(m, ops[..k]).value.ncli == m0.ncli
    decreases k
  {
    var pre := ops[..k];
    if k > 0 {
      assert pre[0] == ops[0] && pre[1..] == ops[1..][..k - 1];
      if ops[0].Off? {
        MaskedInBetween(m0, Push(m), ops[1..], depth + 1, k - 1);
      } else {
        MaskedInBetween(m0, Pop(m).value, ops[1..], depth - 1, k - 1);
      }
    }
  }

  class Cpu {
    const cid: nat
    var ncli: nat
    var interruptsEnabled: bool
    var irqOn: bool

    constructor (cid: nat, on: bool)
      ensures this.cid == cid && View() == Mask(0, false, on)
    {
      this.cid, ncli, interruptsEnabled, irqOn := cid, 0, false, on;
    }

    function View(): Mask
      reads this
    {
      Mask(ncli, interruptsEnabled, irqOn)
    }

    method PushOff()
      modifies this
      ensures View() == Push(old(View()))
    {
      var enabled := irqOn;
      irqOn := false;
      if ncli == 0 { interruptsEnabled := enabled; }
      ncli := ncli + 1;
    }

    method PopOff() returns (ok: bool)
      modifies this
      ensures var r := Pop(old(View())); ok == r.Some? && View() == if ok then r.value else old(View())
    {
      if irqOn || ncli < 1 { return false; }
      ncli := ncli - 1;
      if ncli == 0 && interruptsEnabled { irqOn := true; }
      return true;
    }
  }

  /** What an acquire comes to: the lock, a panic of this processor's own making, or spinning on another one's. */
  datatype Outcome = Acquired | Panicked | Spinning

  class Spinlock {
    var lock: bool
    var holder: Option<nat>

    constructor ()
      ensures Valid() && !lock
    {
      lock, holder := false, None;
    }

    /** The holder is recorded while the lock is taken, and only then. */
    predicate Valid()
      reads this
    {
      lock <==> holder.Some?
    }

    /** Interrupts are masked first. A free lock is taken; one this processor holds already is a panic. */
    method Acquire(cpu: Cpu) returns (r: Outcome)
      requires Valid()
      modifies this, cpu
      ensures Valid() && cpu.View() == Push(old(cpu.View()))
      ensures r == if old(holder) == None then Acquired else if old(holder) == Some(cpu.cid) then Panicked else Spinning
      ensures holder == if r == Acquired then Some(cpu.cid) else old(holder)
    {
      cpu.PushOff();
      if lock && holder == Some(cpu.cid) { return Panicked; }
      if lock { return Spinning; }
      lock, holder := true, Some(cpu.cid);
      return Acquired;
    }

    /** Panics unless this processor holds the lock and its interrupts are masked. */
    method Release(cpu: Cpu) returns (ok: bool)
      requires Valid()
      modifies this, cpu
      ensures Valid()
      ensures ok <==> old(holder) == Some(cpu.cid) && Pop(old(cpu.View())).Some?
      ensures ok ==> holder == None && Some(cpu.View()) == Pop(old(cpu.View()))
    {
      if !lock { return false; }
      if holder != Some(cpu.cid) { return false; }
      holder := None;
      lock := false;
      ok := cpu.PopOff();
    }
  }
}
