/** The blocking mutex over a spinlock guard, as interleaved steps of any number of processes. */
module MutexProtocol {
  import opened Words

  /** Where a process is in `acquire`, in the sleep inside it, in the critical section, or in `release`.
      `held` says whether the process that releases holds the mutex; the code does not know it. */
  datatype Pc =
    | Outside
    | WantGuard                        // acquire: spinning on the guard, at first or after a sleep
    | TestLock                         // acquire: the loop's condition
    | MarkChannel                      // sleep_for_mutex: reason and channel, then svc
    | EnterHandler                     // the handler: save the context and set Blocked
    | DropGuardAsleep                  // the handler: release the guard of a process already Blocked
    | Asleep                           // not scheduled again before it is woken
    | TakeLock | RecordOwner | DropGuardInside
    | Inside
    | WantGuardToRelease(held: bool)
    | CheckOwner(held: bool)           // release: the two panics
    | FreeLock | ClearOwner
    | WakeSlot(slot: nat)              // wakeup: the scan over the process table
    | DropGuardOutside

  /** One mutex: `sleeping` marks the slots whose process is Blocked on its channel. */
  datatype State = State(pcs: seq<Pc>, sleeping: seq<bool>, guard: Option<nat>, lock: bool, owner: Option<nat>,
                         panicked: bool)

  /** What a process outside or inside chooses to do; every other step is determined. */
  datatype Choice = CallAcquire | CallRelease | Wait

  function At(s: State, i: nat, pc: Pc): State
    requires i < |s.pcs|
  {
    s.(pcs := s.pcs[i := pc])
  }

  /** Can process i take its next step? A spinning process cannot while the guard is taken, nor a sleeping one. */
  predicate Enabled(s: State, i: nat)
    requires i < |s.pcs| == |s.sleeping|
  {
    match s.pcs[i]
    case WantGuard => s.guard.None?
    case WantGuardToRelease(_) => s.guard.None?
    case Asleep => !s.sleeping[i]
    case _ => true
  }

  /** The next step of process i. */
  function Step(s: State, i: nat, c: Choice): (r: State)
    requires i < |s.pcs| == |s.sleeping|
    ensures |r.pcs| == |s.pcs| && |r.sleeping| == |s.sleeping|
  {
    if s.panicked || !Enabled(s, i) then s
    else
      match s.pcs[i]
      case Outside =>
        if c == CallAcquire then At(s, i, WantGuard)
        else if c == CallRelease then At(s, i, WantGuardToRelease(false)) else s
      case WantGuard => At(s, i, TestLock).(guard := Some(i))
      case TestLock => At(s, i, if s.lock then MarkChannel else TakeLock)
      case MarkChannel => At(s, i, EnterHandler)
      case EnterHandler => At(s, i, DropGuardAsleep).(sleeping := s.sleeping[i := true])
      case DropGuardAsleep => At(s, i, Asleep).(guard := None)
      case Asleep => At(s, i, WantGuard)
      case TakeLock => At(s, i, RecordOwner).(lock := true)
      case RecordOwner => At(s, i, DropGuardInside).(owner := Some(i))
      case DropGuardInside => At(s, i, Inside).(guard := None)
      case Inside => if c == CallRelease then At(s, i, WantGuardToRelease(true)) else s
      case WantGuardToRelease(held) => At(s, i, CheckOwner(held)).(guard := Some(i))
      case CheckOwner(_) => if !s.lock || s.owner != Some(i) then s.(panicked := true) else At(s, i, FreeLock)
      case FreeLock => At(s, i, ClearOwner).(lock := false)
      case ClearOwner => At(s, i, WakeSlot(0)).(owner := None)
      case WakeSlot(k) =>
        if k < |s.sleeping| then At(s, i, WakeSlot(k + 1)).(sleeping := s.sleeping[k := false])
        else At(s, i, DropGuardOutside)
      case DropGuardOutside => At(s, i, Outside).(guard := None)
  }

  function Start(n: nat): State {
    State(seq(n, i => Outside), seq(n, i => false), None, false, None, false)
  }

  /** A schedule: who moves, and what it chooses. */
  datatype Turn = Turn(who: nat, choice: Choice)

  predicate TurnsOf(n: nat, turns: seq<Turn>) {
    forall k | 0 <= k < |turns| :: turns[k].who < n
  }

  function Run(s: State, turns: seq<Turn>): (r: State)
    requires |s.pcs| == |s.sleeping| && TurnsOf(|s.pcs|, turns)
    ensures |r.pcs| == |s.pcs| && |r.sleeping| == |s.sleeping|
    decreases |turns|
  {
    if turns == [] then s else Run(Step(s, turns[0].who, turns[0].choice), turns[1..])
  }

  // ---------------------------------------------------------------- the invariant

  /** Between acquiring and releasing the guard. */
  predicate InGuard(pc: Pc) {
    match pc
    case Outside | WantGuard | Asleep | Inside | WantGuardToRelease(_) => false
    case _ => true
  }

  /** Between setting `lock` and clearing it. */
  predicate HasLock(pc: Pc) {
    match pc
    case RecordOwner | DropGuardInside | Inside | FreeLock => true
    case WantGuardToRelease(held) => held
    case CheckOwner(held) => held
    case _ => false
  }

  /** Between recording the owner and clearing it. */
  predicate IsOwner(pc: Pc) {
    pc == ClearOwner || (HasLock(pc) && pc != RecordOwner)
  }

  /** Between `acquire` returning and `release` being called. */
  predicate Critical(pc: Pc) {
    pc == Inside
  }

  /** A releaser that holds the guard and will still scan slot i. */
  predicate WillWake(pc: Pc, i: nat) {
    pc == ClearOwner || (pc.WakeSlot? && pc.slot <= i)
  }

  ghost predicate GuardOk(s: State) {
    && (forall i: nat | i < |s.pcs| :: InGuard(s.pcs[i]) <==> s.guard == Some(i))
    && (s.guard.Some? ==> s.guard.value < |s.pcs|)
  }

  ghost predicate Held(s: State) {
    exists i: nat :: i < |s.pcs| && HasLock(s.pcs[i])
  }

  /** The lock is set exactly while one process holds it, and those about to sleep have seen it set. */
  ghost predicate LockOk(s: State) {
    && (s.lock <==> Held(s))
    && (forall i: nat, j: nat | i < |s.pcs| && j < |s.pcs| :: HasLock(s.pcs[i]) && HasLock(s.pcs[j]) ==> i == j)
    && (forall i: nat | i < |s.pcs| :: AboutToSleep(s.pcs[i]) ==> s.lock)
    && (forall i: nat | i < |s.pcs| :: s.pcs[i] == TakeLock ==> !s.lock)
  }

  predicate AboutToSleep(pc: Pc) {
    pc == MarkChannel || pc == EnterHandler || pc == DropGuardAsleep
  }

  ghost predicate OwnerOk(s: State) {
    forall i: nat | i < |s.pcs| :: IsOwner(s.pcs[i]) <==> s.owner == Some(i)
  }

  /** Somebody will wake the process in slot i: the lock is held, or a releaser is on its way to that slot. */
  ghost predicate Hope(s: State, i: nat) {
    s.lock || (s.guard.Some? && s.guard.value < |s.pcs| && WillWake(s.pcs[s.guard.value], i))
  }

  /** A process is marked blocked from the handler's marking to its waking. */
  ghost predicate MarkOk(s: State) {
    |s.pcs| == |s.sleeping| && forall i: nat | i < |s.pcs| ::
      && (s.sleeping[i] ==> s.pcs[i] == DropGuardAsleep || s.pcs[i] == Asleep)
      && (s.pcs[i] == DropGuardAsleep ==> s.sleeping[i])
  }

  ghost predicate HopeOk(s: State) {
    |s.pcs| == |s.sleeping| && forall i: nat | i < |s.pcs| && s.sleeping[i] :: Hope(s, i)
  }

  ghost predicate Inv(s: State) {
    |s.pcs| == |s.sleeping| && (s.panicked || (GuardOk(s) && LockOk(s) && OwnerOk(s) && MarkOk(s) && HopeOk(s)))
  }

  lemma StartInv(n: nat)
    ensures Inv(Start(n))
  {
  }

  /** A step moves one process, and takes or drops the guard as that process enters or leaves its stretch. */
  lemma StepIs(s: State, i: nat, c: Choice)
    requires i < |s.pcs| == |s.sleeping| && !Step(s, i, c).panicked
    ensures var r := Step(s, i, c);
      && r.pcs == s.pcs[i := r.pcs[i]]
      && (if InGuard(s.pcs[i]) then r.guard == (if InGuard(r.pcs[i]) then s.guard else None)
          else if InGuard(r.pcs[i]) then s.guard.None? && r.guard == Some(i)
          else r.guard == s.guard)
      && r.lock == (if s.pcs[i] == TakeLock then true else if s.pcs[i] == FreeLock then false else s.lock)
      && r.owner == (if s.pcs[i] == RecordOwner then Some(i) else if s.pcs[i] == ClearOwner then None else s.owner)
  {
  }

  /** The holder is the process between taking and freeing the lock. */
  lemma StepHolder(s: State, i: nat, c: Choice)
    requires Inv(s) && i < |s.pcs| && !s.panicked && !Step(s, i, c).panicked
    ensures HasLock(Step(s, i, c).pcs[i]) <==> s.pcs[i] == TakeLock || (HasLock(s.pcs[i]) && s.pcs[i] != FreeLock)
  {
    if s.pcs[i].CheckOwner? { CheckedHolds(s, i); }
  }

  /** The owner is the process between recording and clearing itself. */
  lemma StepRecorded(s: State, i: nat, c: Choice)
    requires Inv(s) && i < |s.pcs| && !s.panicked && !Step(s, i, c).panicked
    ensures IsOwner(Step(s, i, c).pcs[i]) <==> s.pcs[i] == RecordOwner || (IsOwner(s.pcs[i]) && s.pcs[i] != ClearOwner)
  {
    if s.pcs[i].CheckOwner? { CheckedHolds(s, i); }
  }

  /** A stranger that releases does not get past the check. */
  lemma CheckedHolds(s: State, i: nat)
    requires Inv(s) && i < |s.pcs| && !s.panicked && s.pcs[i].CheckOwner?
    ensures s.lock && s.owner == Some(i) <==> s.pcs[i].held
  {
    assert HasLock(s.pcs[i]) ==> Held(s);
    assert IsOwner(s.pcs[i]) <==> s.pcs[i].held;
  }

  lemma StepDecides(s: State, i: nat, c: Choice)
    requires i < |s.pcs| == |s.sleeping|
    ensures var r := Step(s, i, c);
      && (AboutToSleep(r.pcs[i]) ==> AboutToSleep(s.pcs[i]) || (s.pcs[i] == TestLock && s.lock))
      && (r.pcs[i] == TakeLock && !s.panicked ==> s.pcs[i] == TestLock && !s.lock)
  {
  }

  lemma StepGuard(s: State, i: nat, c: Choice, r: State)
    requires Inv(s) && i < |s.pcs| && !s.panicked && r == Step(s, i, c) && !r.panicked
    ensures GuardOk(r)
  {
    StepIs(s, i, c);
  }

  lemma StepOwner(s: State, i: nat, c: Choice, r: State)
    requires Inv(s) && i < |s.pcs| && !s.panicked && r == Step(s, i, c) && !r.panicked
    ensures OwnerOk(r)
  {
    StepIs(s, i, c);
    StepRecorded(s, i, c);
    OwnerMoves(s, i, r);
  }

  lemma OwnerMoves(s: State, i: nat, r: State)
    requires GuardOk(s) && LockOk(s) && OwnerOk(s) && i < |s.pcs| == |r.pcs| && r.pcs == s.pcs[i := r.pcs[i]]
    requires IsOwner(r.pcs[i]) <==> s.pcs[i] == RecordOwner || (IsOwner(s.pcs[i]) && s.pcs[i] != ClearOwner)
    requires r.owner == (if s.pcs[i] == RecordOwner then Some(i) else if s.pcs[i] == ClearOwner then None else s.owner)
    ensures OwnerOk(r)
  {
    forall j: nat | j < |s.pcs| ensures IsOwner(r.pcs[j]) <==> r.owner == Some(j) {
      if j != i && s.pcs[i] == RecordOwner {
        assert HasLock(s.pcs[i]);
        assert InGuard(s.pcs[i]);
        assert InGuard(s.pcs[j]) ==> s.guard == Some(j);
      }
    }
  }

  lemma StepLock(s: State, i: nat, c: Choice, r: State)
    requires Inv(s) && i < |s.pcs| && !s.panicked && r == Step(s, i, c) && !r.panicked
    ensures LockOk(r)
  {
    StepIs(s, i, c);
    StepHolder(s, i, c);
    StepDecides(s, i, c);
    LockMoves(s, i, r);
  }

  lemma LockMoves(s: State, i: nat, r: State)
    requires GuardOk(s) && LockOk(s) && i < |s.pcs| == |r.pcs| && r.pcs == s.pcs[i := r.pcs[i]]
    requires HasLock(r.pcs[i]) <==> s.pcs[i] == TakeLock || (HasLock(s.pcs[i]) && s.pcs[i] != FreeLock)
    requires AboutToSleep(r.pcs[i]) ==> AboutToSleep(s.pcs[i]) || (s.pcs[i] == TestLock && s.lock)
    requires r.pcs[i] == TakeLock ==> s.pcs[i] == TestLock && !s.lock
    requires r.lock == (if s.pcs[i] == TakeLock then true else if s.pcs[i] == FreeLock then false else s.lock)
    ensures LockOk(r)
  {
    if s.lock {
      var j: nat :| j < |s.pcs| && HasLock(s.pcs[j]);
      if s.pcs[i] != FreeLock { assert HasLock(r.pcs[j]); }
    }
    if s.pcs[i] == TakeLock { assert HasLock(r.pcs[i]); }
    assert s.pcs[i] == FreeLock ==> InGuard(s.pcs[i]);
    forall j: nat | j < |s.pcs| ensures (AboutToSleep(r.pcs[j]) ==> r.lock) && (r.pcs[j] == TakeLock ==> !r.lock) {
      assert AboutToSleep(s.pcs[j]) || s.pcs[j] == TakeLock ==> InGuard(s.pcs[j]);
    }
  }

  lemma StepMark(s: State, i: nat, c: Choice)
    requires Inv(s) && i < |s.pcs| && !s.panicked && !Step(s, i, c).panicked
    ensures MarkOk(Step(s, i, c))
  {
  }

  lemma StepHope(s: State, i: nat, c: Choice)
    requires Inv(s) && i < |s.pcs| && !s.panicked && !Step(s, i, c).panicked
    ensures HopeOk(Step(s, i, c))
  {
    var r := Step(s, i, c);
    forall k: nat | k < |s.pcs| && r.sleeping[k] ensures Hope(r, k) {
      if s.sleeping[k] {
        assert Hope(s, k);
        HopeStays(s, i, c, k);
      } else {
        assert s.pcs[i] == EnterHandler && AboutToSleep(s.pcs[i]);
      }
    }
  }

  /** Whoever is to wake slot k stays on its way to it, until slot k is awake. */
  lemma HopeStays(s: State, i: nat, c: Choice, k: nat)
    requires Inv(s) && i < |s.pcs| && !s.panicked && !Step(s, i, c).panicked
    requires k < |s.pcs| && s.sleeping[k] && Step(s, i, c).sleeping[k] && Hope(s, k)
    ensures Hope(Step(s, i, c), k)
  {
  }

  lemma StepInv(s: State, i: nat, c: Choice)
    requires Inv(s) && i < |s.pcs|
    ensures Inv(Step(s, i, c))
  {
    if !s.panicked && !Step(s, i, c).panicked {
      StepGuard(s, i, c, Step(s, i, c));
      StepOwner(s, i, c, Step(s, i, c));
      StepLock(s, i, c, Step(s, i, c));
      StepMark(s, i, c);
      StepHope(s, i, c);
    }
  }

  lemma {:induction false} RunInv(s: State, turns: seq<Turn>)
    requires Inv(s) && TurnsOf(|s.pcs|, turns)
    ensures Inv(Run(s, turns))
    decreases |turns|
  {
    if turns != [] {
      StepInv(s, turns[0].who, turns[0].choice);
      RunInv(Step(s, turns[0].who, turns[0].choice), turns[1..]);
    }
  }

  // ---------------------------------------------------------------- what it means

  /** Mutual exclusion, in every state of every schedule. */
  lemma MutualExclusion(n: nat, turns: seq<Turn>, i: nat, j: nat)
    requires TurnsOf(n, turns) && i < n && j < n
    requires var s := Run(Start(n), turns); !s.panicked && Critical(s.pcs[i]) && Critical(s.pcs[j])
    ensures i == j && Run(Start(n), turns).owner == Some(i)
  {
    StartInv(n);
    RunInv(Start(n), turns);
  }

  /** No lost wakeup: a process blocked on the mutex has somebody inside, or a releaser about to wake it. */
  lemma NoLostWakeup(n: nat, turns: seq<Turn>, i: nat)
    requires TurnsOf(n, turns) && i < n
    requires var s := Run(Start(n), turns); !s.panicked && s.sleeping[i]
    ensures var s := Run(Start(n), turns);
      Held(s) || exists r: nat :: r < n && s.guard == Some(r) && WillWake(s.pcs[r], i)
  {
    StartInv(n);
    RunInv(Start(n), turns);
    var s := Run(Start(n), turns);
    if !s.lock { assert s.guard.value < n && WillWake(s.pcs[s.guard.value], i); }
  }

  /** In every schedule, from a process's finding the lock taken until it is marked blocked and drops the guard, it has
      the guard, and no step of another process frees the lock or passes over its slot in a scan for sleepers. */
  lemma GuardOutlivesWaking(n: nat, turns: seq<Turn>, i: nat, j: nat, c: Choice)
    requires TurnsOf(n, turns) && i < n && j < n && i != j
    requires var s := Run(Start(n), turns); !s.panicked && AboutToSleep(s.pcs[i])
    ensures var s := Run(Start(n), turns);
      s.guard == Some(i) && s.lock && s.pcs[j] != FreeLock && !WillWake(s.pcs[j], i)
    ensures var s := Run(Start(n), turns); !Step(s, j, c).panicked ==>
      Step(s, j, c).lock && Step(s, j, c).sleeping == s.sleeping && Step(s, j, c).pcs[i] == s.pcs[i]
  {
    StartInv(n);
    RunInv(Start(n), turns);
    assert InGuard(Run(Start(n), turns).pcs[i]);
  }

  /** A release panics exactly when the caller does not hold the mutex. */
  lemma PanicsForStrangers(s: State, i: nat, c: Choice)
    requires Inv(s) && i < |s.pcs| && !s.panicked
    ensures Step(s, i, c).panicked <==> s.pcs[i] == CheckOwner(false)
  {
    if s.pcs[i].CheckOwner? { CheckedHolds(s, i); }
  }

  /** Only holders release: the discipline the callers in the kernel follow. */
  predicate Disciplined(pcs: seq<Pc>) {
    forall i: nat | i < |pcs| :: pcs[i] != WantGuardToRelease(false) && pcs[i] != CheckOwner(false)
  }

  predicate DisciplinedRun(s: State, turns: seq<Turn>)
    requires |s.pcs| == |s.sleeping| && TurnsOf(|s.pcs|, turns)
    decreases |turns|
  {
    turns == [] ||
      var t := turns[0];
      && (s.pcs[t.who] == Outside ==> t.choice != CallRelease)
      && DisciplinedRun(Step(s, t.who, t.choice), turns[1..])
  }

  /** Callers that release only what they hold never make the kernel panic. */
  lemma {:induction false} DisciplinedNeverPanics(s: State, turns: seq<Turn>)
    requires Inv(s) && !s.panicked && Disciplined(s.pcs) && TurnsOf(|s.pcs|, turns) && DisciplinedRun(s, turns)
    ensures !Run(s, turns).panicked
    decreases |turns|
  {
    if turns != [] {
      var i, c := turns[0].who, turns[0].choice;
      StepInv(s, i, c);
      PanicsForStrangers(s, i, c);
      StaysDisciplined(s, i, c);
      DisciplinedNeverPanics(Step(s, i, c), turns[1..]);
    }
  }

  lemma StaysDisciplined(s: State, i: nat, c: Choice)
    requires i < |s.pcs| == |s.sleeping| && Disciplined(s.pcs) && (s.pcs[i] == Outside ==> c != CallRelease)
    ensures Disciplined(Step(s, i, c).pcs)
  {
    var r := Step(s, i, c);
    assert r.pcs[i] != WantGuardToRelease(false) && r.pcs[i] != CheckOwner(false);
    assert r.pcs == s.pcs[i := r.pcs[i]];
  }

  /** Can process i move, whether or not it wants to? */
  predicate CanMove(s: State, i: nat)
    requires i < |s.pcs| == |s.sleeping|
  {
    Enabled(s, i) && s.pcs[i] != Outside
  }

  /** No deadlock: while anybody wants the mutex or sleeps on it, somebody can move. */
  lemma NoDeadlock(s: State, i: nat)
    requires Inv(s) && !s.panicked && i < |s.pcs| && s.pcs[i] != Outside
    ensures exists j: nat :: j < |s.pcs| && CanMove(s, j)
  {
    if s.guard.Some? {
      assert CanMove(s, s.guard.value);
    } else if !Enabled(s, i) {
      assert Hope(s, i);
      var j: nat :| j < |s.pcs| && HasLock(s.pcs[j]);
      assert CanMove(s, j);
    } else {
      assert CanMove(s, i);
    }
  }

  /** Once nobody holds the lock or the guard, nobody sleeps. */
  lemma FreeMeansAwake(s: State)
    requires Inv(s) && !s.panicked && !s.lock && s.guard.None?
    ensures forall i: nat | i < |s.pcs| :: !s.sleeping[i]
  {
    forall i: nat | i < |s.pcs| ensures !s.sleeping[i] {
      assert s.sleeping[i] ==> Hope(s, i);
    }
  }
}
