/** The semaphore under every interleaving of its threads, and the interrupt
    flag under nested spinlocks on one processor. */
module Locks {

  // ----- semaphore -----

  /** Where a thread is in `wait`: outside, spinning for the lock, holding it and
      spinning on the value, past the test, or past the decrement. */
  datatype Place = Outside | Acquiring | Testing | Passed | Leaving

  datatype Semaphore = Semaphore(value: int, locked: bool, threads: seq<Place>, signals: nat, takes: nat)

  datatype Move = Enter(t: nat) | Acquire(t: nat) | Test(t: nat) | Decrement(t: nat) | Release(t: nat) | Raise

  predicate Inside(p: Place) { p == Testing || p == Passed || p == Leaving }

  function MoveTo(s: Semaphore, t: nat, p: Place): Semaphore
    requires t < |s.threads|
  {
    s.(threads := s.threads[t := p])
  }

  /** One atomic action; a thread whose turn does nothing keeps spinning. */
  function Act(s: Semaphore, m: Move): Semaphore {
    if m.Raise? then s.(value := s.value + 1, signals := s.signals + 1)
    else if m.t >= |s.threads| then s
    else
      match (m, s.threads[m.t])
      case (Enter(t), Outside) => MoveTo(s, t, Acquiring)
      case (Acquire(t), Acquiring) => if s.locked then s else MoveTo(s, t, Testing).(locked := true)
      case (Test(t), Testing) => if s.value <= 0 then s else MoveTo(s, t, Passed)
      case (Decrement(t), Passed) => MoveTo(s, t, Leaving).(value := s.value - 1, takes := s.takes + 1)
      case (Release(t), Leaving) => MoveTo(s, t, Outside).(locked := false)
      case _ => s
  }

  ghost predicate Inv(s: Semaphore, initial: int) {
    && s.value >= 0
    && s.value == initial + s.signals - s.takes
    && (forall t | 0 <= t < |s.threads| && Inside(s.threads[t]) :: s.locked)
    && (forall t, u | 0 <= t < u < |s.threads| :: !(Inside(s.threads[t]) && Inside(s.threads[u])))
    && (forall t | 0 <= t < |s.threads| && s.threads[t] == Passed :: s.value >= 1)
  }

  lemma ActKeepsInv(s: Semaphore, initial: int, m: Move)
    requires Inv(s, initial)
    ensures Inv(Act(s, m), initial) && |Act(s, m).threads| == |s.threads|
  {
  }

  function Run(s: Semaphore, moves: seq<Move>): Semaphore
    decreases |moves|
  {
    if moves == [] then s else Run(Act(s, moves[0]), moves[1..])
  }

  /** Whatever the interleaving: the value never goes negative, it is the initial
      value plus the signals minus the completed decrements, and at most one
      thread stands between the test and its decrement. */
  lemma {:induction false} EveryInterleaving(initial: nat, n: nat, moves: seq<Move>)
    ensures var s := Run(Semaphore(initial, false, AllOutside(n), 0, 0), moves);
            && s.value >= 0 && s.value == initial + s.signals - s.takes
            && forall t, u | 0 <= t < u < |s.threads| :: !(s.threads[t] == Passed && s.threads[u] == Passed)
  {
    RunKeepsInv(Semaphore(initial, false, AllOutside(n), 0, 0), initial, moves);
  }

  lemma {:induction false} RunKeepsInv(s: Semaphore, initial: int, moves: seq<Move>)
    requires Inv(s, initial)
    ensures Inv(Run(s, moves), initial)
    decreases |moves|
  {
    if moves != [] {
      ActKeepsInv(s, initial, moves[0]);
      RunKeepsInv(Act(s, moves[0]), initial, moves[1..]);
    }
  }

  /** A thread that finds the lock open and the value positive goes all the way
      through: afterwards only the value is one lower. */
  lemma GetsThrough(s: Semaphore, t: nat)
    requires t < |s.threads| && s.threads[t] == Outside && !s.locked && s.value >= 1
    ensures Act(Act(Act(Act(Act(s, Enter(t)), Acquire(t)), Test(t)), Decrement(t)), Release(t))
            == s.(value := s.value - 1, takes := s.takes + 1)
  {
    assert s.threads[t := Acquiring][t := Testing][t := Passed][t := Leaving][t := Outside] == s.threads;
  }

  /** A thread at the test goes on exactly when the value is positive, and one at the
      lock exactly when it is open; otherwise the move changes nothing. */
  lemma SpinsIff(s: Semaphore, t: nat)
    requires t < |s.threads|
    ensures s.threads[t] == Testing ==>
              Act(s, Test(t)) == if s.value > 0 then s.(threads := s.threads[t := Passed]) else s
    ensures s.threads[t] == Acquiring ==>
              Act(s, Acquire(t)) == if s.locked then s else s.(threads := s.threads[t := Testing], locked := true)
  {
  }

  /** While a thread spins on a value of zero, nobody else gets in; a signal lets it go on. */
  lemma {:induction false} WaitsForSignal(s: Semaphore, initial: int, moves: seq<Move>, t: nat)
    requires Inv(s, initial) && t < |s.threads| && s.threads[t] == Testing && s.value == 0
    requires forall i | 0 <= i < |moves| :: !moves[i].Raise?
    ensures var s' := Run(s, moves);
            && s'.value == 0 && |s'.threads| == |s.threads| && s'.threads[t] == Testing && s'.takes == s.takes
            && Act(Act(s', Raise), Test(t)).threads[t] == Passed
    decreases |moves|
  {
    if moves != [] {
      ActKeepsInv(s, initial, moves[0]);
      assert !moves[0].Raise?;
      WaitsForSignal(Act(s, moves[0]), initial, moves[1..], t);
    }
  }

  function AllOutside(n: nat): (p: seq<Place>)
    ensures |p| == n && forall i | 0 <= i < n :: p[i] == Outside
  {
    if n == 0 then [] else AllOutside(n - 1) + [Outside]
  }

  // ----- spinlocks and the interrupt flag -----

  /** A held lock remembers whether interrupts were on when it was taken. */
  datatype Held = Held(lock: nat, saved: bool)

  /** The locks held, in the order they were taken. */
  datatype Cpu = Cpu(interrupts: bool, held: seq<Held>)

  function Lock(c: Cpu, l: nat): Cpu {
    Cpu(false, c.held + [Held(l, c.interrupts)])
  }

  function Unlock(c: Cpu, i: nat): Cpu
    requires i < |c.held|
  {
    Cpu(c.interrupts || c.held[i].saved, c.held[..i] + c.held[i + 1..])
  }

  /** Off while a lock is held, as at the start otherwise. */
  ghost predicate FlagOk(c: Cpu, start: bool) {
    && c.interrupts == (c.held == [] && start)
    && forall i | 0 <= i < |c.held| :: c.held[i].saved == (i == 0 && start)
  }

  lemma LockKeepsFlag(c: Cpu, start: bool, l: nat)
    requires FlagOk(c, start)
    ensures FlagOk(Lock(c, l), start)
  {
  }

  /** Releasing the i-th lock taken keeps the flag right exactly when it is not
      the first one, or the only one, or interrupts were off to begin with. */
  lemma UnlockKeepsFlagIff(c: Cpu, start: bool, i: nat)
    requires FlagOk(c, start) && i < |c.held|
    ensures FlagOk(Unlock(c, i), start) <==> i > 0 || |c.held| == 1 || !start
  {
    var u := Unlock(c, i);
    if i == 0 && |c.held| > 1 {
      assert u.held == c.held[1..];
    }
  }

  /** Taking two locks and releasing the first one first turns interrupts on
      while the second is held, and its release leaves them on. */
  lemma CrossedReleaseEnablesInterrupts(a: nat, b: nat)
    ensures var c := Unlock(Lock(Lock(Cpu(true, []), a), b), 0);
            c.interrupts && c.held == [Held(b, false)] && Unlock(c, 0) == Cpu(true, [])
  {
    var c := Lock(Lock(Cpu(true, []), a), b);
    assert c.held == [Held(a, true), Held(b, false)];
    assert [Held(b, false)][1..] == [] && [Held(b, false)][..0] == [];
  }

  datatype LockOp = Take(l: nat) | Drop(i: nat)

  /** The first lock taken is the last one released. */
  ghost predicate Nested(c: Cpu, ops: seq<LockOp>)
    decreases |ops|
  {
    ops == [] ||
    match ops[0]
    case Take(l) => Nested(Lock(c, l), ops[1..])
    case Drop(i) => i < |c.held| && (i > 0 || |c.held| == 1) && Nested(Unlock(c, i), ops[1..])
  }

  ghost function Locking(c: Cpu, ops: seq<LockOp>): Cpu
    requires Nested(c, ops)
    decreases |ops|
  {
    if ops == [] then c
    else if ops[0].Take? then Locking(Lock(c, ops[0].l), ops[1..])
    else Locking(Unlock(c, ops[0].i), ops[1..])
  }

  /** Interrupts are off whenever a lock is held, and as they were when none is. */
  lemma {:induction false} NestedLocksRestoreInterrupts(c: Cpu, start: bool, ops: seq<LockOp>)
    requires FlagOk(c, start) && Nested(c, ops)
    ensures var c' := Locking(c, ops); c'.interrupts == (c'.held == [] && start)
    decreases |ops|
  {
    if ops != [] {
      match ops[0]
      case Take(l) =>
        LockKeepsFlag(c, start, l);
        NestedLocksRestoreInterrupts(Lock(c, l), start, ops[1..]);
      case Drop(i) =>
        UnlockKeepsFlagIff(c, start, i);
        NestedLocksRestoreInterrupts(Unlock(c, i), start, ops[1..]);
    }
  }
}
