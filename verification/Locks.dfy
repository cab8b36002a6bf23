/**
 The locking discipline of the library: one global lock, one lock per socket, always taken in the
 order global < socket 0 < ... < socket N-1.  Calls are lists of lock actions; threads run any
 lists of calls.
 */
module Locks {
  const SOCKETS := 8
  /** Lock 0 is the global one, lock sn + 1 belongs to socket sn. */
  const GLOBAL := 0
  const LOCKS := SOCKETS + 1

  function SocketLock(sn: nat): nat {
    sn + 1
  }

  datatype Action = Acquire(lock: nat) | Release(lock: nat)

  // ----- The calls

  /** wizchip_transaction_lock and wizchip_transaction_unlock around a body that takes no locks. */
  function LockAll(n: nat): seq<Action> {
    if n == 0 then [] else LockAll(n - 1) + [Acquire(n - 1)]
  }

  function UnlockAll(n: nat): seq<Action> {
    if n == 0 then [] else [Release(n - 1)] + UnlockAll(n - 1)
  }

  function Transaction(): seq<Action> {
    LockAll(LOCKS) + UnlockAll(LOCKS)
  }

  /** A configuration call under the global lock alone. */
  function Configuration(): seq<Action> {
    [Acquire(GLOBAL), Release(GLOBAL)]
  }

  /** Any socket call once its lock is taken: close, listen, connect, send, recv, ... */
  function SocketCall(sn: nat): seq<Action> {
    [Acquire(SocketLock(sn)), Release(SocketLock(sn))]
  }

  /** socket(): a zero port is first drawn from the shared counter, under the global lock. */
  function OpenCall(sn: nat, anyPort: bool): seq<Action> {
    (if anyPort then Configuration() else []) + SocketCall(sn)
  }

  datatype Call = TransactionCall | ConfigurationCall | PlainCall(sn: nat) | Opening(sn: nat, anyPort: bool)

  predicate ValidCall(c: Call) {
    (c.PlainCall? ==> c.sn < SOCKETS) && (c.Opening? ==> c.sn < SOCKETS)
  }

  function Actions(c: Call): seq<Action> {
    match c
    case TransactionCall => Transaction()
    case ConfigurationCall => Configuration()
    case PlainCall(sn) => SocketCall(sn)
    case Opening(sn, anyPort) => OpenCall(sn, anyPort)
  }

  function AllActions(calls: seq<Call>): seq<Action> {
    if calls == [] then [] else Actions(calls[0]) + AllActions(calls[1..])
  }

  // ----- The discipline

  /** From the held locks on, every acquisition is above all that is held, every release is of a
      held lock, and nothing is held at the end. */
  predicate Disciplined(held: set<nat>, todo: seq<Action>)
    decreases |todo|
  {
    if todo == [] then held == {}
    else match todo[0]
      case Acquire(l) => l < LOCKS && (forall h :: h in held ==> h < l) && Disciplined(held + {l}, todo[1..])
      case Release(l) => l in held && Disciplined(held - {l}, todo[1..])
  }

  function Below(n: nat): (b: set<nat>)
    ensures forall l: nat :: l in b <==> l < n
  {
    if n == 0 then {} else Below(n - 1) + {n - 1}
  }

  lemma {:induction false} DisciplinedUnlockAll(n: nat)
    requires n <= LOCKS
    ensures Disciplined(Below(n), UnlockAll(n))
  {
    if n > 0 {
      DisciplinedUnlockAll(n - 1);
      assert UnlockAll(n)[1..] == UnlockAll(n - 1);
      assert Below(n) - {n - 1} == Below(n - 1);
    } else {
      assert Below(0) == {};
    }
  }

  lemma AcquireFirst(held: set<nat>, l: nat, rest: seq<Action>)
    requires l < LOCKS && (forall h :: h in held ==> h < l) && Disciplined(held + {l}, rest)
    ensures Disciplined(held, [Acquire(l)] + rest)
  {
    assert ([Acquire(l)] + rest)[1..] == rest;
  }

  /** Taking locks 0 to n - 1 in order leads to rest, which starts with all of them held. */
  lemma {:induction false} DisciplinedLockAll(n: nat, rest: seq<Action>)
    requires n <= LOCKS && Disciplined(Below(n), rest)
    ensures Disciplined({}, LockAll(n) + rest)
  {
    if n > 0 {
      var rest' := [Acquire(n - 1)] + rest;
      AcquireFirst(Below(n - 1), n - 1, rest);
      assert LockAll(n) == LockAll(n - 1) + [Acquire(n - 1)];
      hide Disciplined, Below, LockAll;
      DisciplinedLockAll(n - 1, rest');
      assert LockAll(n - 1) + [Acquire(n - 1)] + rest == LockAll(n - 1) + rest';
    } else {
      assert Below(0) == {};
      assert LockAll(0) + rest == rest;
    }
  }

  lemma DisciplinedCall(c: Call)
    requires ValidCall(c)
    ensures Disciplined({}, Actions(c))
  {
    match c
    case TransactionCall =>
      DisciplinedUnlockAll(LOCKS);
      DisciplinedLockAll(LOCKS, UnlockAll(LOCKS));
    case ConfigurationCall => OneLock(GLOBAL);
    case PlainCall(sn) => OneLock(SocketLock(sn));
    case Opening(sn, anyPort) =>
      OneLock(GLOBAL);
      OneLock(SocketLock(sn));
      Concatenation({}, if anyPort then Configuration() else [], SocketCall(sn));
  }

  lemma OneLock(l: nat)
    requires l < LOCKS
    ensures Disciplined({}, [Acquire(l), Release(l)])
  {
    var p := [Acquire(l), Release(l)];
    assert p[1..] == [Release(l)] && p[1..][1..] == [];
    assert {l} - {l} == {};
    assert Disciplined({l}, p[1..]);
    assert {} + {l} == {l};
  }

  lemma {:induction false} Concatenation(held: set<nat>, p: seq<Action>, q: seq<Action>)
    requires Disciplined(held, p) && Disciplined({}, q)
    ensures Disciplined(held, p + q)
    decreases |p|
  {
    if p == [] {
      assert p + q == q;
    } else {
      assert (p + q)[1..] == p[1..] + q;
      Concatenation(if p[0].Acquire? then held + {p[0].lock} else held - {p[0].lock}, p[1..], q);
    }
  }

  lemma {:induction false} DisciplinedCalls(calls: seq<Call>)
    requires forall i :: 0 <= i < |calls| ==> ValidCall(calls[i])
    ensures Disciplined({}, AllActions(calls))
    decreases |calls|
  {
    if calls != [] {
      DisciplinedCall(calls[0]);
      DisciplinedCalls(calls[1..]);
      Concatenation({}, Actions(calls[0]), AllActions(calls[1..]));
    }
  }

  // ----- Threads

  datatype Thread = Thread(held: set<nat>, todo: seq<Action>)

  type State = seq<Thread>

  predicate Enabled(s: State, t: nat)
    requires t < |s|
  {
    s[t].todo != [] &&
    (s[t].todo[0].Acquire? ==> forall u :: 0 <= u < |s| ==> s[t].todo[0].lock !in s[u].held)
  }

  function StepOf(s: State, t: nat): State
    requires t < |s| && Enabled(s, t)
  {
    var a := s[t].todo[0];
    s[t := Thread(if a.Acquire? then s[t].held + {a.lock} else s[t].held - {a.lock}, s[t].todo[1..])]
  }

  predicate Inv(s: State) {
    (forall t :: 0 <= t < |s| ==> Disciplined(s[t].held, s[t].todo))
    && forall t, u :: 0 <= t < u < |s| ==> s[t].held !! s[u].held
  }

  /** Threads about to run the given calls, nothing held. */
  function Start(work: seq<seq<Call>>): State {
    seq(|work|, t requires 0 <= t < |work| => Thread({}, AllActions(work[t])))
  }

  predicate ValidWork(work: seq<seq<Call>>) {
    forall t, i :: 0 <= t < |work| && 0 <= i < |work[t]| ==> ValidCall(work[t][i])
  }

  lemma StartInv(work: seq<seq<Call>>)
    requires ValidWork(work)
    ensures Inv(Start(work))
  {
    forall t | 0 <= t < |work| ensures Disciplined({}, AllActions(work[t])) {
      DisciplinedCalls(work[t]);
    }
  }

  lemma StepInv(s: State, t: nat)
    requires Inv(s) && t < |s| && Enabled(s, t)
    ensures Inv(StepOf(s, t))
  {
    assert Disciplined(s[t].held, s[t].todo);
  }

  /** The state after the given threads have moved in turn; None when one of them could not. */
  function After(s: State, schedule: seq<nat>): (r: seq<State>)
    ensures |r| <= 1
    decreases |schedule|
  {
    if schedule == [] then [s]
    else if schedule[0] < |s| && Enabled(s, schedule[0]) then After(StepOf(s, schedule[0]), schedule[1..])
    else []
  }

  lemma {:induction false} AfterInv(s: State, schedule: seq<nat>)
    requires Inv(s) && After(s, schedule) != []
    ensures Inv(After(s, schedule)[0])
    decreases |schedule|
  {
    if schedule != [] {
      StepInv(s, schedule[0]);
      AfterInv(StepOf(s, schedule[0]), schedule[1..]);
    }
  }

  /** Whoever waits, waits for a thread that holds a lower lock than it waits for itself; going up
      the order, the chain of waiting ends at a thread that can move. */
  lemma {:induction false} SomeoneEnabled(s: State, t: nat) returns (e: nat)
    requires Inv(s) && t < |s| && s[t].todo != []
    ensures e < |s| && Enabled(s, e)
    decreases if s[t].todo[0].Acquire? then LOCKS - s[t].todo[0].lock else 0
  {
    assert Disciplined(s[t].held, s[t].todo);
    if Enabled(s, t) {
      return t;
    }
    var l := s[t].todo[0].lock;
    var u :| 0 <= u < |s| && l in s[u].held;
    assert Disciplined(s[u].held, s[u].todo);
    if Enabled(s, u) {
      return u;
    }
    assert s[u].todo[0].lock > l;
    e := SomeoneEnabled(s, u);
  }

  /** Deadlock freedom: for any number of threads running any calls under any schedule, some
      unfinished thread can always move, until all have finished; then nothing is left locked. */
  lemma DeadlockFree(work: seq<seq<Call>>, schedule: seq<nat>)
    requires ValidWork(work) && After(Start(work), schedule) != []
    ensures var s := After(Start(work), schedule)[0];
            (exists e: nat :: e < |s| && Enabled(s, e))
            || forall t :: 0 <= t < |s| ==> s[t].todo == [] && s[t].held == {}
  {
    StartInv(work);
    AfterInv(Start(work), schedule);
    var s := After(Start(work), schedule)[0];
    if t: nat :| t < |s| && s[t].todo != [] {
      var e := SomeoneEnabled(s, t);
    } else {
      assert forall t :: 0 <= t < |s| ==> Disciplined(s[t].held, s[t].todo);
    }
  }

  function Remaining(s: State): nat {
    if s == [] then 0 else |s[0].todo| + Remaining(s[1..])
  }

  lemma {:induction false} RemainingUpdate(s: State, t: nat, th: Thread)
    requires t < |s|
    ensures Remaining(s[t := th]) == Remaining(s) - |s[t].todo| + |th.todo|
    decreases |s|
  {
    if t == 0 {
      assert s[0 := th][1..] == s[1..];
    } else {
      RemainingUpdate(s[1..], t - 1, th);
      assert s[t := th][1..] == s[1..][t - 1 := th];
    }
  }

  /** No schedule is longer than the work: with deadlock freedom, every maximal one finishes it. */
  lemma {:induction false} SchedulesEnd(s: State, schedule: seq<nat>)
    requires After(s, schedule) != []
    ensures |schedule| + Remaining(After(s, schedule)[0]) == Remaining(s)
    decreases |schedule|
  {
    if schedule != [] {
      RemainingUpdate(s, schedule[0], StepOf(s, schedule[0])[schedule[0]]);
      SchedulesEnd(StepOf(s, schedule[0]), schedule[1..]);
    }
  }
}
