/**
  The sleeping mutex of lib/mutex.c with the fast paths of include/arch-x86_64/mutex.h, as a state
  machine: any number of threads, one atomic instruction or one statement under the wait
  spinlock per step, in any interleaving.
 */
module Mutex {
  import opened Common
  import opened WaitList

  /** Where a thread is. */
  datatype PC =
    | Out                       // not using the mutex
    | Holding                   // between lock and unlock
    | LockSpin                  // slow lock: about to take the wait spinlock
    | LockAdd                   // to join the wait list
    | LockFirst                 // first exchange
    | LockTry                   // exchange in the loop
    | LockState                 // to set the task state
    | LockRelease               // to drop the spinlock
    | LockSchedule              // in schedule()
    | LockAgain                 // awake, about to take the spinlock again
    | LockGot                   // got the mutex, to leave the wait list
    | LockZero                  // to reset the count if nobody waits
    | LockDone                  // to drop the spinlock
    | UnlockSpin                // slow unlock: about to take the wait spinlock
    | UnlockSet                 // to set the count to 1
    | UnlockWake                // to wake the first waiter
    | UnlockDone                // to drop the spinlock
    | TrySpin                   // slow trylock: about to take the wait spinlock
    | TryExchange
    | TryZero(won: bool)        // to reset the count if nobody waits
    | TryDone(won: bool)        // to drop the spinlock

  /** The mutex, the wait list, the threads asleep, and where every thread is. */
  datatype State = State(count: int, spin: Option<nat>, list: seq<nat>, asleep: set<nat>, pcs: seq<PC>)

  /** What a thread outside the mutex does next. */
  datatype Choice = Lock | TryFast | TrySlow

  function At(s: State, t: nat, pc: PC): State
    requires t < |s.pcs|
  {
    s.(pcs := s.pcs[t := pc])
  }

  /** Taking the spinlock, once it is free. */
  function TakeSpin(s: State, t: nat, pc: PC): Option<State>
    requires t < |s.pcs|
  {
    if s.spin.None? then Some(At(s, t, pc).(spin := Some(t))) else None
  }

  /** One step of thread `t`, if it can take one. */
  function Step(s: State, t: nat, c: Choice): Option<State>
    requires t < |s.pcs|
  {
    match s.pcs[t]
    case Out =>
      (match c
       case Lock => Some(At(s, t, if s.count - 1 >= 0 then Holding else LockSpin).(count := s.count - 1))
       case TryFast => Some(if s.count == 1 then At(s, t, Holding).(count := 0) else s)
       case TrySlow => Some(At(s, t, TrySpin)))
    case LockSpin => TakeSpin(s, t, LockAdd)
    case LockAdd => Some(At(s, t, LockFirst).(list := s.list + [t]))
    case LockFirst => Some(At(s, t, if s.count == 1 then LockGot else LockTry).(count := -1))
    case LockTry => Some(At(s, t, if s.count == 1 then LockGot else LockState).(count := -1))
    case LockState => Some(At(s, t, LockRelease).(asleep := s.asleep + {t}))
    case LockRelease => Some(At(s, t, LockSchedule).(spin := None))
    case LockSchedule => if t in s.asleep then None else Some(At(s, t, LockAgain))
    case LockAgain => TakeSpin(s, t, LockTry)
    case LockGot => Some(At(s, t, LockZero).(list := Without(s.list, t)))
    case LockZero => Some(At(s, t, LockDone).(count := if |s.list| == 0 then 0 else s.count))
    case LockDone => Some(At(s, t, Holding).(spin := None))
    case Holding => Some(At(s, t, if s.count + 1 > 0 then Out else UnlockSpin).(count := s.count + 1))
    case UnlockSpin => TakeSpin(s, t, UnlockSet)
    case UnlockSet => Some(At(s, t, UnlockWake).(count := 1))
    case UnlockWake => Some(At(s, t, UnlockDone).(asleep := if |s.list| == 0 then s.asleep else s.asleep - {s.list[0]}))
    case UnlockDone => Some(At(s, t, Out).(spin := None))
    case TrySpin => TakeSpin(s, t, TryExchange)
    case TryExchange => Some(At(s, t, TryZero(s.count == 1)).(count := -1))
    case TryZero(won) => Some(At(s, t, TryDone(won)).(count := if |s.list| == 0 then 0 else s.count))
    case TryDone(won) => Some(At(s, t, if won then Holding else Out).(spin := None))
  }

  // ---------------------------------------------------------------- what is kept

  predicate HasSpin(pc: PC) {
    pc in {LockAdd, LockFirst, LockTry, LockState, LockRelease, LockGot, LockZero, LockDone, UnlockSet, UnlockWake,
      UnlockDone, TryExchange}
    || pc.TryZero? || pc.TryDone?
  }

  predicate Waiting(pc: PC) {
    pc in {LockFirst, LockTry, LockState, LockRelease, LockSchedule, LockAgain, LockGot}
  }

  /**
    The thread has the mutex: from the exchange or decrement that got it to the increment or store that gives
    it up.
   */
  predicate Owns(pc: PC) {
    pc in {Holding, LockGot, LockZero, LockDone, UnlockSpin, UnlockSet, TryZero(true), TryDone(true)}
  }

  ghost predicate ListOk(s: State) {
    && Distinct(s.list)
    && (forall t :: t in s.list <==> 0 <= t < |s.pcs| && Waiting(s.pcs[t]))
    && (forall t :: t in s.asleep ==> 0 <= t < |s.pcs| && s.pcs[t] in {LockRelease, LockSchedule})
  }

  ghost predicate SpinOk(s: State) {
    && (s.spin.Some? ==> s.spin.value < |s.pcs|)
    && forall t :: 0 <= t < |s.pcs| ==> (HasSpin(s.pcs[t]) <==> s.spin == Some(t))
  }

  ghost predicate Owner(s: State, t: nat) {
    t < |s.pcs| && Owns(s.pcs[t])
  }

  /** The count is 1 exactly if nobody has the mutex, and nobody shares it. */
  ghost predicate OwnerOk(s: State) {
    && s.count <= 1
    && (forall t, u :: Owner(s, t) && Owner(s, u) ==> t == u)
    && (s.count == 1 ==> forall t :: !Owner(s, t))
    && (s.count < 1 ==> exists t :: Owner(s, t))
  }

  /** A releaser is on its way to the wait list. */
  ghost predicate Releasing(s: State) {
    exists u :: 0 <= u < |s.pcs| && s.pcs[u] == UnlockSpin
  }

  /** The next unlock will look at the wait list. */
  ghost predicate Noticed(s: State) {
    s.count < 0 || Releasing(s)
  }

  /** After its exchange, and while it holds the spinlock, a thread knows that the next unlock will be slow. */
  ghost predicate CountOk(s: State) {
    forall t :: 0 <= t < |s.pcs| ==> Relies(s, s.pcs[t])
  }

  ghost predicate Runnable(s: State) {
    exists u :: u in s.list && u !in s.asleep
  }

  ghost predicate AboutToWake(s: State) {
    exists u :: 0 <= u < |s.pcs| && s.pcs[u] in {UnlockSet, UnlockWake}
  }

  /**
    If anybody waits, the next unlock will look at the wait list, or somebody is about to wake a waiter, or a
    waiter is awake.
   */
  ghost predicate WakeOk(s: State) {
    |s.list| > 0 ==> Noticed(s) || AboutToWake(s) || Runnable(s)
  }

  ghost predicate Inv(s: State) {
    ListOk(s) && SpinOk(s) && OwnerOk(s) && CountOk(s) && WakeOk(s)
  }

  function Initial(threads: nat): State {
    State(1, None, [], {}, seq(threads, i => Out))
  }

  lemma InitialInv(threads: nat)
    ensures Inv(Initial(threads))
  {
  }

  // ---------------------------------------------------------------- every step keeps it

  /** Only thread `t` has moved. */
  ghost predicate Moved(s: State, t: nat, s': State) {
    |s'.pcs| == |s.pcs| && t < |s.pcs| && forall u :: 0 <= u < |s.pcs| && u != t ==> s'.pcs[u] == s.pcs[u]
  }

  lemma StepMoves(s: State, t: nat, c: Choice, s': State)
    requires t < |s.pcs| && Step(s, t, c) == Some(s')
    ensures Moved(s, t, s')
  {
  }

  lemma StepList(s: State, t: nat, c: Choice, s': State)
    requires t < |s.pcs| && Step(s, t, c) == Some(s')
    ensures s.pcs[t] !in {LockAdd, LockGot} ==> s'.list == s.list && Waiting(s'.pcs[t]) == Waiting(s.pcs[t])
  {
  }

  lemma StepSpin(s: State, t: nat, c: Choice, s': State)
    requires t < |s.pcs| && Step(s, t, c) == Some(s')
    ensures HasSpin(s.pcs[t]) ==> s'.spin == if HasSpin(s'.pcs[t]) then s.spin else None
    ensures !HasSpin(s.pcs[t]) ==>
      if HasSpin(s'.pcs[t]) then s.spin == None && s'.spin == Some(t) else s'.spin == s.spin
  {
  }

  lemma StepSleep(s: State, t: nat, c: Choice, s': State)
    requires t < |s.pcs| && Step(s, t, c) == Some(s')
    ensures if s.pcs[t] == LockState then s'.asleep == s.asleep + {t} && s'.pcs[t] == LockRelease
      else s'.asleep <= s.asleep
    ensures s.pcs[t] == LockRelease ==> s'.pcs[t] == LockSchedule
    ensures s.pcs[t] == LockSchedule ==> t !in s.asleep
  {
  }

  lemma ListStep(s: State, t: nat, c: Choice, s': State)
    requires Inv(s) && t < |s.pcs| && Step(s, t, c) == Some(s')
    ensures ListOk(s')
  {
    StepMoves(s, t, c, s');
    StepList(s, t, c, s');
    StepSleep(s, t, c, s');
    if s.pcs[t] == LockGot {
      WithoutIs(s.list, t);
    } else if s.pcs[t] == LockAdd {
      assert t !in s.list;
    }
  }

  lemma SpinStep(s: State, t: nat, c: Choice, s': State)
    requires Inv(s) && t < |s.pcs| && Step(s, t, c) == Some(s')
    ensures SpinOk(s')
  {
    StepMoves(s, t, c, s');
    StepSpin(s, t, c, s');
  }

  // ---------------------------------------------------------------- owners

  lemma OwnerKept(s: State, t: nat, s': State)
    requires OwnerOk(s) && Moved(s, t, s') && Owns(s'.pcs[t]) == Owns(s.pcs[t]) && s'.count <= 1
      && (s'.count == 1 <==> s.count == 1)
    ensures OwnerOk(s')
  {
    assert forall u: nat :: Owner(s', u) <==> Owner(s, u);
  }

  lemma OwnerGained(s: State, t: nat, s': State)
    requires OwnerOk(s) && Moved(s, t, s') && Owns(s'.pcs[t]) && s.count == 1 && s'.count < 1
    ensures OwnerOk(s')
  {
    assert Owner(s', t);
    forall u | Owner(s', u) ensures u == t {
      assert u == t || Owner(s, u);
    }
  }

  lemma OwnerLost(s: State, t: nat, s': State)
    requires OwnerOk(s) && Moved(s, t, s') && Owns(s.pcs[t]) && !Owns(s'.pcs[t]) && s'.count == 1
    ensures OwnerOk(s')
  {
    assert Owner(s, t);
    forall u ensures !Owner(s', u) {
      assert Owner(s', u) ==> u != t && Owner(s, u);
    }
  }

  lemma NoticedOwned(s: State)
    requires OwnerOk(s) && Noticed(s)
    ensures s.count < 1
  {
    if Releasing(s) {
      var u :| 0 <= u < |s.pcs| && s.pcs[u] == UnlockSpin;
      assert Owner(s, u);
    }
  }

  lemma OwnerStep(s: State, t: nat, c: Choice, s': State)
    requires Inv(s) && t < |s.pcs| && Step(s, t, c) == Some(s')
    ensures OwnerOk(s')
  {
    StepMoves(s, t, c, s');
    if Owns(s.pcs[t]) {
      assert Owner(s, t);
    }
    if s.pcs[t] == TryZero(false) {
      NoticedOwned(s);
    }
    if Owns(s'.pcs[t]) && !Owns(s.pcs[t]) {
      OwnerGained(s, t, s');
    } else if Owns(s.pcs[t]) && !Owns(s'.pcs[t]) {
      OwnerLost(s, t, s');
    } else {
      OwnerKept(s, t, s');
    }
  }

  // ---------------------------------------------------------------- the count

  /** A thread at `pc` may rely on the count. */
  ghost predicate Relies(s: State, pc: PC) {
    && (pc in {LockState, LockRelease, TryZero(false)} ==> Noticed(s))
    && (pc in {LockGot, LockZero, TryZero(true)} ==> s.count < 0)
  }

  lemma RelySelf(s: State, t: nat, c: Choice, s': State)
    requires Inv(s) && t < |s.pcs| && Step(s, t, c) == Some(s')
    ensures Relies(s', s'.pcs[t])
  {
    StepMoves(s, t, c, s');
    if s.pcs[t] == LockState && Releasing(s) {
      var u :| 0 <= u < |s.pcs| && s.pcs[u] == UnlockSpin;
      assert s'.pcs[u] == UnlockSpin;
    }
  }

  /** Steps outside the spinlock keep a slow unlock noticed. */
  lemma NoticedKept(s: State, t: nat, c: Choice, s': State)
    requires Inv(s) && t < |s.pcs| && Step(s, t, c) == Some(s') && Noticed(s) && !HasSpin(s.pcs[t])
      && !HasSpin(s'.pcs[t])
    ensures Noticed(s')
  {
    StepMoves(s, t, c, s');
    NoticedOwned(s);
    if s.count < 0 {
      if s.pcs[t] == Holding {
        assert s'.pcs[t] == UnlockSpin;
      }
    } else {
      var u :| 0 <= u < |s.pcs| && s.pcs[u] == UnlockSpin;
      assert s'.pcs[u] == UnlockSpin;
    }
  }

  lemma CountStep(s: State, t: nat, c: Choice, s': State)
    requires Inv(s) && t < |s.pcs| && Step(s, t, c) == Some(s')
    ensures CountOk(s')
  {
    StepMoves(s, t, c, s');
    SpinStep(s, t, c, s');
    RelySelf(s, t, c, s');
    forall u | 0 <= u < |s'.pcs| && u != t ensures Relies(s', s'.pcs[u]) {
      if HasSpin(s'.pcs[u]) {
        RelyOther(s, t, c, s', u);
      }
    }
    forall u | 0 <= u < |s'.pcs| ensures Relies(s', s'.pcs[u]) {
    }
  }

  lemma RelyOther(s: State, t: nat, c: Choice, s': State, u: nat)
    requires Inv(s) && t < |s.pcs| && Step(s, t, c) == Some(s') && u < |s'.pcs| && u != t && HasSpin(s'.pcs[u])
      && SpinOk(s')
    ensures Relies(s', s'.pcs[u])
  {
    StepMoves(s, t, c, s');
    StepSpin(s, t, c, s');
    assert !HasSpin(s.pcs[t]) && !HasSpin(s'.pcs[t]);
    if s.pcs[u] in {LockState, LockRelease, TryZero(false)} {
      NoticedKept(s, t, c, s');
    } else if s.pcs[u] in {LockGot, LockZero, TryZero(true)} {
      assert Owner(s, u);
      assert s.pcs[t] == Holding ==> Owner(s, t);
    }
  }

  // ---------------------------------------------------------------- wakeups

  lemma WakeStep(s: State, t: nat, c: Choice, s': State)
    requires Inv(s) && t < |s.pcs| && Step(s, t, c) == Some(s')
    ensures WakeOk(s')
  {
    StepMoves(s, t, c, s');
    StepList(s, t, c, s');
    StepSleep(s, t, c, s');
    var pc := s.pcs[t];
    match pc
    case LockAdd => assert t in s'.list && t !in s'.asleep;
    case LockFirst => assert s'.count < 0;
    case LockTry => assert s'.count < 0;
    case LockState => WakeSleep(s, t, s');
    case LockGot => assert s'.count < 0;
    case UnlockSpin => assert s'.pcs[t] == UnlockSet;
    case UnlockSet => assert s'.pcs[t] == UnlockWake;
    case UnlockWake => WakeFirst(s, t, s');
    case TryExchange => assert s'.count < 0;
    case Out => WakeSame(s, t, c, s');
    case Holding => WakeSame(s, t, c, s');
    case LockSpin => WakeSame(s, t, c, s');
    case LockRelease => WakeSame(s, t, c, s');
    case LockSchedule => WakeSame(s, t, c, s');
    case LockAgain => WakeSame(s, t, c, s');
    case LockZero => WakeSame(s, t, c, s');
    case LockDone => WakeSame(s, t, c, s');
    case UnlockDone => WakeSame(s, t, c, s');
    case TrySpin => WakeSame(s, t, c, s');
    case TryZero(won) => WakeSame(s, t, c, s');
    case TryDone(won) => WakeSame(s, t, c, s');
  }

  lemma WakeSleep(s: State, t: nat, s': State)
    requires Inv(s) && Moved(s, t, s') && s.pcs[t] == LockState && s'.count == s.count && s'.pcs[t] == LockRelease
    ensures Noticed(s')
  {
    if s.count >= 0 {
      var u :| 0 <= u < |s.pcs| && s.pcs[u] == UnlockSpin;
      assert s'.pcs[u] == UnlockSpin;
    }
  }

  lemma WakeFirst(s: State, t: nat, s': State)
    requires Inv(s) && s'.list == s.list && s'.asleep == (if |s.list| == 0 then s.asleep else s.asleep - {s.list[0]})
    ensures WakeOk(s')
  {
    if |s.list| > 0 {
      assert s.list[0] in s'.list && s.list[0] !in s'.asleep;
    }
  }

  /** Steps that change neither the list, nor who sleeps, nor who is about to wake anybody. */
  lemma WakeSame(s: State, t: nat, c: Choice, s': State)
    requires Inv(s) && t < |s.pcs| && Step(s, t, c) == Some(s') && s'.list == s.list && s'.asleep <= s.asleep
    requires s.pcs[t] !in {UnlockSpin, UnlockSet, UnlockWake, LockState}
    requires s.pcs[t].LockZero? || s.pcs[t].TryZero? ==> |s.list| > 0 ==> s'.count == s.count
    ensures WakeOk(s')
  {
    StepMoves(s, t, c, s');
    if |s.list| > 0 {
      if AboutToWake(s) {
        var u :| 0 <= u < |s.pcs| && s.pcs[u] in {UnlockSet, UnlockWake};
        assert s'.pcs[u] in {UnlockSet, UnlockWake};
      } else if Runnable(s) {
        var u :| u in s.list && u !in s.asleep;
        assert u in s'.list && u !in s'.asleep;
      } else if s.count < 0 {
        if s.pcs[t] == Holding { assert s'.pcs[t] == UnlockSpin; }
      } else {
        var u :| 0 <= u < |s.pcs| && s.pcs[u] == UnlockSpin;
        assert s'.pcs[u] == UnlockSpin;
      }
    }
  }

  /** Every step of every thread keeps the invariant. */
  lemma StepInv(s: State, t: nat, c: Choice, s': State)
    requires Inv(s) && t < |s.pcs| && Step(s, t, c) == Some(s')
    ensures Inv(s')
  {
    ListStep(s, t, c, s');
    SpinStep(s, t, c, s');
    OwnerStep(s, t, c, s');
    CountStep(s, t, c, s');
    WakeStep(s, t, c, s');
  }

  // ---------------------------------------------------------------- runs

  ghost predicate Follows(s: State, s': State) {
    exists t: nat, c: Choice :: t < |s.pcs| && Step(s, t, c) == Some(s')
  }

  ghost predicate Run(states: seq<State>) {
    && |states| > 0 && (exists n: nat :: states[0] == Initial(n))
    && forall i {:trigger Follows(states[i], states[i + 1])} ::
      0 <= i < |states| - 1 ==> Follows(states[i], states[i + 1])
  }

  /** The step that was taken. */
  lemma StepAt(states: seq<State>, i: nat) returns (t: nat, c: Choice)
    requires Run(states) && i + 1 < |states|
    ensures t < |states[i].pcs| && Step(states[i], t, c) == Some(states[i + 1])
  {
    assert Follows(states[i], states[i + 1]);
    t, c :| t < |states[i].pcs| && Step(states[i], t, c) == Some(states[i + 1]);
  }

  lemma {:induction false} RunInv(states: seq<State>, i: nat)
    requires Run(states) && i < |states|
    ensures Inv(states[i])
    decreases i
  {
    if i == 0 {
      var n: nat :| states[0] == Initial(n);
      InitialInv(n);
    } else {
      RunInv(states, i - 1);
      var t, c := StepAt(states, i - 1);
      StepInv(states[i - 1], t, c, states[i]);
    }
  }

  /** At most one thread has the mutex, in every state of every run. */
  lemma MutualExclusion(states: seq<State>, i: nat, t: nat, u: nat)
    requires Run(states) && i < |states| && Owner(states[i], t) && Owner(states[i], u)
    ensures t == u
  {
    RunInv(states, i);
  }

  /** No wakeup is lost, in every state of every run. */
  lemma NoLostWakeup(states: seq<State>, i: nat)
    requires Run(states) && i < |states| && states[i].spin == None && |states[i].list| > 0
    ensures Noticed(states[i]) || Runnable(states[i])
  {
    RunInv(states, i);
  }

  ghost predicate Stuck(s: State, t: nat)
    requires t < |s.pcs|
  {
    forall c :: Step(s, t, c) == None
  }

  lemma BlockedWhere(s: State, t: nat)
    requires t < |s.pcs| && Stuck(s, t)
    ensures (s.pcs[t] == LockSchedule && t in s.asleep) || (s.spin != None && !HasSpin(s.pcs[t]))
  {
    assert Step(s, t, Lock) == None;
  }

  /** A state in which nobody in the middle of an operation can move is one in which some thread holds the mutex. */
  lemma NoDeadlock(states: seq<State>, i: nat, t: nat)
    requires Run(states) && i < |states| && t < |states[i].pcs|
    requires states[i].pcs[t] !in {Out, Holding}
    requires forall u: nat :: u < |states[i].pcs| && states[i].pcs[u] !in {Out, Holding} ==> Stuck(states[i], u)
    ensures exists u: nat :: u < |states[i].pcs| && states[i].pcs[u] == Holding
  {
    var s := states[i];
    RunInv(states, i);
    SpinIsFree(s);
    BlockedWhere(s, t);
    assert t in s.list;
    NobodyMoves(s);
    assert s.count < 0;
    var u: nat :| Owner(s, u);
    if s.pcs[u] != Holding {
      BlockedWhere(s, u);
    }
  }

  lemma SpinIsFree(s: State)
    requires Inv(s) && forall u: nat :: u < |s.pcs| && s.pcs[u] !in {Out, Holding} ==> Stuck(s, u)
    ensures s.spin == None
  {
    if s.spin.Some? {
      BlockedWhere(s, s.spin.value);
    }
  }

  lemma NobodyMoves(s: State)
    requires Inv(s) && s.spin == None && forall u: nat :: u < |s.pcs| && s.pcs[u] !in {Out, Holding} ==> Stuck(s, u)
    ensures !Releasing(s) && !AboutToWake(s) && !Runnable(s)
  {
    forall u: nat | u < |s.pcs| ensures s.pcs[u] in {Out, Holding} || (s.pcs[u] == LockSchedule && u in s.asleep) {
      if s.pcs[u] !in {Out, Holding} { BlockedWhere(s, u); }
    }
  }
}
