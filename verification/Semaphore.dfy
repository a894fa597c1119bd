/**
  The two-way counting semaphore of lib/semaphore.c with the fast paths of
  include/arch-x86_64/semaphore.h, as a state machine: any number of threads, one atomic
  instruction or one statement under the wait queue's spinlock per step, in any interleaving.
 */
module Semaphore {
  import opened Common
  import opened WaitList

  /** Where a thread is. */
  datatype PC =
    | Out                       // not in an operation
    | DownState                 // slow down: to set the task state
    | DownSpin                  // to take the spinlock
    | DownAdd                   // to join the wait queue
    | DownCount                 // to count itself as a sleeper
    | DownTry                   // to add the sleepers to the count
    | DownStore(won: bool)      // to store the new number of sleepers
    | DownRelease               // failed: to drop the spinlock
    | DownSchedule              // in schedule()
    | DownAgain                 // awake, to take the spinlock again
    | DownAgainState            // to set the task state again
    | DownGot                   // got a permit, to leave the wait queue
    | DownWake                  // to wake another
    | DownDone                  // to drop the spinlock
    | DownRun                   // to set the task state back to running
    | UpSpin                    // slow up: to take the spinlock
    | UpWake                    // to wake a waiter
    | UpDone                    // to drop the spinlock
    | TrySpin                   // failed trylock: to take the spinlock
    | TryStore                  // to take over the sleepers
    | TryAdd(sleepers: int)     // to add them to the count
    | TryWake(wake: bool)       // to wake a waiter, if the count is not negative
    | TryDone                   // to drop the spinlock

  /**
    The semaphore, its wait queue, the tasks not marked as running, the threads, and how often permits were
    given and taken.
   */
  datatype State = State(count: int, sleepers: int, spin: Option<nat>, queue: seq<nat>, marked: set<nat>, pcs: seq<PC>,
    permits: int, ups: nat, acquired: nat)

  datatype Choice = Down | TryDown | Up

  function At(s: State, t: nat, pc: PC): State
    requires t < |s.pcs|
  {
    s.(pcs := s.pcs[t := pc])
  }

  function TakeSpin(s: State, t: nat, pc: PC): Option<State>
    requires t < |s.pcs|
  {
    if s.spin.None? then Some(At(s, t, pc).(spin := Some(t))) else None
  }

  /** The tasks not marked as running after the first in the queue is woken. */
  function Woken(s: State): set<nat> {
    if |s.queue| == 0 then s.marked else s.marked - {s.queue[0]}
  }

  /** One step of thread `t`, if it can take one. */
  function Step(s: State, t: nat, c: Choice): Option<State>
    requires t < |s.pcs|
  {
    match s.pcs[t]
    case Out =>
      (match c
       case Down =>
         Some(if s.count - 1 >= 0 then s.(count := s.count - 1, acquired := s.acquired + 1)
         else At(s, t, DownState).(count := s.count - 1))
       case TryDown =>
         Some(if s.count - 1 >= 0 then s.(count := s.count - 1, acquired := s.acquired + 1)
         else At(s, t, TrySpin).(count := s.count - 1))
       case Up => Some(At(s, t, if s.count + 1 > 0 then Out else UpSpin).(count := s.count + 1, ups := s.ups + 1)))
    case DownState => Some(At(s, t, DownSpin).(marked := s.marked + {t}))
    case DownSpin => TakeSpin(s, t, DownAdd)
    case DownAdd => Some(At(s, t, DownCount).(queue := s.queue + [t]))
    case DownCount => Some(At(s, t, DownTry).(sleepers := s.sleepers + 1))
    case DownTry =>
      var count := s.count + (s.sleepers - 1);
      Some(At(s, t, DownStore(count >= 0)).(count := count, acquired := s.acquired + if count >= 0 then 1 else 0))
    case DownStore(won) => Some(At(s, t, if won then DownGot else DownRelease).(sleepers := if won then 0 else 1))
    case DownRelease => Some(At(s, t, DownSchedule).(spin := None))
    case DownSchedule => if t in s.marked then None else Some(At(s, t, DownAgain))
    case DownAgain => TakeSpin(s, t, DownAgainState)
    case DownAgainState => Some(At(s, t, DownTry).(marked := s.marked + {t}))
    case DownGot => Some(At(s, t, DownWake).(queue := Without(s.queue, t)))
    case DownWake => Some(At(s, t, DownDone).(marked := Woken(s)))
    case DownDone => Some(At(s, t, DownRun).(spin := None))
    case DownRun => Some(At(s, t, Out).(marked := s.marked - {t}))
    case UpSpin => TakeSpin(s, t, UpWake)
    case UpWake => Some(At(s, t, UpDone).(marked := Woken(s)))
    case UpDone => Some(At(s, t, Out).(spin := None))
    case TrySpin => TakeSpin(s, t, TryStore)
    case TryStore => Some(At(s, t, TryAdd(s.sleepers + 1)).(sleepers := 0))
    case TryAdd(n) => Some(At(s, t, TryWake(s.count + n >= 0)).(count := s.count + n))
    case TryWake(wake) => Some(At(s, t, TryDone).(marked := if wake then Woken(s) else s.marked))
    case TryDone => Some(At(s, t, Out).(spin := None))
  }

  // ---------------------------------------------------------------- what is kept

  predicate HasSpin(pc: PC) {
    pc in {DownAdd, DownCount, DownTry, DownRelease, DownAgainState, DownGot, DownWake, DownDone, UpWake, UpDone,
      TryStore, TryDone}
    || pc.DownStore? || pc.TryAdd? || pc.TryWake?
  }

  predicate Queued(pc: PC) {
    pc in {DownCount, DownTry, DownRelease, DownSchedule, DownAgain, DownAgainState, DownGot} || pc.DownStore?
  }

  /** The thread has decremented the count, and has not been made good for. */
  predicate Pending(pc: PC) {
    pc in {DownState, DownSpin, DownAdd, DownCount, TrySpin, TryStore}
  }

  ghost function CountPending(pcs: seq<PC>): nat {
    if |pcs| == 0 then 0 else CountPending(pcs[..|pcs| - 1]) + if Pending(pcs[|pcs| - 1]) then 1 else 0
  }

  /** The number of sleepers, as if the thread with the spinlock had finished its stores. */
  ghost function Sleepers(s: State): int {
    if s.spin.Some? && s.spin.value < |s.pcs| then
      match s.pcs[s.spin.value]
      case DownStore(won) => if won then 0 else 1
      case TryAdd(n) => n
      case _ => s.sleepers
    else s.sleepers
  }

  ghost predicate QueueOk(s: State) {
    Distinct(s.queue) && forall t :: t in s.queue <==> 0 <= t < |s.pcs| && Queued(s.pcs[t])
  }

  ghost predicate SpinOk(s: State) {
    && (s.spin.Some? ==> s.spin.value < |s.pcs|)
    && forall t :: 0 <= t < |s.pcs| ==> (HasSpin(s.pcs[t]) <==> s.spin == Some(t))
  }

  /** What the count, the sleepers and the pending threads add up to: the permits not yet taken. */
  ghost function Sum(s: State): int {
    s.count + Sleepers(s) + CountPending(s.pcs)
  }

  ghost predicate SumOk(s: State) {
    Sum(s) == s.permits + s.ups - s.acquired && Sum(s) >= 0
  }

  /** Between sections under the spinlock there is at most one sleeper. */
  ghost predicate SleepersOk(s: State) {
    if s.spin.Some? && s.spin.value < |s.pcs| then
      match s.pcs[s.spin.value]
      case DownTry => 0 <= s.sleepers <= 2
      case DownStore(won) => 0 <= s.sleepers <= 2
      case TryAdd(n) => s.sleepers == 0 && 1 <= n <= 2
      case _ => 0 <= s.sleepers <= 1
    else 0 <= s.sleepers <= 1
  }

  /** Someone has raised the count and is on its way to wake a waiter. */
  ghost predicate Waking(s: State) {
    exists u :: 0 <= u < |s.pcs| && s.pcs[u] == UpSpin
  }

  ghost predicate Noticed(s: State) {
    s.count < 0 || Waking(s)
  }

  /** The thread with the spinlock is about to wake a waiter. */
  ghost predicate AboutToWake(s: State) {
    exists u :: 0 <= u < |s.pcs| && s.pcs[u] in {UpWake, DownWake, TryWake(true)}
  }

  /** Some waiter runs: it is not in schedule(), or has been woken. */
  ghost predicate Running(s: State) {
    exists u :: u in s.queue && u < |s.pcs| && (s.pcs[u] != DownSchedule || u !in s.marked)
  }

  /** If anybody waits, the next up will wake a waiter, or somebody is about to, or a waiter runs. */
  ghost predicate WakeOk(s: State) {
    |s.queue| > 0 ==> Noticed(s) || AboutToWake(s) || Running(s)
  }

  ghost predicate Relies(s: State, pc: PC) {
    pc in {DownStore(false), DownRelease, TryWake(false)} ==> Noticed(s)
  }

  ghost predicate CountOk(s: State) {
    forall t :: 0 <= t < |s.pcs| ==> Relies(s, s.pcs[t])
  }

  ghost predicate Inv(s: State) {
    QueueOk(s) && SpinOk(s) && SumOk(s) && SleepersOk(s) && CountOk(s) && WakeOk(s)
  }

  function Initial(threads: nat, permits: nat): State {
    State(permits, 0, None, [], {}, seq(threads, i => Out), permits, 0, 0)
  }

  lemma {:induction false} NonePending(pcs: seq<PC>)
    requires forall t :: 0 <= t < |pcs| ==> !Pending(pcs[t])
    ensures CountPending(pcs) == 0
  {
    if |pcs| > 0 { NonePending(pcs[..|pcs| - 1]); }
  }

  lemma InitialInv(threads: nat, permits: nat)
    ensures Inv(Initial(threads, permits))
  {
    NonePending(Initial(threads, permits).pcs);
  }

  // ---------------------------------------------------------------- every step keeps it

  ghost predicate Moved(s: State, t: nat, s': State) {
    |s'.pcs| == |s.pcs| && t < |s.pcs| && s'.pcs == s.pcs[t := s'.pcs[t]]
  }

  lemma StepMoves(s: State, t: nat, c: Choice, s': State)
    requires t < |s.pcs| && Step(s, t, c) == Some(s')
    ensures Moved(s, t, s')
  {
  }

  lemma StepQueue(s: State, t: nat, c: Choice, s': State)
    requires t < |s.pcs| && Step(s, t, c) == Some(s')
    ensures s.pcs[t] !in {DownAdd, DownGot} ==> s'.queue == s.queue && Queued(s'.pcs[t]) == Queued(s.pcs[t])
  {
  }

  lemma StepSpin(s: State, t: nat, c: Choice, s': State)
    requires t < |s.pcs| && Step(s, t, c) == Some(s')
    ensures HasSpin(s.pcs[t]) ==> s'.spin == if HasSpin(s'.pcs[t]) then s.spin else None
    ensures !HasSpin(s.pcs[t]) ==>
      if HasSpin(s'.pcs[t]) then s.spin == None && s'.spin == Some(t) else s'.spin == s.spin
  {
  }

  lemma StepSleepers(s: State, t: nat, c: Choice, s': State)
    requires t < |s.pcs| && Step(s, t, c) == Some(s')
    ensures !HasSpin(s.pcs[t]) ==> s'.sleepers == s.sleepers
    ensures s'.permits == s.permits
  {
  }

  lemma StepMarked(s: State, t: nat, c: Choice, s': State)
    requires t < |s.pcs| && Step(s, t, c) == Some(s')
    ensures s'.marked <= s.marked + {t}
    ensures s.pcs[t] !in {DownState, DownAgainState} ==> s'.marked <= s.marked
    ensures s.pcs[t] == DownSchedule ==> t !in s.marked && s'.pcs[t] == DownAgain
    ensures s'.pcs[t] == DownSchedule ==> s.pcs[t] == DownRelease
  {
  }

  lemma QueueStep(s: State, t: nat, c: Choice, s': State)
    requires Inv(s) && t < |s.pcs| && Step(s, t, c) == Some(s')
    ensures QueueOk(s')
  {
    StepMoves(s, t, c, s');
    StepQueue(s, t, c, s');
    if s.pcs[t] == DownGot {
      WithoutIs(s.queue, t);
    } else if s.pcs[t] == DownAdd {
      assert t !in s.queue;
    }
  }

  lemma SpinStep(s: State, t: nat, c: Choice, s': State)
    requires Inv(s) && t < |s.pcs| && Step(s, t, c) == Some(s')
    ensures SpinOk(s')
  {
    StepMoves(s, t, c, s');
    StepSpin(s, t, c, s');
  }

  // ---------------------------------------------------------------- the sum

  lemma {:induction false} PendingUpdate(pcs: seq<PC>, t: nat, pc: PC)
    requires t < |pcs|
    ensures CountPending(pcs[t := pc]) == CountPending(pcs) - (if Pending(pcs[t]) then 1 else 0)
      + (if Pending(pc) then 1 else 0)
  {
    var q := pcs[t := pc];
    if t == |pcs| - 1 {
      assert q[..|q| - 1] == pcs[..|pcs| - 1];
    } else {
      PendingUpdate(pcs[..|pcs| - 1], t, pc);
      assert q[..|q| - 1] == pcs[..|pcs| - 1][t := pc];
    }
  }

  /** The sleepers as seen after a step of a thread that does not have the spinlock. */
  lemma SleepersSame(s: State, t: nat, c: Choice, s': State)
    requires Inv(s) && t < |s.pcs| && Step(s, t, c) == Some(s') && !HasSpin(s.pcs[t]) && SpinOk(s')
    ensures Sleepers(s') == Sleepers(s) && SleepersOk(s')
  {
    StepMoves(s, t, c, s');
    StepSpin(s, t, c, s');
    StepSleepers(s, t, c, s');
    if HasSpin(s'.pcs[t]) {
      assert !s'.pcs[t].DownStore? && !s'.pcs[t].TryAdd? && s'.pcs[t] != DownTry;
    }
  }

  lemma SumStep(s: State, t: nat, c: Choice, s': State)
    requires Inv(s) && t < |s.pcs| && Step(s, t, c) == Some(s') && SpinOk(s')
    ensures SumOk(s') && SleepersOk(s')
  {
    StepMoves(s, t, c, s');
    StepSleepers(s, t, c, s');
    PendingUpdate(s.pcs, t, s'.pcs[t]);
    if HasSpin(s.pcs[t]) {
      assert s.spin == Some(t);
      StepSpin(s, t, c, s');
      SumInside(s, t, c, s');
    } else {
      SleepersSame(s, t, c, s');
      SumOutside(s, t, c, s');
    }
  }

  lemma SumInside(s: State, t: nat, c: Choice, s': State)
    requires SumOk(s) && SleepersOk(s) && t < |s.pcs| && Step(s, t, c) == Some(s') && HasSpin(s.pcs[t])
      && s.spin == Some(t)
    requires CountPending(s'.pcs) == CountPending(s.pcs) - (if Pending(s.pcs[t]) then 1 else 0)
      + (if Pending(s'.pcs[t]) then 1 else 0)
    ensures SumOk(s') && SleepersOk(s')
  {
  }

  lemma SumOutside(s: State, t: nat, c: Choice, s': State)
    requires SumOk(s) && t < |s.pcs| && Step(s, t, c) == Some(s') && !HasSpin(s.pcs[t]) && Sleepers(s') == Sleepers(s)
      && Sleepers(s) >= 0
    requires CountPending(s'.pcs) == CountPending(s.pcs) - (if Pending(s.pcs[t]) then 1 else 0)
      + (if Pending(s'.pcs[t]) then 1 else 0)
    ensures SumOk(s')
  {
  }

  // ---------------------------------------------------------------- wakeups

  /** Steps outside the spinlock keep the need for a wakeup noticed. */
  lemma NoticedKept(s: State, t: nat, c: Choice, s': State)
    requires t < |s.pcs| && Step(s, t, c) == Some(s') && Noticed(s) && !HasSpin(s.pcs[t]) && !HasSpin(s'.pcs[t])
    ensures Noticed(s')
  {
    StepMoves(s, t, c, s');
    if s.count < 0 {
      if s'.count >= 0 { assert s'.pcs[t] == UpSpin; }
    } else {
      var u :| 0 <= u < |s.pcs| && s.pcs[u] == UpSpin;
      assert s'.pcs[u] == UpSpin;
    }
  }

  lemma RelySelf(s: State, t: nat, c: Choice, s': State)
    requires Inv(s) && t < |s.pcs| && Step(s, t, c) == Some(s')
    ensures Relies(s', s'.pcs[t])
  {
    StepMoves(s, t, c, s');
    if s.pcs[t] == DownStore(false) && Waking(s) {
      var u :| 0 <= u < |s.pcs| && s.pcs[u] == UpSpin;
      assert s'.pcs[u] == UpSpin;
    }
  }

  lemma RelyOther(s: State, t: nat, c: Choice, s': State, u: nat)
    requires Inv(s) && t < |s.pcs| && Step(s, t, c) == Some(s') && u < |s'.pcs| && u != t && HasSpin(s'.pcs[u])
      && SpinOk(s')
    ensures Relies(s', s'.pcs[u])
  {
    StepMoves(s, t, c, s');
    StepSpin(s, t, c, s');
    assert !HasSpin(s.pcs[t]) && !HasSpin(s'.pcs[t]) && s'.pcs[u] == s.pcs[u];
    assert Relies(s, s.pcs[u]);
    if Noticed(s) {
      NoticedKept(s, t, c, s');
    }
  }

  lemma CountStep(s: State, t: nat, c: Choice, s': State)
    requires Inv(s) && t < |s.pcs| && Step(s, t, c) == Some(s') && SpinOk(s')
    ensures CountOk(s')
  {
    StepMoves(s, t, c, s');
    RelySelf(s, t, c, s');
    forall u | 0 <= u < |s'.pcs| ensures Relies(s', s'.pcs[u]) {
      if u != t && HasSpin(s'.pcs[u]) {
        RelyOther(s, t, c, s', u);
      }
    }
  }

  lemma NoticedSame(s: State, t: nat, s': State)
    requires Moved(s, t, s') && s'.count == s.count && Noticed(s) && s.pcs[t] != UpSpin
    ensures Noticed(s')
  {
    if s.count >= 0 {
      var u :| 0 <= u < |s.pcs| && s.pcs[u] == UpSpin;
      assert s'.pcs[u] == UpSpin;
    }
  }

  lemma FirstWoken(s: State, s': State)
    requires QueueOk(s') && s'.queue == s.queue && s'.marked == Woken(s)
    ensures WakeOk(s')
  {
    if |s.queue| > 0 {
      assert s.queue[0] in s'.queue && s.queue[0] !in s'.marked;
    }
  }

  lemma SelfRuns(s': State, t: nat)
    requires QueueOk(s') && t < |s'.pcs| && Queued(s'.pcs[t]) && s'.pcs[t] != DownSchedule
    ensures WakeOk(s')
  {
    assert t in s'.queue;
  }

  lemma WakeStep(s: State, t: nat, c: Choice, s': State)
    requires Inv(s) && t < |s.pcs| && Step(s, t, c) == Some(s') && QueueOk(s')
    ensures WakeOk(s')
  {
    StepMoves(s, t, c, s');
    StepQueue(s, t, c, s');
    StepMarked(s, t, c, s');
    var pc, pc' := s.pcs[t], s'.pcs[t];
    if Queued(pc') && pc' != DownSchedule {
      SelfRuns(s', t);
    } else if pc in {DownRelease, TryWake(false)} {
      NoticedSame(s, t, s');
    } else if pc in {DownWake, UpWake, TryWake(true)} {
      FirstWoken(s, s');
    } else if pc' in {DownWake, UpWake, TryWake(true)} {
      assert AboutToWake(s');
    } else if pc.TryAdd? {
      assert s'.count < 0;
    } else {
      WakeSame(s, t, c, s');
    }
  }

  /** Steps that change neither the queue, nor what marks its members, nor who is about to wake anybody. */
  lemma WakeSame(s: State, t: nat, c: Choice, s': State)
    requires Inv(s) && t < |s.pcs| && Step(s, t, c) == Some(s') && s'.queue == s.queue
    requires s.pcs[t] !in {UpSpin, UpWake, DownWake, DownRelease, DownAdd, DownGot} && !s.pcs[t].TryWake?
      && !s.pcs[t].TryAdd?
    requires !Queued(s'.pcs[t]) && !Queued(s.pcs[t])
    ensures WakeOk(s')
  {
    StepMoves(s, t, c, s');
    StepMarked(s, t, c, s');
    assert t !in s.queue;
    if |s.queue| > 0 {
      if AboutToWake(s) {
        var u :| 0 <= u < |s.pcs| && s.pcs[u] in {UpWake, DownWake, TryWake(true)};
        assert s'.pcs[u] == s.pcs[u];
      } else if Running(s) {
        var u :| u in s.queue && u < |s.pcs| && (s.pcs[u] != DownSchedule || u !in s.marked);
        assert u != t && s'.pcs[u] == s.pcs[u];
      } else if HasSpin(s.pcs[t]) || HasSpin(s'.pcs[t]) {
        NoticedSame(s, t, s');
      } else {
        NoticedKept(s, t, c, s');
      }
    }
  }

  lemma StepInv(s: State, t: nat, c: Choice, s': State)
    requires Inv(s) && t < |s.pcs| && Step(s, t, c) == Some(s')
    ensures Inv(s')
  {
    QueueStep(s, t, c, s');
    SpinStep(s, t, c, s');
    SumStep(s, t, c, s');
    CountStep(s, t, c, s');
    WakeStep(s, t, c, s');
  }

  // ---------------------------------------------------------------- runs

  ghost predicate Follows(s: State, s': State) {
    exists t: nat, c: Choice :: t < |s.pcs| && Step(s, t, c) == Some(s')
  }

  ghost predicate Run(states: seq<State>) {
    && |states| > 0 && (exists n: nat, permits: nat :: states[0] == Initial(n, permits))
    && forall i {:trigger Follows(states[i], states[i + 1])} ::
      0 <= i < |states| - 1 ==> Follows(states[i], states[i + 1])
  }

  lemma {:induction false} RunInv(states: seq<State>, i: nat)
    requires Run(states) && i < |states|
    ensures Inv(states[i])
    decreases i
  {
    if i == 0 {
      FirstInv(states);
    } else {
      RunInv(states, i - 1);
      RunFollows(states, i - 1);
      FollowsInv(states[i - 1], states[i]);
    }
  }

  lemma RunFollows(states: seq<State>, i: nat)
    requires Run(states) && i + 1 < |states|
    ensures Follows(states[i], states[i + 1])
  {
  }

  lemma FirstInv(states: seq<State>)
    requires Run(states)
    ensures Inv(states[0])
  {
    var n: nat, permits: nat :| states[0] == Initial(n, permits);
    InitialInv(n, permits);
  }

  lemma FollowsInv(s: State, s': State)
    requires Inv(s) && Follows(s, s')
    ensures Inv(s')
  {
    var t: nat, c: Choice :| t < |s.pcs| && Step(s, t, c) == Some(s');
    StepInv(s, t, c, s');
  }

  /**
    In every state of every run with the spinlock free, the counters account for every permit, and there is at
    most one sleeper.
   */
  lemma Accounting(states: seq<State>, i: nat)
    requires Run(states) && i < |states| && states[i].spin == None
    ensures var s := states[i];
      s.count + s.sleepers + CountPending(s.pcs) == s.permits + s.ups - s.acquired && 0 <= s.sleepers <= 1
  {
    RunInv(states, i);
  }

  /** No more permits are taken than there were and have been given, in every state of every run. */
  lemma NoOvertaking(states: seq<State>, i: nat)
    requires Run(states) && i < |states|
    ensures states[i].acquired <= states[i].permits + states[i].ups
  {
    RunInv(states, i);
  }

  /** No wakeup is lost, in every state of every run. */
  lemma NoLostWakeup(states: seq<State>, i: nat)
    requires Run(states) && i < |states| && states[i].spin == None && |states[i].queue| > 0
    ensures Noticed(states[i]) || Running(states[i])
  {
    RunInv(states, i);
  }

  ghost predicate Stuck(s: State, t: nat)
    requires t < |s.pcs|
  {
    forall c :: Step(s, t, c) == None
  }

  lemma BlockedWhere(s: State, t: nat)
    requires t < |s.pcs| && Stuck(s, t)
    ensures (s.pcs[t] == DownSchedule && t in s.marked) || (s.spin != None && !HasSpin(s.pcs[t]))
  {
    assert Step(s, t, Down) == None;
  }

  lemma SpinIsFree(s: State)
    requires Inv(s) && forall u: nat :: u < |s.pcs| && s.pcs[u] != Out ==> Stuck(s, u)
    ensures s.spin == None
  {
    if s.spin.Some? {
      BlockedWhere(s, s.spin.value);
    }
  }

  lemma NobodyMoves(s: State)
    requires Inv(s) && s.spin == None && forall u: nat :: u < |s.pcs| && s.pcs[u] != Out ==> Stuck(s, u)
    ensures !Waking(s) && !AboutToWake(s) && !Running(s) && CountPending(s.pcs) == 0
  {
    forall u: nat | u < |s.pcs| ensures s.pcs[u] == Out || (s.pcs[u] == DownSchedule && u in s.marked) {
      if s.pcs[u] != Out { BlockedWhere(s, u); }
    }
    NonePending(s.pcs);
  }

  /** If nobody in the middle of an operation can move, and someone is, then every permit has been taken. */
  lemma NoDeadlock(states: seq<State>, i: nat, t: nat)
    requires Run(states) && i < |states| && t < |states[i].pcs| && states[i].pcs[t] != Out
    requires forall u: nat :: u < |states[i].pcs| && states[i].pcs[u] != Out ==> Stuck(states[i], u)
    ensures states[i].acquired == states[i].permits + states[i].ups
  {
    var s := states[i];
    RunInv(states, i);
    SpinIsFree(s);
    BlockedWhere(s, t);
    assert t in s.queue;
    NobodyMoves(s);
  }
}
