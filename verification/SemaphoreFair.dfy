/** Who gets a permit of the semaphore of lib/semaphore.c, and who is woken first. */
module SemaphoreFair {
  import opened WaitList
  import opened Common
  import opened Semaphore

  /** The permits that have not been taken. */
  function Unused(s: State): int {
    s.permits + s.ups - s.acquired
  }

  /** The permits that are spoken for: by threads on their way to sleep or to give up, and by sleepers. */
  ghost function Claimed(s: State): int {
    Sleepers(s) + CountPending(s.pcs)
  }

  /** A down or a trylock takes a permit at once if and only if there is one that nobody has spoken for. */
  lemma TakesIff(states: seq<State>, i: nat, t: nat, c: Choice)
    requires Run(states) && i < |states| && t < |states[i].pcs| && states[i].pcs[t] == Out && c != Up
    ensures var s, r := states[i], Step(states[i], t, c);
      r.Some? && r.value.acquired == (if Unused(s) > Claimed(s) then s.acquired + 1 else s.acquired)
      && (r.value.pcs[t] == Out <==> Unused(s) > Claimed(s))
  {
    RunInv(states, i);
  }

  /** An up gives one more permit, and goes on to wake somebody if and only if it is spoken for. */
  lemma GivesOne(states: seq<State>, i: nat, t: nat)
    requires Run(states) && i < |states| && t < |states[i].pcs| && states[i].pcs[t] == Out
    ensures var s, r := states[i], Step(states[i], t, Up);
      r.Some? && Unused(r.value) == Unused(s) + 1 && (r.value.pcs[t] == Out <==> Unused(s) >= Claimed(s))
  {
    RunInv(states, i);
  }

  /** A waiter that looks again takes a permit if and only if one is left beside those of threads on their way. */
  lemma WaiterTakesIff(states: seq<State>, i: nat, t: nat, c: Choice)
    requires Run(states) && i < |states| && t < |states[i].pcs| && states[i].pcs[t] == DownTry
    ensures var s, r := states[i], Step(states[i], t, c);
      r.Some? && r.value.acquired == if Unused(s) > CountPending(s.pcs) then s.acquired + 1 else s.acquired
  {
    RunInv(states, i);
    assert HasSpin(states[i].pcs[t]);
  }

  /** No permit is taken in any other way. */
  lemma TakenOnly(s: State, t: nat, c: Choice, s': State)
    requires t < |s.pcs| && Step(s, t, c) == Some(s') && s'.acquired != s.acquired
    ensures s'.acquired == s.acquired + 1 && ((s.pcs[t] == Out && c != Up) || s.pcs[t] == DownTry)
  {
  }

  // ---------------------------------------------------------------- first come, first woken

  /** When thread `t` last joined the wait queue. */
  ghost function JoinedAt(states: seq<State>, i: nat, t: nat): (j: nat)
    requires i < |states|
    ensures j <= i
  {
    if i == 0 then 0
    else if t < |states[i - 1].pcs| && t < |states[i].pcs| && states[i - 1].pcs[t] == DownAdd
      && states[i].pcs[t] != DownAdd then i
    else JoinedAt(states, i - 1, t)
  }

  /** The queue is in the order in which its members joined. */
  ghost predicate Ordered(states: seq<State>, i: nat)
    requires i < |states|
  {
    forall a, b :: 0 <= a < b < |states[i].queue| ==>
      JoinedAt(states, i, states[i].queue[a]) < JoinedAt(states, i, states[i].queue[b])
  }

  lemma JoinedSame(states: seq<State>, i: nat, t: nat, u: nat)
    requires i + 1 < |states| && Moved(states[i], t, states[i + 1]) && u < |states[i].pcs|
    requires u != t || states[i].pcs[t] != DownAdd
    ensures JoinedAt(states, i + 1, u) == JoinedAt(states, i, u)
  {
  }

  lemma StepOrdered(states: seq<State>, i: nat, t: nat, c: Choice)
    requires i + 1 < |states| && Inv(states[i]) && t < |states[i].pcs| && Step(states[i], t, c) == Some(states[i + 1])
      && Ordered(states, i)
    ensures Ordered(states, i + 1)
  {
    var s, s' := states[i], states[i + 1];
    StepMoves(s, t, c, s');
    StepQueue(s, t, c, s');
    forall a, b | 0 <= a < b < |s'.queue|
      ensures JoinedAt(states, i + 1, s'.queue[a]) < JoinedAt(states, i + 1, s'.queue[b])
    {
      var x, y := s'.queue[a], s'.queue[b];
      if s.pcs[t] == DownGot {
        var a', b' := WithoutOrder(s.queue, t, a, b);
        assert x in s.queue && y in s.queue;
        JoinedSame(states, i, t, x);
        JoinedSame(states, i, t, y);
      } else {
        assert x == s.queue[a] && x in s.queue;
        if s.pcs[t] == DownAdd { assert t !in s.queue; }
        JoinedSame(states, i, t, x);
        if b < |s.queue| {
          assert y == s.queue[b] && y in s.queue;
          JoinedSame(states, i, t, y);
        }
      }
    }
  }

  lemma StepAt(states: seq<State>, i: nat) returns (t: nat, c: Choice)
    requires Run(states) && i + 1 < |states|
    ensures t < |states[i].pcs| && Step(states[i], t, c) == Some(states[i + 1])
  {
    RunFollows(states, i);
    t, c :| t < |states[i].pcs| && Step(states[i], t, c) == Some(states[i + 1]);
  }

  lemma FirstState(states: seq<State>)
    requires Run(states)
    ensures states[0].queue == []
  {
  }

  lemma {:induction false} RunOrdered(states: seq<State>, i: nat)
    requires Run(states) && i < |states|
    ensures Ordered(states, i)
    decreases i
  {
    if i == 0 {
      FirstState(states);
    } else {
      RunInv(states, i - 1);
      RunOrdered(states, i - 1);
      var t, c := StepAt(states, i - 1);
      StepOrdered(states, i - 1, t, c);
    }
  }

  ghost predicate Longest(states: seq<State>, i: nat, u: nat)
    requires i < |states|
  {
    && u in states[i].queue
    && forall w :: w in states[i].queue && w != u ==> JoinedAt(states, i, u) < JoinedAt(states, i, w)
  }

  /** Whoever wakes a waiter wakes the one that has waited longest, and no other. */
  lemma WakesLongest(states: seq<State>, i: nat, t: nat, c: Choice, s': State)
    requires Run(states) && i < |states| && t < |states[i].pcs| && Step(states[i], t, c) == Some(s')
    requires states[i].pcs[t] in {UpWake, DownWake, TryWake(true)} && |states[i].queue| > 0
    ensures exists u :: Longest(states, i, u) && s'.marked == states[i].marked - {u}
  {
    var queue := states[i].queue;
    RunOrdered(states, i);
    assert queue[0] in queue;
    forall w | w in queue && w != queue[0] ensures JoinedAt(states, i, queue[0]) < JoinedAt(states, i, w) {
      var b :| 0 <= b < |queue| && queue[b] == w;
    }
    assert Longest(states, i, queue[0]);
  }
}
