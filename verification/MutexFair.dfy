/** Who gets the mutex of lib/mutex.c, who lets it go, and who is woken first. */
module MutexFair {
  import opened WaitList
  import opened Common
  import opened Mutex

  ghost predicate Free(s: State) {
    forall u: nat :: !Owner(s, u)
  }

  /** The thread is about to try for the mutex: by the fast lock or trylock, or by an exchange of a slow one. */
  predicate Attempts(pc: PC, c: Choice) {
    (pc == Out && c != TrySlow) || pc in {LockFirst, LockTry, TryExchange}
  }

  /** In every state of every run, whoever tries for the mutex gets it if and only if nobody has it. */
  lemma AttemptWins(states: seq<State>, i: nat, t: nat, c: Choice)
    requires Run(states) && i < |states| && t < |states[i].pcs| && Attempts(states[i].pcs[t], c)
    ensures var r := Step(states[i], t, c); r.Some? && (Owner(r.value, t) <==> Free(states[i]))
  {
    RunInv(states, i);
  }

  /** Nobody gets it in any other way, and nobody loses it by what others do. */
  lemma OwnerChanges(states: seq<State>, i: nat, t: nat, c: Choice, s': State)
    requires Run(states) && i < |states| && t < |states[i].pcs| && Step(states[i], t, c) == Some(s')
    ensures forall u: nat :: u != t ==> (Owner(s', u) <==> Owner(states[i], u))
    ensures Owner(s', t) && !Owner(states[i], t) ==> Attempts(states[i].pcs[t], c)
    ensures Owner(states[i], t) && !Owner(s', t) ==> states[i].pcs[t] in {Holding, UnlockSet} && Free(s')
  {
    var s := states[i];
    RunInv(states, i);
    StepMoves(s, t, c, s');
    StepInv(s, t, c, s');
    forall u: nat | u != t ensures Owner(s', u) <==> Owner(s, u) {
    }
  }

  // ---------------------------------------------------------------- without contention

  /** The thread waits for the mutex, or has just been through the wait list. */
  predicate Contends(pc: PC) {
    pc in {LockSpin, LockAdd, LockZero} || Waiting(pc) || pc.TryZero?
  }

  ghost predicate Contended(s: State) {
    exists u: nat :: u < |s.pcs| && Contends(s.pcs[u])
  }

  lemma StepContended(s: State, t: nat, c: Choice, s': State)
    requires Inv(s) && (s.count < 0 ==> Contended(s)) && t < |s.pcs| && Step(s, t, c) == Some(s') && s'.count < 0
    ensures Contended(s')
  {
    StepMoves(s, t, c, s');
    if !Contends(s'.pcs[t]) {
      if |s.list| > 0 && (s.pcs[t] == LockZero || s.pcs[t].TryZero?) {
        var u := s.list[0];
        assert u in s.list;
        assert u != t && s'.pcs[u] == s.pcs[u];
      } else {
        var u: nat :| u < |s.pcs| && Contends(s.pcs[u]);
        assert u != t && s'.pcs[u] == s.pcs[u];
      }
    }
  }

  lemma FirstState(states: seq<State>)
    requires Run(states)
    ensures states[0].count == 1 && states[0].list == []
  {
  }

  lemma {:induction false} RunContended(states: seq<State>, i: nat)
    requires Run(states) && i < |states|
    ensures states[i].count < 0 ==> Contended(states[i])
    decreases i
  {
    if i == 0 {
      FirstState(states);
    } else {
      RunInv(states, i - 1);
      RunContended(states, i - 1);
      var t, c := StepAt(states, i - 1);
      if states[i].count < 0 { StepContended(states[i - 1], t, c, states[i]); }
    }
  }

  /** Without contention the count is 1 or 0: locking a free mutex and unlocking it are one instruction each. */
  lemma Uncontended(states: seq<State>, i: nat, t: nat)
    requires Run(states) && i < |states| && t < |states[i].pcs| && !Contended(states[i])
    ensures states[i].count == if Free(states[i]) then 1 else 0
    ensures states[i].pcs[t] == Out && Free(states[i]) ==>
      var r := Step(states[i], t, Lock); r.Some? && r.value.pcs[t] == Holding
    ensures states[i].pcs[t] == Holding ==>
      forall c :: var r := Step(states[i], t, c); r.Some? && r.value.pcs[t] == Out && Free(r.value)
  {
    var s := states[i];
    RunInv(states, i);
    RunContended(states, i);
    if s.pcs[t] == Holding {
      assert Owner(s, t);
      forall c ensures var r := Step(s, t, c); r.Some? && r.value.pcs[t] == Out && Free(r.value) {
        OwnerChanges(states, i, t, c, Step(s, t, c).value);
      }
    }
  }

  // ---------------------------------------------------------------- first come, first woken

  /** When thread `t` last joined the wait list. */
  ghost function JoinedAt(states: seq<State>, i: nat, t: nat): (j: nat)
    requires i < |states|
    ensures j <= i
  {
    if i == 0 then 0
    else if t < |states[i - 1].pcs| && t < |states[i].pcs| && states[i - 1].pcs[t] == LockAdd
      && states[i].pcs[t] != LockAdd then i
    else JoinedAt(states, i - 1, t)
  }

  /** The wait list is in the order in which its members joined. */
  ghost predicate Ordered(states: seq<State>, i: nat)
    requires i < |states|
  {
    forall a, b :: 0 <= a < b < |states[i].list| ==>
      JoinedAt(states, i, states[i].list[a]) < JoinedAt(states, i, states[i].list[b])
  }

  lemma JoinedSame(states: seq<State>, i: nat, t: nat, u: nat)
    requires i + 1 < |states| && Moved(states[i], t, states[i + 1]) && u < |states[i].pcs|
    requires u != t || states[i].pcs[t] != LockAdd
    ensures JoinedAt(states, i + 1, u) == JoinedAt(states, i, u)
  {
  }

  lemma StepOrdered(states: seq<State>, i: nat, t: nat, c: Choice)
    requires i + 1 < |states| && Inv(states[i]) && t < |states[i].pcs| && Step(states[i], t, c) == Some(states[i + 1])
      && Ordered(states, i)
    ensures Ordered(states, i + 1)
  {
    var s, s' := states[i], states[i + 1];
    StepMoves(s, t, c, s');
    StepList(s, t, c, s');
    forall a, b | 0 <= a < b < |s'.list|
      ensures JoinedAt(states, i + 1, s'.list[a]) < JoinedAt(states, i + 1, s'.list[b])
    {
      var x, y := s'.list[a], s'.list[b];
      if s.pcs[t] == LockGot {
        var a', b' := WithoutOrder(s.list, t, a, b);
        assert x in s.list && y in s.list;
        JoinedSame(states, i, t, x);
        JoinedSame(states, i, t, y);
      } else {
        assert x == s.list[a] && x in s.list;
        if s.pcs[t] == LockAdd { assert t !in s.list; }
        JoinedSame(states, i, t, x);
        if b < |s.list| {
          assert y == s.list[b] && y in s.list;
          JoinedSame(states, i, t, y);
        }
      }
    }
  }

  lemma {:induction false} RunOrdered(states: seq<State>, i: nat)
    requires Run(states) && i < |states|
    ensures Ordered(states, i)
    decreases i
  {
    if i == 0 {
      FirstState(states);
    } else {
      RunInv(states, i - 1);
      RunOrdered(states, i - 1);
      var t, c := StepAt(states, i - 1);
      StepOrdered(states, i - 1, t, c);
    }
  }

  ghost predicate Longest(states: seq<State>, i: nat, u: nat)
    requires i < |states|
  {
    && u in states[i].list
    && forall w :: w in states[i].list && w != u ==> JoinedAt(states, i, u) < JoinedAt(states, i, w)
  }

  /** The releaser wakes the thread that has waited longest, and no other. */
  lemma WakesLongest(states: seq<State>, i: nat, t: nat, c: Choice, s': State)
    requires Run(states) && i < |states| && t < |states[i].pcs| && Step(states[i], t, c) == Some(s')
    requires states[i].pcs[t] == UnlockWake && |states[i].list| > 0
    ensures exists u :: Longest(states, i, u) && s'.asleep == states[i].asleep - {u}
  {
    var list := states[i].list;
    RunOrdered(states, i);
    assert list[0] in list;
    forall w | w in list && w != list[0] ensures JoinedAt(states, i, list[0]) < JoinedAt(states, i, w) {
      var b :| 0 <= b < |list| && list[b] == w;
    }
    assert Longest(states, i, list[0]);
  }
}
