/** The loop of `sigdequeue`: ignored signals are dropped one by one until one can be delivered. */
module SignalSift {
  import opened SigSet
  import opened SigPending
  import opened Signals
  import opened SignalEffects

  /** The least unblocked signal of `p`, if there is one, has been taken. */
  ghost predicate TakenFrom(p: Pending, blocked: nat, who: Who, signum: nat, info: SigInfo, q: Pending,
                            out: seq<Entry>) {
    && signum == GetNext(p.sigset, blocked) && signum <= NUM_SIGNALS
    && if signum == 0 then q == p && out == []
      else Taken(p, signum, info, q) && Smaller(q, p) && out == Out(who, p, signum, info)
  }

  ghost predicate SiftingAt(p0: Pending, p: Pending, blocked: nat, actions: seq<Action>, m: nat, s: nat)
    requires 0 < s && m <= |actions|
  {
    if s < m && !Has(blocked, s) then EmptyAt(p, s) && (Has(p0.sigset, s) ==> Ignored(actions[s - 1], s))
    else s == m || SameAt(p0, p, s)
  }

  /** Signals up to `m` have been dropped, of `m` itself perhaps not all: they were not blocked, and ignored. */
  ghost predicate Sifting(p0: Pending, p: Pending, blocked: nat, actions: seq<Action>, m: nat) {
    && m <= |actions| && (m > 0 ==> !Has(blocked, m) && Ignored(actions[m - 1], m))
    && forall s: nat :: s > 0 ==> SiftingAt(p0, p, blocked, actions, m, s)
  }

  lemma Untouched(p: Pending, blocked: nat, actions: seq<Action>)
    ensures Sifting(p, p, blocked, actions, 0)
  {
  }

  /** Below the least unblocked signal nothing unblocked is left. */
  lemma BelowNext(p: Pending, blocked: nat, k: nat, s: nat)
    requires Good(p) && k == GetNext(p.sigset, blocked) && s > 0 && !Has(blocked, s) && (k == 0 || s < k)
    ensures EmptyAt(p, s)
  {
    GetNextIs(p.sigset, blocked);
    NotPending(p, s);
  }

  lemma NextAfter(p0: Pending, p: Pending, blocked: nat, actions: seq<Action>, m: nat, k: nat)
    requires Sifting(p0, p, blocked, actions, m) && k == GetNext(p.sigset, blocked) && k > 0
    ensures m <= k && !Has(blocked, k)
  {
    GetNextIs(p.sigset, blocked);
    assert SiftingAt(p0, p, blocked, actions, m, k);
  }

  /** One more is dropped. */
  lemma SiftMore(p0: Pending, p: Pending, blocked: nat, actions: seq<Action>, m: nat, k: nat, info: SigInfo, q: Pending)
    requires Good(p) && Sifting(p0, p, blocked, actions, m) && k == GetNext(p.sigset, blocked) && 0 < k <= |actions|
    requires Taken(p, k, info, q) && Ignored(actions[k - 1], k)
    ensures Sifting(p0, q, blocked, actions, k)
  {
    NextAfter(p0, p, blocked, actions, m, k);
    forall s: nat | s > 0 ensures SiftingAt(p0, q, blocked, actions, k, s) {
      assert SiftingAt(p0, p, blocked, actions, m, s);
      if s != k { assert SameAt(p, q, s); }
      if s < k && !Has(blocked, s) { BelowNext(p, blocked, k, s); }
    }
  }

  /** Before the first signal that can be delivered, everything unblocked is ignored. */
  lemma SiftFirst(p0: Pending, p: Pending, blocked: nat, actions: seq<Action>, m: nat, r: nat)
    requires Good(p) && Sifting(p0, p, blocked, actions, m)
    requires var k := GetNext(p.sigset, blocked);
      if k == 0 then r == |actions| + 1 else r == k <= |actions| && !Ignored(actions[k - 1], k)
    ensures First(p0, blocked, actions, 1) == r && r > m && (r <= |actions| ==> SameAt(p0, p, r))
    ensures forall s: nat :: 0 < s < r && !Has(blocked, s) ==> EmptyAt(p, s)
    ensures forall s: nat :: s > 0 && (s >= r || Has(blocked, s)) ==> SameAt(p0, p, s)
  {
    var k := GetNext(p.sigset, blocked);
    GetNextIs(p.sigset, blocked);
    if k > 0 { NextAfter(p0, p, blocked, actions, m, k); }
    forall s: nat | 0 < s < r && !Has(blocked, s)
      ensures EmptyAt(p, s) && !Deliverable(p0, blocked, actions, s)
    {
      BelowNext(p, blocked, k, s);
      assert SiftingAt(p0, p, blocked, actions, m, s);
    }
    forall s: nat | s > 0 && (s >= r || Has(blocked, s)) ensures SameAt(p0, p, s) {
      assert SiftingAt(p0, p, blocked, actions, m, s);
    }
    FirstIs(p0, blocked, actions, r);
  }

  /** The loop ends with signal `k`, or with none. */
  lemma SiftDone(p0: Pending, p: Pending, blocked: nat, actions: seq<Action>, m: nat, who: Who, k: nat, info: SigInfo,
                 q: Pending, out: seq<Entry>, dropped: seq<Entry>)
    requires Good(p) && |actions| == NUM_SIGNALS && Sifting(p0, p, blocked, actions, m)
    requires TakenFrom(p, blocked, who, k, info, q, out) && (k > 0 ==> !Ignored(actions[k - 1], k))
    requires Removed(dropped, who, p0, p)
    ensures First(p0, blocked, actions, 1) == if k == 0 then NUM_SIGNALS + 1 else k
    ensures var r := First(p0, blocked, actions, 1);
      && Sifted(p0, blocked, r, info, q) && (forall s: nat :: s > 0 ==>
        LogOf(dropped, who, s) == Lost(p0, blocked, r, s))
      && (k > 0 ==> out == Out(who, p0, k, info))
  {
    var r := if k == 0 then NUM_SIGNALS + 1 else k;
    SiftFirst(p0, p, blocked, actions, m, r);
    forall s: nat | s > 0
      ensures SiftedAt(p0, blocked, r, info, q, s) && LogOf(dropped, who, s) == Lost(p0, blocked, r, s)
    {
      assert Of(p0.list, s) == LogOf(dropped, who, s) + Of(p.list, s);
      if s >= r || Has(blocked, s) { assert SameAt(p0, p, s); } else { assert EmptyAt(p, s); }
      if k > 0 && s != k { assert SameAt(p, q, s); }
    }
  }

  /** The other queue has not been looked at. */
  lemma SiftNot(p: Pending, blocked: nat, info: SigInfo, who: Who, dropped: seq<Entry>)
    requires Removed(dropped, who, p, p)
    ensures Sifted(p, blocked, 0, info, p)
    ensures forall s: nat :: s > 0 ==> LogOf(dropped, who, s) == Lost(p, blocked, 0, s)
  {
    forall s: nat | s > 0 ensures SiftedAt(p, blocked, 0, info, p, s) && LogOf(dropped, who, s) == [] {
      assert Of(p.list, s) == LogOf(dropped, who, s) + Of(p.list, s);
    }
  }
}
