/** Pending signals: a word of pending bits and a queue of details, as in struct sigpending of include/lwk/signal.h. */
module SigPending {
  import opened BitWords
  import opened SigSet

  const SIGRTMIN: nat := 32

  /** `siginfo_t`, as far as it is copied. */
  datatype SigInfo = SigInfo(signo: nat, errno: int, code: int, pid: int, uid: int)

  datatype Pending = Pending(list: seq<SigInfo>, sigset: nat)

  const NONE: Pending := Pending([], 0)

  /** The queued details of signal `s`, in the order in which they were queued. */
  function Of(list: seq<SigInfo>, s: nat): seq<SigInfo> {
    if list == [] then []
    else Of(list[..|list| - 1], s) + if list[|list| - 1].signo == s then [list[|list| - 1]] else []
  }

  /** Whatever is queued has its bit set; a real-time signal has its bit set only if something is queued. */
  ghost predicate Good(p: Pending) {
    && IsSet64(p.sigset)
    && (forall i :: 0 <= i < |p.list| ==> 0 < p.list[i].signo <= NUM_SIGNALS && Has(p.sigset, p.list[i].signo))
    && (forall s :: SIGRTMIN <= s <= NUM_SIGNALS && Has(p.sigset, s) ==> Of(p.list, s) != [])
  }

  lemma {:induction false} OfConcat(a: seq<SigInfo>, b: seq<SigInfo>, s: nat)
    ensures Of(a + b, s) == Of(a, s) + Of(b, s)
    decreases |b|
  {
    if b == [] {
      assert a + b == a;
    } else {
      var n := |b| - 1;
      assert (a + b)[..|a| + n] == a + b[..n];
      OfConcat(a, b[..n], s);
    }
  }

  lemma OfOne(x: SigInfo, s: nat)
    ensures Of([x], s) == if x.signo == s then [x] else []
  {
    assert [x][..0] == [];
  }

  lemma {:induction false} OfIn(list: seq<SigInfo>, s: nat)
    ensures Of(list, s) != [] ==> exists i :: 0 <= i < |list| && list[i].signo == s
    ensures forall k :: 0 <= k < |Of(list, s)| ==> Of(list, s)[k].signo == s
  {
    if list != [] { OfIn(list[..|list| - 1], s); }
  }

  /** Nothing is queued for a signal that is not pending. */
  lemma NotPending(p: Pending, s: nat)
    requires Good(p) && s > 0 && !Has(p.sigset, s)
    ensures Of(p.list, s) == []
  {
    OfIn(p.list, s);
  }

  /** A real-time signal is pending exactly if something is queued for it. */
  lemma RealTimePending(p: Pending, s: nat)
    requires Good(p) && SIGRTMIN <= s <= NUM_SIGNALS
    ensures Has(p.sigset, s) <==> Of(p.list, s) != []
  {
    OfIn(p.list, s);
  }

  // ---------------------------------------------------------------- queueing

  /** Lines 241-248 of sigsend: the details are queued if there is memory for them, and the bit is set. */
  function Queue(p: Pending, signum: nat, info: SigInfo, memory: bool): Pending
    requires signum > 0
  {
    Pending(if memory then p.list + [info] else p.list, Add(p.sigset, signum))
  }

  lemma QueueList(p: Pending, signum: nat, info: SigInfo, memory: bool, s: nat)
    requires signum > 0 && info.signo == signum
    ensures Of(Queue(p, signum, info, memory).list, s) == Of(p.list, s) + if memory && s == signum then [info] else []
  {
    if memory {
      OfConcat(p.list, [info], s);
      OfOne(info, s);
    }
  }

  lemma QueueGood(p: Pending, signum: nat, info: SigInfo, memory: bool)
    requires Good(p) && 0 < signum <= NUM_SIGNALS && info.signo == signum && (memory || signum < SIGRTMIN)
    ensures Good(Queue(p, signum, info, memory)) && Queue(p, signum, info, memory).sigset != 0
  {
    var q := Queue(p, signum, info, memory);
    forall s: nat | s > 0 ensures Has(q.sigset, s) == (s == signum || Has(p.sigset, s)) { HasAdd(p.sigset, signum, s); }
    HasAdd(p.sigset, signum, signum);
    TestZero(signum - 1);
    forall s | SIGRTMIN <= s <= NUM_SIGNALS && Has(q.sigset, s) ensures Of(q.list, s) != [] {
      QueueList(p, signum, info, memory, s);
    }
    forall i | 0 <= i < |q.list| ensures 0 < q.list[i].signo <= NUM_SIGNALS && Has(q.sigset, q.list[i].signo) {
      if i < |p.list| { assert q.list[i] == p.list[i]; }
    }
  }

  // ---------------------------------------------------------------- taking the next one

  ghost predicate SameAt(p: Pending, q: Pending, s: nat)
    requires s > 0
  {
    Has(q.sigset, s) == Has(p.sigset, s) && Of(q.list, s) == Of(p.list, s)
  }

  ghost predicate EmptyAt(q: Pending, s: nat)
    requires s > 0
  {
    !Has(q.sigset, s) && Of(q.list, s) == []
  }

  /** Signal `m` loses its oldest details `info`, and its bit if there are no more. */
  ghost predicate TakenAt(p: Pending, m: nat, info: SigInfo, q: Pending)
    requires m > 0
  {
    && info.signo == m && Has(q.sigset, m) == (|Of(p.list, m)| >= 2)
    && if Of(p.list, m) == [] then info == SigInfo(m, 0, 0, 0, 0) && Of(q.list, m) == []
      else info == Of(p.list, m)[0] && Of(q.list, m) == Of(p.list, m)[1..]
  }

  /** Signal `k` is taken out, and the others are as before. */
  ghost predicate Taken(p: Pending, k: nat, info: SigInfo, q: Pending)
    requires k > 0
  {
    TakenAt(p, k, info, q) && forall s: nat :: s > 0 && s != k ==> SameAt(p, q, s)
  }

  function Without(list: seq<SigInfo>, i: nat): seq<SigInfo>
    requires i < |list|
  {
    list[..i] + list[i + 1..]
  }

  lemma Split(list: seq<SigInfo>, i: nat, s: nat)
    requires i < |list|
    ensures Of(list, s) == Of(list[..i], s) + (if list[i].signo == s then [list[i]] else []) + Of(list[i + 1..], s)
    ensures Of(Without(list, i), s) == Of(list[..i], s) + Of(list[i + 1..], s)
  {
    assert list == list[..i] + [list[i]] + list[i + 1..];
    OfConcat(list[..i] + [list[i]], list[i + 1..], s);
    OfConcat(list[..i], [list[i]], s);
    OfOne(list[i], s);
    OfConcat(list[..i], list[i + 1..], s);
  }

  /** Lines 291-299: the first details of signal `k`, and whether there are more. */
  method FindFirst(list: seq<SigInfo>, k: nat) returns (first: int, more: bool)
    ensures -1 <= first < |list| && more == (|Of(list, k)| >= 2)
    ensures if first < 0 then Of(list, k) == [] else list[first].signo == k && Of(list[..first], k) == []
  {
    first, more := -1, false;
    var cur := 0;
    while cur < |list|
      invariant 0 <= cur <= |list| && -1 <= first < cur
      invariant Of(list[..cur], k) == if first < 0 then [] else [list[first]]
      invariant first >= 0 ==> list[first].signo == k && Of(list[..first], k) == []
    {
      assert list[..cur + 1][..cur] == list[..cur];
      if list[cur].signo == k {
        if first >= 0 {
          Split(list, cur, k);
          return first, true;
        }
        first := cur;
      }
      cur := cur + 1;
    }
    assert list[..cur] == list;
  }

  lemma TakenGood(p: Pending, k: nat, info: SigInfo, q: Pending)
    requires Good(p) && 0 < k <= NUM_SIGNALS && Taken(p, k, info, q) && IsSet64(q.sigset)
    requires forall i :: 0 <= i < |q.list| ==> q.list[i] in p.list
    ensures Good(q)
  {
    forall i | 0 <= i < |q.list| ensures 0 < q.list[i].signo <= NUM_SIGNALS && Has(q.sigset, q.list[i].signo) {
      var x := q.list[i];
      assert x in p.list;
      Split(q.list, i, x.signo);
      if x.signo != k { assert SameAt(p, q, x.signo); }
    }
    forall s | SIGRTMIN <= s <= NUM_SIGNALS && Has(q.sigset, s) ensures Of(q.list, s) != [] {
      if s != k { assert SameAt(p, q, s); }
    }
  }

  lemma TakeQueued(p: Pending, k: nat, first: nat, more: bool, q: Pending)
    requires Good(p) && 0 < k <= NUM_SIGNALS && first < |p.list| && p.list[first].signo == k
      && Of(p.list[..first], k) == [] && more == (|Of(p.list, k)| >= 2)
    requires q == Pending(Without(p.list, first), if more then p.sigset else Del(p.sigset, k))
    ensures Taken(p, k, p.list[first], q) && Good(q)
  {
    Split(p.list, first, k);
    assert Of(q.list, k) == Of(p.list, k)[1..];
    forall s | s != k ensures Of(q.list, s) == Of(p.list, s) { Split(p.list, first, s); }
    forall s: nat | s > 0 ensures Has(q.sigset, s) == (if s == k then more else Has(p.sigset, s)) {
      if more { assert Has(p.sigset, k); } else { HasDel(p.sigset, k, s); }
    }
    HasDel(p.sigset, k, k);
    TakenGood(p, k, p.list[first], q);
  }

  lemma TakeBare(p: Pending, k: nat, q: Pending)
    requires Good(p) && 0 < k <= NUM_SIGNALS && Of(p.list, k) == [] && q == Pending(p.list, Del(p.sigset, k))
    ensures Taken(p, k, SigInfo(k, 0, 0, 0, 0), q) && Good(q)
  {
    forall s: nat | s > 0 ensures Has(q.sigset, s) == (s != k && Has(p.sigset, s)) { HasDel(p.sigset, k, s); }
    HasDel(p.sigset, k, k);
    TakenGood(p, k, SigInfo(k, 0, 0, 0, 0), q);
  }

  /** Taking one out leaves fewer details, or as many and a smaller set. */
  predicate Smaller(q: Pending, p: Pending) {
    (|q.list| < |p.list| && q.sigset <= p.sigset) || (|q.list| == |p.list| && q.sigset < p.sigset)
  }

  lemma DelLess(w: nat, s: nat)
    requires IsSet64(w) && 0 < s <= NUM_SIGNALS
    ensures Del(w, s) <= w && (Has(w, s) ==> Del(w, s) < w)
  {
    HasDel(w, s, s);
    AndNotBound(w, Shl(1, s - 1));
  }

  /** `sigpending_dequeue`, lines 281-319 */
  method Dequeue(p: Pending, blocked: nat) returns (signum: nat, info: SigInfo, q: Pending)
    requires Good(p)
    ensures signum == GetNext(p.sigset, blocked) && signum <= NUM_SIGNALS && Good(q)
    ensures if signum == 0 then q == p else Taken(p, signum, info, q) && Smaller(q, p)
  {
    q := p;
    signum := GetNext(p.sigset, blocked);
    GetNextIs(p.sigset, blocked);
    info := SigInfo(signum, 0, 0, 0, 0);
    if signum == 0 {
      return;
    }
    HasBound(p.sigset, signum);
    DelLess(p.sigset, signum);
    var first, more := FindFirst(p.list, signum);
    var sigset := p.sigset;
    if !more {
      sigset := Del(sigset, signum);
    }
    if first >= 0 {
      info := p.list[first];
      q := Pending(Without(p.list, first), sigset);
      TakeQueued(p, signum, first, more, q);
    } else {
      q := Pending(p.list, sigset);
      TakeBare(p, signum, q);
    }
  }

  // ---------------------------------------------------------------- discarding

  function Kept(list: seq<SigInfo>, set': nat): seq<SigInfo> {
    if list == [] then []
    else
      var x := list[|list| - 1];
      Kept(list[..|list| - 1], set') + if x.signo > 0 && Has(set', x.signo) then [] else [x]
  }

  lemma {:induction false} OfKept(list: seq<SigInfo>, set': nat, s: nat)
    requires s > 0
    ensures Of(Kept(list, set'), s) == if Has(set', s) then [] else Of(list, s)
  {
    if list != [] {
      var n := |list| - 1;
      OfKept(list[..n], set', s);
      OfConcat(Kept(list[..n], set'), [list[n]], s);
      OfOne(list[n], s);
      assert Kept(list[..n], set') + [] == Kept(list[..n], set');
    }
  }

  lemma {:induction false} KeptIn(list: seq<SigInfo>, set': nat, x: SigInfo)
    requires x in Kept(list, set')
    ensures x in list && !(x.signo > 0 && Has(set', x.signo))
  {
    var n := |list| - 1;
    if x in Kept(list[..n], set') { KeptIn(list[..n], set', x); }
  }

  /** The signals of `set'` are no longer pending, and the others are as before. */
  ghost predicate Stripped(p: Pending, set': nat, q: Pending) {
    && (forall s: nat :: s > 0 ==> Has(q.sigset, s) == (Has(p.sigset, s) && !Has(set', s)))
    && (forall s: nat :: s > 0 ==> Of(q.list, s) == if Has(set', s) then [] else Of(p.list, s))
  }

  /** `remove_from_sigpending`, lines 31-50 */
  method Remove(p: Pending, set': nat) returns (found: bool, q: Pending)
    requires Good(p)
    ensures found == (exists s: nat :: s > 0 && Has(set', s) && Has(p.sigset, s))
    ensures Good(q) && q.sigset <= p.sigset && Stripped(p, set', q)
  {
    NothingInCommon(set', p.sigset);
    q := p;
    if And(set', p.sigset) == 0 {
      found := false;
      forall s: nat | s > 0 ensures Of(q.list, s) == if Has(set', s) then [] else Of(p.list, s) {
        assert !(Has(set', s) && Has(p.sigset, s));
        OfIn(p.list, s);
      }
      return;
    }
    found := true;
    var list, cur := [], 0;
    while cur < |p.list|
      invariant 0 <= cur <= |p.list| && list == Kept(p.list[..cur], set')
    {
      assert p.list[..cur + 1][..cur] == p.list[..cur];
      if !Has(set', p.list[cur].signo) {
        list := list + [p.list[cur]];
      }
      cur := cur + 1;
    }
    assert p.list[..cur] == p.list;
    q := Pending(list, AndNot(p.sigset, set'));
    forall s: nat | s > 0
      ensures Of(q.list, s) == if Has(set', s) then [] else Of(p.list, s) { OfKept(p.list, set', s); }
    forall s: nat | s > 0
      ensures Has(q.sigset, s) == (Has(p.sigset, s) && !Has(set', s)) { HasMinus(p.sigset, set', s); }
    HasMinus(p.sigset, set', 1);
    AndNotBound(p.sigset, set');
    forall i | 0 <= i < |q.list| ensures 0 < q.list[i].signo <= NUM_SIGNALS && Has(q.sigset, q.list[i].signo) {
      KeptIn(p.list, set', q.list[i]);
    }
  }
}
