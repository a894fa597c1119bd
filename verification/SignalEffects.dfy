/** What each call of kernel/signal.c does to the signals of an address space, signal by signal. */
module SignalEffects {
  import opened SigSet
  import opened SigPending
  import opened Signals

  datatype Target = AnyTask | To(id: Id)

  /** What a task learns when it looks for a signal. */
  datatype Outcome = Nothing | Handle(signum: nat, info: SigInfo, action: Action) | Exit(signum: nat)

  // ---------------------------------------------------------------- sending

  /** The cases in which nothing is queued, in the order in which they are tested, and the result. */
  predicate Refused(a: Space, target: Target, signum: int, memory: bool) {
    || !(1 <= signum <= NUM_SIGNALS) || (signum < SIGRTMIN && Has(a.pending.sigset, signum))
    || (target.To? && target.id !in a.tasks) || (!memory && signum >= SIGRTMIN)
  }

  function SendStatus(a: Space, target: Target, signum: int, memory: bool): int {
    if !(1 <= signum <= NUM_SIGNALS) then -EINVAL
    else if signum < SIGRTMIN && Has(a.pending.sigset, signum) then 0
    else if target.To? && target.id !in a.tasks then -ESRCH
    else if !memory && signum >= SIGRTMIN then -EAGAIN
    else 0
  }

  /** A signal that is not refused becomes pending for its target, with its details if there is memory for them. */
  ghost predicate SendEffect(a: Space, target: Target, signum: int, info: SigInfo, memory: bool, status: int,
                             queued: bool, b: Space) {
    && status == SendStatus(a, target, signum, memory) && queued == (memory && !Refused(a, target, signum, memory))
    && if Refused(a, target, signum, memory) then b == a
      else
        match target
        case AnyTask => b == Space(Queue(a.pending, signum, info, memory), FlagAll(a.tasks), a.actions)
        case To(id) =>
          var t := a.tasks[id];
          b == a.(tasks := a.tasks[id := t.(pending := Queue(t.pending, signum, info, memory), flag := true)])
  }

  // ---------------------------------------------------------------- receiving

  /** Signal `s` is pending, not blocked and not ignored. */
  predicate Deliverable(p: Pending, blocked: nat, actions: seq<Action>, s: nat)
    requires 0 < s <= |actions|
  {
    Has(p.sigset, s) && !Has(blocked, s) && !Ignored(actions[s - 1], s)
  }

  /** The least signal from `s` on that can be delivered, or the number after the last one. */
  function First(p: Pending, blocked: nat, actions: seq<Action>, s: nat): (r: nat)
    requires 0 < s <= |actions| + 1
    ensures s <= r <= |actions| + 1 && (r <= |actions| ==> Deliverable(p, blocked, actions, r))
    ensures forall k :: s <= k < r ==> !Deliverable(p, blocked, actions, k)
    decreases |actions| + 1 - s
  {
    if s > |actions| || Deliverable(p, blocked, actions, s) then s else First(p, blocked, actions, s + 1)
  }

  lemma FirstIs(p: Pending, blocked: nat, actions: seq<Action>, r: nat)
    requires 0 < r <= |actions| + 1 && (r <= |actions| ==> Deliverable(p, blocked, actions, r))
    requires forall k :: 0 < k < r ==> !Deliverable(p, blocked, actions, k)
    ensures First(p, blocked, actions, 1) == r
  {
  }

  ghost predicate SiftedAt(p: Pending, blocked: nat, m: nat, info: SigInfo, q: Pending, s: nat)
    requires s > 0
  {
    if s == m && m <= NUM_SIGNALS then TakenAt(p, m, info, q)
    else if s < m && !Has(blocked, s) then EmptyAt(q, s)
    else SameAt(p, q, s)
  }

  /** Signal `m` has been taken, every unblocked one below it is empty, and all others are as before. */
  ghost predicate Sifted(p: Pending, blocked: nat, m: nat, info: SigInfo, q: Pending) {
    forall s: nat :: s > 0 ==> SiftedAt(p, blocked, m, info, q, s)
  }

  /** The details of signal `s` that were emptied out. */
  ghost function Lost(p: Pending, blocked: nat, m: nat, s: nat): seq<SigInfo>
    requires s > 0
  {
    if s < m && !Has(blocked, s) then Of(p.list, s) else []
  }

  /** What becomes of signal `signum`, 0 for none, under the actions `a`, and which actions are in force afterwards. */
  ghost predicate Delivered(o: Outcome, signum: nat, info: SigInfo, a: seq<Action>, a': seq<Action>)
    requires signum <= |a|
  {
    if signum == 0 then o == Nothing && a' == a
    else
      var sa := a[signum - 1];
      if sa.handler == Default then o == Exit(signum) && a' == a
      else o == Handle(signum, info, sa) && a' == if sa.oneShot then a[signum - 1 := sa.(handler := Default)] else a
  }

  /** The first signal of the task that can be delivered, or else of all. */
  datatype Choice = Choice(mine: nat, all: nat) {
    function Signum(): nat {
      if mine <= NUM_SIGNALS then mine else if all <= NUM_SIGNALS then all else 0
    }
  }

  function Choose(a: Space, cur: Id): Choice
    requires cur in a.tasks && |a.actions| == NUM_SIGNALS
  {
    var t := a.tasks[cur];
    var m := First(t.pending, t.blocked, a.actions, 1);
    Choice(m, if m <= NUM_SIGNALS then 0 else First(a.pending, t.blocked, a.actions, 1))
  }

  ghost function TakenBy(a: Space, cur: Id, c: Choice, info: SigInfo): seq<Entry>
    requires cur in a.tasks
  {
    if c.mine <= NUM_SIGNALS then Out(Private(cur), a.tasks[cur].pending, c.mine, info)
    else if c.all <= NUM_SIGNALS then Out(Shared, a.pending, c.all, info)
    else []
  }

  ghost function LostBy(a: Space, cur: Id, c: Choice, who: Who, s: nat): seq<SigInfo>
    requires cur in a.tasks && s > 0
  {
    if who == Private(cur) then Lost(a.tasks[cur].pending, a.tasks[cur].blocked, c.mine, s)
    else if who == Shared then Lost(a.pending, a.tasks[cur].blocked, c.all, s)
    else []
  }

  /** What was dropped, by queue and signal. */
  ghost predicate DroppedBy(a: Space, cur: Id, c: Choice, dropped: seq<Entry>)
    requires cur in a.tasks
  {
    forall who, s: nat :: s > 0 ==> LogOf(dropped, who, s) == LostBy(a, cur, c, who, s)
  }

  /** The flag is cleared when nothing is pending any more, unless the task exits. */
  predicate FlagAfter(was: bool, o: Outcome, all: Pending, mine: Pending) {
    if !o.Exit? && all.sigset == 0 && mine.sigset == 0 then false else was
  }

  /**
    The task gets the first signal that can be delivered, of its own or else of all; those that are ignored, are not
    blocked and come before it are dropped. Everything else is as before.
   */
  ghost predicate ReceiveEffect(a: Space, cur: Id, o: Outcome, info: SigInfo, dropped: seq<Entry>, taken: seq<Entry>,
                                b: Space)
    requires cur in a.tasks && |a.actions| == NUM_SIGNALS
  {
    var t, c := a.tasks[cur], Choose(a, cur);
    && b.tasks.Keys == a.tasks.Keys && (forall id :: id in a.tasks && id != cur ==> b.tasks[id] == a.tasks[id])
    && b.tasks[cur].blocked == t.blocked
    && b.tasks[cur].flag == FlagAfter(t.flag, o, b.pending, b.tasks[cur].pending)
    && Sifted(t.pending, t.blocked, c.mine, info, b.tasks[cur].pending)
    && Sifted(a.pending, t.blocked, c.all, info, b.pending)
    && taken == TakenBy(a, cur, c, info) && DroppedBy(a, cur, c, dropped)
    && Delivered(o, c.Signum(), info, a.actions, b.actions)
  }

  // ---------------------------------------------------------------- changing actions and masks

  /** A signal is pending that the task does not block. */
  predicate Ready(a: Space, cur: Id)
    requires cur in a.tasks
  {
    AndNot(a.pending.sigset, a.tasks[cur].blocked) != 0
    || AndNot(a.tasks[cur].pending.sigset, a.tasks[cur].blocked) != 0
  }

  ghost predicate PurgedAt(p: Pending, k: nat, q: Pending, s: nat)
    requires s > 0
  {
    if s == k then EmptyAt(q, s) else SameAt(p, q, s)
  }

  /** Signal `k` is no longer pending, and the others are as before. */
  ghost predicate Purged(p: Pending, k: nat, q: Pending) {
    forall s: nat :: s > 0 ==> PurgedAt(p, k, q, s)
  }

  ghost predicate PurgedTask(t: Task, k: nat, t': Task) {
    t' == t.(pending := t'.pending) && Purged(t.pending, k, t'.pending)
  }

  ghost predicate PurgedLog(a: Space, k: nat, out: seq<Entry>) {
    forall who, s: nat :: s > 0 ==> LogOf(out, who, s) == if s == k then Of(QueueOf(a, who).list, s) else []
  }

  /** A new action; if it ignores the signal, that is discarded everywhere, blocked or not. */
  ghost predicate ActionEffect(a: Space, cur: Id, signum: int, act: Action, status: int, out: seq<Entry>, b: Space)
    requires cur in a.tasks && |a.actions| == NUM_SIGNALS
  {
    && status == (if !(1 <= signum <= NUM_SIGNALS) then -EINVAL else if Ready(a, cur) then -ERESTARTNOINTR else 0)
    && if status != 0 then b == a && out == []
      else if !Ignored(act, signum) then b == a.(actions := a.actions[signum - 1 := act]) && out == []
      else
        && b.actions == a.actions[signum - 1 := act] && Purged(a.pending, signum, b.pending)
        && b.tasks.Keys == a.tasks.Keys
        && (forall id :: id in a.tasks ==> PurgedTask(a.tasks[id], signum, b.tasks[id]))
        && PurgedLog(a, signum, out)
  }

  /** How a mask changes for signal `s`: `how` is 0 to block, 1 to unblock and 2 to replace. */
  predicate Masked(how: int, was: bool, given: bool) {
    if how == 0 then was || given else if how == 1 then was && !given else given
  }

  ghost predicate MaskEffect(a: Space, cur: Id, how: int, set': nat, status: int, b: Space)
    requires cur in a.tasks
  {
    && status == (if 0 <= how <= 2 then 0 else -EINVAL) && (status != 0 ==> b == a)
    && cur in b.tasks && b == a.(tasks := a.tasks[cur := a.tasks[cur].(blocked := b.tasks[cur].blocked)])
    && (status == 0 ==> forall s: nat :: s > 0 ==>
      Has(b.tasks[cur].blocked, s) == Masked(how, Has(a.tasks[cur].blocked, s), Has(set', s)))
  }

  // ---------------------------------------------------------------- what the effects mean

  /** The signals of a mask. */
  function Members(w: nat): set<nat> {
    set s | 0 < s <= NUM_SIGNALS && Has(w, s)
  }

  /** Blocking adds the signals of the set to the mask, unblocking takes them away, and otherwise they are the mask. */
  lemma MaskSets(a: Space, cur: Id, how: int, set': nat, status: int, b: Space)
    requires cur in a.tasks && MaskEffect(a, cur, how, set', status, b)
    ensures var was, now := Members(a.tasks[cur].blocked), Members(b.tasks[cur].blocked);
      match how
      case 0 => now == was + Members(set')
      case 1 => now == was - Members(set')
      case 2 => now == Members(set')
      case _ => now == was && status == -EINVAL
  {
  }

  /** Signal `s` can be delivered to the task. */
  predicate Awaits(a: Space, cur: Id, s: nat)
    requires cur in a.tasks && 0 < s <= |a.actions|
  {
    || Deliverable(a.tasks[cur].pending, a.tasks[cur].blocked, a.actions, s)
    || Deliverable(a.pending, a.tasks[cur].blocked, a.actions, s)
  }

  /** Signal `m` is the lowest of the task that can be delivered, or it has none and `m` is the lowest for all. */
  predicate Lowest(a: Space, cur: Id, m: nat)
    requires cur in a.tasks && |a.actions| == NUM_SIGNALS && 0 < m <= NUM_SIGNALS
  {
    var t := a.tasks[cur];
    && (forall s :: 0 < s < m ==> !Deliverable(t.pending, t.blocked, a.actions, s))
    && (!Deliverable(t.pending, t.blocked, a.actions, m) ==>
      && (forall s :: 0 < s <= NUM_SIGNALS ==> !Deliverable(t.pending, t.blocked, a.actions, s))
      && (forall s :: 0 < s < m ==> !Deliverable(a.pending, t.blocked, a.actions, s)))
  }

  /** Signal `s` is pending for the task or for all. */
  predicate PendingFor(a: Space, cur: Id, s: nat)
    requires cur in a.tasks && s > 0
  {
    Has(a.pending.sigset, s) || Has(a.tasks[cur].pending.sigset, s)
  }

  /** A task is given a signal exactly if one is pending for it that it neither blocks nor ignores. */
  lemma DeliversIff(a: Space, cur: Id, o: Outcome, info: SigInfo, dropped: seq<Entry>, taken: seq<Entry>, b: Space)
    requires cur in a.tasks && |a.actions| == NUM_SIGNALS && ReceiveEffect(a, cur, o, info, dropped, taken, b)
    ensures o != Nothing <==> exists s: nat :: 0 < s <= NUM_SIGNALS && Awaits(a, cur, s)
    ensures !o.Nothing? ==> 0 < o.signum <= NUM_SIGNALS && Awaits(a, cur, o.signum) && Lowest(a, cur, o.signum)
    ensures o.Handle? ==>
      o.action == a.actions[o.signum - 1] && o.action.handler.Call? && o.info == info && info.signo == o.signum
    ensures o.Exit? ==> a.actions[o.signum - 1].handler == Default
    ensures b.actions == if o.Handle? && o.action.oneShot then a.actions[o.signum - 1 := Action(Default, true)]
      else a.actions
  {
    var t, c := a.tasks[cur], Choose(a, cur);
    if c.mine <= NUM_SIGNALS {
      assert Awaits(a, cur, c.mine);
      assert SiftedAt(t.pending, t.blocked, c.mine, info, b.tasks[cur].pending, c.mine);
    } else if c.all <= NUM_SIGNALS {
      assert Awaits(a, cur, c.all);
      assert SiftedAt(a.pending, t.blocked, c.all, info, b.pending, c.all);
    }
  }

  /** After a receive that does not exit, the flag is set exactly if it was and something is pending still. */
  lemma FlagIff(a: Space, cur: Id, o: Outcome, info: SigInfo, dropped: seq<Entry>, taken: seq<Entry>, b: Space)
    requires cur in a.tasks && |a.actions| == NUM_SIGNALS && ReceiveEffect(a, cur, o, info, dropped, taken, b)
    ensures cur in b.tasks
    ensures b.tasks[cur].flag <==> a.tasks[cur].flag && (o.Exit? || exists s: nat :: s > 0 && PendingFor(b, cur, s))
  {
    EmptyIs(b.pending.sigset);
    EmptyIs(b.tasks[cur].pending.sigset);
    if t: nat :| t > 0 && (Has(b.pending.sigset, t) || Has(b.tasks[cur].pending.sigset, t)) {
      assert PendingFor(b, cur, t);
    }
  }

  /** A change of action has to wait exactly as long as a signal is pending that the task does not block. */
  lemma WaitsIff(a: Space, cur: Id, signum: int, act: Action, status: int, out: seq<Entry>, b: Space)
    requires cur in a.tasks && |a.actions| == NUM_SIGNALS && ActionEffect(a, cur, signum, act, status, out, b)
    ensures status == -22 <==> !(1 <= signum <= 64)
    ensures status == -513 <==>
      1 <= signum <= 64 && exists s: nat :: s > 0 && PendingFor(a, cur, s) && !Has(a.tasks[cur].blocked, s)
    ensures status == 0 ==> b.actions[signum - 1] == act
  {
    SomeLeft(a.pending.sigset, a.tasks[cur].blocked);
    SomeLeft(a.tasks[cur].pending.sigset, a.tasks[cur].blocked);
  }

  /** The ways in which sending fails, each without effect; otherwise the signal is pending for its target. */
  lemma SendsIff(a: Space, target: Target, signum: int, info: SigInfo, memory: bool, status: int, queued: bool,
                 b: Space)
    requires Sane(a) && SendEffect(a, target, signum, info, memory, status, queued, b)
    ensures status == -22 <==> !(1 <= signum <= 64)
    ensures status == -3 ==> target.To? && target.id !in a.tasks
    ensures status == -11 ==> signum >= 32 && !memory
    ensures status != 0 ==> b == a && status in {-22, -3, -11}
    ensures status == 0 && target.To? && target.id in a.tasks ==>
      target.id in b.tasks && 1 <= signum <= 64 && PendingFor(b, target.id, signum)
    ensures status == 0 && target == AnyTask ==> 1 <= signum <= 64 && Has(b.pending.sigset, signum)
  {
    if status == 0 && !Refused(a, target, signum, memory) {
      HasAdd(if target.To? then a.tasks[target.id].pending.sigset else a.pending.sigset, signum, signum);
    }
  }

  /** A signal that is blocked stays as it is, with or without details, wherever it is pending. */
  lemma BlockedStays(a: Space, cur: Id, o: Outcome, info: SigInfo, dropped: seq<Entry>, taken: seq<Entry>, b: Space,
                     s: nat)
    requires cur in a.tasks && |a.actions| == NUM_SIGNALS && ReceiveEffect(a, cur, o, info, dropped, taken, b)
    requires 0 < s <= NUM_SIGNALS && Has(a.tasks[cur].blocked, s)
    ensures forall who :: SameAt(QueueOf(a, who), QueueOf(b, who), s)
  {
    var t, c := a.tasks[cur], Choose(a, cur);
    assert SiftedAt(t.pending, t.blocked, c.mine, info, b.tasks[cur].pending, s);
    assert SiftedAt(a.pending, t.blocked, c.all, info, b.pending, s);
  }

  /** A real-time signal comes with the oldest details that are queued for it, and these leave the queue. */
  lemma RealTimeDetails(a: Space, cur: Id, o: Outcome, info: SigInfo, dropped: seq<Entry>, taken: seq<Entry>, b: Space)
    requires Sane(a) && cur in a.tasks && ReceiveEffect(a, cur, o, info, dropped, taken, b)
    requires !o.Nothing? && o.signum >= SIGRTMIN
    ensures |taken| == 1 && taken[0].info == info && (taken[0].who == Private(cur) || taken[0].who == Shared)
    ensures var p := QueueOf(a, taken[0].who); Of(p.list, o.signum) != [] && info == Of(p.list, o.signum)[0]
  {
    var t, c := a.tasks[cur], Choose(a, cur);
    if c.mine <= NUM_SIGNALS {
      RealTimePending(t.pending, c.mine);
      assert SiftedAt(t.pending, t.blocked, c.mine, info, b.tasks[cur].pending, c.mine);
    } else {
      RealTimePending(a.pending, c.all);
      assert SiftedAt(a.pending, t.blocked, c.all, info, b.pending, c.all);
    }
  }

  lemma LostIgnored(p: Pending, blocked: nat, actions: seq<Action>, m: nat, s: nat)
    requires Good(p) && s > 0 && |actions| == NUM_SIGNALS && Lost(p, blocked, m, s) != []
    requires m > 0 ==> m == First(p, blocked, actions, 1)
    ensures s <= NUM_SIGNALS && !Has(blocked, s) && Ignored(actions[s - 1], s)
  {
    OfIn(p.list, s);
    assert !Deliverable(p, blocked, actions, s);
  }

  /** What is dropped is ignored and not blocked. */
  lemma DroppedIgnored(a: Space, cur: Id, o: Outcome, info: SigInfo, dropped: seq<Entry>, taken: seq<Entry>, b: Space,
                       who: Who, s: nat)
    requires Sane(a) && cur in a.tasks && ReceiveEffect(a, cur, o, info, dropped, taken, b)
    requires s > 0 && LogOf(dropped, who, s) != []
    ensures s <= NUM_SIGNALS && !Has(a.tasks[cur].blocked, s) && Ignored(a.actions[s - 1], s)
  {
    var t, c := a.tasks[cur], Choose(a, cur);
    assert LogOf(dropped, who, s) == LostBy(a, cur, c, who, s);
    LostIgnored(if who == Private(cur) then t.pending else a.pending, t.blocked, a.actions,
      if who == Private(cur) then c.mine else c.all, s);
  }
}
