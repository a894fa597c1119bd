/** Runs of the calls of kernel/signal.c: no signal is forgotten, repeated, reordered or made up. */
module SignalRuns {
  import opened BitWords
  import opened SigSet
  import opened SigPending
  import opened Signals
  import opened SignalEffects
  import opened SignalSpace

  /** One call, by or for a task. */
  datatype Op =
    | SendOp(target: Target, info: SigInfo, memory: bool)
    | ReceiveOp(cur: Id)
    | ActionOp(cur: Id, signum: int, act: Action)
    | MaskOp(cur: Id, how: int, set': nat)

  /** What comes of it; a call for a task that does not exist is not made. */
  datatype Event =
    | SendEvent(status: int, queued: bool)
    | ReceiveEvent(o: Outcome, info: SigInfo, dropped: seq<Entry>, taken: seq<Entry>)
    | ActionEvent(status: int, out: seq<Entry>)
    | MaskEvent(status: int)
    | NoTask

  ghost predicate Effect(a: Space, op: Op, ev: Event, b: Space) {
    && |a.actions| == NUM_SIGNALS
    && if !op.SendOp? && op.cur !in a.tasks then ev == NoTask && b == a
      else
        match op
        case SendOp(target, info, memory) =>
          ev.SendEvent? && SendEffect(a, target, info.signo, info, memory, ev.status, ev.queued, b)
        case ReceiveOp(cur) => ev.ReceiveEvent? && ReceiveEffect(a, cur, ev.o, ev.info, ev.dropped, ev.taken, b)
        case ActionOp(cur, signum, act) => ev.ActionEvent? && ActionEffect(a, cur, signum, act, ev.status, ev.out, b)
        case MaskOp(cur, how, set') => ev.MaskEvent? && MaskEffect(a, cur, how, set', ev.status, b)
  }

  method Step(a: Aspace, op: Op) returns (ghost ev: Event)
    requires a.Valid()
    modifies a
    ensures a.Valid() && Effect(old(a.Now()), op, ev, a.Now())
  {
    if !op.SendOp? && op.cur !in a.tasks {
      return NoTask;
    }
    match op
    case SendOp(target, info, memory) =>
      var status, queued := a.SigSend(target, info.signo, info, memory);
      ev := SendEvent(status, queued);
    case ReceiveOp(cur) =>
      var o, info, dropped, taken := a.SigDequeue(cur);
      ev := ReceiveEvent(o, info, dropped, taken);
    case ActionOp(cur, signum, act) =>
      var status, out := a.SigAction(cur, signum, act);
      ev := ActionEvent(status, out);
    case MaskOp(cur, how, set') =>
      var status := a.SigProcMask(cur, how, set');
      ev := MaskEvent(status);
  }

  // ---------------------------------------------------------------- what is sent and what goes

  ghost function SentBy(op: Op, ev: Event): seq<Entry> {
    if op.SendOp? && ev.SendEvent? && ev.queued then
      [Entry(if op.target.To? then Private(op.target.id) else Shared, op.info)]
    else []
  }

  ghost function GoneBy(ev: Event): seq<Entry> {
    match ev
    case ReceiveEvent(o, info, dropped, taken) => dropped + taken
    case ActionEvent(status, out) => out
    case _ => []
  }

  /** The details that the calls queued, in order. */
  ghost function SentIn(ops: seq<Op>, events: seq<Event>): seq<Entry>
    requires |ops| == |events|
  {
    if ops == [] then []
    else var n := |ops| - 1; SentIn(ops[..n], events[..n]) + SentBy(ops[n], events[n])
  }

  /** The details that were delivered, dropped or discarded, in order. */
  ghost function GoneIn(events: seq<Event>): seq<Entry> {
    if events == [] then []
    else var n := |events| - 1; GoneIn(events[..n]) + GoneBy(events[n])
  }

  lemma SendAdds(a: Space, op: Op, ev: Event, b: Space, who: Who, s: nat)
    requires Effect(a, op, ev, b) && op.SendOp? && s > 0
    ensures Of(QueueOf(b, who).list, s) == Of(QueueOf(a, who).list, s) + LogOf(SentBy(op, ev), who, s)
  {
    var p, more := QueueOf(a, who), SentBy(op, ev);
    if more != [] { LogOne(more[0], who, s); }
    if Refused(a, op.target, op.info.signo, op.memory) {
      assert more == [] && b == a;
    } else {
      var to := if op.target.To? then Private(op.target.id) else Shared;
      if who == to {
        QueueList(p, op.info.signo, op.info, op.memory, s);
        assert QueueOf(b, who) == Queue(p, op.info.signo, op.info, op.memory);
      } else {
        assert QueueOf(b, who) == p;
      }
    }
  }

  lemma SendBalanced(a: Space, op: Op, ev: Event, b: Space, who: Who, sent: seq<Entry>, gone: seq<Entry>)
    requires Effect(a, op, ev, b) && op.SendOp? && Balanced(sent, gone, who, QueueOf(a, who))
    ensures Balanced(sent + SentBy(op, ev), gone, who, QueueOf(b, who))
  {
    var more := SentBy(op, ev);
    forall s: nat | s > 0
      ensures Of(QueueOf(b, who).list, s) == Of(QueueOf(a, who).list, s) + LogOf(more, who, s)
    {
      SendAdds(a, op, ev, b, who, s);
    }
    SentSome(sent, gone, who, QueueOf(a, who), more, QueueOf(b, who));
  }

  /** What a sifted queue has lost is what was dropped and what was taken. */
  lemma SiftedRemoved(p: Pending, blocked: nat, m: nat, info: SigInfo, q: Pending, who: Who, dropped: seq<Entry>,
                      taken: seq<Entry>)
    requires Sifted(p, blocked, m, info, q)
    requires forall s: nat :: s > 0 ==> LogOf(dropped, who, s) == Lost(p, blocked, m, s)
    requires forall s: nat :: s > 0 ==>
      LogOf(taken, who, s) == if s == m <= NUM_SIGNALS && Of(p.list, m) != [] then [info] else []
    ensures Removed(dropped + taken, who, p, q)
  {
    forall s: nat | s > 0 ensures Of(p.list, s) == LogOf(dropped + taken, who, s) + Of(q.list, s) {
      LogConcat(dropped, taken, who, s);
      SiftedLoses(p, blocked, m, info, q, s, LogOf(dropped, who, s), LogOf(taken, who, s));
    }
  }

  lemma SiftedLoses(p: Pending, blocked: nat, m: nat, info: SigInfo, q: Pending, s: nat, lost: seq<SigInfo>,
                    took: seq<SigInfo>)
    requires s > 0 && SiftedAt(p, blocked, m, info, q, s) && lost == Lost(p, blocked, m, s)
    requires took == if s == m <= NUM_SIGNALS && Of(p.list, m) != [] then [info] else []
    ensures Of(p.list, s) == lost + took + Of(q.list, s)
  {
    if s == m <= NUM_SIGNALS {
      if Of(p.list, m) != [] { assert Of(p.list, m) == [Of(p.list, m)[0]] + Of(p.list, m)[1..]; }
    } else if s < m && !Has(blocked, s) {
      assert lost + [] + [] == lost;
    }
  }

  lemma OutLog(from: Who, p: Pending, m: nat, info: SigInfo, who: Who, s: nat)
    requires info.signo == m
    ensures LogOf(Out(from, p, m, info), who, s)
      == if who == from && s == m && Of(p.list, m) != [] then [info] else []
  {
    if Of(p.list, m) != [] { LogOne(Entry(from, info), who, s); }
  }

  /** The taken signal is the one that was chosen, from the queue it was chosen from. */
  lemma TakenLog(a: Space, cur: Id, o: Outcome, info: SigInfo, dropped: seq<Entry>, taken: seq<Entry>, b: Space,
                 who: Who, s: nat)
    requires cur in a.tasks && |a.actions| == NUM_SIGNALS && ReceiveEffect(a, cur, o, info, dropped, taken, b) && s > 0
    ensures var c, p := Choose(a, cur), QueueOf(a, who);
      LogOf(taken, who, s) == if (who == Private(cur) && s == c.mine <= NUM_SIGNALS && Of(p.list, s) != [])
        || (who == Shared && s == c.all <= NUM_SIGNALS && Of(p.list, s) != []) then [info] else []
  {
    var t, c := a.tasks[cur], Choose(a, cur);
    if c.mine <= NUM_SIGNALS {
      assert SiftedAt(t.pending, t.blocked, c.mine, info, b.tasks[cur].pending, c.mine);
      OutLog(Private(cur), t.pending, c.mine, info, who, s);
    } else if c.all <= NUM_SIGNALS {
      assert SiftedAt(a.pending, t.blocked, c.all, info, b.pending, c.all);
      OutLog(Shared, a.pending, c.all, info, who, s);
    }
  }

  lemma ReceiveRemoved(a: Space, cur: Id, o: Outcome, info: SigInfo, dropped: seq<Entry>, taken: seq<Entry>, b: Space,
                       who: Who)
    requires cur in a.tasks && |a.actions| == NUM_SIGNALS && ReceiveEffect(a, cur, o, info, dropped, taken, b)
    ensures Removed(dropped + taken, who, QueueOf(a, who), QueueOf(b, who))
  {
    var t, c := a.tasks[cur], Choose(a, cur);
    forall s: nat | s > 0 ensures LogOf(dropped, who, s) == LostBy(a, cur, c, who, s) {
    }
    forall s: nat | s > 0
      ensures who != Private(cur) && who != Shared ==> LogOf(dropped + taken, who, s) == []
    {
      TakenLog(a, cur, o, info, dropped, taken, b, who, s);
      LogConcat(dropped, taken, who, s);
    }
    if who == Private(cur) {
      forall s: nat | s > 0
        ensures LogOf(taken, who, s)
          == if s == c.mine <= NUM_SIGNALS && Of(t.pending.list, c.mine) != [] then [info] else []
      {
        TakenLog(a, cur, o, info, dropped, taken, b, who, s);
      }
      SiftedRemoved(t.pending, t.blocked, c.mine, info, b.tasks[cur].pending, who, dropped, taken);
    } else if who == Shared {
      forall s: nat | s > 0
        ensures LogOf(taken, who, s)
          == if s == c.all <= NUM_SIGNALS && Of(a.pending.list, c.all) != [] then [info] else []
      {
        TakenLog(a, cur, o, info, dropped, taken, b, who, s);
      }
      SiftedRemoved(a.pending, t.blocked, c.all, info, b.pending, who, dropped, taken);
    }
  }

  lemma ActionRemoved(a: Space, cur: Id, signum: int, act: Action, status: int, out: seq<Entry>, b: Space, who: Who)
    requires cur in a.tasks && |a.actions| == NUM_SIGNALS && ActionEffect(a, cur, signum, act, status, out, b)
    ensures Removed(out, who, QueueOf(a, who), QueueOf(b, who))
  {
    var p, q := QueueOf(a, who), QueueOf(b, who);
    if status == 0 && Ignored(act, signum) {
      forall s: nat | s > 0 ensures Of(p.list, s) == LogOf(out, who, s) + Of(q.list, s) {
        if who.Shared? || who.id in a.tasks {
          assert Purged(p, signum, q);
          assert PurgedAt(p, signum, q, s);
        }
        assert LogOf(out, who, s) == if s == signum then Of(p.list, s) else [];
      }
    }
  }

  /** Every call keeps the books: what was sent has gone or is queued, in order. */
  lemma EffectBalanced(a: Space, op: Op, ev: Event, b: Space, who: Who, sent: seq<Entry>, gone: seq<Entry>)
    requires Effect(a, op, ev, b) && Balanced(sent, gone, who, QueueOf(a, who))
    ensures Balanced(sent + SentBy(op, ev), gone + GoneBy(ev), who, QueueOf(b, who))
  {
    if op.SendOp? {
      SendBalanced(a, op, ev, b, who, sent, gone);
      assert gone + [] == gone;
    } else {
      assert sent + [] == sent;
      var p, q := QueueOf(a, who), QueueOf(b, who);
      if op.cur in a.tasks {
        match op
        case ReceiveOp(cur) => ReceiveRemoved(a, cur, ev.o, ev.info, ev.dropped, ev.taken, b, who);
        case ActionOp(cur, signum, act) => ActionRemoved(a, cur, signum, act, ev.status, ev.out, b, who);
        case MaskOp(_, _, _) =>
      }
      GoneSome(sent, gone, who, p, GoneBy(ev), q);
    }
  }

  // ---------------------------------------------------------------- runs

  ghost predicate Steps(ops: seq<Op>, events: seq<Event>, trace: seq<Space>)
    requires |events| <= |ops| && |trace| == |events| + 1
  {
    forall k {:trigger Effect(trace[k], ops[k], events[k], trace[k + 1])} ::
      0 <= k < |events| ==> Effect(trace[k], ops[k], events[k], trace[k + 1])
  }

  /** The states and events that the calls lead through, from a new address space on. */
  ghost predicate Trace(ids: set<Id>, ops: seq<Op>, events: seq<Event>, trace: seq<Space>) {
    && |events| == |ops| && |trace| == |ops| + 1 && trace[0] == Initial(ids) && Steps(ops, events, trace)
  }

  /**
    At `who`, for every signal, what has gone is what was sent first, in the same order, and what is queued is the
    rest; a real-time signal is pending exactly if something is left.
   */
  ghost predicate Conserved(sent: seq<Entry>, gone: seq<Entry>, who: Who, p: Pending) {
    forall s: nat :: 0 < s <= NUM_SIGNALS ==>
      && LogOf(sent, who, s) == LogOf(gone, who, s) + Of(p.list, s) && LogOf(gone, who, s) <= LogOf(sent, who, s)
      && (s >= SIGRTMIN ==> (Has(p.sigset, s) <==> LogOf(gone, who, s) != LogOf(sent, who, s)))
  }

  lemma OneLonger(ops: seq<Op>, events: seq<Event>, n: nat)
    requires n < |ops| == |events|
    ensures SentIn(ops[..n + 1], events[..n + 1]) == SentIn(ops[..n], events[..n]) + SentBy(ops[n], events[n])
    ensures GoneIn(events[..n + 1]) == GoneIn(events[..n]) + GoneBy(events[n])
  {
    assert ops[..n + 1][..n] == ops[..n] && events[..n + 1][..n] == events[..n];
  }

  /** The books are balanced after every call of every run. */
  lemma {:induction false} TraceBalanced(ids: set<Id>, ops: seq<Op>, events: seq<Event>, trace: seq<Space>, k: nat,
                                         who: Who)
    requires Trace(ids, ops, events, trace) && k <= |ops|
    ensures Balanced(SentIn(ops[..k], events[..k]), GoneIn(events[..k]), who, QueueOf(trace[k], who))
    decreases k
  {
    if k > 0 {
      var n := k - 1;
      TraceBalanced(ids, ops, events, trace, n, who);
      OneLonger(ops, events, n);
      assert Effect(trace[n], ops[n], events[n], trace[n + 1]);
      EffectBalanced(trace[n], ops[n], events[n], trace[k], who, SentIn(ops[..n], events[..n]), GoneIn(events[..n]));
    }
  }

  lemma TraceConserved(ids: set<Id>, ops: seq<Op>, events: seq<Event>, trace: seq<Space>, k: nat, who: Who)
    requires Trace(ids, ops, events, trace) && k <= |ops| && Good(QueueOf(trace[k], who))
    ensures Conserved(SentIn(ops[..k], events[..k]), GoneIn(events[..k]), who, QueueOf(trace[k], who))
  {
    var sent, gone, p := SentIn(ops[..k], events[..k]), GoneIn(events[..k]), QueueOf(trace[k], who);
    TraceBalanced(ids, ops, events, trace, k, who);
    forall s: nat | 0 < s <= NUM_SIGNALS
      ensures LogOf(sent, who, s) == LogOf(gone, who, s) + Of(p.list, s)
        && (s >= SIGRTMIN ==> (Has(p.sigset, s) <==> LogOf(gone, who, s) != LogOf(sent, who, s)))
    {
      if s >= SIGRTMIN { RealTimePending(p, s); }
    }
  }

  // ---------------------------------------------------------------- standard signals

  /** The signals below the real-time ones have one entry at most. */
  ghost predicate Single(p: Pending) {
    forall s: nat :: 0 < s < SIGRTMIN ==> |Of(p.list, s)| <= 1
  }

  lemma SiftedSingle(p: Pending, blocked: nat, m: nat, info: SigInfo, q: Pending)
    requires Sifted(p, blocked, m, info, q) && Single(p)
    ensures Single(q)
  {
    forall s: nat | 0 < s < SIGRTMIN ensures |Of(q.list, s)| <= 1 {
      assert SiftedAt(p, blocked, m, info, q, s);
    }
  }

  lemma PurgedSingle(p: Pending, k: nat, q: Pending)
    requires Purged(p, k, q) && Single(p)
    ensures Single(q)
  {
    forall s: nat | 0 < s < SIGRTMIN ensures |Of(q.list, s)| <= 1 {
      assert PurgedAt(p, k, q, s);
    }
  }

  lemma SendSingle(a: Space, op: Op, ev: Event, b: Space)
    requires Sane(a) && Effect(a, op, ev, b) && op.SendOp? && Single(a.pending)
    ensures Single(b.pending)
  {
    if op.target == AnyTask && !Refused(a, op.target, op.info.signo, op.memory) {
      forall s: nat | 0 < s < SIGRTMIN ensures |Of(b.pending.list, s)| <= 1 {
        QueueList(a.pending, op.info.signo, op.info, op.memory, s);
        if s == op.info.signo { NotPending(a.pending, s); }
      }
    }
  }

  /** No call queues a standard signal for all twice. */
  lemma EffectSingle(a: Space, op: Op, ev: Event, b: Space)
    requires Sane(a) && Effect(a, op, ev, b) && Single(a.pending)
    ensures Single(b.pending)
  {
    if op.SendOp? {
      SendSingle(a, op, ev, b);
    } else if op.cur in a.tasks {
      match op
      case ReceiveOp(cur) => SiftedSingle(a.pending, a.tasks[cur].blocked, Choose(a, cur).all, ev.info, b.pending);
      case ActionOp(cur, signum, act) =>
        if ev.status == 0 && Ignored(act, signum) { PurgedSingle(a.pending, signum, b.pending); }
      case MaskOp(_, _, _) =>
    }
  }

  lemma {:induction false} TraceSingle(ids: set<Id>, ops: seq<Op>, events: seq<Event>, trace: seq<Space>, k: nat)
    requires Trace(ids, ops, events, trace) && k <= |ops| && forall j :: 0 <= j < k ==> Sane(trace[j])
    ensures Single(trace[k].pending)
    decreases k
  {
    if k > 0 {
      TraceSingle(ids, ops, events, trace, k - 1);
      TraceStep(ids, ops, events, trace, k - 1);
      EffectSingle(trace[k - 1], ops[k - 1], events[k - 1], trace[k]);
    }
  }

  lemma TraceStep(ids: set<Id>, ops: seq<Op>, events: seq<Event>, trace: seq<Space>, n: nat)
    requires Trace(ids, ops, events, trace) && n < |ops|
    ensures Effect(trace[n], ops[n], events[n], trace[n + 1])
  {
  }

  /** A standard signal that is pending for all is not sent again, to nobody, and this is no error. */
  lemma PendingForAll(a: Space, op: Op, ev: Event, b: Space)
    requires Effect(a, op, ev, b) && op.SendOp? && 0 < op.info.signo < SIGRTMIN && Has(a.pending.sigset, op.info.signo)
    ensures b == a && ev == SendEvent(0, false)
  {
  }

  /** Any other is queued, with its details if there is memory: for one task as often as it is sent. */
  lemma QueuedForOne(a: Space, op: Op, ev: Event, b: Space)
    requires Effect(a, op, ev, b) && op.SendOp? && op.target.To? && op.target.id in a.tasks && op.memory
    requires 0 < op.info.signo < SIGRTMIN
    ensures var who, s := Private(op.target.id), op.info.signo;
      Of(QueueOf(b, who).list, s) == Of(QueueOf(a, who).list, s) + if Has(a.pending.sigset, s) then [] else [op.info]
    ensures b.pending == a.pending && op.target.id in b.tasks
  {
    var who := Private(op.target.id);
    QueueList(QueueOf(a, who), op.info.signo, op.info, true, op.info.signo);
  }

  /** Signal 10 sent twice to task 1 of a new address space is queued twice. */
  lemma TwiceToOne(info: SigInfo, a: Space, ev: Event, b: Space, ev': Event, c: Space)
    requires info.signo == 10 && a == Initial({1}) && Effect(a, SendOp(To(1), info, true), ev, b)
      && Effect(b, SendOp(To(1), info, true), ev', c)
    ensures Of(QueueOf(c, Private(1)).list, 10) == [info, info]
  {
    NoneHas(10);
    var op := SendOp(To(1), info, true);
    QueuedForOne(a, op, ev, b);
    QueuedForOne(b, op, ev', c);
    assert QueueOf(a, Private(1)) == NONE;
  }

  // ---------------------------------------------------------------- a first signal

  lemma NoneHas(s: nat)
    requires s > 0
    ensures !Has(0, s) && Of([], s) == []
  {
    TestZero(s - 1);
  }

  lemma FirstPending(info: SigInfo, s: nat)
    requires 0 < info.signo <= NUM_SIGNALS && s > 0
    ensures Has(Queue(NONE, info.signo, info, true).sigset, s) == (s == info.signo)
    ensures Of(Queue(NONE, info.signo, info, true).list, s) == if s == info.signo then [info] else []
  {
    HasAdd(0, info.signo, s);
    NoneHas(s);
    QueueList(NONE, info.signo, info, true, s);
  }

  /** With default actions and an empty mask, the first signal that can be delivered. */
  lemma FirstChoice(p: Pending, actions: seq<Action>, k: nat)
    requires |actions| == NUM_SIGNALS && 0 < k <= NUM_SIGNALS && forall i :: 0 <= i < |actions| ==>
      actions[i] == Action(Default, false)
    ensures First(NONE, 0, actions, 1) == NUM_SIGNALS + 1
    ensures (forall s: nat :: s > 0 ==> Has(p.sigset, s) == (s == k)) ==>
      First(p, 0, actions, 1) == if k in {17, 18, 23, 28} then NUM_SIGNALS + 1 else k
  {
    forall s: nat | s > 0 ensures !Has(0, s) { NoneHas(s); }
    FirstIs(NONE, 0, actions, NUM_SIGNALS + 1);
    if forall s: nat :: s > 0 ==> Has(p.sigset, s) == (s == k) {
      FirstIs(p, 0, actions, if k in {17, 18, 23, 28} then NUM_SIGNALS + 1 else k);
    }
  }

  /** Only signal `info.signo` is pending, and only for all; nothing is blocked and no action has been set. */
  ghost predicate JustSent(b: Space, cur: Id, info: SigInfo) {
    && cur in b.tasks && b.tasks[cur].pending == NONE && b.tasks[cur].blocked == 0
    && 0 < info.signo <= NUM_SIGNALS && b.pending == Queue(NONE, info.signo, info, true)
    && |b.actions| == NUM_SIGNALS && forall i :: 0 <= i < |b.actions| ==> b.actions[i] == Action(Default, false)
  }

  lemma FirstSent(ids: set<Id>, cur: Id, info: SigInfo, ev: Event, b: Space)
    requires cur in ids && 0 < info.signo <= NUM_SIGNALS && Effect(Initial(ids), SendOp(AnyTask, info, true), ev, b)
    ensures JustSent(b, cur, info)
  {
    NoneHas(info.signo);
  }

  lemma FirstChosen(b: Space, cur: Id, info: SigInfo)
    requires JustSent(b, cur, info)
    ensures Choose(b, cur) == Choice(NUM_SIGNALS + 1,
      if info.signo in {17, 18, 23, 28} then NUM_SIGNALS + 1 else info.signo)
  {
    forall s: nat | s > 0 ensures Has(b.pending.sigset, s) == (s == info.signo) {
      FirstPending(info, s);
    }
    FirstChoice(b.pending, b.actions, info.signo);
  }

  /**
    In a new address space, a signal sent to all ends the first task that looks for one, unless it is one of SIGCHLD,
    SIGCONT, SIGURG and SIGWINCH, which are dropped. Either way it is no longer pending.
   */
  lemma FirstSignal(ids: set<Id>, cur: Id, info: SigInfo, ev: Event, b: Space, ev': Event, c: Space)
    requires cur in ids && 0 < info.signo <= NUM_SIGNALS
    requires Effect(Initial(ids), SendOp(AnyTask, info, true), ev, b) && Effect(b, ReceiveOp(cur), ev', c)
    ensures ev'.ReceiveEvent? && ev'.o == if info.signo in {17, 18, 23, 28} then Nothing else Exit(info.signo)
    ensures ev'.o.Exit? ==> ev'.info == info && ev'.taken == [Entry(Shared, info)]
    ensures ev'.o.Nothing? ==> ev'.taken == [] && LogOf(ev'.dropped, Shared, info.signo) == [info]
    ensures !Has(c.pending.sigset, info.signo)
  {
    FirstSent(ids, cur, info, ev, b);
    FirstReceived(b, cur, info, ev', c);
  }

  lemma FirstReceived(b: Space, cur: Id, info: SigInfo, ev: Event, c: Space)
    requires JustSent(b, cur, info) && Effect(b, ReceiveOp(cur), ev, c)
    ensures ev.ReceiveEvent? && ev.o == if info.signo in {17, 18, 23, 28} then Nothing else Exit(info.signo)
    ensures ev.o.Exit? ==> ev.info == info && ev.taken == [Entry(Shared, info)]
    ensures ev.o.Nothing? ==> ev.taken == [] && LogOf(ev.dropped, Shared, info.signo) == [info]
    ensures !Has(c.pending.sigset, info.signo)
  {
    var k := info.signo;
    NoneHas(k);
    FirstChosen(b, cur, info);
    FirstPending(info, k);
    var ch := Choose(b, cur);
    assert SiftedAt(b.pending, b.tasks[cur].blocked, ch.all, ev.info, c.pending, k);
    assert LogOf(ev.dropped, Shared, k) == LostBy(b, cur, ch, Shared, k);
  }

  /** After `k` calls. */
  ghost predicate Kept(ops: seq<Op>, events: seq<Event>, trace: seq<Space>, k: nat)
    requires |ops| == |events| && |trace| == |ops| + 1 && k <= |ops|
  {
    Sane(trace[k]) && Single(trace[k].pending) && forall who ::
      Conserved(SentIn(ops[..k], events[..k]), GoneIn(events[..k]), who, QueueOf(trace[k], who))
  }

  /**
    All calls, in turn, on a new address space. Each has its effect, and after each the state is sound and the details
    that were sent have gone or are queued, in order.
   */
  method Run(ids: set<Id>, ops: seq<Op>) returns (a: Aspace, ghost events: seq<Event>, ghost trace: seq<Space>)
    ensures fresh(a) && Trace(ids, ops, events, trace) && a.Now() == trace[|ops|]
    ensures forall k: nat :: k <= |ops| ==> Kept(ops, events, trace, k)
  {
    a := new Aspace(ids);
    events, trace := [], [a.Now()];
    for k := 0 to |ops|
      invariant fresh(a) && a.Valid() && |events| == k && |trace| == k + 1
      invariant trace[0] == Initial(ids) && trace[k] == a.Now() && Steps(ops, events, trace)
      invariant forall j :: 0 <= j <= k ==> Sane(trace[j])
    {
      ghost var ev := Step(a, ops[k]);
      OneMore(ops, events, trace, ev, a.Now());
      events, trace := events + [ev], trace + [a.Now()];
    }
    forall k: nat | k <= |ops| ensures Kept(ops, events, trace, k) {
      TraceSingle(ids, ops, events, trace, k);
      forall who ensures Conserved(SentIn(ops[..k], events[..k]), GoneIn(events[..k]), who, QueueOf(trace[k], who)) {
        EmptyGood();
        TraceConserved(ids, ops, events, trace, k, who);
      }
    }
  }

  lemma OneMore(ops: seq<Op>, events: seq<Event>, trace: seq<Space>, ev: Event, b: Space)
    requires |events| < |ops| && |trace| == |events| + 1 && Steps(ops, events, trace)
    requires Effect(trace[|events|], ops[|events|], ev, b)
    ensures Steps(ops, events + [ev], trace + [b])
  {
    var events', trace' := events + [ev], trace + [b];
    forall k | 0 <= k < |events'| ensures Effect(trace'[k], ops[k], events'[k], trace'[k + 1]) {
      if k < |events| { assert Effect(trace[k], ops[k], events[k], trace[k + 1]); }
    }
  }
}
