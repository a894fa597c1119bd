/** The operations of kernel/signal.c on the signals of one address space. */
module SignalSpace {
  import opened BitWords
  import opened SigSet
  import opened SigPending
  import opened Signals
  import opened SignalEffects
  import opened SignalSift

  class Aspace {
    var pending: Pending
    var tasks: Tasks
    var actions: seq<Action>

    ghost predicate Valid()
      reads this
    {
      Sane(Now())
    }

    ghost function Now(): Space
      reads this
    {
      Space(pending, tasks, actions)
    }

    /** An address space with tasks that have nothing pending and block nothing. */
    constructor (ids: set<Id>)
      ensures Valid() && Now() == Initial(ids)
    {
      pending := NONE;
      tasks := map id | id in ids :: Task(NONE, 0, false);
      actions := seq(NUM_SIGNALS, _ => Action(Default, false));
      new;
      EmptyGood();
    }

    // ---------------------------------------------------------------- sending

    /** `sigsend`, lines 191-276, without the wake-up of sleeping tasks. */
    method SigSend(target: Target, signum: int, info: SigInfo, memory: bool) returns (status: int, ghost queued: bool)
      requires Valid() && info.signo == signum
      modifies this
      ensures Valid() && SendEffect(old(Now()), target, signum, info, memory, status, queued, Now())
    {
      queued := false;
      if !(1 <= signum <= NUM_SIGNALS) {
        return -EINVAL, false;
      }
      if signum < SIGRTMIN && Has(pending.sigset, signum) {
        return 0, false;
      }
      if target.To? && target.id !in tasks {
        return -ESRCH, false;
      }
      if !memory && signum >= SIGRTMIN {
        return -EAGAIN, false;
      }
      if target.To? {
        var t := tasks[target.id];
        QueueGood(t.pending, signum, info, memory);
        tasks := tasks[target.id := t.(pending := Queue(t.pending, signum, info, memory), flag := true)];
      } else {
        QueueGood(pending, signum, info, memory);
        pending := Queue(pending, signum, info, memory);
        tasks := FlagAll(tasks);
      }
      status, queued := 0, memory;
    }

    // ---------------------------------------------------------------- receiving

    /** Line 336: the next signal of the task. */
    method TakeMine(cur: Id) returns (signum: nat, info: SigInfo, ghost out: seq<Entry>)
      requires Valid() && cur in tasks
      modifies this`tasks
      ensures Valid() && OnlyPending(old(tasks), tasks, cur)
      ensures TakenFrom(old(tasks[cur].pending), tasks[cur].blocked, Private(cur), signum, info, tasks[cur].pending,
        out)
    {
      var q: Pending;
      var mine := tasks[cur].pending;
      signum, info, q := Dequeue(mine, tasks[cur].blocked);
      out := if signum == 0 then [] else Out(Private(cur), mine, signum, info);
      tasks := tasks[cur := tasks[cur].(pending := q)];
    }

    /** Line 338: the next signal of all. */
    method TakeShared(cur: Id) returns (signum: nat, info: SigInfo, ghost out: seq<Entry>)
      requires Valid() && cur in tasks
      modifies this`pending
      ensures Valid() && TakenFrom(old(pending), tasks[cur].blocked, Shared, signum, info, pending, out)
    {
      var q: Pending;
      signum, info, q := Dequeue(pending, tasks[cur].blocked);
      out := if signum == 0 then [] else Out(Shared, pending, signum, info);
      pending := q;
    }

    /** Lines 336-340: the next signal, of the task first and then of all. */
    method TakeNext(cur: Id) returns (signum: nat, info: SigInfo, ghost out: seq<Entry>)
      requires Valid() && cur in tasks
      modifies this`pending, this`tasks
      ensures Valid() && OnlyPending(old(tasks), tasks, cur)
      ensures NextTaken(old(tasks[cur].pending), old(pending), tasks[cur].blocked, cur, signum, info,
        tasks[cur].pending, pending, out)
    {
      signum, info, out := TakeMine(cur);
      if signum == 0 {
        signum, info, out := TakeShared(cur);
      }
    }

    /** Lines 333-368: signals are taken until one is not ignored. */
    method NextSignal(cur: Id) returns (signum: nat, info: SigInfo, ghost dropped: seq<Entry>, ghost taken: seq<Entry>)
      requires Valid() && cur in tasks
      modifies this`pending, this`tasks
      ensures Valid() && OnlyPending(old(tasks), tasks, cur)
      ensures Received(old(Now()), cur, signum, info, dropped, taken, tasks[cur].pending, pending)
    {
      dropped, taken := [], [];
      ghost var a, t := Now(), tasks[cur];
      ghost var m, n := 0, 0;
      Start(a, cur);
      while true
        invariant Valid() && OnlyPending(old(tasks), tasks, cur) && a == old(Now()) && cur in a.tasks
        invariant Underway(a, cur, m, n, tasks[cur].pending, pending, dropped)
        decreases |tasks[cur].pending.list| + |pending.list|, tasks[cur].pending.sigset + pending.sigset
      {
        ghost var mine, all := tasks[cur].pending, pending;
        signum, info, taken := TakeNext(cur);
        if signum == 0 || !Ignored(actions[signum - 1], signum) {
          Finish(a, cur, m, n, mine, all, dropped, signum, info, tasks[cur].pending, pending, taken);
          return;
        }
        m, n := More(a, cur, m, n, mine, all, dropped, signum, info, tasks[cur].pending, pending, taken);
        dropped := dropped + taken;
      }
    }

    /** `sigdequeue`, lines 323-379 */
    method SigDequeue(cur: Id)
      returns (o: Outcome, info: SigInfo, ghost dropped: seq<Entry>, ghost taken: seq<Entry>)
      requires Valid() && cur in tasks
      modifies this
      ensures Valid() && ReceiveEffect(old(Now()), cur, o, info, dropped, taken, Now())
    {
      var signum;
      signum, info, dropped, taken := NextSignal(cur);
      o := Deliver(signum, info);
      if !o.Exit? {
        ClearFlag(cur);
      }
    }

    /** Lines 346-366: what becomes of a signal that is not ignored. */
    method Deliver(signum: nat, info: SigInfo) returns (o: Outcome)
      requires Valid() && signum <= NUM_SIGNALS && (signum > 0 ==> !Ignored(actions[signum - 1], signum))
      modifies this`actions
      ensures Valid() && Delivered(o, signum, info, old(actions), actions)
    {
      if signum == 0 {
        return Nothing;
      }
      var sa := actions[signum - 1];
      if sa.handler == Default {
        return Exit(signum);
      }
      o := Handle(signum, info, sa);
      if sa.oneShot {
        actions := actions[signum - 1 := sa.(handler := Default)];
      }
    }

    /** Lines 370-373: the flag is cleared when nothing is pending any more. */
    method ClearFlag(cur: Id)
      requires Valid() && cur in tasks
      modifies this`tasks
      ensures Valid() && var clear := pending.sigset == 0 && old(tasks[cur].pending.sigset) == 0;
        tasks == if clear then old(tasks)[cur := old(tasks[cur]).(flag := false)] else old(tasks)
    {
      if pending.sigset == 0 && tasks[cur].pending.sigset == 0 {
        tasks := tasks[cur := tasks[cur].(flag := false)];
      }
    }

    // ---------------------------------------------------------------- changing actions and masks

    /** Lines 154-158: discarding a signal everywhere. */
    method Discard(k: nat) returns (ghost out: seq<Entry>)
      requires Valid() && 0 < k <= NUM_SIGNALS
      modifies this`pending, this`tasks
      ensures Valid() && Purged(old(pending), k, pending) && tasks.Keys == old(tasks.Keys)
      ensures forall id :: id in tasks ==> PurgedTask(old(tasks[id]), k, tasks[id])
      ensures PurgedLog(old(Now()), k, out)
    {
      ghost var a := Now();
      ghost var some := DiscardShared(k);
      ghost var more := DiscardTasks(k);
      out := some + more;
      PurgedAll(a, k, some, more);
    }

    /** Lines 157-158 */
    method DiscardTasks(k: nat) returns (ghost out: seq<Entry>)
      requires Valid() && 0 < k <= NUM_SIGNALS
      modifies this`tasks
      ensures Valid() && Swept(old(tasks), tasks, {}, k) && LogSwept(old(tasks), {}, k, out)
    {
      out := [];
      ghost var was := tasks;
      var todo := tasks.Keys;
      while todo != {}
        invariant Valid() && todo <= tasks.Keys && was == old(tasks)
        invariant Swept(was, tasks, todo, k) && LogSwept(was, todo, k, out)
        decreases todo
      {
        var id :| id in todo;
        ghost var before := tasks;
        ghost var more := DiscardTask(id, k);
        SweptMore(was, before, tasks, todo, k, out, id, more);
        out := out + more;
        todo := todo - {id};
      }
    }

    /** Line 154 */
    method DiscardShared(k: nat) returns (ghost out: seq<Entry>)
      requires Valid() && 0 < k <= NUM_SIGNALS
      modifies this`pending
      ensures Valid() && Purged(old(pending), k, pending) && LogFrom(old(pending), Shared, k, out)
    {
      var found, q := Remove(pending, Add(0, k));
      out := Dropped(Shared, pending.list, Add(0, k));
      StrippedOne(pending, Shared, k, q);
      pending := q;
    }

    /** One round of lines 157-158. */
    method DiscardTask(id: Id, k: nat) returns (ghost out: seq<Entry>)
      requires Valid() && id in tasks && 0 < k <= NUM_SIGNALS
      modifies this`tasks
      ensures Valid() && OnlyPending(old(tasks), tasks, id)
        && Purged(old(tasks[id].pending), k, tasks[id].pending) && LogFrom(old(tasks[id].pending), Private(id), k, out)
    {
      var p := tasks[id].pending;
      var found, q := Remove(p, Add(0, k));
      out := Dropped(Private(id), p.list, Add(0, k));
      StrippedOne(p, Private(id), k, q);
      tasks := tasks[id := tasks[id].(pending := q)];
    }

    /** `sigaction`, lines 112-166, with a new action. */
    method SigAction(cur: Id, signum: int, act: Action) returns (status: int, ghost out: seq<Entry>)
      requires Valid() && cur in tasks
      modifies this
      ensures Valid() && ActionEffect(old(Now()), cur, signum, act, status, out, Now())
    {
      out := [];
      if !(1 <= signum <= NUM_SIGNALS) {
        return -EINVAL, [];
      }
      if AndNot(pending.sigset, tasks[cur].blocked) != 0 || AndNot(tasks[cur].pending.sigset, tasks[cur].blocked) != 0 {
        return -ERESTARTNOINTR, [];
      }
      actions := actions[signum - 1 := act];
      if Ignored(act, signum) {
        out := Discard(signum);
      }
      status := 0;
    }

    /** `sigprocmask`, lines 54-89: `how` is 0 to block, 1 to unblock and 2 to replace. */
    method SigProcMask(cur: Id, how: int, set': nat) returns (status: int)
      requires Valid() && cur in tasks
      modifies this
      ensures Valid() && MaskEffect(old(Now()), cur, how, set', status, Now())
    {
      var b := tasks[cur].blocked;
      if how == 0 {
        b := Or(b, set');
      } else if how == 1 {
        b := AndNot(b, set');
      } else if how == 2 {
        b := set';
      } else {
        return -EINVAL;
      }
      forall s: nat | s > 0 ensures Has(b, s) == Masked(how, Has(tasks[cur].blocked, s), Has(set', s)) {
        TestOr(tasks[cur].blocked, set', s - 1);
        TestAndNot(tasks[cur].blocked, set', s - 1);
      }
      tasks := tasks[cur := tasks[cur].(blocked := b)];
      status := 0;
    }
  }

  /** Nothing is pending or blocked, and all actions are the default ones. */
  function Initial(ids: set<Id>): Space {
    Space(NONE, map id | id in ids :: Task(NONE, 0, false), seq(NUM_SIGNALS, _ => Action(Default, false)))
  }

  lemma EmptyGood()
    ensures Good(NONE)
  {
    forall s: nat | s > 0 ensures !Has(0, s) { TestZero(s - 1); }
  }

  /** Only what is pending for `cur` has changed. */
  ghost predicate OnlyPending(t0: Tasks, t1: Tasks, cur: Id) {
    && cur in t0 && t1.Keys == t0.Keys && t1[cur].blocked == t0[cur].blocked && t1[cur].flag == t0[cur].flag
    && forall id :: id in t0 && id != cur ==> t1[id] == t0[id]
  }

  // ---------------------------------------------------------------- the loop

  /** The next unblocked signal has been taken: the least one of the task, or else the least one of all. */
  ghost predicate NextTaken(mine: Pending, all: Pending, blocked: nat, cur: Id, signum: nat, info: SigInfo,
                            mine': Pending, all': Pending, out: seq<Entry>) {
    if GetNext(mine.sigset, blocked) != 0 then
      all' == all && TakenFrom(mine, blocked, Private(cur), signum, info, mine', out)
    else mine' == mine && TakenFrom(all, blocked, Shared, signum, info, all', out)
  }

  /** No entry is from any other queue than those the task looks at. */
  ghost predicate FromTwo(log: seq<Entry>, cur: Id) {
    forall who, s: nat :: s > 0 && who != Private(cur) && who != Shared ==> LogOf(log, who, s) == []
  }

  /** Signals up to `m` of the task and up to `n` of all have been dropped. */
  ghost predicate Underway(a: Space, cur: Id, m: nat, n: nat, mine: Pending, all: Pending, dropped: seq<Entry>)
    requires cur in a.tasks
  {
    var t := a.tasks[cur];
    && Sifting(t.pending, mine, t.blocked, a.actions, m) && Sifting(a.pending, all, t.blocked, a.actions, n)
    && Removed(dropped, Private(cur), t.pending, mine) && Removed(dropped, Shared, a.pending, all)
    && FromTwo(dropped, cur) && (all != a.pending ==> GetNext(mine.sigset, t.blocked) == 0)
  }

  lemma Start(a: Space, cur: Id)
    requires cur in a.tasks
    ensures Underway(a, cur, 0, 0, a.tasks[cur].pending, a.pending, [])
  {
    var t := a.tasks[cur];
    Untouched(t.pending, t.blocked, a.actions);
    Untouched(a.pending, t.blocked, a.actions);
    RemovedElsewhere([], Shared, Private(cur), t.pending);
    RemovedElsewhere([], Private(cur), Shared, a.pending);
  }

  lemma OutOnly(who: Who, p: Pending, k: nat, info: SigInfo, q: Pending, cur: Id)
    requires k > 0 && Taken(p, k, info, q) && (who == Shared || who == Private(cur))
    ensures var out := Out(who, p, k, info);
      && OnlyFrom(out, who) && Removed(out, who, p, q) && FromTwo(out, cur)
  {
    TakenOut(who, p, k, info, q);
    var out := Out(who, p, k, info);
    forall other, s: nat | s > 0 && other != Private(cur) && other != Shared ensures LogOf(out, other, s) == [] {
      OnlyFromLog(out, who, other, s);
    }
  }

  lemma FromTwoMore(log: seq<Entry>, more: seq<Entry>, cur: Id)
    requires FromTwo(log, cur) && FromTwo(more, cur)
    ensures FromTwo(log + more, cur)
  {
    forall who, s: nat | s > 0 && who != Private(cur) && who != Shared ensures LogOf(log + more, who, s) == [] {
      LogConcat(log, more, who, s);
    }
  }

  /** An ignored signal has been taken. */
  lemma More(a: Space, cur: Id, m: nat, n: nat, mine: Pending, all: Pending, dropped: seq<Entry>, signum: nat,
             info: SigInfo, mine': Pending, all': Pending, out: seq<Entry>) returns (m': nat, n': nat)
    requires cur in a.tasks && |a.actions| == NUM_SIGNALS && Good(mine) && Good(all)
    requires Underway(a, cur, m, n, mine, all, dropped) && signum > 0
    requires NextTaken(mine, all, a.tasks[cur].blocked, cur, signum, info, mine', all', out)
    requires Ignored(a.actions[signum - 1], signum)
    ensures Underway(a, cur, m', n', mine', all', dropped + out)
    ensures Less(mine', all', mine, all)
  {
    var t := a.tasks[cur];
    m', n' := m, n;
    if GetNext(mine.sigset, t.blocked) != 0 {
      m' := signum;
      SiftMore(t.pending, mine, t.blocked, a.actions, m, signum, info, mine');
      OutOnly(Private(cur), mine, signum, info, mine', cur);
      RemovedElsewhere(out, Private(cur), Shared, all);
    } else {
      n' := signum;
      SiftMore(a.pending, all, t.blocked, a.actions, n, signum, info, all');
      OutOnly(Shared, all, signum, info, all', cur);
      RemovedElsewhere(out, Shared, Private(cur), mine);
    }
    RemovedMore(dropped, out, Private(cur), t.pending, mine, mine');
    RemovedMore(dropped, out, Shared, a.pending, all, all');
    FromTwoMore(dropped, out, cur);
  }

  /** What the loop has done in the end. */
  ghost predicate Received(a: Space, cur: Id, signum: nat, info: SigInfo, dropped: seq<Entry>, taken: seq<Entry>,
                           mine: Pending, all: Pending) {
    && cur in a.tasks && |a.actions| == NUM_SIGNALS
    && var t, c := a.tasks[cur], Choose(a, cur);
      && signum == c.Signum() && (signum > 0 ==> !Ignored(a.actions[signum - 1], signum))
      && Sifted(t.pending, t.blocked, c.mine, info, mine) && Sifted(a.pending, t.blocked, c.all, info, all)
      && taken == TakenBy(a, cur, c, info) && DroppedBy(a, cur, c, dropped)
  }

  lemma Finish(a: Space, cur: Id, m: nat, n: nat, mine: Pending, all: Pending, dropped: seq<Entry>, signum: nat,
               info: SigInfo, mine': Pending, all': Pending, out: seq<Entry>)
    requires cur in a.tasks && |a.actions| == NUM_SIGNALS && Good(mine) && Good(all)
    requires Underway(a, cur, m, n, mine, all, dropped)
    requires NextTaken(mine, all, a.tasks[cur].blocked, cur, signum, info, mine', all', out)
    requires signum > 0 ==> !Ignored(a.actions[signum - 1], signum)
    ensures Received(a, cur, signum, info, dropped, out, mine', all')
  {
    var t := a.tasks[cur];
    if GetNext(mine.sigset, t.blocked) != 0 {
      SiftDone(t.pending, mine, t.blocked, a.actions, m, Private(cur), signum, info, mine', out, dropped);
      SiftNot(all, t.blocked, info, Shared, dropped);
    } else {
      SiftDone(t.pending, mine, t.blocked, a.actions, m, Private(cur), 0, info, mine', [], dropped);
      SiftDone(a.pending, all, t.blocked, a.actions, n, Shared, signum, info, all', out, dropped);
    }
    var c := Choose(a, cur);
    forall who, s: nat | s > 0 ensures LogOf(dropped, who, s) == LostBy(a, cur, c, who, s) {
    }
  }

  /** The termination measure of the dequeue loop: queued details, then pending bits. */
  ghost predicate Less(mine': Pending, all': Pending, mine: Pending, all: Pending) {
    var n', n := |mine'.list| + |all'.list|, |mine.list| + |all.list|;
    n' < n || (n' == n && mine'.sigset + all'.sigset < mine.sigset + all.sigset)
  }

  // ---------------------------------------------------------------- discarding

  /** The entries of signal `k` in `p`. */
  ghost predicate LogFrom(p: Pending, who: Who, k: nat, out: seq<Entry>) {
    forall other, s: nat :: s > 0 ==> LogOf(out, other, s) == if other == who && s == k then Of(p.list, s) else []
  }

  lemma StrippedOne(p: Pending, who: Who, k: nat, q: Pending)
    requires 0 < k <= NUM_SIGNALS && Stripped(p, Add(0, k), q)
    ensures Purged(p, k, q) && LogFrom(p, who, k, Dropped(who, p.list, Add(0, k)))
  {
    OnlySignal(k);
    forall s: nat | s > 0 ensures PurgedAt(p, k, q, s) {
      assert Has(Add(0, k), s) == (s == k);
      assert Has(q.sigset, s) == (Has(p.sigset, s) && !Has(Add(0, k), s));
    }
    forall other, s: nat | s > 0
      ensures LogOf(Dropped(who, p.list, Add(0, k)), other, s) == if other == who && s == k then Of(p.list, s) else []
    {
      LogDropped(who, p.list, Add(0, k), other, s);
    }
  }

  lemma OnlySignal(signum: nat)
    requires 0 < signum <= NUM_SIGNALS
    ensures forall s: nat :: s > 0 ==> Has(Add(0, signum), s) == (s == signum)
  {
    forall s: nat | s > 0 ensures Has(Add(0, signum), s) == (s == signum) {
      HasAdd(0, signum, s);
      TestZero(s - 1);
    }
  }

  /** Signal `k` has been discarded for all tasks but those still to do. */
  ghost predicate Swept(t0: Tasks, t1: Tasks, todo: set<Id>, k: nat) {
    && t1.Keys == t0.Keys
    && forall id :: id in t0 ==> if id in todo then t1[id] == t0[id] else PurgedTask(t0[id], k, t1[id])
  }

  ghost function SweptLog(tasks: Tasks, todo: set<Id>, k: nat, who: Who, s: nat): seq<SigInfo> {
    if who.Private? && who.id in tasks && who.id !in todo && s == k then Of(tasks[who.id].pending.list, s) else []
  }

  ghost predicate LogSwept(tasks: Tasks, todo: set<Id>, k: nat, out: seq<Entry>) {
    forall who, s: nat :: s > 0 ==> LogOf(out, who, s) == SweptLog(tasks, todo, k, who, s)
  }

  lemma SweptMore(t0: Tasks, t1: Tasks, t2: Tasks, todo: set<Id>, k: nat, out: seq<Entry>, id: Id, more: seq<Entry>)
    requires Swept(t0, t1, todo, k) && LogSwept(t0, todo, k, out) && id in todo && id in t0
    requires OnlyPending(t1, t2, id) && Purged(t1[id].pending, k, t2[id].pending)
    requires LogFrom(t1[id].pending, Private(id), k, more)
    ensures Swept(t0, t2, todo - {id}, k) && LogSwept(t0, todo - {id}, k, out + more)
  {
    forall who, s: nat | s > 0 ensures LogOf(out + more, who, s) == SweptLog(t0, todo - {id}, k, who, s) {
      LogConcat(out, more, who, s);
    }
  }

  lemma PurgedAll(a: Space, k: nat, some: seq<Entry>, more: seq<Entry>)
    requires LogFrom(a.pending, Shared, k, some) && LogSwept(a.tasks, {}, k, more)
    ensures PurgedLog(a, k, some + more)
  {
    forall who, s: nat | s > 0
      ensures LogOf(some + more, who, s) == if s == k then Of(QueueOf(a, who).list, s) else []
    {
      LogConcat(some, more, who, s);
      assert LogOf(more, who, s) == SweptLog(a.tasks, {}, k, who, s);
    }
  }
}
