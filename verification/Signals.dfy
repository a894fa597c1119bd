/**
  Signals of an address space, kernel/signal.c: what is sent is queued with the address space or with one task, and
  taken out, or discarded, once and in order. Here are the state and the histories of what was sent and what has gone.
 */
module Signals {
  import opened SigSet
  import opened SigPending

  type Id = nat

  const SIGCHLD: nat := 17
  const SIGCONT: nat := 18
  const SIGURG: nat := 23
  const SIGWINCH: nat := 28

  const EINVAL: int := 22
  const ESRCH: int := 3
  const EAGAIN: int := 11
  const ERESTARTNOINTR: int := 513

  datatype Handler = Ignore | Default | Call(address: nat)

  /** `struct sigaction`: the handler and whether it is reset when it is called. */
  datatype Action = Action(handler: Handler, oneShot: bool)

  /** The signal state of a task: what is pending for it alone, what it blocks and its pending flag. */
  datatype Task = Task(pending: Pending, blocked: nat, flag: bool)

  /** Where a signal is queued. */
  datatype Who = Shared | Private(id: Id)

  datatype Entry = Entry(who: Who, info: SigInfo)

  /** Signals that are ignored by default. */
  predicate IgnoredByDefault(s: nat) {
    s == SIGCHLD || s == SIGCONT || s == SIGURG || s == SIGWINCH
  }

  predicate Ignored(a: Action, s: nat) {
    a.handler == Ignore || (a.handler == Default && IgnoredByDefault(s))
  }

  // ---------------------------------------------------------------- histories

  /** The entries for signal `s` at `who`, in order. */
  function LogOf(log: seq<Entry>, who: Who, s: nat): seq<SigInfo> {
    if log == [] then []
    else
      var e := log[|log| - 1];
      LogOf(log[..|log| - 1], who, s) + if e.who == who && e.info.signo == s then [e.info] else []
  }

  lemma {:induction false} LogConcat(a: seq<Entry>, b: seq<Entry>, who: Who, s: nat)
    ensures LogOf(a + b, who, s) == LogOf(a, who, s) + LogOf(b, who, s)
    decreases |b|
  {
    if b == [] {
      assert a + b == a;
    } else {
      var n := |b| - 1;
      assert (a + b)[..|a| + n] == a + b[..n];
      LogConcat(a, b[..n], who, s);
    }
  }

  lemma LogOne(e: Entry, who: Who, s: nat)
    ensures LogOf([e], who, s) == if e.who == who && e.info.signo == s then [e.info] else []
  {
    assert [e][..0] == [];
  }

  /** Everything sent to `who` is gone or still queued, in the order in which it was sent. */
  ghost predicate Balanced(sent: seq<Entry>, gone: seq<Entry>, who: Who, p: Pending) {
    forall s: nat :: s > 0 ==> LogOf(sent, who, s) == LogOf(gone, who, s) + Of(p.list, s)
  }

  /** More has been sent. */
  lemma SentSome(sent: seq<Entry>, gone: seq<Entry>, who: Who, p: Pending, more: seq<Entry>, q: Pending)
    requires Balanced(sent, gone, who, p)
    requires forall s: nat :: s > 0 ==> Of(q.list, s) == Of(p.list, s) + LogOf(more, who, s)
    ensures Balanced(sent + more, gone, who, q)
  {
    forall s: nat | s > 0 ensures LogOf(sent + more, who, s) == LogOf(gone, who, s) + Of(q.list, s) {
      LogConcat(sent, more, who, s);
      var a, b, c := LogOf(gone, who, s), Of(p.list, s), LogOf(more, who, s);
      assert a + b + c == a + (b + c);
    }
  }

  /** The entries that taking or discarding removed from `p`, leaving `q`. */
  ghost predicate Removed(out: seq<Entry>, who: Who, p: Pending, q: Pending) {
    forall s: nat :: s > 0 ==> Of(p.list, s) == LogOf(out, who, s) + Of(q.list, s)
  }

  lemma GoneSome(sent: seq<Entry>, gone: seq<Entry>, who: Who, p: Pending, out: seq<Entry>, q: Pending)
    requires Balanced(sent, gone, who, p) && Removed(out, who, p, q)
    ensures Balanced(sent, gone + out, who, q)
  {
    forall s: nat | s > 0 ensures LogOf(sent, who, s) == LogOf(gone + out, who, s) + Of(q.list, s) {
      LogConcat(gone, out, who, s);
      var a, b, c := LogOf(gone, who, s), LogOf(out, who, s), Of(q.list, s);
      assert a + (b + c) == a + b + c;
    }
  }

  /** The entry that goes when signal `k` is taken; details that were never queued leave no entry. */
  function Out(who: Who, p: Pending, k: nat, info: SigInfo): seq<Entry> {
    if Of(p.list, k) == [] then [] else [Entry(who, info)]
  }

  lemma TakenOut(who: Who, p: Pending, k: nat, info: SigInfo, q: Pending)
    requires k > 0 && Taken(p, k, info, q)
    ensures Removed(Out(who, p, k, info), who, p, q)
  {
    var out := Out(who, p, k, info);
    forall s: nat | s > 0 ensures Of(p.list, s) == LogOf(out, who, s) + Of(q.list, s) {
      if s != k { assert SameAt(p, q, s); }
      if Of(p.list, k) != [] {
        LogOne(Entry(who, info), who, s);
        if s == k { assert Of(p.list, k) == [Of(p.list, k)[0]] + Of(p.list, k)[1..]; }
      }
    }
  }

  lemma RemovedMore(out: seq<Entry>, more: seq<Entry>, who: Who, p: Pending, q: Pending, r: Pending)
    requires Removed(out, who, p, q) && Removed(more, who, q, r)
    ensures Removed(out + more, who, p, r)
  {
    forall s: nat | s > 0 ensures Of(p.list, s) == LogOf(out + more, who, s) + Of(r.list, s) {
      LogConcat(out, more, who, s);
      var a, b, c := LogOf(out, who, s), LogOf(more, who, s), Of(r.list, s);
      assert a + (b + c) == a + b + c;
    }
  }

  /** Entries that left `who` and nobody else. */
  ghost predicate OnlyFrom(out: seq<Entry>, who: Who) {
    forall k :: 0 <= k < |out| ==> out[k].who == who
  }

  lemma {:induction false} OnlyFromLog(out: seq<Entry>, who: Who, other: Who, s: nat)
    requires OnlyFrom(out, who) && other != who
    ensures LogOf(out, other, s) == []
  {
    if out != [] { OnlyFromLog(out[..|out| - 1], who, other, s); }
  }

  lemma RemovedElsewhere(out: seq<Entry>, who: Who, other: Who, p: Pending)
    requires OnlyFrom(out, who) && other != who
    ensures Removed(out, other, p, p)
  {
    forall s: nat | s > 0 ensures LogOf(out, other, s) == [] { OnlyFromLog(out, who, other, s); }
  }

  /** What discarding the signals of `set'` removes. */
  function Dropped(who: Who, list: seq<SigInfo>, set': nat): seq<Entry> {
    if list == [] then []
    else
      var x := list[|list| - 1];
      Dropped(who, list[..|list| - 1], set') + if x.signo > 0 && Has(set', x.signo) then [Entry(who, x)] else []
  }

  lemma {:induction false} LogDropped(who: Who, list: seq<SigInfo>, set': nat, other: Who, s: nat)
    requires s > 0
    ensures LogOf(Dropped(who, list, set'), other, s) == if other == who && Has(set', s) then Of(list, s) else []
  {
    if list != [] {
      var n := |list| - 1;
      LogDropped(who, list[..n], set', other, s);
      LogConcat(Dropped(who, list[..n], set'), [Entry(who, list[n])], other, s);
      LogOne(Entry(who, list[n]), other, s);
      assert Dropped(who, list[..n], set') + [] == Dropped(who, list[..n], set');
    }
  }

  // ---------------------------------------------------------------- the state

  type Tasks = map<Id, Task>

  /** What is pending for all, the tasks, and the actions. */
  datatype Space = Space(pending: Pending, tasks: Tasks, actions: seq<Action>)

  ghost predicate AllGood(pending: Pending, tasks: Tasks) {
    Good(pending) && forall id :: id in tasks ==> Good(tasks[id].pending)
  }

  /** A task for which something is pending has its flag set. */
  ghost predicate Flagged(pending: Pending, tasks: Tasks) {
    forall id :: id in tasks && (pending.sigset != 0 || tasks[id].pending.sigset != 0) ==> tasks[id].flag
  }

  ghost predicate Sane(a: Space) {
    AllGood(a.pending, a.tasks) && Flagged(a.pending, a.tasks) && |a.actions| == NUM_SIGNALS
  }

  ghost function QueueOf(a: Space, who: Who): Pending {
    match who
    case Shared => a.pending
    case Private(id) => if id in a.tasks then a.tasks[id].pending else NONE
  }

  /** The pending flag of every task is set. */
  function FlagAll(tasks: Tasks): (r: Tasks)
    ensures r.Keys == tasks.Keys && forall id :: id in tasks ==> r[id] == tasks[id].(flag := true)
  {
    map id | id in tasks :: tasks[id].(flag := true)
  }
}
