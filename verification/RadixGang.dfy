/** The gang lookups of lib/radix-tree.c: the next items, or tagged items, in ascending order of index. */
module RadixGang {
  import opened Bits
  import opened RadixIndex
  import opened RadixShape
  import opened RadixTags

  // ---------------------------------------------------------------- skipping

  /** The first index after the subtree of height `c` that `index` lies in. */
  function After(index: nat, c: nat): nat
    requires Low(index, 6 * c) <= index
  {
    index - Low(index, 6 * c) + Pow2(6 * c)
  }

  lemma AfterIs(index: nat, c: nat)
    requires Low(index, 6 * c) <= index
    ensures After(index, c) > index && Up(After(index, c), c) == Up(index, c) + 1
    ensures forall k :: index <= k < After(index, c) ==> Up(k, c) == Up(index, c)
  {
    var m, p, q := 6 * c, Pow2(6 * c), Shr(index, 6 * c);
    ShrLow(index, m);
    UpIsShift(index, c);
    Distribute(q, 1, p);
    assert After(index, c) == (q + 1) * p + 0;
    ShrUnique(After(index, c), m, q + 1, 0);
    UpIsShift(After(index, c), c);
    forall k | index <= k < After(index, c) ensures Up(k, c) == Up(index, c) {
      ShrUnique(k, m, q, k - q * p);
      UpIsShift(k, c);
    }
  }

  /** Subtrees do not straddle the end of the index space. */
  lemma AfterBound(index: nat, c: nat)
    requires index < U64 && 6 * c <= 64 && Low(index, 6 * c) <= index
    ensures After(index, c) <= U64
  {
    var m, n := 6 * c, 64 - 6 * c;
    Pow2Of64(64);
    Pow2Add(n, m);
    ShrLow(index, m);
    MulBound(Shr(index, m), Pow2(n), Pow2(m), Low(index, m));
    Distribute(Shr(index, m), 1, Pow2(m));
  }

  lemma MulBound(q: nat, n: nat, p: nat, r: nat)
    requires q * p + r < n * p
    ensures (q + 1) * p <= n * p
  {
    if q >= n {
      Distribute(n, q - n, p);
      assert false;
    }
    Distribute(q + 1, n - (q + 1), p);
    assert (n - (q + 1)) * p >= 0;
  }

  // ---------------------------------------------------------------- what a lookup finds

  /** No index of `s` from `a` up to `b`. */
  ghost predicate NoneIn(s: set<nat>, a: nat, b: nat) {
    forall k :: k in s ==> !(a <= k < b)
  }

  ghost predicate Ascending(keys: seq<nat>) {
    forall i, j :: 0 <= i < j < |keys| ==> keys[i] < keys[j]
  }

  /** `keys` are the indices of `s` from `a` up to `b`, in ascending order. */
  ghost predicate Lists(s: set<nat>, a: nat, b: nat, keys: seq<nat>) {
    && Ascending(keys)
    && (forall j :: 0 <= j < |keys| ==> keys[j] in s && a <= keys[j] < b)
    && (forall k :: k in s && a <= k < b ==> k in keys)
  }

  /** `found` are the items stored under `keys`. */
  ghost predicate Holds(items: map<nat, Ptr>, keys: seq<nat>, found: seq<Ptr>) {
    |found| == |keys| && forall j :: 0 <= j < |keys| ==> keys[j] in items && found[j] == items[keys[j]]
  }

  lemma ListsNone(s: set<nat>, a: nat, b: nat)
    requires NoneIn(s, a, b)
    ensures Lists(s, a, b, [])
  {
  }

  lemma ListsNext(s: set<nat>, a: nat, b: nat, keys: seq<nat>)
    requires Lists(s, a, b, keys) && a <= b
    ensures Lists(s, a, b + 1, if b in s then keys + [b] else keys)
  {
    var keys' := if b in s then keys + [b] else keys;
    forall k | k in s && a <= k < b + 1 ensures k in keys' {
      if k != b { assert k in keys; }
    }
  }

  lemma ListsJoin(s: set<nat>, a: nat, b: nat, c: nat, keys: seq<nat>, more: seq<nat>)
    requires Lists(s, a, b, keys) && Lists(s, b, c, more) && a <= b <= c
    ensures Lists(s, a, c, keys + more)
  {
    var all := keys + more;
    forall k | k in s && a <= k < c ensures k in all {
      if k < b { assert k in keys; } else { assert k in more; }
    }
  }

  // ---------------------------------------------------------------- levels

  /** All items, or those with a tag. */
  datatype Kind = Present | Marked(tag: nat)

  ghost predicate KindOk(kind: Kind) {
    kind.Marked? ==> kind.tag < 2
  }

  /** The indices that a lookup is after. */
  ghost function Wanted(kind: Kind, items: map<nat, Ptr>, t0: set<nat>, t1: set<nat>): set<nat> {
    match kind
    case Present => items.Keys
    case Marked(tag) => if tag == 0 then t0 else t1
  }

  /** Whether slot `i` leads to one. */
  predicate Leads(n: Node, i: nat, kind: Kind)
    requires i < |n.slots| && (kind.Marked? ==> kind.tag < |n.tags| && i < |n.tags[kind.tag]|)
  {
    match kind
    case Present => n.slots[i] != NULL
    case Marked(tag) => n.tags[tag][i]
  }

  lemma LeadsIs(mem: Mem, height: nat, at: map<Ptr, Label>, items: map<nat, Ptr>, t0: set<nat>, t1: set<nat>, p: Ptr,
                index: nat, h: nat, kind: Kind)
    requires NodesOk(Settled(at, items, t0, t1), mem, height) && p in mem && p in at && h >= 1
      && at[p] == Label(h, Up(index, h)) && KindOk(kind)
    requires t0 <= items.Keys && t1 <= items.Keys
    ensures Shaped(mem[p]) && (Leads(mem[p], Offset(index, h), kind) <==>
      Any(Wanted(kind, items, t0, t1), h - 1, Up(index, h - 1)))
    ensures var ptr := mem[p].slots[Offset(index, h)];
            && (Leads(mem[p], Offset(index, h), kind) ==> ptr != NULL)
            && (ptr != NULL ==> TargetOk(Settled(at, items, t0, t1), ptr, h - 1, Up(index, h - 1)))
  {
    StepDown(Settled(at, items, t0, t1), mem, height, p, index, h);
    if Any(Wanted(kind, items, t0, t1), h - 1, Up(index, h - 1)) {
      var k :| k in Wanted(kind, items, t0, t1) && Up(k, h - 1) == Up(index, h - 1);
      AnyOf(items.Keys, k, h - 1);
    }
  }

  lemma NoneBelow(s: set<nat>, index: nat, c: nat)
    requires !Any(s, c, Up(index, c)) && Low(index, 6 * c) <= index
    ensures NoneIn(s, index, After(index, c))
  {
    AfterIs(index, c);
  }

  /** The sum of 64-bit numbers, where it cannot pass the end of the index space. */
  function Wrap(n: nat): (r: nat)
    requires n <= U64
    ensures r < U64 && (n < U64 ==> r == n)
  {
    if n == U64 then 0 else n
  }

  /** Past a subtree with nothing wanted in it. */
  lemma SkipOne(s: set<nat>, index: nat, next: nat, h: nat)
    requires index <= next < U64 && NoneIn(s, index, next) && 1 <= h <= MAX_HEIGHT && !Any(s, h - 1, Up(next, h - 1))
    ensures Low(next, 6 * (h - 1)) <= next
    ensures next < After(next, h - 1) <= U64 && NoneIn(s, index, After(next, h - 1))
    ensures Offset(next, h) < MAP_SIZE - 1 ==>
      Up(After(next, h - 1), h) == Up(next, h) && Offset(After(next, h - 1), h) == Offset(next, h) + 1
  {
    LowBelow(next, 6 * (h - 1));
    AfterIs(next, h - 1);
    AfterBound(next, h - 1);
    NoneBelow(s, next, h - 1);
  }

  /** A node of height `h` above `index`. */
  ghost predicate NodeAbove(r: RadixRoot, p: Ptr, h: nat, index: nat)
    reads r
  {
    p in r.mem && p in r.at && 1 <= h <= MAX_HEIGHT && r.at[p] == Label(h, Up(index, h)) && Shaped(r.mem[p])
  }

  ghost function Goal(r: RadixRoot, kind: Kind): set<nat>
    reads r
  {
    Wanted(kind, r.items, r.tagged0, r.tagged1)
  }

  method Probe(r: RadixRoot, p: Ptr, h: nat, index: nat, kind: Kind) returns (leads: bool)
    requires r.Valid() && KindOk(kind) && NodeAbove(r, p, h, index)
    ensures leads <==> Any(Goal(r, kind), h - 1, Up(index, h - 1))
  {
    LeadsIs(r.mem, r.height, r.at, r.items, r.tagged0, r.tagged1, p, index, h, kind);
    var i := SlotFor(index, h);
    leads := Leads(r.mem[p], i, kind);
  }

  /**
    Lines 502-512 and 594-605: along the slots of a node to the first that leads to one; without one, `next`
    is 0 beyond the last index.
   */
  method SkipTo(r: RadixRoot, p: Ptr, h: nat, index: nat, kind: Kind) returns (found: bool, next: nat)
    requires r.Valid() && KindOk(kind) && index < U64 && NodeAbove(r, p, h, index)
    ensures next < U64 && NoneIn(Goal(r, kind), index, if next == 0 && !found then U64 else next)
    ensures found ==> index <= next && NodeAbove(r, p, h, next) && Any(Goal(r, kind), h - 1, Up(next, h - 1))
    ensures !found ==> next == 0 || index < next
  {
    var i := SlotFor(index, h);
    next := index;
    while i < MAP_SIZE
      invariant 0 <= i <= MAP_SIZE && index <= next < U64 && NoneIn(Goal(r, kind), index, next)
      invariant if i < MAP_SIZE then Up(next, h) == Up(index, h) && Offset(next, h) == i else index < next
    {
      var leads := Probe(r, p, h, next, kind);
      if leads {
        return true, next;
      }
      next := NextSlot(Goal(r, kind), index, next, h);
      if next == 0 {
        return false, 0;
      }
      i := i + 1;
    }
    found := false;
  }

  /** Lines 506-509 and 599-602: the first index under the next slot, or 0 beyond the last one. */
  method NextSlot(ghost s: set<nat>, ghost index: nat, at: nat, h: nat) returns (next: nat)
    requires index <= at < U64 && NoneIn(s, index, at) && 1 <= h <= MAX_HEIGHT && !Any(s, h - 1, Up(at, h - 1))
    ensures next < U64 && NoneIn(s, index, if next == 0 then U64 else next) && (next == 0 || at < next)
    ensures next != 0 && Offset(at, h) < MAP_SIZE - 1 ==>
      Up(next, h) == Up(at, h) && Offset(next, h) == Offset(at, h) + 1
  {
    SkipOne(s, index, at, h);
    next := Wrap(After(at, h - 1));
  }

  /** The wanted indices from `a` up to `b`, and the items stored under them. */
  ghost predicate Collected(s: set<nat>, items: map<nat, Ptr>, a: nat, b: nat, keys: seq<nat>, found: seq<Ptr>) {
    Lists(s, a, b, keys) && Holds(items, keys, found)
  }

  lemma GrabStep(s: set<nat>, items: map<nat, Ptr>, index: nat, k: nat, keys: seq<nat>, found: seq<Ptr>, ptr: Ptr,
                 k': nat, keys': seq<nat>, found': seq<Ptr>)
    requires Collected(s, items, index, k, keys, found) && index <= k && k' == k + 1
    requires if k in s then k in items && ptr == items[k] && keys' == keys + [k] && found' == found + [ptr]
      else keys' == keys && found' == found
    ensures Collected(s, items, index, k', keys', found')
  {
    ListsNext(s, index, k, keys);
  }

  method BottomProbe(r: RadixRoot, p: Ptr, index: nat, i: nat, ghost k: nat, kind: Kind) returns (leads: bool, ptr: Ptr)
    requires r.Valid() && KindOk(kind) && index < U64 && NodeAbove(r, p, 1, index) && i < MAP_SIZE
      && k == Up(index, 1) * MAP_SIZE + i
    ensures k < U64 && (leads <==> k in Goal(r, kind)) && (leads ==> ptr != NULL && k in r.items && ptr == r.items[k])
  {
    BottomSlot(r, p, index, k, i, kind);
    leads, ptr := Leads(r.mem[p], i, kind), r.mem[p].slots[i];
  }

  /** Lines 518-526 and 607-618: items from a bottom node. */
  method Grab(r: RadixRoot, p: Ptr, index: nat, max: nat, kind: Kind)
    returns (found: seq<Ptr>, ghost keys: seq<nat>, next: nat, ghost end: nat)
    requires r.Valid() && KindOk(kind) && index < U64 && max >= 1 && NodeAbove(r, p, 1, index)
    ensures index < end <= U64 && next == Wrap(end) && |found| <= max
    ensures Collected(Goal(r, kind), r.items, index, end, keys, found)
  {
    var i := SlotFor(index, 1);
    found, keys, next, end := [], [], index, index;
    while i < MAP_SIZE
      invariant Offset(index, 1) <= i <= MAP_SIZE && index <= end <= U64 && next == Wrap(end) && |found| < max
      invariant end == Up(index, 1) * MAP_SIZE + i && (i == Offset(index, 1) || index < end)
      invariant Collected(Goal(r, kind), r.items, index, end, keys, found)
    {
      var leads, ptr := BottomProbe(r, p, index, i, end, kind);
      ghost var keys0, found0 := keys, found;
      if leads {
        found, keys := found + [ptr], keys + [end];
      }
      GrabStep(Goal(r, kind), r.items, index, end, keys0, found0, ptr, end + 1, keys, found);
      end := end + 1;
      next := Wrap(next + 1);
      if leads && |found| == max {
        return;
      }
      i := i + 1;
    }
  }

  lemma BottomSlot(r: RadixRoot, p: Ptr, index: nat, k: nat, i: nat, kind: Kind)
    requires r.Valid() && KindOk(kind) && index < U64 && p in r.mem && p in r.at && r.at[p] == Label(1, Up(index, 1))
    requires i < MAP_SIZE && k == Up(index, 1) * MAP_SIZE + i
    ensures k < U64 && Shaped(r.mem[p]) && (Leads(r.mem[p], i, kind) <==>
      k in Wanted(kind, r.items, r.tagged0, r.tagged1))
    ensures Leads(r.mem[p], i, kind) ==> r.mem[p].slots[i] != NULL && k in r.items && r.mem[p].slots[i] == r.items[k]
  {
    assert Up(k, 0) == k && Up(k, 1) == Up(index, 1) && Offset(k, 1) == i;
    LeadsIs(r.mem, r.height, r.at, r.items, r.tagged0, r.tagged1, p, k, 1, kind);
    AnyItself(Wanted(kind, r.items, r.tagged0, r.tagged1), k);
  }

  /** One level down, towards `index`. */
  method Down(r: RadixRoot, p: Ptr, h: nat, index: nat, kind: Kind) returns (q: Ptr)
    requires r.Valid() && KindOk(kind) && NodeAbove(r, p, h, index) && h > 1
      && Any(Goal(r, kind), h - 1, Up(index, h - 1))
    ensures NodeAbove(r, q, h - 1, index)
  {
    LeadsIs(r.mem, r.height, r.at, r.items, r.tagged0, r.tagged1, p, index, h, kind);
    var i := SlotFor(index, h);
    q := r.mem[p].slots[i];
    assert PlaceOk(r.Here(), r.mem, q, r.height);
  }

  lemma RootAbove(r: RadixRoot, index: nat)
    requires r.Valid() && r.height > 0 && Up(index, r.height) == 0
    ensures NodeAbove(r, r.rnode, r.height, index)
  {
    var k :| k in r.items.Keys && Up(k, r.height - 1) != 0;
    AnyOf(r.items.Keys, k, r.height);
    assert PlaceOk(r.Here(), r.mem, r.rnode, r.height);
  }

  lemma CollectedLater(s: set<nat>, items: map<nat, Ptr>, a: nat, b: nat, c: nat, keys: seq<nat>, found: seq<Ptr>)
    requires NoneIn(s, a, b) && Collected(s, items, b, c, keys, found) && a <= b <= c
    ensures Collected(s, items, a, c, keys, found)
  {
    ListsNone(s, a, b);
    ListsJoin(s, a, b, c, [], keys);
    assert [] + keys == keys;
  }

  /** A tree that is only an item, or empty. */
  lemma OnlyItem(r: RadixRoot)
    requires r.Valid() && r.height == 0
    ensures r.rnode != NULL ==>
      0 in r.items && r.items[0] == r.rnode && Collected(r.items.Keys, r.items, 0, U64, [0], [r.rnode])
    ensures r.rnode == NULL ==> Collected(r.items.Keys, r.items, 0, U64, [], [])
  {
    AnyItself(r.items.Keys, 0);
    assert forall k :: k in r.items ==> Up(k, 0) == k;
  }

  /** What one scan has found: the wanted items from `index` up to `end`. */
  ghost predicate Scanned(r: RadixRoot, kind: Kind, index: nat, max: nat, found: seq<Ptr>, keys: seq<nat>, next: nat,
                          end: nat)
    reads r
  {
    index < end <= U64 && next == Wrap(end) && |found| <= max
      && Collected(Goal(r, kind), r.items, index, end, keys, found)
  }

  /** `__lookup`, lines 481-530. */
  method Scan(r: RadixRoot, index: nat, max: nat)
    returns (found: seq<Ptr>, ghost keys: seq<nat>, next: nat, ghost end: nat)
    requires r.Valid() && index < U64 && max >= 1 && Up(index, r.height) == 0
    ensures Scanned(r, Present, index, max, found, keys, next, end)
  {
    found, keys, next, end := [], [], index, U64;
    if r.height == 0 {
      OnlyItem(r);
      if r.rnode != NULL && index == 0 {
        found, keys := [r.rnode], [0];
      }
      return;
    }
    RootAbove(r, index);
    var p, h := r.rnode, r.height;
    while h > 1
      invariant 1 <= h && NodeAbove(r, p, h, next) && index <= next < U64 && NoneIn(r.items.Keys, index, next)
    {
      var ok, next' := SkipTo(r, p, h, next, Present);
      if !ok {
        ListsNone(r.items.Keys, index, if next' == 0 then U64 else next');
        next, end := next', if next' == 0 then U64 else next';
        return;
      }
      next := next';
      p := Down(r, p, h, next, Present);
      h := h - 1;
    }
    ghost var from := next;
    found, keys, next, end := Grab(r, p, next, max, Present);
    CollectedLater(r.items.Keys, r.items, index, from, end, keys, found);
  }

  lemma OnlyMarked(r: RadixRoot, tag: nat)
    requires r.Valid() && r.height == 0 && tag < 2 && r.Tagged(tag) != {}
    ensures r.rnode != NULL && Collected(r.Tagged(tag), r.items, 0, U64, [0], [r.rnode])
  {
    OnlyItem(r);
    var k :| k in r.Tagged(tag);
    assert forall k :: k in r.items ==> Up(k, 0) == k;
    assert k == 0;
    AnyItself(r.items.Keys, 0);
  }

  /** `__lookup_tag`, lines 573-626, in a tree with the tag. */
  method ScanTag(r: RadixRoot, index: nat, max: nat, tag: nat)
    returns (found: seq<Ptr>, ghost keys: seq<nat>, next: nat, ghost end: nat)
    requires r.Valid() && index < U64 && max >= 1 && Up(index, r.height) == 0 && tag < 2 && r.Tagged(tag) != {}
    ensures Scanned(r, Marked(tag), index, max, found, keys, next, end)
  {
    found, keys, next, end := [], [], index, U64;
    if r.height == 0 {
      OnlyMarked(r, tag);
      if r.rnode != NULL && index == 0 {
        found, keys := [r.rnode], [0];
      }
      return;
    }
    var ok, p, from := Descend(r, index, tag);
    if !ok {
      ListsNone(r.Tagged(tag), index, if from == 0 then U64 else from);
      next, end := from, if from == 0 then U64 else from;
      return;
    }
    found, keys, next, end := Grab(r, p, from, max, Marked(tag));
    CollectedLater(r.Tagged(tag), r.items, index, from, end, keys, found);
  }

  /** Lines 588-606: down to the lowest node with a tagged slot; without one, `next` is where to go on, or 0. */
  method Descend(r: RadixRoot, index: nat, tag: nat) returns (ok: bool, p: Ptr, next: nat)
    requires r.Valid() && index < U64 && Up(index, r.height) == 0 && tag < 2 && r.height > 0
    ensures next < U64 && NoneIn(r.Tagged(tag), index, if next == 0 && !ok then U64 else next)
    ensures if ok then index <= next && NodeAbove(r, p, 1, next) else next == 0 || index < next
  {
    RootAbove(r, index);
    var h := r.height;
    p, next := r.rnode, index;
    while true
      invariant 1 <= h && NodeAbove(r, p, h, next) && index <= next < U64 && NoneIn(r.Tagged(tag), index, next)
      decreases h
    {
      ok, next := SkipFrom(r, p, h, index, next, tag);
      if !ok || h == 1 {
        return;
      }
      p := Down(r, p, h, next, Marked(tag));
      h := h - 1;
    }
  }

  /** `SkipTo`, when everything from `index` on has been skipped. */
  method SkipFrom(r: RadixRoot, p: Ptr, h: nat, ghost index: nat, at: nat, tag: nat) returns (found: bool, next: nat)
    requires r.Valid() && tag < 2 && index <= at < U64 && NodeAbove(r, p, h, at) && NoneIn(r.Tagged(tag), index, at)
    ensures next < U64 && NoneIn(r.Tagged(tag), index, if next == 0 && !found then U64 else next)
    ensures found ==> index <= next && NodeAbove(r, p, h, next) && Any(r.Tagged(tag), h - 1, Up(next, h - 1))
    ensures !found ==> next == 0 || index < next
  {
    found, next := SkipTo(r, p, h, at, Marked(tag));
  }

  // ---------------------------------------------------------------- gangs

  /** `keys` are the first `max` indices of `s` from `first` on, in ascending order. */
  ghost predicate FirstOf(s: set<nat>, first: nat, max: nat, keys: seq<nat>) {
    && Ascending(keys) && |keys| <= max
    && (forall j :: 0 <= j < |keys| ==> keys[j] in s && first <= keys[j])
    && (forall k :: k in s && first <= k ==>
      k in keys || (|keys| == max && forall j :: 0 <= j < |keys| ==> keys[j] < k))
  }

  lemma CollectedFirst(s: set<nat>, items: map<nat, Ptr>, first: nat, end: nat, max: nat, keys: seq<nat>,
                       found: seq<Ptr>)
    requires Collected(s, items, first, end, keys, found) && |found| <= max
    requires |found| == max || forall k :: k in s ==> k < end
    ensures FirstOf(s, first, max, keys)
  {
    forall k | k in s && first <= k
      ensures k in keys || (|keys| == max && forall j :: 0 <= j < |keys| ==> keys[j] < k) {
      if k < end { assert k in keys; }
    }
  }

  lemma CollectedJoin(s: set<nat>, items: map<nat, Ptr>, a: nat, b: nat, c: nat, keys: seq<nat>, found: seq<Ptr>,
                      keys': seq<nat>, found': seq<Ptr>)
    requires Collected(s, items, a, b, keys, found) && Collected(s, items, b, c, keys', found') && a <= b <= c
    ensures Collected(s, items, a, c, keys + keys', found + found')
  {
    ListsJoin(s, a, b, c, keys, keys');
  }

  lemma WantedFit(r: RadixRoot, kind: Kind, cur: nat)
    requires r.Valid() && KindOk(kind) && cur > MaxIndex(r.height)
    ensures forall k :: k in Goal(r, kind) ==> k < cur
  {
    forall k | k in Goal(r, kind) ensures k < cur {
      assert k in r.items;
      MaxIndexIs(k, r.height);
    }
  }

  /** `radix_tree_gang_lookup`, lines 545-567, and `radix_tree_gang_lookup_tag`, lines 641-668. */
  method GangLookup(r: RadixRoot, first: nat, max: nat, kind: Kind) returns (found: seq<Ptr>, ghost keys: seq<nat>)
    requires r.Valid() && first < U64 && KindOk(kind)
    ensures FirstOf(Goal(r, kind), first, max, keys) && Holds(r.items, keys, found)
  {
    found, keys := [], [];
    if kind.Marked? {
      var any := IsTagged(r, kind.tag);
      if !any {
        return;
      }
    }
    var cur := first;
    ghost var end := first;
    while |found| < max
      invariant first <= end <= U64 && cur == end < U64 && |found| <= max
        && Collected(Goal(r, kind), r.items, first, end, keys, found)
      decreases U64 - cur
    {
      if cur > MaxIndex(r.height) {
        WantedFit(r, kind, cur);
        break;
      }
      ghost var was := end;
      var more, next;
      ghost var moreKeys;
      MaxIndexIs(cur, r.height);
      if kind.Present? {
        more, moreKeys, next, end := Scan(r, cur, max - |found|);
      } else {
        more, moreKeys, next, end := ScanTag(r, cur, max - |found|, kind.tag);
      }
      CollectedJoin(Goal(r, kind), r.items, first, was, end, keys, found, moreKeys, more);
      found, keys := found + more, keys + moreKeys;
      if next == 0 {
        break;
      }
      cur := next;
    }
    CollectedFirst(Goal(r, kind), r.items, first, end, max, keys, found);
  }
}
