/**
  Radix trees of lib/radix-tree.c: nodes with 64 slots, a count and two rows of tag bits, updated
  in place. A node stands at a place, given by its height and the digits that lead to it; what
  each slot and tag bit must be is said place by place, in terms of the set of stored indices and
  the sets of tagged ones. While an operation moves along the path of its index, the levels it
  has dealt with agree with the new sets and the others with the old ones.
 */
module RadixShape {
  import opened RadixIndex

  /** The address of a node, or of a stored item; address 0 is the null pointer. */
  type Ptr = nat

  const NULL: Ptr := 0

  datatype Node = Node(count: nat, slots: seq<Ptr>, tags: seq<seq<bool>>)

  type Mem = map<Ptr, Node>

  function Blank(): (n: Node)
    ensures |n.slots| == MAP_SIZE && |n.tags| == 2 && |n.tags[0]| == MAP_SIZE && |n.tags[1]| == MAP_SIZE && n.count == 0
    ensures forall i :: 0 <= i < MAP_SIZE ==> n.slots[i] == NULL
    ensures forall i :: 0 <= i < MAP_SIZE ==> !n.tags[0][i]
    ensures forall i :: 0 <= i < MAP_SIZE ==> !n.tags[1][i]
  {
    var none := seq(MAP_SIZE, i => false);
    Node(0, seq(MAP_SIZE, i => NULL), [none, none])
  }

  /** The number of slots in use. */
  ghost function InUse(slots: seq<Ptr>): nat {
    if |slots| == 0 then 0 else InUse(slots[..|slots| - 1]) + if slots[|slots| - 1] != NULL then 1 else 0
  }

  // ---------------------------------------------------------------- places

  /** A place: everything below it has the digits `pre` in front of its last `h` digits. */
  datatype Label = Label(h: nat, pre: nat)

  const NOWHERE := Label(0, 0)

  /** Some index of `s` lies below the place. */
  ghost predicate Any(s: set<nat>, h: nat, pre: nat) {
    exists k :: k in s && Up(k, h) == pre
  }

  /** A set of indices that is `lo` as seen from heights below `split`, and `hi` from there on. */
  datatype View = View(split: nat, lo: set<nat>, hi: set<nat>)

  ghost function See(v: View, c: nat): set<nat> {
    if c < v.split then v.lo else v.hi
  }

  /**
    What the nodes are to agree with: their places, the items, the stored and the tagged indices,
    and a place whose node has just been freed, if any.
   */
  datatype World = World(at: map<Ptr, Label>, vals: map<nat, Ptr>, keys: View, tags0: View, tags1: View, hole: Label)

  ghost predicate Below(v: View, c: nat, pre: nat) {
    Any(See(v, c), c, pre)
  }

  /** A pointer, with its two tag bits, to the place of height `c` and digits `pre`. */
  ghost predicate LinkOk(w: World, ptr: Ptr, b0: bool, b1: bool, c: nat, pre: nat) {
    && (ptr != NULL <==> Below(w.keys, c, pre))
    && (b0 <==> Below(w.tags0, c, pre))
    && (b1 <==> Below(w.tags1, c, pre))
    && (ptr != NULL ==> TargetOk(w, ptr, c, pre))
  }

  ghost predicate TargetOk(w: World, ptr: Ptr, c: nat, pre: nat) {
    if c == 0 then pre in w.vals && w.vals[pre] == ptr
    else Label(c, pre) == w.hole || (ptr in w.at && w.at[ptr] == Label(c, pre))
  }

  ghost predicate Shaped(n: Node) {
    && |n.slots| == MAP_SIZE && |n.tags| == 2 && |n.tags[0]| == MAP_SIZE && |n.tags[1]| == MAP_SIZE
    && n.count == InUse(n.slots)
  }

  ghost predicate EntryOk(w: World, n: Node, lab: Label, i: nat)
    requires Shaped(n) && i < MAP_SIZE && lab.h >= 1
  {
    LinkOk(w, n.slots[i], n.tags[0][i], n.tags[1][i], lab.h - 1, lab.pre * MAP_SIZE + i)
  }

  ghost predicate NodeOk(w: World, n: Node, lab: Label) {
    Shaped(n) && lab.h >= 1 && forall i {:trigger EntryOk(w, n, lab, i)} :: 0 <= i < MAP_SIZE ==> EntryOk(w, n, lab, i)
  }

  ghost predicate PlaceOk(w: World, mem: Mem, p: Ptr, height: nat)
    requires p in mem
  {
    && p != NULL && p in w.at && 1 <= w.at[p].h <= height
    && NodeOk(w, mem[p], w.at[p]) && Below(w.keys, w.at[p].h, w.at[p].pre)
  }

  ghost predicate Unique(at: map<Ptr, Label>) {
    forall p, q {:trigger at[p], at[q]} :: p in at && q in at && at[p] == at[q] ==> p == q
  }

  ghost predicate NodesOk(w: World, mem: Mem, height: nat) {
    && mem.Keys == w.at.Keys && Unique(w.at)
    && forall p {:trigger PlaceOk(w, mem, p, height)} :: p in mem ==> PlaceOk(w, mem, p, height)
  }

  /** All indices fit the height. */
  ghost predicate Fit(s: set<nat>, height: nat) {
    forall k :: k in s ==> Up(k, height) == 0
  }

  ghost function Whole(s: set<nat>): View {
    View(0, s, s)
  }

  ghost function Settled(at: map<Ptr, Label>, items: map<nat, Ptr>, t0: set<nat>, t1: set<nat>): World {
    World(at, items, Whole(items.Keys), Whole(t0), Whole(t1), NOWHERE)
  }

  /** The height is the least that fits. */
  ghost predicate Minimal(s: set<nat>, height: nat) {
    height > 0 ==> exists k :: k in s && Up(k, height - 1) != 0
  }

  ghost predicate Sets(items: map<nat, Ptr>, t0: set<nat>, t1: set<nat>) {
    && (forall k :: k in items ==> k < U64 && items[k] != NULL)
    && t0 <= items.Keys && t1 <= items.Keys
  }

  ghost predicate Fresh(mem: Mem, brk: Ptr) {
    brk != NULL && forall p :: p in mem ==> p < brk
  }

  /** The fields of a tree agree with the map and the sets of tagged indices it stands for. */
  ghost predicate Good(mem: Mem, rnode: Ptr, height: nat, b0: bool, b1: bool, brk: Ptr, at: map<Ptr, Label>,
                       items: map<nat, Ptr>, t0: set<nat>, t1: set<nat>) {
    && Sets(items, t0, t1) && Fresh(mem, brk) && height <= MAX_HEIGHT && Fit(items.Keys, height)
    && NodesOk(Settled(at, items, t0, t1), mem, height) && LinkOk(Settled(at, items, t0, t1), rnode, b0, b1, height, 0)
  }

  class RadixRoot {
    var mem: Mem
    var rnode: Ptr
    var height: nat
    var tag0: bool
    var tag1: bool
    /** The allocator: addresses from here on are free. */
    var brk: Ptr
    ghost var at: map<Ptr, Label>
    /** The map that the tree stands for, and which of its indices are tagged. */
    ghost var items: map<nat, Ptr>
    ghost var tagged0: set<nat>
    ghost var tagged1: set<nat>

    ghost function Here(): World
      reads this
    {
      Settled(at, items, tagged0, tagged1)
    }

    /** Everything but the least height. */
    ghost predicate Consistent()
      reads this
    {
      Good(mem, rnode, height, tag0, tag1, brk, at, items, tagged0, tagged1)
    }

    ghost predicate Valid()
      reads this
    {
      Consistent() && Minimal(items.Keys, height)
    }

    ghost function Tagged(tag: nat): set<nat>
      reads this
    {
      if tag == 0 then tagged0 else tagged1
    }

    constructor ()
      ensures Valid() && items == map[] && tagged0 == {} && tagged1 == {}
    {
      mem, rnode, height, tag0, tag1, brk := map[], NULL, 0, false, false, 1;
      at, items, tagged0, tagged1 := map[], map[], {}, {};
    }
  }

  // ---------------------------------------------------------------- following a link

  /** The slot of a placed node that leads towards `k` is a good link to the next place of `k`. */
  lemma StepDown(w: World, mem: Mem, height: nat, p: Ptr, k: nat, h: nat)
    requires NodesOk(w, mem, height) && p in mem && h >= 1 && w.at[p] == Label(h, Up(k, h))
    ensures Shaped(mem[p])
    ensures var n, i := mem[p], Offset(k, h); LinkOk(w, n.slots[i], n.tags[0][i], n.tags[1][i], h - 1, Up(k, h - 1))
  {
    assert PlaceOk(w, mem, p, height);
    assert EntryOk(w, mem[p], w.at[p], Offset(k, h));
  }

  /** `__lookup_slot` and `radix_tree_lookup`, lines 254-311. */
  method Lookup(r: RadixRoot, index: nat) returns (item: Ptr)
    requires r.Valid() && index < U64
    ensures item == if index in r.items then r.items[index] else NULL
  {
    ghost var w := r.Here();
    MaxIndexIs(index, r.height);
    if index > MaxIndex(r.height) {
      return NULL;
    }
    var slot, h := r.rnode, r.height;
    ghost var b0, b1 := r.tag0, r.tag1;
    while h > 0
      invariant LinkOk(w, slot, b0, b1, h, Up(index, h))
    {
      if slot == NULL {
        NothingBelow(r.items.Keys, index, h);
        return NULL;
      }
      StepDown(w, r.mem, r.height, slot, index, h);
      var i := SlotFor(index, h);
      b0, b1 := r.mem[slot].tags[0][i], r.mem[slot].tags[1][i];
      slot, h := r.mem[slot].slots[i], h - 1;
    }
    item := slot;
    AnyItself(r.items.Keys, index);
  }

  lemma NothingBelow(s: set<nat>, k: nat, h: nat)
    requires !Any(s, h, Up(k, h))
    ensures k !in s
  {
  }

  lemma AnyItself(s: set<nat>, k: nat)
    ensures Any(s, 0, k) <==> k in s
  {
    if k in s { assert Up(k, 0) == k; }
  }
}
