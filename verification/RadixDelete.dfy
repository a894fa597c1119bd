/** Deleting from a radix tree and lowering it. */
module RadixDelete {
  import opened RadixIndex
  import opened RadixShape
  import opened RadixUpdate
  import opened RadixTags
  import opened RadixInsert

  /** What the nodes agree with when the path of `index` has been taken apart up to height `split`. */
  ghost function Deleting(at: map<Ptr, Label>, items: map<nat, Ptr>, index: nat, split: nat, t0: set<nat>,
                          t1: set<nat>, hole: Label): World {
    World(at, items, View(split, items.Keys - {index}, items.Keys), Whole(t0), Whole(t1), hole)
  }

  function ClearSlot(n: Node, i: nat): Node
    requires i < |n.slots| && n.count > 0
  {
    n.(slots := n.slots[i := NULL], count := n.count - 1)
  }

  lemma ClearDiffers(n: Node, i: nat)
    requires Shaped(n) && i < MAP_SIZE && n.slots[i] != NULL
    ensures n.count > 0 && DiffersAt(n, ClearSlot(n, i), i)
  {
    InUseUpdate(n.slots, i, NULL);
  }

  /** The place of a freed node on the path of `index`, at height `c`. */
  ghost function FreedAt(index: nat, c: nat): Label {
    if c == 0 then NOWHERE else Label(c, Up(index, c))
  }

  lemma DeleteMoves(at: map<Ptr, Label>, items: map<nat, Ptr>, index: nat, c: nat, t0: set<nat>, t1: set<nat>,
                    height: nat)
    requires c > 0 ==> Vacant(at, Label(c, Up(index, c)))
    requires forall q {:trigger at[q]} :: q in at ==> at[q].h >= 1
    ensures var w, w' := Deleting(at, items, index, c, t0, t1, FreedAt(index, c)),
      Deleting(at, items, index, c + 1, t0, t1, NOWHERE);
      AgreeBut(w, w', height, c, Up(index, c)) && PlacesUsed(w, w')
  {
    var w, w' := Deleting(at, items, index, c, t0, t1, FreedAt(index, c)),
      Deleting(at, items, index, c + 1, t0, t1, NOWHERE);
    NearRemove(items.Keys, index);
    forall d: nat, x: nat | !(d == c && x == Up(index, c)) ensures PlaceSame(w, w', d, x) {
      assert Below(w.keys, d, x) <==> Below(w'.keys, d, x);
    }
    forall q | q in at && Below(w.keys, at[q].h, at[q].pre) ensures Below(w'.keys, at[q].h, at[q].pre) {
      assert PlaceSame(w, w', at[q].h, at[q].pre);
    }
  }

  lemma ClearedEntry(w: World, w': World, n: Node, lab: Label, i: nat)
    requires Shaped(n) && lab.h >= 1 && i < MAP_SIZE && EntryOk(w, n, lab, i) && n.slots[i] != NULL
    requires w'.tags0 == w.tags0 && w'.tags1 == w.tags1 && !Below(w'.keys, lab.h - 1, lab.pre * MAP_SIZE + i)
    ensures n.count > 0 && Shaped(ClearSlot(n, i)) && EntryOk(w', ClearSlot(n, i), lab, i)
  {
    ClearDiffers(n, i);
  }

  /** The heights of placed nodes. */
  lemma HeightsOk(w: World, mem: Mem, height: nat)
    requires NodesOk(w, mem, height)
    ensures forall q {:trigger w.at[q]} :: q in w.at ==> 1 <= w.at[q].h <= height
  {
    forall q | q in w.at ensures 1 <= w.at[q].h <= height {
      assert PlaceOk(w, mem, q, height);
    }
  }

  /** Lines 750-751: the slot that leads to what is gone. */
  lemma ClearStep(mem: Mem, height: nat, at: map<Ptr, Label>, items: map<nat, Ptr>, index: nat, h: nat, t0: set<nat>,
                  t1: set<nat>, p: Ptr)
    requires h >= 1 && NodesOk(Deleting(at, items, index, h - 1, t0, t1, FreedAt(index, h - 1)), mem, height)
    requires h > 1 ==> Vacant(at, Label(h - 1, Up(index, h - 1)))
    requires index in items && !Any(items.Keys - {index}, h - 1, Up(index, h - 1))
    requires p in mem && p in at && at[p] == Label(h, Up(index, h))
    ensures Shaped(mem[p]) && mem[p].count > 0
    ensures NodesOk(Deleting(at, items, index, h, t0, t1, NOWHERE), mem[p := ClearSlot(mem[p], Offset(index, h))],
      height)
  {
    var c := h - 1;
    var w, w' := Deleting(at, items, index, c, t0, t1, FreedAt(index, c)),
      Deleting(at, items, index, h, t0, t1, NOWHERE);
    var i := Offset(index, h);
    assert PlaceOk(w, mem, p, height);
    assert EntryOk(w, mem[p], at[p], i);
    AnyOf(items.Keys, index, c);
    HeightsOk(w, mem, height);
    DeleteMoves(at, items, index, c, t0, t1, height);
    ClearDiffers(mem[p], i);
    ClearedEntry(w, w', mem[p], at[p], i);
    ChangeSlot(w, w', mem, mem[p := ClearSlot(mem[p], i)], height, p, i);
  }

  /** A node has slots in use exactly if something lies below it. */
  lemma SlotsBelow(w: World, n: Node, lab: Label)
    requires NodeOk(w, n, lab)
    ensures n.count > 0 <==> Any(See(w.keys, lab.h - 1), lab.h, lab.pre)
  {
    var s := See(w.keys, lab.h - 1);
    InUseZero(n.slots);
    if Any(s, lab.h, lab.pre) {
      var k :| k in s && Up(k, lab.h) == lab.pre;
      var i := Offset(k, lab.h);
      assert EntryOk(w, n, lab, i);
      AnyOf(s, k, lab.h - 1);
      assert n.slots[i] != NULL;
    }
    if n.count > 0 {
      var i :| 0 <= i < |n.slots| && n.slots[i] != NULL;
      assert EntryOk(w, n, lab, i);
      var k :| k in s && Up(k, lab.h - 1) == lab.pre * MAP_SIZE + i;
      assert Up(k, lab.h) == lab.pre;
    }
  }

  /** Lines 759-760: a node without slots in use is freed. */
  lemma FreeNode(mem: Mem, height: nat, at: map<Ptr, Label>, items: map<nat, Ptr>, index: nat, h: nat, t0: set<nat>,
                 t1: set<nat>, p: Ptr,
                 mem': Mem, at': map<Ptr, Label>)
    requires h >= 1 && NodesOk(Deleting(at, items, index, h, t0, t1, NOWHERE), mem, height)
    requires p in mem && p in at && at[p] == Label(h, Up(index, h)) && mem' == mem - {p} && at' == at - {p}
    ensures NodesOk(Deleting(at', items, index, h, t0, t1, FreedAt(index, h)), mem', height)
      && Vacant(at', Label(h, Up(index, h)))
  {
    var w, w' := Deleting(at, items, index, h, t0, t1, NOWHERE),
      Deleting(at', items, index, h, t0, t1, FreedAt(index, h));
    forall c: nat, x: nat ensures PlaceSame(w, w', c, x) {
      assert See(w.keys, c) == See(w'.keys, c);
    }
    forall q | q in mem' ensures PlaceOk(w', mem', q, height) {
      assert PlaceOk(w, mem, q, height);
      NodeKept(w, w', mem[q], at[q], height, height, 0);
    }
  }

  ghost predicate RootAt(rnode: Ptr, height: nat, at: map<Ptr, Label>) {
    rnode != NULL && rnode in at && at[rnode] == Label(height, 0)
  }

  /** Something else is left below the place reached: the rest of the path stays as it is. */
  lemma StopGood(mem: Mem, rnode: Ptr, height: nat, b0: bool, b1: bool, brk: Ptr, at: map<Ptr, Label>,
                 items: map<nat, Ptr>, index: nat, h: nat,
                 t0: set<nat>, t1: set<nat>)
    requires NodesOk(Deleting(at, items, index, h, t0, t1, NOWHERE), mem, height) && 1 <= h <= height
    requires Any(items.Keys - {index}, h, Up(index, h)) && RootAt(rnode, height, at) && Fresh(mem, brk)
    requires Sets(items, t0, t1) && index !in t0 && index !in t1 && height <= MAX_HEIGHT && Fit(items.Keys, height)
    requires (b0 <==> Any(t0, height, 0)) && (b1 <==> Any(t1, height, 0)) && Up(index, height) == 0
    ensures Good(mem, rnode, height, b0, b1, brk, at, items - {index}, t0, t1)
  {
    var w, w' := Deleting(at, items, index, h, t0, t1, NOWHERE), Settled(at, items - {index}, t0, t1);
    assert (items - {index}).Keys == items.Keys - {index};
    forall c: nat, x: nat ensures PlaceSame(w, w', c, x) {
      if h <= c { Remaining(items.Keys, index, h, c, x); }
      if c == 0 { AnyItself(items.Keys - {index}, x); }
    }
    forall q | q in at && Below(w.keys, at[q].h, at[q].pre) ensures Below(w'.keys, at[q].h, at[q].pre) {
      assert PlaceSame(w, w', at[q].h, at[q].pre);
    }
    SameNodes(w, w', mem, height);
    Remaining(items.Keys, index, h, height, 0);
    AnyOf(items.Keys - {index}, KeyBelow(items.Keys - {index}, h, Up(index, h)), height);
    FitTop(items.Keys - {index}, height);
  }

  ghost function KeyBelow(s: set<nat>, h: nat, pre: nat): (k: nat)
    requires Any(s, h, pre)
    ensures k in s && Up(k, h) == pre
  {
    var k :| k in s && Up(k, h) == pre; k
  }

  /** Nothing is left. */
  lemma EndGood(mem: Mem, height: nat, brk: Ptr, at: map<Ptr, Label>, items: map<nat, Ptr>, index: nat, t0: set<nat>,
                t1: set<nat>)
    requires NodesOk(Deleting(at, items, index, height, t0, t1, FreedAt(index, height)), mem, height) && Fresh(mem, brk)
    requires Vacant(at, Label(height, 0)) && !Any(items.Keys - {index}, height, 0) && Up(index, height) == 0
    requires Sets(items, t0, t1) && index !in t0 && index !in t1 && Fit(items.Keys, height)
    ensures Good(mem, NULL, 0, false, false, brk, at, items - {index}, t0, t1)
  {
    var w, keys := Deleting(at, items, index, height, t0, t1, FreedAt(index, height)), items.Keys - {index};
    FitTop(keys, height);
    assert keys == {} && t0 == {} && t1 == {};
    WhereNodes(w, mem, height, items.Keys);
    assert forall q :: q in mem ==> q in at;
    assert mem.Keys == {} && (items - {index}).Keys == {};
  }

  /** Every node has something below it, or is the root. */
  lemma WhereNodes(w: World, mem: Mem, height: nat, keys: set<nat>)
    requires NodesOk(w, mem, height) && w.keys.hi == keys && w.keys.split == height && Fit(keys, height)
    ensures forall q {:trigger w.at[q]} :: q in w.at ==>
      Any(w.keys.lo, w.at[q].h, w.at[q].pre) || w.at[q] == Label(height, 0)
  {
    forall q | q in w.at ensures Any(w.keys.lo, w.at[q].h, w.at[q].pre) || w.at[q] == Label(height, 0) {
      assert PlaceOk(w, mem, q, height);
      assert Any(keys, height, w.at[q].pre) ==> w.at[q].pre == 0;
    }
  }

  // ---------------------------------------------------------------- shrinking

  lemma OnlyFirst(w: World, n: Node, lab: Label, keys: set<nat>)
    requires NodeOk(w, n, lab) && lab.pre == 0 && See(w.keys, lab.h - 1) == keys && Fit(keys, lab.h) && n.count == 1
      && n.slots[0] != NULL
    ensures Fit(keys, lab.h - 1)
  {
    forall k | k in keys ensures Up(k, lab.h - 1) == 0 {
      var i := Offset(k, lab.h);
      assert EntryOk(w, n, lab, i);
      AnyOf(keys, k, lab.h - 1);
      InUseOne(n.slots, 0, i);
    }
  }

  /** Lines 680-689: a root with nothing but its first slot in use gives way to what that slot holds. */
  lemma TopRemoved(mem: Mem, rnode: Ptr, height: nat, b0: bool, b1: bool, brk: Ptr, at: map<Ptr, Label>,
                   items: map<nat, Ptr>, t0: set<nat>, t1: set<nat>,
                   mem': Mem, at': map<Ptr, Label>, rnode': Ptr)
    requires Good(mem, rnode, height, b0, b1, brk, at, items, t0, t1) && height > 0 && rnode in mem && rnode in at
      && at[rnode] == Label(height, 0)
    requires Shaped(mem[rnode]) && mem[rnode].count == 1 && mem[rnode].slots[0] != NULL
    requires mem' == mem - {rnode} && at' == at - {rnode} && rnode' == mem[rnode].slots[0]
    ensures Good(mem', rnode', height - 1, b0, b1, brk, at', items, t0, t1)
  {
    var w, w' := Settled(at, items, t0, t1), Settled(at', items, t0, t1);
    assert PlaceOk(w, mem, rnode, height);
    OnlyFirst(w, mem[rnode], at[rnode], items.Keys);
    assert EntryOk(w, mem[rnode], at[rnode], 0);
    TopLinkDown(w, rnode, b0, b1, height, items.Keys, t0, t1, mem[rnode], rnode');
    assert LinkOk(w', rnode', b0, b1, height - 1, 0);
    forall q | q in mem' ensures PlaceOk(w', mem', q, height - 1) {
      assert PlaceOk(w, mem, q, height);
      assert Any(items.Keys, height, at[q].pre) ==> at[q].pre == 0;
      LowerNode(w, w', mem[q], at[q], height, rnode);
    }
  }

  /** Links from nodes below the old root do not lead to it. */
  lemma LowerNode(w: World, w': World, n: Node, lab: Label, height: nat, rnode: Ptr)
    requires NodeOk(w, n, lab) && lab.h < height && rnode in w.at && w.at[rnode] == Label(height, 0)
    requires w'.keys == w.keys && w'.tags0 == w.tags0 && w'.tags1 == w.tags1 && w'.vals == w.vals && w'.hole == w.hole
      && w'.at == w.at - {rnode}
    ensures NodeOk(w', n, lab)
  {
    forall i | 0 <= i < MAP_SIZE ensures EntryOk(w', n, lab, i) {
      assert EntryOk(w, n, lab, i);
    }
  }

  lemma TopLinkDown(w: World, rnode: Ptr, b0: bool, b1: bool, height: nat, keys: set<nat>, t0: set<nat>, t1: set<nat>,
                    n: Node, ptr: Ptr)
    requires LinkOk(w, rnode, b0, b1, height, 0) && height >= 1 && Fit(keys, height - 1) && t0 <= keys && t1 <= keys
    requires w.keys == Whole(keys) && w.tags0 == Whole(t0) && w.tags1 == Whole(t1)
    requires Shaped(n) && EntryOk(w, n, Label(height, 0), 0) && ptr == n.slots[0]
    ensures LinkOk(w, ptr, b0, b1, height - 1, 0)
  {
    FitMore(keys, height - 1, height);
    FitTop(t0, height - 1);
    FitTop(t0, height);
    FitTop(t1, height - 1);
    FitTop(t1, height);
  }

  /** A root that does not shrink shows that its height is needed. */
  lemma TopNeeded(w: World, n: Node, height: nat, keys: set<nat>)
    requires height >= 1 && NodeOk(w, n, Label(height, 0)) && See(w.keys, height - 1) == keys && n.count > 0
    requires !(n.count == 1 && n.slots[0] != NULL)
    ensures Minimal(keys, height)
  {
    InUseUpdate(n.slots, 0, NULL);
    InUseZero(n.slots[0 := NULL]);
    var i :| 0 <= i < MAP_SIZE && n.slots[0 := NULL][i] != NULL;
    assert EntryOk(w, n, Label(height, 0), i);
    var k := KeyBelow(keys, height - 1, i);
  }

  method RemoveTop(r: RadixRoot)
    requires r.Consistent() && r.height > 0 && RootAt(r.rnode, r.height, r.at) && r.rnode in r.mem
      && Shaped(r.mem[r.rnode])
    requires r.mem[r.rnode].count == 1 && r.mem[r.rnode].slots[0] != NULL
    modifies r`mem, r`at, r`rnode, r`height
    ensures r.Consistent() && r.height == old(r.height) - 1 && r.rnode != NULL
  {
    var top := r.rnode;
    r.rnode := r.mem[top].slots[0];
    r.height := r.height - 1;
    r.mem := r.mem - {top};
    r.at := r.at - {top};
    TopRemoved(old(r.mem), top, old(r.height), r.tag0, r.tag1, r.brk, old(r.at), r.items, r.tagged0, r.tagged1, r.mem,
      r.at, r.rnode);
  }

  /** `radix_tree_shrink`, lines 674-691. */
  method Shrink(r: RadixRoot)
    requires r.Consistent() && r.rnode != NULL
    modifies r`mem, r`at, r`rnode, r`height
    ensures r.Valid()
  {
    RootPlaced(r.mem, r.rnode, r.height, r.tag0, r.tag1, r.brk, r.at, r.items, r.tagged0, r.tagged1);
    while r.height > 0 && r.mem[r.rnode].count == 1 && r.mem[r.rnode].slots[0] != NULL
      invariant r.Consistent() && r.rnode != NULL
      invariant r.height > 0 ==> RootAt(r.rnode, r.height, r.at) && r.rnode in r.mem && Shaped(r.mem[r.rnode])
      decreases r.height
    {
      RemoveTop(r);
      RootPlaced(r.mem, r.rnode, r.height, r.tag0, r.tag1, r.brk, r.at, r.items, r.tagged0, r.tagged1);
    }
    if r.height > 0 {
      RootNeeded(r.mem, r.rnode, r.height, r.tag0, r.tag1, r.brk, r.at, r.items, r.tagged0, r.tagged1);
    }
  }

  lemma RootNeeded(mem: Mem, rnode: Ptr, height: nat, b0: bool, b1: bool, brk: Ptr, at: map<Ptr, Label>,
                   items: map<nat, Ptr>, t0: set<nat>, t1: set<nat>)
    requires Good(mem, rnode, height, b0, b1, brk, at, items, t0, t1) && height > 0 && RootAt(rnode, height, at)
      && rnode in mem && Shaped(mem[rnode])
    requires !(mem[rnode].count == 1 && mem[rnode].slots[0] != NULL)
    ensures Minimal(items.Keys, height)
  {
    var w := Settled(at, items, t0, t1);
    assert PlaceOk(w, mem, rnode, height);
    SlotsBelow(w, mem[rnode], at[rnode]);
    TopNeeded(w, mem[rnode], height, items.Keys);
  }

  lemma RootPlaced(mem: Mem, rnode: Ptr, height: nat, b0: bool, b1: bool, brk: Ptr, at: map<Ptr, Label>,
                   items: map<nat, Ptr>, t0: set<nat>, t1: set<nat>)
    requires Good(mem, rnode, height, b0, b1, brk, at, items, t0, t1) && rnode != NULL
    ensures height > 0 ==> rnode in mem && rnode in at && at[rnode] == Label(height, 0) && Shaped(mem[rnode])
  {
    if height > 0 { assert PlaceOk(Settled(at, items, t0, t1), mem, rnode, height); }
  }

  // ---------------------------------------------------------------- deleting

  lemma LeafBit(w: World, mem: Mem, height: nat, p: Ptr, index: nat, t0: set<nat>, t1: set<nat>)
    requires NodesOk(w, mem, height) && p in mem && p in w.at && w.at[p] == Label(1, Up(index, 1))
      && w.tags0 == Whole(t0) && w.tags1 == Whole(t1)
    ensures Shaped(mem[p]) && (mem[p].tags[0][Offset(index, 1)] <==> index in t0)
      && (mem[p].tags[1][Offset(index, 1)] <==> index in t1)
  {
    StepDown(w, mem, height, p, index, 1);
    AnyItself(t0, index);
    AnyItself(t1, index);
  }

  /** Lines 743-746: the item loses its tags. */
  method ClearItemTags(r: RadixRoot, st: Step, index: nat)
    requires r.Valid() && r.height >= 1 && StepOk(st, r.at, index, 1) && index < U64
    modifies r`mem, r`tag0, r`tag1, r`tagged0, r`tagged1
    ensures r.Valid() && r.tagged0 == old(r.tagged0) - {index} && r.tagged1 == old(r.tagged1) - {index}
  {
    var tag := 0;
    LeafBit(r.Here(), r.mem, r.height, st.node, index, r.tagged0, r.tagged1);
    while tag < 2
      invariant 0 <= tag <= 2 && r.Valid() && st.node in r.mem && Shaped(r.mem[st.node])
      invariant tag < 2 ==> (r.mem[st.node].tags[tag][st.offset] <==> index in r.Tagged(tag))
      invariant r.tagged0 == if tag > 0 then old(r.tagged0) - {index} else old(r.tagged0)
      invariant r.tagged1 == if tag > 1 then old(r.tagged1) - {index} else old(r.tagged1)
    {
      if r.mem[st.node].tags[tag][st.offset] {
        var slot := TagClear(r, index, tag);
      }
      LeafBit(r.Here(), r.mem, r.height, st.node, index, r.tagged0, r.tagged1);
      tag := tag + 1;
    }
  }

  /** Everything on the path below height `c` is gone, and nothing else was there. */
  ghost predicate Undone(mem: Mem, height: nat, at: map<Ptr, Label>, items: map<nat, Ptr>, index: nat, c: nat,
                         t0: set<nat>, t1: set<nat>) {
    && NodesOk(Deleting(at, items, index, c, t0, t1, FreedAt(index, c)), mem, height)
    && (c > 0 ==> Vacant(at, Label(c, Up(index, c)))) && !Any(items.Keys - {index}, c, Up(index, c))
  }

  /** Lines 750-760: one level. */
  method Unlink(r: RadixRoot, st: Step, index: nat, h: nat) returns (empty: bool)
    requires h >= 1 && index in r.items && StepOk(st, r.at, index, h) && Fresh(r.mem, r.brk)
    requires Undone(r.mem, r.height, r.at, r.items, index, h - 1, r.tagged0, r.tagged1)
    modifies r`mem, r`at
    ensures Fresh(r.mem, r.brk)
    ensures empty ==>
      Undone(r.mem, r.height, r.at, r.items, index, h, r.tagged0, r.tagged1) && r.at == old(r.at) - {st.node}
    ensures !empty ==>
      NodesOk(Deleting(r.at, r.items, index, h, r.tagged0, r.tagged1, NOWHERE), r.mem, r.height) && r.at == old(r.at)
    ensures !empty ==> Any(r.items.Keys - {index}, h, Up(index, h))
  {
    ClearStep(r.mem, r.height, r.at, r.items, index, h, r.tagged0, r.tagged1, st.node);
    r.mem := r.mem[st.node := ClearSlot(r.mem[st.node], st.offset)];
    ghost var w := Deleting(r.at, r.items, index, h, r.tagged0, r.tagged1, NOWHERE);
    assert PlaceOk(w, r.mem, st.node, r.height);
    SlotsBelow(w, r.mem[st.node], r.at[st.node]);
    if r.mem[st.node].count > 0 {
      return false;
    }
    ghost var mem1 := r.mem;
    r.mem := r.mem - {st.node};
    r.at := r.at - {st.node};
    FreeNode(mem1, r.height, old(r.at), r.items, index, h, r.tagged0, r.tagged1, st.node, r.mem, r.at);
    return true;
  }

  lemma StartDelete(mem: Mem, rnode: Ptr, height: nat, b0: bool, b1: bool, brk: Ptr, at: map<Ptr, Label>,
                    items: map<nat, Ptr>, index: nat, t0: set<nat>, t1: set<nat>)
    requires Good(mem, rnode, height, b0, b1, brk, at, items, t0, t1)
    ensures Undone(mem, height, at, items, index, 0, t0, t1)
  {
    var w, w' := Settled(at, items, t0, t1), Deleting(at, items, index, 0, t0, t1, NOWHERE);
    forall c: nat, x: nat ensures PlaceSame(w, w', c, x) {
      assert See(w.keys, c) == See(w'.keys, c);
    }
    forall q | q in at && Below(w.keys, at[q].h, at[q].pre) ensures Below(w'.keys, at[q].h, at[q].pre) {
      assert PlaceSame(w, w', at[q].h, at[q].pre);
    }
    SameNodes(w, w', mem, height);
    AnyItself(items.Keys - {index}, index);
  }

  /** Freeing a node of the path leaves the part of the path above it. */
  lemma PathAbove(path: seq<Step>, at: map<Ptr, Label>, index: nat, height: nat, j: nat)
    requires j < |path| <= height && PathOk(path[..j + 1], at, index, height)
    ensures PathOk(path[..j], at - {path[j].node}, index, height)
  {
    assert path[..j + 1][j] == path[j];
    forall i | 0 <= i < j ensures StepOk(path[..j][i], at - {path[j].node}, index, height - i) {
      assert path[..j + 1][i] == path[..j][i];
    }
  }

  /** Lines 749-763: up the path; returns the height at which something else is left, or 0. */
  method Prune(r: RadixRoot, path: seq<Step>, index: nat) returns (h: nat)
    requires index in r.items && |path| == r.height && PathOk(path, r.at, index, r.height) && Fresh(r.mem, r.brk)
    requires Undone(r.mem, r.height, r.at, r.items, index, 0, r.tagged0, r.tagged1)
    modifies r`mem, r`at
    ensures Fresh(r.mem, r.brk) && h <= r.height
    ensures h == 0 ==> Undone(r.mem, r.height, r.at, r.items, index, r.height, r.tagged0, r.tagged1)
    ensures h > 0 ==> NodesOk(Deleting(r.at, r.items, index, h, r.tagged0, r.tagged1, NOWHERE), r.mem, r.height)
    ensures h > 0 ==>
      Any(r.items.Keys - {index}, h, Up(index, h)) && path[0].node in r.at
      && r.at[path[0].node] == Label(r.height, Up(index, r.height))
  {
    var j := |path|;
    assert path[..j] == path;
    while j > 0
      invariant 0 <= j <= |path| && Fresh(r.mem, r.brk) && PathOk(path[..j], r.at, index, r.height)
      invariant Undone(r.mem, r.height, r.at, r.items, index, r.height - j, r.tagged0, r.tagged1)
    {
      j := j - 1;
      h := r.height - j;
      assert path[..j + 1][j] == path[j] && path[..j + 1][0] == path[0];
      PathAbove(path, r.at, index, r.height, j);
      var empty := Unlink(r, path[j], index, h);
      if !empty {
        return;
      }
    }
    h := 0;
  }

  lemma StopMinimal(keys: set<nat>, index: nat, h: nat, height: nat)
    requires Minimal(keys, height) && Any(keys - {index}, h, Up(index, h)) && h < height
    ensures Minimal(keys - {index}, height)
  {
    var k :| k in keys && Up(k, height - 1) != 0;
    if k == index {
      var k' := KeyBelow(keys - {index}, h, Up(index, h));
      SameUp(k', index, h, height - 1);
      assert k' in keys - {index};
    } else {
      assert k in keys - {index};
    }
  }

  lemma RootTagged(mem: Mem, rnode: Ptr, height: nat, b0: bool, b1: bool, brk: Ptr, at: map<Ptr, Label>,
                   items: map<nat, Ptr>, t0: set<nat>, t1: set<nat>)
    requires Good(mem, rnode, height, b0, b1, brk, at, items, t0, t1)
    ensures (b0 <==> Any(t0, height, 0)) && (b1 <==> Any(t1, height, 0))
  {
    assert Below(Whole(t0), height, 0) <==> Any(t0, height, 0);
    assert Below(Whole(t1), height, 0) <==> Any(t1, height, 0);
  }

  /** Lines 748-766: the item without tags goes, and with it every node that only led to it. */
  method Remove(r: RadixRoot, path: seq<Step>, index: nat)
    requires r.Valid() && index in r.items && index !in r.tagged0 && index !in r.tagged1 && r.height >= 1
    requires |path| == r.height && PathOk(path, r.at, index, r.height)
    modifies r`mem, r`at, r`rnode, r`height, r`tag0, r`tag1, r`items
    ensures r.Valid() && r.items == old(r.items) - {index}
  {
    RootTagged(r.mem, r.rnode, r.height, r.tag0, r.tag1, r.brk, r.at, r.items, r.tagged0, r.tagged1);
    StartDelete(r.mem, r.rnode, r.height, r.tag0, r.tag1, r.brk, r.at, r.items, index, r.tagged0, r.tagged1);
    RootIsFirst(r.mem, r.rnode, r.height, r.tag0, r.tag1, r.brk, r.at, r.items, r.tagged0, r.tagged1, path, index);
    var h := Prune(r, path, index);
    if h > 0 {
      StopGood(r.mem, r.rnode, r.height, r.tag0, r.tag1, r.brk, r.at, r.items, index, h, r.tagged0, r.tagged1);
      r.items := r.items - {index};
      if h == r.height {
        Shrink(r);
      } else {
        StopMinimal(old(r.items.Keys), index, h, r.height);
        assert r.items.Keys == old(r.items.Keys) - {index};
      }
    } else {
      EndGood(r.mem, r.height, r.brk, r.at, r.items, index, r.tagged0, r.tagged1);
      r.items := r.items - {index};
      r.tag0, r.tag1 := false, false;
      r.height := 0;
      r.rnode := NULL;
    }
  }

  lemma RootIsFirst(mem: Mem, rnode: Ptr, height: nat, b0: bool, b1: bool, brk: Ptr, at: map<Ptr, Label>,
                    items: map<nat, Ptr>, t0: set<nat>, t1: set<nat>,
                    path: seq<Step>, index: nat)
    requires Good(mem, rnode, height, b0, b1, brk, at, items, t0, t1) && index in items && height >= 1
    requires |path| == height && PathOk(path, at, index, height)
    ensures path[0].node == rnode && rnode != NULL && Up(index, height) == 0
  {
    assert StepOk(path[0], at, index, height);
    AnyOf(items.Keys, index, height);
  }

  /** `radix_tree_delete`, lines 702-770. */
  method Delete(r: RadixRoot, index: nat) returns (slot: Ptr)
    requires r.Valid() && index < U64
    modifies r
    ensures r.Valid()
    ensures slot == if index in old(r.items) then old(r.items)[index] else NULL
    ensures r.items == old(r.items) - {index} && r.tagged0 == old(r.tagged0) - {index}
      && r.tagged1 == old(r.tagged1) - {index}
  {
    MaxIndexIs(index, r.height);
    if index > MaxIndex(r.height) {
      assert index !in r.items;
      return NULL;
    }
    if r.height == 0 && r.rnode != NULL {
      slot := r.rnode;
      DeleteOnly(r, index);
      return;
    }
    var path;
    path, slot := FindPath(r, index, r.Here());
    if slot == NULL {
      return;
    }
    RootIsOrOnly(r.Here(), r.rnode, r.tag0, r.tag1, r.height, index);
    ClearItemTags(r, path[|path| - 1], index);
    Remove(r, path, index);
  }

  /** With no nodes, an item under index 0 is at the root. */
  lemma RootIsOrOnly(w: World, rnode: Ptr, b0: bool, b1: bool, height: nat, index: nat)
    requires LinkOk(w, rnode, b0, b1, height, 0) && index in w.keys.hi && w.keys.lo == w.keys.hi
      && Up(index, height) == 0
    ensures rnode != NULL
  {
    AnyOf(w.keys.hi, index, height);
  }

  /** Lines 714-719: a tree that is only an item. */
  method DeleteOnly(r: RadixRoot, index: nat)
    requires r.Valid() && r.height == 0 && r.rnode != NULL && Up(index, 0) == 0
    modifies r
    ensures r.Valid() && index in old(r.items) && old(r.items)[index] == old(r.rnode)
    ensures r.items == old(r.items) - {index} && r.tagged0 == old(r.tagged0) - {index}
      && r.tagged1 == old(r.tagged1) - {index}
  {
    AnyItself(r.items.Keys, 0);
    r.tag0, r.tag1 := false, false;
    r.rnode := NULL;
    r.items := r.items - {index};
    r.tagged0, r.tagged1 := r.tagged0 - {index}, r.tagged1 - {index};
    OnlyGood(old(r.mem), old(r.rnode), old(r.tag0), old(r.tag1), r.brk, r.at, old(r.items), old(r.tagged0),
      old(r.tagged1), r.items, r.tagged0, r.tagged1);
  }

  lemma OnlyGood(mem: Mem, rnode: Ptr, b0: bool, b1: bool, brk: Ptr, at: map<Ptr, Label>, items: map<nat, Ptr>,
                 t0: set<nat>, t1: set<nat>,
                 items': map<nat, Ptr>, t0': set<nat>, t1': set<nat>)
    requires Good(mem, rnode, 0, b0, b1, brk, at, items, t0, t1)
    requires items' == items - {0} && t0' == t0 - {0} && t1' == t1 - {0}
    ensures Good(mem, NULL, 0, false, false, brk, at, items', t0', t1')
  {
    assert forall k :: k in items ==> Up(k, 0) == k;
    assert items'.Keys == {} && t0' == {} && t1' == {};
    HeightsOk(Settled(at, items, t0, t1), mem, 0);
    assert forall q :: q !in at;
    assert mem.Keys == {};
  }
}
