/** Growing a radix tree and inserting into it. */
module RadixInsert {
  import opened RadixIndex
  import opened RadixShape
  import opened RadixUpdate
  import opened RadixTags

  // ---------------------------------------------------------------- growing

  /** The node put on top of the root `rnode`. */
  function TopNode(rnode: Ptr, b0: bool, b1: bool): Node {
    var n := Blank();
    Node(1, n.slots[0 := rnode], [n.tags[0][0 := b0], n.tags[1][0 := b1]])
  }

  lemma TopShaped(rnode: Ptr, b0: bool, b1: bool)
    requires rnode != NULL
    ensures Shaped(TopNode(rnode, b0, b1))
  {
    InUseZero(Blank().slots);
    InUseUpdate(Blank().slots, 0, rnode);
  }

  lemma FitAny(s: set<nat>, h: nat, x: nat)
    requires Fit(s, h) && x != 0
    ensures !Any(s, h, x)
  {
  }

  lemma FitMore(s: set<nat>, h: nat, h': nat)
    requires Fit(s, h) && h <= h'
    ensures Fit(s, h')
  {
    forall k | k in s ensures Up(k, h') == 0 {
      UpZeroMore(k, h, h');
    }
  }

  /** Under a height that fits, having anything is all that matters. */
  lemma FitTop(s: set<nat>, h: nat)
    requires Fit(s, h)
    ensures Any(s, h, 0) <==> s != {}
  {
    if s != {} {
      var k :| k in s;
      assert Up(k, h) == 0;
    }
  }

  lemma TopOk(w: World, rnode: Ptr, b0: bool, b1: bool, h: nat, keys: set<nat>, t0: set<nat>, t1: set<nat>)
    requires LinkOk(w, rnode, b0, b1, h, 0) && rnode != NULL && Fit(keys, h) && t0 <= keys && t1 <= keys
    requires w.keys == Whole(keys) && w.tags0 == Whole(t0) && w.tags1 == Whole(t1)
    ensures NodeOk(w, TopNode(rnode, b0, b1), Label(h + 1, 0))
  {
    var n, lab := TopNode(rnode, b0, b1), Label(h + 1, 0);
    TopShaped(rnode, b0, b1);
    forall i | 0 <= i < MAP_SIZE ensures EntryOk(w, n, lab, i) {
      if i > 0 {
        FitAny(keys, h, i);
        FitAny(t0, h, i);
        FitAny(t1, h, i);
      }
    }
  }

  /** A tree that is one level higher stands for the same map. */
  lemma TopAdded(mem: Mem, rnode: Ptr, height: nat, b0: bool, b1: bool, brk: Ptr, at: map<Ptr, Label>,
                 items: map<nat, Ptr>, t0: set<nat>, t1: set<nat>,
                 mem': Mem, at': map<Ptr, Label>)
    requires Good(mem, rnode, height, b0, b1, brk, at, items, t0, t1) && rnode != NULL && height < MAX_HEIGHT
    requires mem' == mem[brk := TopNode(rnode, b0, b1)] && at' == at[brk := Label(height + 1, 0)]
    ensures Good(mem', brk, height + 1, b0, b1, brk + 1, at', items, t0, t1)
  {
    var w, w' := Settled(at, items, t0, t1), Settled(at', items, t0, t1);
    SettledAgree(at, at', items, t0, t1, height);
    KeepPlaces(w, w', mem, height, height + 1);
    assert LinkOk(w', rnode, b0, b1, height, 0);
    TopOk(w', rnode, b0, b1, height, items.Keys, t0, t1);
    NoneAbove(w, mem, height);
    TopLink(w', rnode, b0, b1, height, items.Keys, t0, t1, brk);
    AddPlace(w', at, mem, height + 1, brk, Label(height + 1, 0), mem');
    FitMore(items.Keys, height, height + 1);
  }

  /** Pointer and tag bits of the root are right for the next height as well. */
  lemma TopLink(w: World, rnode: Ptr, b0: bool, b1: bool, h: nat, keys: set<nat>, t0: set<nat>, t1: set<nat>, p: Ptr)
    requires LinkOk(w, rnode, b0, b1, h, 0) && rnode != NULL && p != NULL && Fit(keys, h) && t0 <= keys && t1 <= keys
    requires w.keys == Whole(keys) && w.tags0 == Whole(t0) && w.tags1 == Whole(t1) && TargetOk(w, p, h + 1, 0)
    ensures LinkOk(w, p, b0, b1, h + 1, 0)
  {
    FitMore(keys, h, h + 1);
    FitTop(keys, h);
    FitTop(keys, h + 1);
    FitTop(t0, h);
    FitTop(t0, h + 1);
    FitTop(t1, h);
    FitTop(t1, h + 1);
  }

  lemma NoneAbove(w: World, mem: Mem, height: nat)
    requires NodesOk(w, mem, height)
    ensures Vacant(w.at, Label(height + 1, 0))
  {
    forall q | q in w.at ensures w.at[q] != Label(height + 1, 0) {
      assert PlaceOk(w, mem, q, height);
    }
  }

  lemma SettledAgree(at: map<Ptr, Label>, at': map<Ptr, Label>, items: map<nat, Ptr>, t0: set<nat>, t1: set<nat>,
                     height: nat)
    requires forall q :: q in at ==> q in at' && at'[q] == at[q]
    ensures AgreeBut(Settled(at, items, t0, t1), Settled(at', items, t0, t1), height, height, 0)
    ensures PlacesUsed(Settled(at, items, t0, t1), Settled(at', items, t0, t1))
    ensures Keeps(Settled(at, items, t0, t1), Settled(at', items, t0, t1))
  {
  }

  /** Lines 168-183: one more level on top. */
  method AddTop(r: RadixRoot)
    requires r.Consistent() && r.rnode != NULL && r.height < MAX_HEIGHT
    modifies r`mem, r`at, r`rnode, r`height, r`brk
    ensures r.Consistent() && r.rnode != NULL && r.height == old(r.height) + 1
  {
    var node := r.brk;
    r.mem := r.mem[node := TopNode(r.rnode, r.tag0, r.tag1)];
    r.at := r.at[node := Label(r.height + 1, 0)];
    r.rnode := node;
    r.height := r.height + 1;
    r.brk := node + 1;
    TopAdded(old(r.mem), old(r.rnode), old(r.height), r.tag0, r.tag1, old(r.brk), old(r.at), r.items, r.tagged0,
      r.tagged1, r.mem, r.at);
  }

  lemma EmptyGood(mem: Mem, rnode: Ptr, height: nat, height': nat, b0: bool, b1: bool, brk: Ptr, at: map<Ptr, Label>,
                  items: map<nat, Ptr>, t0: set<nat>, t1: set<nat>)
    requires Good(mem, rnode, height, b0, b1, brk, at, items, t0, t1) && rnode == NULL
      && height <= height' <= MAX_HEIGHT
    ensures Good(mem, rnode, height', b0, b1, brk, at, items, t0, t1)
  {
    var w := Settled(at, items, t0, t1);
    FitTop(items.Keys, height);
    assert items.Keys == {} && t0 == {} && t1 == {};
    SettledAgree(at, at, items, t0, t1, height);
    KeepPlaces(w, w, mem, height, height');
    assert !Below(w.keys, height', 0) && !Below(w.tags0, height', 0) && !Below(w.tags1, height', 0);
  }

  /** Lines 159-161: the least height above `from` that fits. */
  method LeastHeight(from: nat, index: nat) returns (h: nat)
    requires from < MAX_HEIGHT && index < U64 && Up(index, from) != 0
    ensures from < h <= MAX_HEIGHT && Up(index, h) == 0 && Up(index, h - 1) != 0
  {
    h := from + 1;
    MaxIndexIs(index, h);
    while index > MaxIndex(h)
      invariant from < h <= MAX_HEIGHT && Up(index, h - 1) != 0 && (index <= MaxIndex(h) <==> Up(index, h) == 0)
      invariant h == MAX_HEIGHT ==> index <= MaxIndex(h)
      decreases MAX_HEIGHT - h
    {
      h := h + 1;
      MaxIndexIs(index, h);
    }
  }

  /** `radix_tree_extend`, lines 152-187. */
  method Extend(r: RadixRoot, index: nat)
    requires r.Consistent() && index < U64 && index > MaxIndex(r.height)
    modifies r`mem, r`at, r`rnode, r`height, r`brk
    ensures r.Consistent() && r.height > old(r.height) && Up(index, r.height) == 0 && Up(index, r.height - 1) != 0
  {
    MaxIndexIs(index, r.height);
    var h := LeastHeight(r.height, index);
    if r.rnode == NULL {
      r.height := h;
      EmptyGood(r.mem, r.rnode, old(r.height), h, r.tag0, r.tag1, r.brk, r.at, r.items, r.tagged0, r.tagged1);
    } else {
      while r.height < h
        invariant r.Consistent() && r.rnode != NULL && r.height <= h
        decreases h - r.height
      {
        AddTop(r);
      }
    }
  }

  // ---------------------------------------------------------------- inserting

  /** What the nodes agree with when the path of `index` is in place down to height `split`. */
  ghost function Inserting(at: map<Ptr, Label>, vals: map<nat, Ptr>, keys: set<nat>, index: nat, split: nat,
                           t0: set<nat>, t1: set<nat>): World {
    World(at, vals, View(split, keys, keys + {index}), Whole(t0), Whole(t1), NOWHERE)
  }

  ghost predicate Partway(mem: Mem, rnode: Ptr, height: nat, b0: bool, b1: bool, brk: Ptr, at: map<Ptr, Label>,
                          vals: map<nat, Ptr>, keys: set<nat>,
                          index: nat, split: nat, t0: set<nat>, t1: set<nat>) {
    var w := Inserting(at, vals, keys, index, split, t0, t1);
    && Fresh(mem, brk) && t0 <= keys && t1 <= keys && Up(index, height) == 0
    && NodesOk(w, mem, height) && LinkOk(w, rnode, b0, b1, height, 0)
  }

  /** Moving the split down one level matters only on the path. */
  lemma KeyMoves(at: map<Ptr, Label>, at': map<Ptr, Label>, vals: map<nat, Ptr>, keys: set<nat>, index: nat, h: nat,
                 t0: set<nat>, t1: set<nat>, height: nat)
    requires forall q :: q in at ==> q in at' && at'[q] == at[q]
    ensures var w, w' := Inserting(at, vals, keys, index, h + 1, t0, t1), Inserting(at', vals, keys, index, h, t0, t1);
      && AgreeBut(w, w', height, h, Up(index, h)) && PlacesUsed(w, w') && Keeps(w, w')
      && (h < height ==> PlaceSame(w, w', height, 0))
  {
    var w, w' := Inserting(at, vals, keys, index, h + 1, t0, t1), Inserting(at', vals, keys, index, h, t0, t1);
    NearAdd(keys, index);
    forall c: nat, x: nat | !(c == h && x == Up(index, h)) ensures PlaceSame(w, w', c, x) {
      assert Below(w.keys, c, x) <==> Below(w'.keys, c, x);
    }
    forall q | q in at && Below(w.keys, at[q].h, at[q].pre) ensures Below(w'.keys, at[q].h, at[q].pre) {
      AnyAdd(keys, index, at[q].h, at[q].pre);
    }
  }

  /** The node is there already. */
  lemma ChildExists(mem: Mem, rnode: Ptr, height: nat, b0: bool, b1: bool, brk: Ptr, at: map<Ptr, Label>,
                    vals: map<nat, Ptr>, keys: set<nat>,
                    index: nat, h: nat, t0: set<nat>, t1: set<nat>)
    requires Partway(mem, rnode, height, b0, b1, brk, at, vals, keys, index, h + 1, t0, t1)
      && Any(keys, h, Up(index, h)) && h <= height
    ensures Partway(mem, rnode, height, b0, b1, brk, at, vals, keys, index, h, t0, t1)
  {
    var w, w' := Inserting(at, vals, keys, index, h + 1, t0, t1), Inserting(at, vals, keys, index, h, t0, t1);
    KeyMoves(at, at, vals, keys, index, h, t0, t1, height);
    AnyAdd(keys, index, h, Up(index, h));
    assert PlaceSame(w, w', h, Up(index, h));
    assert AgreeBut(w, w', height, height, 0);
    SameNodes(w, w', mem, height);
    LinkSame(w, w', rnode, b0, b1, height, 0);
  }

  lemma BlankOk(w: World, keys: set<nat>, t0: set<nat>, t1: set<nat>, h: nat, pre: nat)
    requires h >= 1 && See(w.keys, h - 1) == keys && See(w.tags0, h - 1) == t0 && See(w.tags1, h - 1) == t1
      && t0 <= keys && t1 <= keys
    requires !Any(keys, h, pre)
    ensures NodeOk(w, Blank(), Label(h, pre))
  {
    var n, lab := Blank(), Label(h, pre);
    InUseZero(n.slots);
    forall i | 0 <= i < MAP_SIZE ensures EntryOk(w, n, lab, i) {
      forall k | k in keys ensures Up(k, h - 1) != pre * MAP_SIZE + i {
        assert Up(k, h) == Up(k, h - 1) / MAP_SIZE;
      }
    }
  }

  function FillSlot(n: Node, i: nat, ptr: Ptr): Node
    requires i < |n.slots|
  {
    n.(slots := n.slots[i := ptr], count := n.count + 1)
  }

  lemma FillDiffers(n: Node, i: nat, ptr: Ptr)
    requires Shaped(n) && i < MAP_SIZE && n.slots[i] == NULL && ptr != NULL
    ensures DiffersAt(n, FillSlot(n, i, ptr), i)
  {
    InUseUpdate(n.slots, i, ptr);
  }

  /** The slot on the path is filled. */
  lemma FilledEntry(w: World, w': World, n: Node, lab: Label, i: nat, ptr: Ptr)
    requires Shaped(n) && lab.h >= 1 && i < MAP_SIZE && EntryOk(w, n, lab, i) && n.slots[i] == NULL && ptr != NULL
    requires w'.tags0 == w.tags0 && w'.tags1 == w.tags1
    requires Below(w'.keys, lab.h - 1, lab.pre * MAP_SIZE + i) && TargetOk(w', ptr, lab.h - 1, lab.pre * MAP_SIZE + i)
    ensures Shaped(FillSlot(n, i, ptr)) && EntryOk(w', FillSlot(n, i, ptr), lab, i)
  {
    FillDiffers(n, i, ptr);
  }

  lemma VacantChild(w: World, mem: Mem, height: nat, h: nat, pre: nat)
    requires NodesOk(w, mem, height) && !Below(w.keys, h, pre)
    ensures Vacant(w.at, Label(h, pre))
  {
    forall q | q in w.at ensures w.at[q] != Label(h, pre) {
      assert PlaceOk(w, mem, q, height);
    }
  }

  /** Lines 218-227 below the root: a new node. */
  lemma NewChild(mem: Mem, rnode: Ptr, height: nat, b0: bool, b1: bool, brk: Ptr, at: map<Ptr, Label>,
                 vals: map<nat, Ptr>, keys: set<nat>,
                 index: nat, h: nat, t0: set<nat>, t1: set<nat>, p: Ptr, mem1: Mem, mem': Mem, at': map<Ptr, Label>)
    requires Partway(mem, rnode, height, b0, b1, brk, at, vals, keys, index, h + 1, t0, t1) && h >= 1
    requires p in mem && p in at && at[p] == Label(h + 1, Up(index, h + 1)) && Shaped(mem[p])
      && mem[p].slots[Offset(index, h + 1)] == NULL
    requires mem1 == mem[p := FillSlot(mem[p], Offset(index, h + 1), brk)] && mem' == mem1[brk := Blank()]
      && at' == at[brk := Label(h, Up(index, h))]
    ensures Partway(mem', rnode, height, b0, b1, brk + 1, at', vals, keys, index, h, t0, t1)
  {
    var w, w' := Inserting(at, vals, keys, index, h + 1, t0, t1), Inserting(at', vals, keys, index, h, t0, t1);
    NewChildPlaces(mem, rnode, height, b0, b1, brk, at, vals, keys, index, h, t0, t1, p, mem1, at');
    VacantChild(w, mem, height, h, Up(index, h));
    BlankOk(w', keys, t0, t1, h, Up(index, h));
    AddPlace(w', at, mem1, height, brk, Label(h, Up(index, h)), mem');
    LinkSame(w, w', rnode, b0, b1, height, 0);
  }

  /** The nodes there were are as they should be once the slot is filled. */
  lemma NewChildPlaces(mem: Mem, rnode: Ptr, height: nat, b0: bool, b1: bool, brk: Ptr, at: map<Ptr, Label>,
                       vals: map<nat, Ptr>, keys: set<nat>,
                       index: nat, h: nat, t0: set<nat>, t1: set<nat>, p: Ptr, mem1: Mem, at': map<Ptr, Label>)
    requires Partway(mem, rnode, height, b0, b1, brk, at, vals, keys, index, h + 1, t0, t1) && h >= 1
    requires p in mem && p in at && at[p] == Label(h + 1, Up(index, h + 1)) && Shaped(mem[p])
      && mem[p].slots[Offset(index, h + 1)] == NULL
    requires mem1 == mem[p := FillSlot(mem[p], Offset(index, h + 1), brk)] && at' == at[brk := Label(h, Up(index, h))]
    ensures var w, w' := Inserting(at, vals, keys, index, h + 1, t0, t1), Inserting(at', vals, keys, index, h, t0, t1);
      && (forall q :: q in mem1 ==> PlaceOk(w', mem1, q, height)) && Keeps(w, w') && h < height
        && PlaceSame(w, w', height, 0)
      && Below(w'.keys, h, Up(index, h)) && !Any(keys, h, Up(index, h))
  {
    var w, w' := Inserting(at, vals, keys, index, h + 1, t0, t1), Inserting(at', vals, keys, index, h, t0, t1);
    var i := Offset(index, h + 1);
    assert PlaceOk(w, mem, p, height);
    assert EntryOk(w, mem[p], at[p], i);
    KeyMoves(at, at', vals, keys, index, h, t0, t1, height);
    AnyAdd(keys, index, h, Up(index, h));
    FillDiffers(mem[p], i, brk);
    FilledEntry(w, w', mem[p], at[p], i, brk);
    ChangePlaces(w, w', mem, mem1, height, p, i);
  }

  /** Lines 218-227 at the root: a new node. */
  lemma NewRoot(mem: Mem, rnode: Ptr, height: nat, b0: bool, b1: bool, brk: Ptr, at: map<Ptr, Label>,
                vals: map<nat, Ptr>, keys: set<nat>,
                index: nat, t0: set<nat>, t1: set<nat>, mem': Mem, at': map<Ptr, Label>)
    requires Partway(mem, rnode, height, b0, b1, brk, at, vals, keys, index, height + 1, t0, t1) && height >= 1
      && rnode == NULL
    requires mem' == mem[brk := Blank()] && at' == at[brk := Label(height, 0)]
    ensures Partway(mem', brk, height, b0, b1, brk + 1, at', vals, keys, index, height, t0, t1)
  {
    var w, w' := Inserting(at, vals, keys, index, height + 1, t0, t1),
      Inserting(at', vals, keys, index, height, t0, t1);
    KeyMoves(at, at', vals, keys, index, height, t0, t1, height);
    AnyAdd(keys, index, height, 0);
    KeepPlaces(w, w', mem, height, height);
    VacantChild(w, mem, height, height, 0);
    BlankOk(w', keys, t0, t1, height, 0);
    AddPlace(w', at, mem, height, brk, Label(height, 0), mem');
  }

  /** Lines 241-242: the item goes into its slot. */
  lemma PutItem(mem: Mem, rnode: Ptr, height: nat, b0: bool, b1: bool, brk: Ptr, at: map<Ptr, Label>,
                vals: map<nat, Ptr>, keys: set<nat>,
                index: nat, t0: set<nat>, t1: set<nat>, p: Ptr, mem': Mem)
    requires Partway(mem, rnode, height, b0, b1, brk, at, vals, keys, index, 1, t0, t1) && index in vals
      && vals[index] != NULL
    requires p in mem && p in at && at[p] == Label(1, Up(index, 1)) && Shaped(mem[p])
      && mem[p].slots[Offset(index, 1)] == NULL
    requires mem' == mem[p := FillSlot(mem[p], Offset(index, 1), vals[index])]
    ensures Partway(mem', rnode, height, b0, b1, brk, at, vals, keys, index, 0, t0, t1)
    ensures !mem[p].tags[0][Offset(index, 1)] && !mem[p].tags[1][Offset(index, 1)]
  {
    var w, w' := Inserting(at, vals, keys, index, 1, t0, t1), Inserting(at, vals, keys, index, 0, t0, t1);
    var i := Offset(index, 1);
    assert PlaceOk(w, mem, p, height);
    assert EntryOk(w, mem[p], at[p], i);
    KeyMoves(at, at, vals, keys, index, 0, t0, t1, height);
    AnyAdd(keys, index, 0, index);
    FillDiffers(mem[p], i, vals[index]);
    FilledEntry(w, w', mem[p], at[p], i, vals[index]);
    ChangeSlot(w, w', mem, mem', height, p, i);
    LinkSame(w, w', rnode, b0, b1, height, 0);
    AnyItself(keys, index);
    AnyItself(t0, index);
    AnyItself(t1, index);
  }

  lemma StartInsert(mem: Mem, rnode: Ptr, height: nat, b0: bool, b1: bool, brk: Ptr, at: map<Ptr, Label>,
                    items: map<nat, Ptr>, vals: map<nat, Ptr>,
                    index: nat, t0: set<nat>, t1: set<nat>)
    requires Good(mem, rnode, height, b0, b1, brk, at, items, t0, t1) && Up(index, height) == 0
    requires forall k :: k in items ==> k in vals && vals[k] == items[k]
    ensures Partway(mem, rnode, height, b0, b1, brk, at, vals, items.Keys, index, height + 1, t0, t1)
  {
    var w, w' := Settled(at, items, t0, t1), Inserting(at, vals, items.Keys, index, height + 1, t0, t1);
    forall c: nat, x: nat | c <= height ensures PlaceSame(w, w', c, x) {
      assert See(w'.keys, c) == See(w.keys, c) == items.Keys;
    }
    forall q | q in at && Below(w.keys, at[q].h, at[q].pre) ensures Below(w'.keys, at[q].h, at[q].pre) {
      AnyAdd(items.Keys, index, at[q].h, at[q].pre);
    }
    SameNodes(w, w', mem, height);
    LinkSame(w, w', rnode, b0, b1, height, 0);
  }

  lemma EndInsert(mem: Mem, rnode: Ptr, height: nat, b0: bool, b1: bool, brk: Ptr, at: map<Ptr, Label>,
                  vals: map<nat, Ptr>, keys: set<nat>,
                  index: nat, t0: set<nat>, t1: set<nat>)
    requires Partway(mem, rnode, height, b0, b1, brk, at, vals, keys, index, 0, t0, t1)
    requires vals.Keys == keys + {index} && Sets(vals, t0, t1) && height <= MAX_HEIGHT && Fit(keys, height)
    ensures Good(mem, rnode, height, b0, b1, brk, at, vals, t0, t1)
  {
    var w, w' := Inserting(at, vals, keys, index, 0, t0, t1), Settled(at, vals, t0, t1);
    forall c: nat, x: nat ensures PlaceSame(w, w', c, x) {
      assert See(w'.keys, c) == See(w.keys, c);
    }
    forall q | q in at && Below(w.keys, at[q].h, at[q].pre) ensures Below(w'.keys, at[q].h, at[q].pre) {
      assert PlaceSame(w, w', at[q].h, at[q].pre);
    }
    SameNodes(w, w', mem, height);
    LinkSame(w, w', rnode, b0, b1, height, 0);
  }

  /** The link that the loop of `radix_tree_insert` has reached: the root, or a slot of `node`. */
  ghost predicate Current(mem: Mem, rnode: Ptr, height: nat, at: map<Ptr, Label>, index: nat, h: nat, node: Ptr,
                          offset: nat, slot: Ptr) {
    if node == NULL then h == height && slot == rnode
    else
      && h < height && node in mem && node in at && at[node] == Label(h + 1, Up(index, h + 1))
        && offset == Offset(index, h + 1)
      && Shaped(mem[node]) && slot == mem[node].slots[offset]
  }

  lemma CurrentLink(mem: Mem, rnode: Ptr, height: nat, b0: bool, b1: bool, brk: Ptr, at: map<Ptr, Label>,
                    vals: map<nat, Ptr>, keys: set<nat>,
                    index: nat, h: nat, t0: set<nat>, t1: set<nat>, node: Ptr, offset: nat, slot: Ptr)
    requires Partway(mem, rnode, height, b0, b1, brk, at, vals, keys, index, h + 1, t0, t1)
    requires Current(mem, rnode, height, at, index, h, node, offset, slot)
    ensures slot != NULL <==> Any(keys, h, Up(index, h))
    ensures slot != NULL ==> TargetOk(Inserting(at, vals, keys, index, h + 1, t0, t1), slot, h, Up(index, h))
  {
    var w := Inserting(at, vals, keys, index, h + 1, t0, t1);
    if node != NULL {
      StepDown(w, mem, height, node, index, h + 1);
    }
  }

  /** Lines 218-227: the node at height `h` on the path, new if need be. */
  method Child(r: RadixRoot, node: Ptr, offset: nat, slot0: Ptr, index: nat, h: nat, ghost vals: map<nat, Ptr>,
               ghost keys: set<nat>)
    returns (slot: Ptr)
    requires h >= 1 && Partway(r.mem, r.rnode, r.height, r.tag0, r.tag1, r.brk, r.at, vals, keys, index, h + 1,
      r.tagged0, r.tagged1)
    requires Current(r.mem, r.rnode, r.height, r.at, index, h, node, offset, slot0)
    modifies r`mem, r`rnode, r`at, r`brk
    ensures Partway(r.mem, r.rnode, r.height, r.tag0, r.tag1, r.brk, r.at, vals, keys, index, h, r.tagged0, r.tagged1)
    ensures slot in r.mem && slot in r.at && r.at[slot] == Label(h, Up(index, h)) && slot != NULL && h <= r.height
    ensures index in keys ==> r.mem == old(r.mem) && r.rnode == old(r.rnode)
  {
    CurrentLink(r.mem, r.rnode, r.height, r.tag0, r.tag1, r.brk, r.at, vals, keys, index, h, r.tagged0, r.tagged1,
      node, offset, slot0);
    if slot0 == NULL {
      slot := r.brk;
      if node != NULL {
        r.mem := r.mem[node := FillSlot(r.mem[node], offset, slot)];
        ghost var mem1 := r.mem;
        r.mem := r.mem[slot := Blank()];
        r.at := r.at[slot := Label(h, Up(index, h))];
        NewChild(old(r.mem), r.rnode, r.height, r.tag0, r.tag1, r.brk, old(r.at), vals, keys, index, h, r.tagged0,
          r.tagged1, node, mem1, r.mem, r.at);
      } else {
        r.mem := r.mem[slot := Blank()];
        r.at := r.at[slot := Label(h, 0)];
        NewRoot(old(r.mem), r.rnode, r.height, r.tag0, r.tag1, r.brk, old(r.at), vals, keys, index, r.tagged0,
          r.tagged1, r.mem, r.at);
        r.rnode := slot;
      }
      r.brk := slot + 1;
      if index in keys {
        AnyOf(keys, index, h);
      }
    } else {
      slot := slot0;
      ChildExists(r.mem, r.rnode, r.height, r.tag0, r.tag1, r.brk, r.at, vals, keys, index, h, r.tagged0, r.tagged1);
    }
  }

  const EEXIST: int := 17

  /** Lines 212-235: down the path of `index`, to the place of its item. */
  method MakePath(r: RadixRoot, index: nat, ghost vals: map<nat, Ptr>, ghost keys: set<nat>)
    returns (node: Ptr, offset: nat, slot: Ptr)
    requires Partway(r.mem, r.rnode, r.height, r.tag0, r.tag1, r.brk, r.at, vals, keys, index, r.height + 1, r.tagged0,
      r.tagged1)
    modifies r`mem, r`rnode, r`at, r`brk
    ensures Partway(r.mem, r.rnode, r.height, r.tag0, r.tag1, r.brk, r.at, vals, keys, index, 1, r.tagged0, r.tagged1)
    ensures Current(r.mem, r.rnode, r.height, r.at, index, 0, node, offset, slot)
    ensures index in keys ==> r.mem == old(r.mem) && r.rnode == old(r.rnode)
  {
    slot, node, offset := r.rnode, NULL, 0;
    var h := r.height;
    while h > 0
      invariant 0 <= h <= r.height && Partway(r.mem, r.rnode, r.height, r.tag0, r.tag1, r.brk, r.at, vals, keys, index,
        h + 1, r.tagged0, r.tagged1)
      invariant Current(r.mem, r.rnode, r.height, r.at, index, h, node, offset, slot)
      invariant index in keys ==> r.mem == old(r.mem) && r.rnode == old(r.rnode)
    {
      slot := Child(r, node, offset, slot, index, h, vals, keys);
      StepDown(Inserting(r.at, vals, keys, index, h, r.tagged0, r.tagged1), r.mem, r.height, slot, index, h);
      offset := SlotFor(index, h);
      node := slot;
      slot := r.mem[node].slots[offset];
      h := h - 1;
    }
  }

  /** Lines 212-251: into a tree that is high enough. */
  method InsertBelow(r: RadixRoot, index: nat, item: Ptr) returns (err: int)
    requires r.Consistent() && index < U64 && item != NULL && Up(index, r.height) == 0
    modifies r`mem, r`rnode, r`at, r`brk, r`items
    ensures r.Consistent()
    ensures index in old(r.items) ==>
      err == -EEXIST && r.items == old(r.items) && r.mem == old(r.mem) && r.rnode == old(r.rnode)
    ensures index !in old(r.items) ==> err == 0 && r.items == old(r.items)[index := item]
  {
    ghost var keys, vals := r.items.Keys, WithItem(r.items, index, item);
    WithItemSets(r.items, index, item, r.tagged0, r.tagged1);
    StartInsert(r.mem, r.rnode, r.height, r.tag0, r.tag1, r.brk, r.at, r.items, vals, index, r.tagged0, r.tagged1);
    err := Enter(r, index, item, vals, keys);
    r.items := vals;
  }

  /** The path is made, and the item put in. */
  method Enter(r: RadixRoot, index: nat, item: Ptr, ghost vals: map<nat, Ptr>, ghost keys: set<nat>) returns (err: int)
    requires Partway(r.mem, r.rnode, r.height, r.tag0, r.tag1, r.brk, r.at, vals, keys, index, r.height + 1, r.tagged0,
      r.tagged1)
    requires vals.Keys == keys + {index} && Sets(vals, r.tagged0, r.tagged1) && r.height <= MAX_HEIGHT
      && Fit(keys, r.height)
    requires item != NULL && (index !in keys ==> vals[index] == item)
    modifies r`mem, r`rnode, r`at, r`brk
    ensures Good(r.mem, r.rnode, r.height, r.tag0, r.tag1, r.brk, r.at, vals, r.tagged0, r.tagged1)
    ensures if index in keys then err == -EEXIST && r.mem == old(r.mem) && r.rnode == old(r.rnode) else err == 0
  {
    var node, offset, slot := MakePath(r, index, vals, keys);
    err := Place(r, node, offset, slot, index, item, vals, keys);
    EndInsert(r.mem, r.rnode, r.height, r.tag0, r.tag1, r.brk, r.at, vals, keys, index, r.tagged0, r.tagged1);
  }

  ghost function WithItem(items: map<nat, Ptr>, index: nat, item: Ptr): map<nat, Ptr> {
    if index in items then items else items[index := item]
  }

  lemma WithItemSets(items: map<nat, Ptr>, index: nat, item: Ptr, t0: set<nat>, t1: set<nat>)
    requires Sets(items, t0, t1) && index < U64 && item != NULL
    ensures var vals := WithItem(items, index, item); Sets(vals, t0, t1) && vals.Keys == items.Keys + {index}
    ensures forall k :: k in items ==> k in WithItem(items, index, item) && WithItem(items, index, item)[k] == items[k]
  {
  }

  /** Lines 240-249: the item, into the slot reached; its tag bits are clear. */
  method Store(r: RadixRoot, node: Ptr, offset: nat, index: nat, item: Ptr, ghost vals: map<nat, Ptr>,
               ghost keys: set<nat>)
    requires Partway(r.mem, r.rnode, r.height, r.tag0, r.tag1, r.brk, r.at, vals, keys, index, 1, r.tagged0, r.tagged1)
    requires Current(r.mem, r.rnode, r.height, r.at, index, 0, node, offset, NULL)
    requires item != NULL && index in vals && vals[index] == item
    modifies r`mem, r`rnode
    ensures Partway(r.mem, r.rnode, r.height, r.tag0, r.tag1, r.brk, r.at, vals, keys, index, 0, r.tagged0, r.tagged1)
  {
    if node != NULL {
      r.mem := r.mem[node := FillSlot(r.mem[node], offset, item)];
      PutItem(old(r.mem), r.rnode, r.height, r.tag0, r.tag1, r.brk, r.at, vals, keys, index, r.tagged0, r.tagged1,
        node, r.mem);
      assert !r.mem[node].tags[0][offset] && !r.mem[node].tags[1][offset];
    } else {
      PutRoot(r.mem, r.rnode, r.height, r.tag0, r.tag1, r.brk, r.at, vals, keys, index, r.tagged0, r.tagged1);
      r.rnode := item;
      assert !r.tag0 && !r.tag1;
    }
  }

  /** Lines 237-251: what is in the slot decides. */
  method Place(r: RadixRoot, node: Ptr, offset: nat, slot: Ptr, index: nat, item: Ptr, ghost vals: map<nat, Ptr>,
               ghost keys: set<nat>)
    returns (err: int)
    requires Partway(r.mem, r.rnode, r.height, r.tag0, r.tag1, r.brk, r.at, vals, keys, index, 1, r.tagged0, r.tagged1)
    requires Current(r.mem, r.rnode, r.height, r.at, index, 0, node, offset, slot)
    requires item != NULL && index in vals && (index !in keys ==> vals[index] == item)
    modifies r`mem, r`rnode
    ensures Partway(r.mem, r.rnode, r.height, r.tag0, r.tag1, r.brk, r.at, vals, keys, index, 0, r.tagged0, r.tagged1)
    ensures if index in keys then err == -EEXIST && r.mem == old(r.mem) && r.rnode == old(r.rnode) else err == 0
  {
    CurrentLink(r.mem, r.rnode, r.height, r.tag0, r.tag1, r.brk, r.at, vals, keys, index, 0, r.tagged0, r.tagged1,
      node, offset, slot);
    AnyItself(keys, index);
    if slot != NULL {
      ChildExists(r.mem, r.rnode, r.height, r.tag0, r.tag1, r.brk, r.at, vals, keys, index, 0, r.tagged0, r.tagged1);
      return -EEXIST;
    }
    Store(r, node, offset, index, item, vals, keys);
    return 0;
  }

  lemma PutRoot(mem: Mem, rnode: Ptr, height: nat, b0: bool, b1: bool, brk: Ptr, at: map<Ptr, Label>,
                vals: map<nat, Ptr>, keys: set<nat>,
                index: nat, t0: set<nat>, t1: set<nat>)
    requires Partway(mem, rnode, height, b0, b1, brk, at, vals, keys, index, 1, t0, t1) && height == 0 && rnode == NULL
    requires index in vals && vals[index] != NULL
    ensures Partway(mem, vals[index], height, b0, b1, brk, at, vals, keys, index, 0, t0, t1) && !b0 && !b1
  {
    var w, w' := Inserting(at, vals, keys, index, 1, t0, t1), Inserting(at, vals, keys, index, 0, t0, t1);
    KeyMoves(at, at, vals, keys, index, 0, t0, t1, height);
    AnyAdd(keys, index, 0, 0);
    KeepPlaces(w, w', mem, height, height);
    AnyItself(keys, 0);
    AnyItself(t0, 0);
    AnyItself(t1, 0);
  }

  /** `radix_tree_insert`, lines 197-252. */
  method Insert(r: RadixRoot, index: nat, item: Ptr) returns (err: int)
    requires r.Valid() && index < U64 && item != NULL
    modifies r`mem, r`rnode, r`height, r`at, r`brk, r`items
    ensures r.Valid()
    ensures index in old(r.items) ==>
      err == -EEXIST && r.items == old(r.items) && r.mem == old(r.mem) && r.rnode == old(r.rnode)
      && r.height == old(r.height)
    ensures index !in old(r.items) ==> err == 0 && r.items == old(r.items)[index := item]
  {
    MaxIndexIs(index, r.height);
    if index > MaxIndex(r.height) {
      Extend(r, index);
    }
    err := InsertBelow(r, index, item);
    StillMinimal(old(r.items), r.items, old(r.height), r.height, index);
  }

  lemma StillMinimal(items: map<nat, Ptr>, items': map<nat, Ptr>, height: nat, height': nat, index: nat)
    requires Minimal(items.Keys, height) && items.Keys + {index} == items'.Keys
    requires height' == height || (height' > 0 && Up(index, height' - 1) != 0)
    ensures Minimal(items'.Keys, height')
  {
  }
}
