/** Setting and clearing the tag of an item in a radix tree. */
module RadixTags {
  import opened RadixIndex
  import opened RadixShape
  import opened RadixUpdate

  ghost function WithTag(w: World, tag: nat, v: View): World {
    if tag == 0 then w.(tags0 := v) else w.(tags1 := v)
  }

  function SetBit(n: Node, tag: nat, i: nat, b: bool): Node
    requires tag < |n.tags| && i < |n.tags[tag]|
  {
    n.(tags := n.tags[tag := n.tags[tag][i := b]])
  }

  /** Places off the path of `index` see no difference between the sets. */
  ghost predicate Near(s: set<nat>, s': set<nat>, index: nat) {
    forall c: nat, x: nat {:trigger Any(s, c, x)} {:trigger Any(s', c, x)} :: x != Up(index, c) ==>
      (Any(s, c, x) <==> Any(s', c, x))
  }

  lemma NearAdd(s: set<nat>, index: nat)
    ensures Near(s, s + {index}, index)
  {
    forall c: nat, x: nat | x != Up(index, c) ensures Any(s, c, x) <==> Any(s + {index}, c, x) {
      AnyAdd(s, index, c, x);
    }
  }

  lemma NearRemove(s: set<nat>, index: nat)
    ensures Near(s, s - {index}, index)
  {
    forall c: nat, x: nat | x != Up(index, c) ensures Any(s, c, x) <==> Any(s - {index}, c, x) {
      AnyRemove(s, index, c, x);
    }
  }

  /** Moving the split over one level matters only at the place of that level on the path. */
  lemma TagMoves(w: World, tag: nat, a: nat, b: nat, lo: set<nat>, hi: set<nat>, index: nat, height: nat)
    requires tag < 2 && Near(lo, hi, index) && (a == b + 1 || b == a + 1)
    ensures var c := if a < b then a else b;
      AgreeBut(WithTag(w, tag, View(a, lo, hi)), WithTag(w, tag, View(b, lo, hi)), height, c, Up(index, c))
  {
    var v, v' := View(a, lo, hi), View(b, lo, hi);
    var m := if a < b then a else b;
    forall c: nat, x: nat | c < height && !(c == m && x == Up(index, m))
      ensures PlaceSame(WithTag(w, tag, v), WithTag(w, tag, v'), c, x) {
      assert Below(v, c, x) <==> Below(v', c, x);
    }
  }

  lemma SetBitDiffers(n: Node, tag: nat, i: nat, b: bool)
    requires Shaped(n) && tag < 2 && i < MAP_SIZE
    ensures DiffersAt(n, SetBit(n, tag, i, b), i)
  {
  }

  lemma BitEntry(w: World, tag: nat, v: View, v': View, n: Node, lab: Label, i: nat, bit: bool)
    requires tag < 2 && Shaped(n) && lab.h >= 1 && i < MAP_SIZE && EntryOk(WithTag(w, tag, v), n, lab, i)
    requires bit <==> Below(v', lab.h - 1, lab.pre * MAP_SIZE + i)
    ensures Shaped(SetBit(n, tag, i, bit)) && EntryOk(WithTag(w, tag, v'), SetBit(n, tag, i, bit), lab, i)
  {
  }

  /** A tag bit on the path of `index` changes to what the moved split asks for. */
  lemma BitStep(w: World, tag: nat, a: nat, b: nat, lo: set<nat>, hi: set<nat>, index: nat, mem: Mem, height: nat,
                p: Ptr, h: nat, bit: bool)
    requires tag < 2 && h >= 1 && Near(lo, hi, index) && ((a == h && b == h - 1) || (a == h - 1 && b == h))
    requires NodesOk(WithTag(w, tag, View(a, lo, hi)), mem, height) && p in mem && p in w.at
      && w.at[p] == Label(h, Up(index, h)) && Shaped(mem[p])
    requires bit <==> Below(View(b, lo, hi), h - 1, Up(index, h - 1))
    ensures NodesOk(WithTag(w, tag, View(b, lo, hi)), mem[p := SetBit(mem[p], tag, Offset(index, h), bit)], height)
  {
    var w1, w2 := WithTag(w, tag, View(a, lo, hi)), WithTag(w, tag, View(b, lo, hi));
    var i := Offset(index, h);
    TagMoves(w, tag, a, b, lo, hi, index, height);
    SetBitDiffers(mem[p], tag, i, bit);
    assert PlaceOk(w1, mem, p, height);
    assert EntryOk(w1, mem[p], w.at[p], i);
    BitEntry(w, tag, View(a, lo, hi), View(b, lo, hi), mem[p], w.at[p], i, bit);
    ChangeSlot(w1, w2, mem, mem[p := SetBit(mem[p], tag, i, bit)], height, p, i);
  }

  /** The split has passed all nodes, or what it would still pass makes no difference. */
  lemma Finish(w: World, tag: nat, v: View, s: set<nat>, mem: Mem, height: nat)
    requires tag < 2 && NodesOk(WithTag(w, tag, v), mem, height)
    requires forall c: nat, x: nat {:trigger Below(v, c, x)} :: c < height ==> (Below(v, c, x) <==> Any(s, c, x))
    ensures NodesOk(WithTag(w, tag, Whole(s)), mem, height)
  {
    var w1, w2 := WithTag(w, tag, v), WithTag(w, tag, Whole(s));
    forall c: nat, x: nat | c < height && !(c == height && x == 0) ensures PlaceSame(w1, w2, c, x) {
      assert Below(v, c, x) <==> Below(Whole(s), c, x);
    }
    SameNodes(w1, w2, mem, height);
  }

  method SetRootTag(r: RadixRoot, tag: nat, b: bool)
    modifies r`tag0, r`tag1
    ensures if tag == 0 then r.tag0 == b && r.tag1 == old(r.tag1) else r.tag0 == old(r.tag0) && r.tag1 == b
  {
    if tag == 0 {
      r.tag0 := b;
    } else {
      r.tag1 := b;
    }
  }

  ghost method SetTagged(r: RadixRoot, tag: nat, s: set<nat>)
    modifies r`tagged0, r`tagged1
    ensures if tag == 0 then r.tagged0 == s && r.tagged1 == old(r.tagged1)
      else r.tagged0 == old(r.tagged0) && r.tagged1 == s
  {
    if tag == 0 {
      r.tagged0 := s;
    } else {
      r.tagged1 := s;
    }
  }

  lemma SetBitSame(mem: Mem, p: Ptr, tag: nat, i: nat, b: bool)
    requires p in mem && tag < |mem[p].tags| && i < |mem[p].tags[tag]| && mem[p].tags[tag][i] == b
    ensures mem[p := SetBit(mem[p], tag, i, b)] == mem
  {
    var n := mem[p];
    assert n.tags[tag][i := b] == n.tags[tag];
    assert n.tags[tag := n.tags[tag]] == n.tags;
  }

  /** Lines 341-347: one level of the path. */
  method SetOnPath(r: RadixRoot, p: Ptr, index: nat, h: nat, tag: nat, ghost w: World, ghost s: set<nat>)
    returns (slot: Ptr)
    requires tag < 2 && h >= 1 && index in w.vals && index in w.keys.lo && w.keys.lo == w.keys.hi && w.hole == NOWHERE
    requires p in r.mem && TargetOk(w, p, h, Up(index, h)) && Fresh(r.mem, r.brk)
    requires NodesOk(WithTag(w, tag, View(h, s, s + {index})), r.mem, r.height)
    modifies r`mem
    ensures NodesOk(WithTag(w, tag, View(h - 1, s, s + {index})), r.mem, r.height) && Fresh(r.mem, r.brk)
    ensures slot != NULL && TargetOk(w, slot, h - 1, Up(index, h - 1)) && (h > 1 ==> slot in r.mem)
  {
    ghost var s' := s + {index};
    NearAdd(s, index);
    var i := SlotFor(index, h);
    StepDown(WithTag(w, tag, View(h, s, s')), r.mem, r.height, p, index, h);
    AnyOf(w.keys.lo, index, h - 1);
    AnyOf(s', index, h - 1);
    BitStep(w, tag, h, h - 1, s, s', index, r.mem, r.height, p, h, true);
    var n := r.mem[p];
    if !n.tags[tag][i] {
      r.mem := r.mem[p := SetBit(n, tag, i, true)];
    } else {
      SetBitSame(r.mem, p, tag, i, true);
    }
    slot := n.slots[i];
  }

  /** Lines 338-348: all levels of the path. */
  method SetPath(r: RadixRoot, index: nat, tag: nat, ghost w: World, ghost s: set<nat>) returns (slot: Ptr)
    requires tag < 2 && index in w.vals && index in w.keys.lo && w.keys.lo == w.keys.hi && w.hole == NOWHERE
    requires r.rnode != NULL && TargetOk(w, r.rnode, r.height, Up(index, r.height))
      && (r.height > 0 ==> r.rnode in r.mem)
    requires NodesOk(WithTag(w, tag, View(r.height, s, s + {index})), r.mem, r.height) && Fresh(r.mem, r.brk)
    modifies r`mem
    ensures NodesOk(WithTag(w, tag, View(0, s, s + {index})), r.mem, r.height) && Fresh(r.mem, r.brk)
    ensures slot == w.vals[index]
  {
    slot := r.rnode;
    var h := r.height;
    while h > 0
      invariant 0 <= h <= r.height && slot != NULL && TargetOk(w, slot, h, Up(index, h)) && (h > 0 ==> slot in r.mem)
      invariant NodesOk(WithTag(w, tag, View(h, s, s + {index})), r.mem, r.height) && Fresh(r.mem, r.brk)
    {
      slot := SetOnPath(r, slot, index, h, tag, w, s);
      h := h - 1;
    }
  }

  /** `radix_tree_tag_set`, lines 326-355, for an index that is present. */
  method TagSet(r: RadixRoot, index: nat, tag: nat) returns (slot: Ptr)
    requires r.Valid() && tag < 2 && index in r.items
    modifies r
    ensures r.Valid() && r.items == old(r.items) && slot == r.items[index]
    ensures r.Tagged(tag) == old(r.Tagged(tag)) + {index} && r.Tagged(1 - tag) == old(r.Tagged(1 - tag))
  {
    ghost var w, s := r.Here(), r.Tagged(tag);
    MaxIndexIs(index, r.height);
    assert index <= MaxIndex(r.height);
    AnyOf(r.items.Keys, index, r.height);
    Start(w, tag, View(r.height, s, s + {index}), s, r.mem, r.height);
    slot := SetPath(r, index, tag, w, s);
    SetRootTag(r, tag, true);
    SetTagged(r, tag, s + {index});
    TagAdded(r.mem, r.rnode, r.height, old(r.tag0), old(r.tag1), r.brk, r.at, r.items, old(r.tagged0), old(r.tagged1),
      tag, index, s,
             r.tag0, r.tag1, r.tagged0, r.tagged1);
  }

  lemma TagAdded(mem: Mem, rnode: Ptr, height: nat, b0: bool, b1: bool, brk: Ptr, at: map<Ptr, Label>,
                 items: map<nat, Ptr>, t0: set<nat>, t1: set<nat>,
                 tag: nat, index: nat, s: set<nat>, b0': bool, b1': bool, t0': set<nat>, t1': set<nat>)
    requires tag < 2 && s == (if tag == 0 then t0 else t1) && index in items
    requires Sets(items, t0, t1) && Fresh(mem, brk) && height <= MAX_HEIGHT && Fit(items.Keys, height)
    requires LinkOk(Settled(at, items, t0, t1), rnode, b0, b1, height, 0)
    requires NodesOk(WithTag(Settled(at, items, t0, t1), tag, View(0, s, s + {index})), mem, height)
    requires tag == 0 ==> b0' && b1' == b1 && t0' == s + {index} && t1' == t1
    requires tag == 1 ==> b0' == b0 && b1' && t0' == t0 && t1' == s + {index}
    ensures Good(mem, rnode, height, b0', b1', brk, at, items, t0', t1')
  {
    var w := Settled(at, items, t0, t1);
    Finish(w, tag, View(0, s, s + {index}), s + {index}, mem, height);
    AnyOf(s + {index}, index, height);
    assert Below(Whole(s + {index}), height, 0);
  }

  lemma AnyOf(s: set<nat>, k: nat, h: nat)
    requires k in s
    ensures Any(s, h, Up(k, h))
  {
  }

  /** Before the first step the split is above all nodes. */
  lemma Start(w: World, tag: nat, v: View, s: set<nat>, mem: Mem, height: nat)
    requires tag < 2 && w == WithTag(w, tag, Whole(s)) && NodesOk(w, mem, height)
    requires forall c: nat :: c < height ==> See(v, c) == s
    ensures NodesOk(WithTag(w, tag, v), mem, height)
  {
    var w' := WithTag(w, tag, v);
    forall c: nat, x: nat | c < height && !(c == height && x == 0) ensures PlaceSame(w, w', c, x) {
      assert Below(v, c, x) <==> Below(Whole(s), c, x);
    }
    SameNodes(w, w', mem, height);
  }

  // ---------------------------------------------------------------- clearing

  /** A node on the path and the slot through which the path goes on. */
  datatype Step = Step(node: Ptr, offset: nat)

  ghost predicate StepOk(st: Step, at: map<Ptr, Label>, index: nat, h: nat)
    requires h >= 1
  {
    st.node in at && at[st.node] == Label(h, Up(index, h)) && st.offset == Offset(index, h)
  }

  /** The nodes from the root to the item, the root first. */
  ghost predicate PathOk(path: seq<Step>, at: map<Ptr, Label>, index: nat, height: nat) {
    |path| <= height && forall j {:trigger path[j]} :: 0 <= j < |path| ==> StepOk(path[j], at, index, height - j)
  }

  lemma PathStep(path: seq<Step>, at: map<Ptr, Label>, index: nat, height: nat, st: Step)
    requires |path| < height && PathOk(path, at, index, height) && StepOk(st, at, index, height - |path|)
    ensures PathOk(path + [st], at, index, height)
  {
  }

  /** Lines 378-399 and 710-735: the path of an index, and what it leads to. */
  method FindPath(r: RadixRoot, index: nat, ghost w: World) returns (path: seq<Step>, slot: Ptr)
    requires NodesOk(w, r.mem, r.height) && LinkOk(w, r.rnode, r.tag0, r.tag1, r.height, Up(index, r.height))
    requires w.hole == NOWHERE && w.keys == Whole(w.vals.Keys) && forall k :: k in w.vals ==> w.vals[k] != NULL
    ensures slot == if index in w.vals then w.vals[index] else NULL
    ensures slot != NULL ==> |path| == r.height && PathOk(path, w.at, index, r.height)
  {
    path, slot := [], r.rnode;
    var h := r.height;
    ghost var b0, b1 := r.tag0, r.tag1;
    while h > 0
      invariant 0 <= h <= r.height && LinkOk(w, slot, b0, b1, h, Up(index, h))
      invariant |path| == r.height - h && PathOk(path, w.at, index, r.height)
    {
      if slot == NULL {
        NothingBelow(w.vals.Keys, index, h);
        return;
      }
      StepDown(w, r.mem, r.height, slot, index, h);
      var i := SlotFor(index, h);
      PathStep(path, w.at, index, r.height, Step(slot, i));
      path := path + [Step(slot, i)];
      b0, b1 := r.mem[slot].tags[0][i], r.mem[slot].tags[1][i];
      slot, h := r.mem[slot].slots[i], h - 1;
    }
    AnyItself(w.vals.Keys, index);
  }

  predicate AnyTagSet(n: Node, tag: nat)
    requires tag < |n.tags|
  {
    exists i :: 0 <= i < |n.tags[tag]| && n.tags[tag][i]
  }

  /** The tag bits of a node tell whether anything below its place is tagged. */
  lemma BitsBelow(w: World, tag: nat, v: View, n: Node, lab: Label)
    requires tag < 2 && NodeOk(WithTag(w, tag, v), n, lab)
    ensures AnyTagSet(n, tag) <==> Any(See(v, lab.h - 1), lab.h, lab.pre)
  {
    var w', s := WithTag(w, tag, v), See(v, lab.h - 1);
    if Any(s, lab.h, lab.pre) {
      var k :| k in s && Up(k, lab.h) == lab.pre;
      var i := Offset(k, lab.h);
      assert EntryOk(w', n, lab, i);
      AnyOf(s, k, lab.h - 1);
      assert n.tags[tag][i];
    }
    if AnyTagSet(n, tag) {
      var i :| 0 <= i < |n.tags[tag]| && n.tags[tag][i];
      assert EntryOk(w', n, lab, i);
      var k :| k in s && Up(k, lab.h - 1) == lab.pre * MAP_SIZE + i;
      assert Up(k, lab.h) == lab.pre;
    }
  }

  /** If something else remains below a place on the path, higher places see no difference. */
  lemma Remaining(s: set<nat>, index: nat, h: nat, c: nat, x: nat)
    requires Any(s - {index}, h, Up(index, h)) && h <= c
    ensures Any(s - {index}, c, x) <==> Any(s, c, x)
  {
    if x == Up(index, c) {
      var k :| k in s - {index} && Up(k, h) == Up(index, h);
      SameUp(k, index, h, c);
      AnyOf(s - {index}, k, c);
      AnyOf(s, k, c);
    } else {
      AnyRemove(s, index, c, x);
    }
  }

  /** The nodes agree with the set without `index`, and what is left to do at the root. */
  ghost predicate Cleared(w: World, tag: nat, s: set<nat>, index: nat, mem: Mem, height: nat, all: bool) {
    && tag < 2 && NodesOk(WithTag(w, tag, Whole(s - {index})), mem, height)
    && (if all then !Any(s - {index}, height, Up(index, height))
        else Any(s - {index}, height, Up(index, height)) <==> Any(s, height, Up(index, height)))
  }

  lemma ClearedEarly(w: World, tag: nat, s: set<nat>, index: nat, mem: Mem, height: nat, h: nat)
    requires tag < 2 && h <= height && NodesOk(WithTag(w, tag, View(h, s - {index}, s)), mem, height)
    requires index !in s || Any(s - {index}, h, Up(index, h))
    ensures Cleared(w, tag, s, index, mem, height, false)
  {
    var s' := s - {index};
    var v := View(h, s', s);
    if index !in s {
      assert s' == s;
    } else {
      forall c: nat, x: nat {:trigger Below(v, c, x)} | c <= height ensures Below(v, c, x) <==> Any(s', c, x) {
        if h <= c { Remaining(s, index, h, c, x); }
      }
      Remaining(s, index, h, height, Up(index, height));
    }
    Finish(w, tag, v, s', mem, height);
  }

  /** Lines 405-409: one level up the path. */
  method ClearOnPath(r: RadixRoot, st: Step, index: nat, h: nat, tag: nat, ghost w: World, ghost s: set<nat>)
    returns (more: bool)
    requires tag < 2 && 1 <= h <= r.height && StepOk(st, w.at, index, h) && Fresh(r.mem, r.brk)
    requires NodesOk(WithTag(w, tag, View(h - 1, s - {index}, s)), r.mem, r.height)
      && !Any(s - {index}, h - 1, Up(index, h - 1))
    modifies r`mem
    ensures Fresh(r.mem, r.brk)
    ensures !more ==> Cleared(w, tag, s, index, r.mem, r.height, false)
    ensures more ==>
      NodesOk(WithTag(w, tag, View(h, s - {index}, s)), r.mem, r.height) && !Any(s - {index}, h, Up(index, h))
  {
    ghost var s' := s - {index};
    ghost var v, v' := View(h - 1, s', s), View(h, s', s);
    NearRemove(s, index);
    StepDown(WithTag(w, tag, v), r.mem, r.height, st.node, index, h);
    var n := r.mem[st.node];
    if !n.tags[tag][st.offset] {
      NothingBelow(s, index, h - 1);
      ClearedEarly(w, tag, s, index, r.mem, r.height, h - 1);
      return false;
    }
    BitStep(w, tag, h - 1, h, s', s, index, r.mem, r.height, st.node, h, false);
    r.mem := r.mem[st.node := SetBit(n, tag, st.offset, false)];
    assert PlaceOk(WithTag(w, tag, v'), r.mem, st.node, r.height);
    BitsBelow(w, tag, v', r.mem[st.node], w.at[st.node]);
    if AnyTagSet(r.mem[st.node], tag) {
      ClearedEarly(w, tag, s, index, r.mem, r.height, h);
      return false;
    }
    return true;
  }

  method ClearPath(r: RadixRoot, path: seq<Step>, index: nat, tag: nat, ghost w: World, ghost s: set<nat>)
    returns (all: bool)
    requires tag < 2 && |path| == r.height && PathOk(path, w.at, index, r.height) && Fresh(r.mem, r.brk)
    requires w == WithTag(w, tag, Whole(s)) && NodesOk(w, r.mem, r.height)
    modifies r`mem
    ensures Fresh(r.mem, r.brk) && Cleared(w, tag, s, index, r.mem, r.height, all)
  {
    var j := |path|;
    ghost var s' := s - {index};
    Start(w, tag, View(0, s', s), s, r.mem, r.height);
    AnyItself(s', index);
    while j > 0
      invariant 0 <= j <= |path| && Fresh(r.mem, r.brk)
      invariant NodesOk(WithTag(w, tag, View(r.height - j, s', s)), r.mem, r.height)
        && !Any(s', r.height - j, Up(index, r.height - j))
    {
      var more := ClearOnPath(r, path[j - 1], index, r.height - (j - 1), tag, w, s);
      if !more {
        return false;
      }
      j := j - 1;
    }
    Finish(w, tag, View(r.height, s', s), s', r.mem, r.height);
    return true;
  }

  lemma TagRemoved(mem: Mem, rnode: Ptr, height: nat, b0: bool, b1: bool, brk: Ptr, at: map<Ptr, Label>,
                   items: map<nat, Ptr>, t0: set<nat>, t1: set<nat>,
                   tag: nat, index: nat, s: set<nat>, all: bool, b0': bool, b1': bool, t0': set<nat>, t1': set<nat>)
    requires tag < 2 && s == (if tag == 0 then t0 else t1) && Up(index, height) == 0
    requires Sets(items, t0, t1) && Fresh(mem, brk) && height <= MAX_HEIGHT && Fit(items.Keys, height)
    requires LinkOk(Settled(at, items, t0, t1), rnode, b0, b1, height, 0)
    requires Cleared(Settled(at, items, t0, t1), tag, s, index, mem, height, all)
    requires tag == 0 ==> b0' == (b0 && !all) && b1' == b1 && t0' == s - {index} && t1' == t1
    requires tag == 1 ==> b0' == b0 && b1' == (b1 && !all) && t0' == t0 && t1' == s - {index}
    ensures Good(mem, rnode, height, b0', b1', brk, at, items, t0', t1')
  {
    assert Below(Whole(s - {index}), height, 0) <==> Any(s - {index}, height, 0);
    assert Below(Whole(s), height, 0) <==> Any(s, height, 0);
  }

  /** Lines 404-415: from the item back to the root. */
  method ClearTag(r: RadixRoot, path: seq<Step>, index: nat, tag: nat)
    requires r.Consistent() && tag < 2 && Up(index, r.height) == 0 && |path| == r.height
      && PathOk(path, r.at, index, r.height)
    modifies r`mem, r`tag0, r`tag1, r`tagged0, r`tagged1
    ensures r.Consistent()
    ensures r.Tagged(tag) == old(r.Tagged(tag)) - {index} && r.Tagged(1 - tag) == old(r.Tagged(1 - tag))
  {
    ghost var w, s := r.Here(), r.Tagged(tag);
    var all := ClearPath(r, path, index, tag, w, s);
    if all {
      SetRootTag(r, tag, false);
    }
    SetTagged(r, tag, s - {index});
    TagRemoved(r.mem, r.rnode, r.height, old(r.tag0), old(r.tag1), r.brk, r.at, r.items, old(r.tagged0),
      old(r.tagged1), tag, index, s, all,
               r.tag0, r.tag1, r.tagged0, r.tagged1);
  }

  /** `radix_tree_tag_clear`, lines 371-419. */
  method TagClear(r: RadixRoot, index: nat, tag: nat) returns (slot: Ptr)
    requires r.Valid() && tag < 2 && index < U64
    modifies r`mem, r`tag0, r`tag1, r`tagged0, r`tagged1
    ensures r.Valid()
    ensures slot == if index in r.items then r.items[index] else NULL
    ensures r.Tagged(tag) == old(r.Tagged(tag)) - {index} && r.Tagged(1 - tag) == old(r.Tagged(1 - tag))
  {
    MaxIndexIs(index, r.height);
    if index > MaxIndex(r.height) {
      return NULL;
    }
    var path;
    path, slot := FindPath(r, index, r.Here());
    if slot != NULL {
      ClearTag(r, path, index, tag);
    }
  }

  /** `radix_tree_tagged`, lines 777-780. */
  method IsTagged(r: RadixRoot, tag: nat) returns (b: bool)
    requires r.Valid() && tag < 2
    ensures b <==> r.Tagged(tag) != {}
  {
    b := if tag == 0 then r.tag0 else r.tag1;
    assert Below(Whole(r.Tagged(tag)), r.height, 0) <==> Any(r.Tagged(tag), r.height, 0);
    if r.Tagged(tag) != {} {
      var k :| k in r.Tagged(tag);
      AnyOf(r.Tagged(tag), k, r.height);
    }
  }
}
