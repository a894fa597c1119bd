/** Taking nodes out of a resource tree, and the regions that are requested and released by range. */
module ResourceRegion {
  import opened Resource

  // ---------------------------------------------------------------- unlinking

  ghost function WithoutKid(kids: Kids, p: Ptr, i: nat): Kids
    requires p in kids && i < |kids[p]|
  {
    kids[p := kids[p][..i] + kids[p][i + 1..]]
  }

  /** The memory after entry `i` of the children of `p` has been bypassed and disowned. */
  ghost function UnlinkedMem(mem: Mem, kids: Kids, p: Ptr, i: nat): Mem
    requires p in mem && p in kids && i < |kids[p]| && kids[p][i] in mem && (i > 0 ==> kids[p][i - 1] in mem)
  {
    var n := kids[p][i];
    SetLink(mem, p, PrevOf(kids[p], i), mem[n].sibling)[n := mem[n].(parent := NULL)]
  }

  lemma UnlinkEntry(mem: Mem, kids: Kids, depth: Depths, p: Ptr, i: nat, mem': Mem, kids': Kids, j: nat)
    requires Linked(mem, kids, depth) && p in mem && i < |kids[p]| && kids[p][i] in mem
      && (i > 0 ==> kids[p][i - 1] in mem)
    requires mem' == UnlinkedMem(mem, kids, p, i) && kids' == WithoutKid(kids, p, i) && j < |kids[p]| - 1
    ensures p in mem' && KidOk(mem', kids', depth, p, j)
  {
    var list := kids[p];
    assert NodeOk(mem, kids, depth, p);
    if i > 0 {
      ChildNotRoot(mem, kids, depth, p, i - 1);
      KidsApart(mem, kids, depth, p, i - 1, i);
    }
    ChildNotRoot(mem, kids, depth, p, i);
    var o := if j < i then j else j + 1;
    ChildNotRoot(mem, kids, depth, p, o);
    if list[o] == list[i] { KidsDistinct(mem, kids, depth, p, o, i); }
    if i > 0 && list[o] == list[i - 1] { KidsDistinct(mem, kids, depth, p, o, i - 1); }
    if j + 1 < |list| - 1 {
      var o' := if j + 1 < i then j + 1 else j + 2;
      ChildNotRoot(mem, kids, depth, p, o');
      if list[o'] == list[i] { KidsDistinct(mem, kids, depth, p, o', i); }
      KidsApart(mem, kids, depth, p, o, o');
    }
  }

  lemma UnlinkParent(mem: Mem, kids: Kids, depth: Depths, p: Ptr, i: nat, mem': Mem, kids': Kids)
    requires Linked(mem, kids, depth) && p in mem && i < |kids[p]| && kids[p][i] in mem
      && (i > 0 ==> kids[p][i - 1] in mem)
    requires mem' == UnlinkedMem(mem, kids, p, i) && kids' == WithoutKid(kids, p, i)
    ensures p in mem' && NodeOk(mem', kids', depth, p)
  {
    assert NodeOk(mem, kids, depth, p);
    ChildNotRoot(mem, kids, depth, p, i);
    if i > 0 { ChildNotRoot(mem, kids, depth, p, i - 1); }
    forall j | 0 <= j < |kids'[p]| ensures KidOk(mem', kids', depth, p, j) {
      UnlinkEntry(mem, kids, depth, p, i, mem', kids', j);
    }
  }

  /** Taking a child out of its list keeps the tree well formed. */
  lemma UnlinkKid(mem: Mem, kids: Kids, depth: Depths, p: Ptr, i: nat, mem': Mem, kids': Kids)
    requires Linked(mem, kids, depth) && p in mem && i < |kids[p]| && kids[p][i] in mem
      && (i > 0 ==> kids[p][i - 1] in mem)
    requires mem' == UnlinkedMem(mem, kids, p, i) && kids' == WithoutKid(kids, p, i)
    ensures Linked(mem', kids', depth)
  {
    var n := kids[p][i];
    ChildNotRoot(mem, kids, depth, p, i);
    if i > 0 { ChildNotRoot(mem, kids, depth, p, i - 1); }
    forall q | q in mem' ensures NodeOk(mem', kids', depth, q) {
      assert NodeOk(mem, kids, depth, q);
      if q == p {
        UnlinkParent(mem, kids, depth, p, i, mem', kids');
      } else {
        forall k | k in kids[q] ensures k in mem && k in mem' && SameOutside(mem[k], mem'[k]) && depth[q] < depth[k] {
          var j := ParentOf(mem, kids, depth, q, k);
        }
        NodeKept(mem, kids, depth, mem', kids', depth, q);
      }
    }
  }

  lemma UnlinkHome(mem: Mem, kids: Kids, p: Ptr, i: nat, mem': Mem, kids': Kids)
    requires Homed(mem, kids) && p in mem && p in kids && i < |kids[p]| && kids[p][i] in mem
    requires i > 0 ==> kids[p][i - 1] in mem
    requires mem' == UnlinkedMem(mem, kids, p, i) && kids' == WithoutKid(kids, p, i)
    ensures Homed(mem', kids')
  {
    var list := kids[p];
    assert list == list[..i] + [list[i]] + list[i + 1..];
    forall q | q in mem' ensures Owned(mem', kids', q) {
      assert Owned(mem, kids, q);
    }
  }

  /**
    Freeing a node that no list holds, whether or not it has children: the other lists stay right, and the
    parent links that go wrong are exactly those of its children.
   */
  lemma FreeNode(mem: Mem, kids: Kids, depth: Depths, n: Ptr, mem': Mem, kids': Kids, depth': Depths)
    requires WellFormed(mem, kids, depth) && n in mem && mem[n].parent == NULL
    requires mem' == mem - {n} && kids' == kids - {n} && depth' == depth - {n}
    ensures Linked(mem', kids', depth') && Orphans(mem', kids', n, kids[n])
    ensures WellFormed(mem', kids', depth') <==> mem[n].child == NULL
  {
    forall p | p in mem' ensures NodeOk(mem', kids', depth', p) {
      assert NodeOk(mem, kids, depth, p);
      forall k | k in kids[p]
        ensures k in mem && k in mem' && SameOutside(mem[k], mem'[k]) && depth'[p] < depth'[k]
      {
        var j := ParentOf(mem, kids, depth, p, k);
        assert NodeOk(mem, kids, depth, n);
      }
      NodeKept(mem, kids, depth, mem', kids', depth', p);
    }
    forall p | p in mem' ensures Owned(mem', kids', p) <==> p !in kids[n] {
      assert Owned(mem, kids, p);
      assert NodeOk(mem, kids, depth, n);
      if p in kids[n] {
        var j := ParentOf(mem, kids, depth, n, p);
      }
    }
    forall k | k in kids[n] ensures k in mem' && mem'[k].parent == n {
      var j := ParentOf(mem, kids, depth, n, k);
    }
    NthOk(mem, kids, depth, n, 0);
    assert NodeOk(mem, kids, depth, n);
    if |kids[n]| > 0 {
      ChildNotRoot(mem, kids, depth, n, 0);
      assert kids[n][0] in kids[n];
      assert !Owned(mem', kids', kids[n][0]);
    }
  }

  /** `n` is gone; the parent links that are wrong are those of `list`. */
  ghost predicate Orphans(mem: Mem, kids: Kids, n: Ptr, list: seq<Ptr>) {
    && n !in mem && n !in kids && (forall k :: k in list ==> k in mem && mem[k].parent == n)
    && forall p {:trigger Owned(mem, kids, p)} :: p in mem ==> (Owned(mem, kids, p) <==> p !in list)
  }

  /** A new node that is linked nowhere. */
  lemma AddLoose(mem: Mem, kids: Kids, depth: Depths, n: Ptr, r: Res)
    requires WellFormed(mem, kids, depth) && n !in mem && n != NULL && r.parent == NULL && r.child == NULL
    requires r.start < U64 && r.end < U64
    ensures WellFormed(mem[n := r], kids[n := []], depth[n := 0.0]) && Loose(mem[n := r], kids[n := []], n)
  {
    var mem', kids', depth' := mem[n := r], kids[n := []], depth[n := 0.0];
    forall p | p in mem' ensures NodeOk(mem', kids', depth', p) {
      if p != n {
        assert NodeOk(mem, kids, depth, p);
        forall k | k in kids[p] ensures k in mem && k in mem' && SameOutside(mem[k], mem'[k]) && depth'[p] < depth'[k] {
          var j := ParentOf(mem, kids, depth, p, k);
        }
        NodeKept(mem, kids, depth, mem', kids', depth', p);
      }
    }
    forall p | p in mem' ensures Owned(mem', kids', p) {
      assert p != n ==> Owned(mem, kids, p);
    }
  }

  /** A new node, as its owner sets it up. */
  method AddNode(t: ResourceTree, n: Ptr, r: Res)
    requires t.Valid() && n !in t.mem && n != NULL && r.parent == NULL && r.child == NULL && r.start < U64
      && r.end < U64
    modifies t
    ensures t.Valid() && t.mem == old(t.mem)[n := r] && t.kids == old(t.kids)[n := []] && Loose(t.mem, t.kids, n)
    ensures t.depth == old(t.depth)[n := 0.0]
  {
    AddLoose(t.mem, t.kids, t.depth, n, r);
    t.mem, t.kids, t.depth := t.mem[n := r], t.kids[n := []], t.depth[n := 0.0];
  }

  const EINVAL: int := 22

  /**
    `__release_resource`, lines 61-80, of a linked node without children. The node is always found among the
    children of its parent, so the error return is never taken.
   */
  method Release(t: ResourceTree, n: Ptr) returns (err: int, ghost at: nat)
    requires t.Valid() && n in t.mem && t.mem[n].child == NULL && t.mem[n].parent != NULL
    modifies t
    ensures t.Valid() && err == 0 && Loose(t.mem, t.kids, n)
    ensures Removed(old(t.mem), old(t.kids), old(t.mem)[n].parent, at, n, t.mem, t.kids)
  {
    assert Owned(t.mem, t.kids, n);
    var p := t.mem[n].parent;
    err, at := -EINVAL, 0;
    ghost var i: nat := 0;
    var prev, tmp := NULL, t.mem[p].child;
    assert NodeOk(t.mem, t.kids, t.depth, p);
    NthOk(t.mem, t.kids, t.depth, p, 0);
    while tmp != NULL
      invariant t.Valid() && t.mem == old(t.mem) && t.kids == old(t.kids) && t.depth == old(t.depth)
      invariant i <= |t.kids[p]| && tmp == Nth(t.kids[p], i) && prev == PrevOf(t.kids[p], i)
        && (tmp != NULL <==> i < |t.kids[p]|)
      invariant n in t.kids[p][i..]
      decreases |t.kids[p]| - i
    {
      ChildNotRoot(t.mem, t.kids, t.depth, p, i);
      if tmp == n {
        Bypass(t, p, prev, n, i);
        return 0, i;
      }
      prev, tmp := tmp, t.mem[tmp].sibling;
      i := i + 1;
      NthOk(t.mem, t.kids, t.depth, p, i);
    }
    assert false;
  }

  /** Entry `i` of the children of `p`, the node `n`, has been taken out. */
  ghost predicate Removed(mem: Mem, kids: Kids, p: Ptr, i: nat, n: Ptr, mem': Mem, kids': Kids) {
    && p in mem && p in kids && i < |kids[p]| && kids[p][i] == n && n in mem && (i > 0 ==> kids[p][i - 1] in mem)
    && mem' == UnlinkedMem(mem, kids, p, i) && kids' == WithoutKid(kids, p, i)
  }

  method Bypass(t: ResourceTree, p: Ptr, prev: Ptr, n: Ptr, ghost i: nat)
    requires t.Valid() && p in t.mem && i < |t.kids[p]| && t.kids[p][i] == n && n in t.mem && n != p && n != NULL
    requires prev == PrevOf(t.kids[p], i)
    modifies t
    ensures t.Valid() && Removed(old(t.mem), old(t.kids), p, i, n, t.mem, t.kids) && t.depth == old(t.depth)
    ensures n in t.mem && t.mem[n].child == old(t.mem)[n].child && t.mem[n].parent == NULL
    ensures n in t.kids && t.kids[n] == old(t.kids)[n] && (t.mem[n].child == NULL ==> Loose(t.mem, t.kids, n))
  {
    assert NodeOk(t.mem, t.kids, t.depth, n);
    NthOk(t.mem, t.kids, t.depth, n, 0);
    if i > 0 { ChildNotRoot(t.mem, t.kids, t.depth, p, i - 1); }
    assert NodeOk(t.mem, t.kids, t.depth, p);
    if i > 0 { KidsApart(t.mem, t.kids, t.depth, p, i - 1, i); }
    ChildNotRoot(t.mem, t.kids, t.depth, p, i);
    t.mem := SetLink(t.mem, p, prev, t.mem[n].sibling);
    t.mem := t.mem[n := t.mem[n].(parent := NULL)];
    t.kids := WithoutKid(t.kids, p, i);
    UnlinkKid(old(t.mem), old(t.kids), t.depth, p, i, t.mem, t.kids);
    UnlinkHome(old(t.mem), old(t.kids), p, i, t.mem, t.kids);
  }

  // ---------------------------------------------------------------- regions

  ghost predicate Covers(r: Res, start: nat, end: nat) {
    r.start <= start && end <= r.end
  }

  /** From entry `j` of a path to the next. */
  ghost predicate Down(mem: Mem, kids: Kids, path: seq<Ptr>, j: nat)
    requires j + 1 < |path|
  {
    path[j] in kids && path[j + 1] in kids[path[j]] && path[j + 1] in mem && !mem[path[j + 1]].busy
  }

  /** A way down from `parent`, through children that are not busy. */
  ghost predicate Way(mem: Mem, kids: Kids, path: seq<Ptr>, parent: Ptr) {
    && |path| > 0 && path[0] == parent
    && forall j {:trigger Down(mem, kids, path, j)} :: 0 <= j < |path| - 1 ==> Down(mem, kids, path, j)
  }

  /** A way down through children that cover the range, to a busy child that is the range. */
  ghost predicate Reaches(mem: Mem, kids: Kids, path: seq<Ptr>, parent: Ptr, start: nat, end: nat, target: Ptr) {
    && Way(mem, kids, path, parent)
    && (forall j :: 1 <= j < |path| ==> path[j] in mem && Covers(mem[path[j]], start, end))
    && path[|path| - 1] in kids && target in kids[path[|path| - 1]] && target in mem
    && mem[target].busy && mem[target].start == start && mem[target].end == end
  }

  /** A region has a range that is not empty. */
  lemma ReachesOrder(mem: Mem, kids: Kids, depth: Depths, path: seq<Ptr>, parent: Ptr, start: nat, end: nat,
                     target: Ptr)
    requires Linked(mem, kids, depth) && Reaches(mem, kids, path, parent, start, end, target)
    ensures start <= end
  {
    var i := ParentOf(mem, kids, depth, path[|path| - 1], target);
  }

  /** Only one child covers a range. */
  lemma OneCovers(mem: Mem, kids: Kids, depth: Depths, p: Ptr, a: Ptr, b: Ptr, start: nat, end: nat)
    requires Linked(mem, kids, depth) && p in mem && a in kids[p] && b in kids[p] && a in mem && b in mem
      && start <= end
    requires Covers(mem[a], start, end) && Covers(mem[b], start, end)
    ensures a == b
  {
    assert NodeOk(mem, kids, depth, p);
    var i := ParentOf(mem, kids, depth, p, a);
    var j := ParentOf(mem, kids, depth, p, b);
    if i < j { KidsApart(mem, kids, depth, p, i, j); }
    if j < i { KidsApart(mem, kids, depth, p, j, i); }
  }

  lemma {:induction false} OneWay(mem: Mem, kids: Kids, depth: Depths, a: seq<Ptr>, b: seq<Ptr>, parent: Ptr,
                                  start: nat, end: nat, s: Ptr, t: Ptr, j: nat)
    requires Linked(mem, kids, depth) && parent in mem
    requires Reaches(mem, kids, a, parent, start, end, s) && Reaches(mem, kids, b, parent, start, end, t) && j < |a|
      && j < |b|
    ensures a[j] == b[j] && a[j] in mem
  {
    if j > 0 {
      ReachesOrder(mem, kids, depth, a, parent, start, end, s);
      OneWay(mem, kids, depth, a, b, parent, start, end, s, t, j - 1);
      assert Down(mem, kids, a, j - 1) && Down(mem, kids, b, j - 1);
      OneCovers(mem, kids, depth, a[j - 1], a[j], b[j], start, end);
    }
  }

  /** There is at most one region for a range. */
  lemma OneRegion(mem: Mem, kids: Kids, depth: Depths, a: seq<Ptr>, b: seq<Ptr>, parent: Ptr, start: nat, end: nat,
                  s: Ptr, t: Ptr)
    requires Linked(mem, kids, depth) && parent in mem
    requires Reaches(mem, kids, a, parent, start, end, s) && Reaches(mem, kids, b, parent, start, end, t)
    ensures a == b && s == t
  {
    var n := if |a| < |b| then |a| else |b|;
    forall j | 0 <= j < n ensures a[j] == b[j] {
      OneWay(mem, kids, depth, a, b, parent, start, end, s, t, j);
    }
    OneWay(mem, kids, depth, a, b, parent, start, end, s, t, n - 1);
    ReachesOrder(mem, kids, depth, a, parent, start, end, s);
    var p := a[n - 1];
    var x := if |a| > n then a[n] else s;
    var y := if |b| > n then b[n] else t;
    assert |a| > n ==> Down(mem, kids, a, n - 1);
    assert |b| > n ==> Down(mem, kids, b, n - 1);
    OneCovers(mem, kids, depth, p, x, y, start, end);
  }

  /** A way whose last node covers a range covers it all along. */
  lemma {:induction false} WayCovers(mem: Mem, kids: Kids, depth: Depths, path: seq<Ptr>, parent: Ptr, start: nat,
                                     end: nat, j: nat)
    requires Linked(mem, kids, depth) && parent in mem && Way(mem, kids, path, parent) && j < |path|
    requires path[|path| - 1] in mem && Covers(mem[path[|path| - 1]], start, end)
    ensures path[j] in mem && Covers(mem[path[j]], start, end)
    decreases |path| - j
  {
    if j < |path| - 1 {
      WayCovers(mem, kids, depth, path, parent, start, end, j + 1);
      assert Down(mem, kids, path, j);
      var i := ParentOf(mem, kids, depth, path[j], path[j + 1]);
    }
  }

  ghost function Deeper(depth: Depths, p: Ptr): set<Ptr>
    requires p in depth
  {
    set q | q in depth && depth[p] < depth[q]
  }

  lemma DeeperLess(depth: Depths, p: Ptr, k: Ptr)
    requires p in depth && k in depth && depth[p] < depth[k]
    ensures Deeper(depth, k) < Deeper(depth, p)
  {
    assert k in Deeper(depth, p) && k !in Deeper(depth, k);
  }

  /** A way down from `parent` to a node under which `n` can be linked. */
  ghost predicate Slot(mem: Mem, kids: Kids, path: seq<Ptr>, parent: Ptr, n: Ptr) {
    && n in mem && Way(mem, kids, path, parent) && path[|path| - 1] in mem && path[|path| - 1] in kids
    && Fits(mem, kids, path[|path| - 1], n)
  }

  ghost predicate NoSlot(mem: Mem, kids: Kids, parent: Ptr, n: Ptr) {
    forall path :: !Slot(mem, kids, path, parent, n)
  }

  /** Where `n` does not fit, the way to a slot goes on to a child that covers its range. */
  lemma SlotBelow(mem: Mem, kids: Kids, depth: Depths, path: seq<Ptr>, path': seq<Ptr>, parent: Ptr, n: Ptr)
    returns (k: Ptr)
    requires Linked(mem, kids, depth) && parent in mem && Slot(mem, kids, path', parent, n)
    requires |path| > 0 && path <= path' && path[|path| - 1] in mem && !Fits(mem, kids, path[|path| - 1], n)
    ensures var p := path[|path| - 1];
      && |path| < |path'| && k == path'[|path|] && k in kids[p] && k in mem && !mem[k].busy
      && mem[n].start <= mem[n].end && Inside(mem[n], mem[p]) && Covers(mem[k], mem[n].start, mem[n].end)
  {
    var p := path[|path| - 1];
    k := p;
    WayCovers(mem, kids, depth, path', parent, mem[n].start, mem[n].end, |path| - 1);
    if |path'| == |path| {
      assert false;
    } else {
      k := path'[|path|];
      assert Down(mem, kids, path', |path| - 1);
      WayCovers(mem, kids, depth, path', parent, mem[n].start, mem[n].end, |path|);
    }
  }

  /** The child in the way is the one that the way to any slot goes through. */
  lemma SlotThrough(mem: Mem, kids: Kids, depth: Depths, path: seq<Ptr>, parent: Ptr, n: Ptr, i: nat)
    requires Linked(mem, kids, depth) && parent in mem && n in mem && |path| > 0 && path[|path| - 1] in mem
    requires Blocks(mem, kids, path[|path| - 1], n, i) && !Fits(mem, kids, path[|path| - 1], n)
    requires forall path' {:trigger Slot(mem, kids, path', parent, n)} :: Slot(mem, kids, path', parent, n) ==>
      path <= path'
    ensures var k := kids[path[|path| - 1]][i];
      forall path' {:trigger Slot(mem, kids, path', parent, n)} :: Slot(mem, kids, path', parent, n) ==>
        !mem[k].busy && path + [k] <= path'
  {
    var p := path[|path| - 1];
    forall path' | Slot(mem, kids, path', parent, n) ensures !mem[kids[p][i]].busy && path + [kids[p][i]] <= path' {
      var k := SlotBelow(mem, kids, depth, path, path', parent, n);
      OneOverlaps(mem, kids, depth, p, i, k, n);
    }
  }

  lemma OneOverlaps(mem: Mem, kids: Kids, depth: Depths, p: Ptr, i: nat, k: Ptr, n: Ptr)
    requires Linked(mem, kids, depth) && p in mem && n in mem && i < |kids[p]| && kids[p][i] in mem
    requires k in kids[p] && k in mem && Overlap(mem[kids[p][i]], mem[n]) && Covers(mem[k], mem[n].start, mem[n].end)
    ensures kids[p][i] == k
  {
    assert NodeOk(mem, kids, depth, p);
    var j := ParentOf(mem, kids, depth, p, k);
    if i < j { KidsApart(mem, kids, depth, p, i, j); }
    if j < i { KidsApart(mem, kids, depth, p, j, i); }
  }

  lemma NoSlotHere(mem: Mem, kids: Kids, depth: Depths, path: seq<Ptr>, parent: Ptr, n: Ptr)
    requires Linked(mem, kids, depth) && parent in mem && n in mem && |path| > 0 && path[|path| - 1] in mem
    requires !(mem[n].start <= mem[n].end && Inside(mem[n], mem[path[|path| - 1]]))
    requires forall path' {:trigger Slot(mem, kids, path', parent, n)} :: Slot(mem, kids, path', parent, n) ==>
      path <= path'
    ensures NoSlot(mem, kids, parent, n)
  {
    forall path' ensures !Slot(mem, kids, path', parent, n) {
      if Slot(mem, kids, path', parent, n) {
        var k := SlotBelow(mem, kids, depth, path, path', parent, n);
        assert false;
      }
    }
  }

  /** Lines 329-345: down the conflicts that are not busy, to a place for the loose node `n`. */
  method Settle(t: ResourceTree, parent: Ptr, n: Ptr) returns (linked: bool, ghost path: seq<Ptr>, ghost i: nat)
    requires t.Valid() && parent in t.mem && Loose(t.mem, t.kids, n) && n != parent
    modifies t
    ensures t.Valid()
    ensures !linked ==> t.mem == old(t.mem) && t.kids == old(t.kids) && t.depth == old(t.depth)
    ensures !linked ==> NoSlot(old(t.mem), old(t.kids), parent, n)
    ensures linked ==> Settled(old(t.mem), old(t.kids), parent, n, path, i, t.mem, t.kids)
    ensures linked ==> Slot(old(t.mem), old(t.kids), path, parent, n)
  {
    var p := parent;
    path := [parent];
    while true
      invariant t.mem == old(t.mem) && t.kids == old(t.kids) && t.depth == old(t.depth) && t.Valid()
      invariant p in t.mem && p != n && Way(t.mem, t.kids, path, parent) && path[|path| - 1] == p
      invariant forall path' {:trigger Slot(t.mem, t.kids, path', parent, n)} ::
        Slot(t.mem, t.kids, path', parent, n) ==> path <= path'
      decreases Deeper(old(t.depth), p)
    {
      var conflict;
      conflict, i := Request(t, p, n);
      if conflict == NULL {
        WayCoversAll(old(t.mem), old(t.kids), old(t.depth), path, parent, old(t.mem)[n].start, old(t.mem)[n].end);
        return true, path, i;
      }
      if conflict == p {
        NoSlotHere(t.mem, t.kids, t.depth, path, parent, n);
        return false, path, i;
      }
      SlotThrough(t.mem, t.kids, t.depth, path, parent, n, i);
      if t.mem[conflict].busy {
        return false, path, i;
      }
      ChildNotRoot(t.mem, t.kids, t.depth, p, i);
      assert NodeOk(t.mem, t.kids, t.depth, p);
      DeeperLess(t.depth, p, conflict);
      WayStep(t.mem, t.kids, path, parent, conflict);
      path := path + [conflict];
      p := conflict;
    }
  }

  /** `n` has been linked at the end of a way, all of which covers its range. */
  ghost predicate Settled(mem: Mem, kids: Kids, parent: Ptr, n: Ptr, path: seq<Ptr>, i: nat, mem': Mem, kids': Kids) {
    && n in mem && Way(mem, kids, path, parent)
    && (forall j :: 0 <= j < |path| ==> path[j] in mem && Covers(mem[path[j]], mem[n].start, mem[n].end))
    && PlaceFor(mem, kids, path[|path| - 1], i, n)
    && mem' == LinkedMem(mem, kids, path[|path| - 1], i, n) && kids' == WithKid(kids, path[|path| - 1], i, n)
  }

  predicate Has(r: Res, x: nat) {
    r.start <= x <= r.end
  }

  /** The node has the `size` addresses from `start` on, and no others. */
  ghost predicate Spans(r: Res, start: nat, size: nat) {
    forall x: nat :: Has(r, x) <==> start <= x < start + size
  }

  /** `start + size - 1` on 64-bit numbers: where the next range would begin, less one. */
  function EndOf(start: nat, size: nat): (end: nat)
    ensures end < U64 && (end + 1) % U64 == (start + size) % U64
    ensures 1 <= size && start + size <= U64 ==> end == start + size - 1
  {
    (start + size + U64 - 1) % U64
  }

  function Region(start: nat, size: nat): Res {
    Res(start, EndOf(start, size), true, NULL, NULL, NULL)
  }

  /** `__request_region`, lines 315-349; `n` is the address of the new node. */
  method RequestRegion(t: ResourceTree, parent: Ptr, start: nat, size: nat, n: Ptr)
    returns (res: Ptr, ghost path: seq<Ptr>, ghost i: nat)
    requires t.Valid() && parent in t.mem && start < U64 && size < U64 && n !in t.mem && n != NULL
    modifies t
    ensures t.Valid() && (res == NULL || res == n)
    ensures res == n && size >= 1 && start + size <= U64 ==> n in t.mem && t.mem[n].busy && Spans(t.mem[n], start, size)
    ensures res == NULL ==> t.mem == old(t.mem) && t.kids == old(t.kids) && t.depth == old(t.depth)
    ensures res == NULL ==> NoSlot(old(t.mem)[n := Region(start, size)], old(t.kids)[n := []], parent, n)
    ensures res == n ==> Slot(old(t.mem)[n := Region(start, size)], old(t.kids)[n := []], path, parent, n)
    ensures res == n ==>
      Settled(old(t.mem)[n := Region(start, size)], old(t.kids)[n := []], parent, n, path, i, t.mem, t.kids)
  {
    AddNode(t, n, Region(start, size));
    var linked;
    linked, path, i := Settle(t, parent, n);
    if linked {
      return n, path, i;
    }
    t.mem, t.kids, t.depth := t.mem - {n}, t.kids - {n}, t.depth - {n};
    assert t.mem == old(t.mem) && t.kids == old(t.kids) && t.depth == old(t.depth);
    return NULL, path, i;
  }

  lemma WayStep(mem: Mem, kids: Kids, path: seq<Ptr>, parent: Ptr, k: Ptr)
    requires Way(mem, kids, path, parent) && path[|path| - 1] in kids && k in kids[path[|path| - 1]] && k in mem
      && !mem[k].busy
    ensures Way(mem, kids, path + [k], parent)
  {
    var path' := path + [k];
    forall j | 0 <= j < |path'| - 1 ensures Down(mem, kids, path', j) {
      assert j < |path| - 1 ==> Down(mem, kids, path, j);
    }
  }

  lemma WayCoversAll(mem: Mem, kids: Kids, depth: Depths, path: seq<Ptr>, parent: Ptr, start: nat, end: nat)
    requires Linked(mem, kids, depth) && parent in mem && Way(mem, kids, path, parent)
    requires path[|path| - 1] in mem && Covers(mem[path[|path| - 1]], start, end)
    ensures forall j :: 0 <= j < |path| ==> path[j] in mem && Covers(mem[path[j]], start, end)
  {
    forall j | 0 <= j < |path| ensures path[j] in mem && Covers(mem[path[j]], start, end) {
      WayCovers(mem, kids, depth, path, parent, start, end, j);
    }
  }

  ghost predicate NoRegion(mem: Mem, kids: Kids, parent: Ptr, start: nat, end: nat) {
    forall path, r :: !Reaches(mem, kids, path, parent, start, end, r)
  }

  /**
    `__release_region`, lines 388-424. Returns the node taken out and freed, or null, and the first of the
    children that it leaves behind.
   */
  method ReleaseRegion(t: ResourceTree, parent: Ptr, start: nat, size: nat)
    returns (freed: Ptr, orphan: Ptr, ghost path: seq<Ptr>, ghost i: nat)
    requires t.Valid() && parent in t.mem && start < U64 && size < U64
    modifies t
    ensures Linked(t.mem, t.kids, t.depth)
    ensures freed != NULL && size >= 1 && start + size <= U64 ==>
      freed in old(t.mem) && old(t.mem)[freed].busy && Spans(old(t.mem)[freed], start, size)
    ensures freed != NULL ==> Reaches(old(t.mem), old(t.kids), path, parent, start, EndOf(start, size), freed)
    ensures freed != NULL ==> Freed(old(t.mem), old(t.kids), path[|path| - 1], i, freed, t.mem, t.kids)
    ensures freed != NULL ==> Orphans(t.mem, t.kids, freed, old(t.kids)[freed])
    ensures freed != NULL ==> orphan == old(t.mem)[freed].child && (t.Valid() <==> orphan == NULL)
    ensures freed == NULL ==> t.mem == old(t.mem) && t.kids == old(t.kids) && t.depth == old(t.depth)
    ensures freed == NULL ==> NoRegion(old(t.mem), old(t.kids), parent, start, EndOf(start, size))
  {
    var end := EndOf(start, size);
    freed, orphan := NULL, NULL;
    var p, prev, tmp := parent, NULL, t.mem[parent].child;
    path, i := [parent], 0;
    assert NodeOk(t.mem, t.kids, t.depth, parent);
    NthOk(t.mem, t.kids, t.depth, parent, 0);
    while tmp != NULL
      invariant t.Valid() && t.mem == old(t.mem) && t.kids == old(t.kids) && t.depth == old(t.depth)
      invariant p in t.mem && Looking(t.mem, t.kids, path, parent, start, end, p, i)
      invariant tmp == Nth(t.kids[p], i) && prev == PrevOf(t.kids[p], i) && (tmp != NULL <==> i < |t.kids[p]|)
      decreases Deeper(old(t.depth), p), |t.kids[p]| - i
    {
      ChildNotRoot(t.mem, t.kids, t.depth, p, i);
      if t.mem[tmp].start <= start && t.mem[tmp].end >= end {
        if !t.mem[tmp].busy {
          LookBelow(t.mem, t.kids, t.depth, path, parent, start, end, p, i);
          DeeperLess(t.depth, p, tmp);
          assert NodeOk(t.mem, t.kids, t.depth, tmp);
          NthOk(t.mem, t.kids, t.depth, tmp, 0);
          path, i := path + [tmp], 0;
          p, prev, tmp := tmp, NULL, t.mem[tmp].child;
        } else if t.mem[tmp].start != start || t.mem[tmp].end != end {
          OtherBusy(t.mem, t.kids, t.depth, path, parent, start, end, p, i);
          return NULL, NULL, path, i;
        } else {
          assert Reaches(t.mem, t.kids, path, parent, start, end, tmp);
          orphan := t.mem[tmp].child;
          Discard(t, p, prev, tmp, i);
          return tmp, orphan, path, i;
        }
      } else {
        prev, tmp := tmp, t.mem[tmp].sibling;
        i := i + 1;
        NthOk(t.mem, t.kids, t.depth, p, i);
      }
    }
    NoneLeft(t.mem, t.kids, t.depth, path, parent, start, end, p);
  }

  /** Whatever region there is for the range, the search is on its way to it. */
  ghost predicate Looking(mem: Mem, kids: Kids, path: seq<Ptr>, parent: Ptr, start: nat, end: nat, p: Ptr, i: nat) {
    && Way(mem, kids, path, parent) && path[|path| - 1] == p && p in kids && i <= |kids[p]|
    && (forall j :: 1 <= j < |path| ==> path[j] in mem && Covers(mem[path[j]], start, end))
    && (forall j :: 0 <= j < i ==> kids[p][j] in mem && !Covers(mem[kids[p][j]], start, end))
    && (forall path', r {:trigger Reaches(mem, kids, path', parent, start, end, r)} ::
      Reaches(mem, kids, path', parent, start, end, r) ==> path <= path')
  }

  /** The step of a region's way below `p`. */
  lemma NextStep(mem: Mem, kids: Kids, path: seq<Ptr>, path': seq<Ptr>, parent: Ptr, start: nat, end: nat, r: Ptr)
    returns (k: Ptr)
    requires Reaches(mem, kids, path', parent, start, end, r) && |path| > 0 && path <= path'
    ensures path[|path| - 1] in kids && k in kids[path[|path| - 1]] && k in mem && Covers(mem[k], start, end)
    ensures if |path'| == |path| then k == r && mem[k].busy else k == path'[|path|] && !mem[k].busy
  {
    if |path'| == |path| {
      k := r;
    } else {
      k := path'[|path|];
      assert Down(mem, kids, path', |path| - 1);
    }
  }

  lemma LookBelow(mem: Mem, kids: Kids, depth: Depths, path: seq<Ptr>, parent: Ptr, start: nat, end: nat, p: Ptr,
                  i: nat)
    requires Linked(mem, kids, depth) && p in mem && Looking(mem, kids, path, parent, start, end, p, i)
    requires i < |kids[p]| && kids[p][i] in mem && Covers(mem[kids[p][i]], start, end) && !mem[kids[p][i]].busy
      && kids[p][i] in kids
    ensures Looking(mem, kids, path + [kids[p][i]], parent, start, end, kids[p][i], 0)
  {
    var c := kids[p][i];
    WayStep(mem, kids, path, parent, c);
    forall path', r | Reaches(mem, kids, path', parent, start, end, r) ensures path + [c] <= path' {
      assert path <= path';
      ReachesOrder(mem, kids, depth, path', parent, start, end, r);
      var k := NextStep(mem, kids, path, path', parent, start, end, r);
      OneCovers(mem, kids, depth, p, c, k, start, end);
    }
  }

  /** A busy child that covers the range but is not the range leaves no region for it. */
  lemma OtherBusy(mem: Mem, kids: Kids, depth: Depths, path: seq<Ptr>, parent: Ptr, start: nat, end: nat, p: Ptr,
                  i: nat)
    requires Linked(mem, kids, depth) && p in mem && Looking(mem, kids, path, parent, start, end, p, i)
    requires i < |kids[p]| && kids[p][i] in mem && Covers(mem[kids[p][i]], start, end) && mem[kids[p][i]].busy
    requires mem[kids[p][i]].start != start || mem[kids[p][i]].end != end
    ensures NoRegion(mem, kids, parent, start, end)
  {
    forall path', r ensures !Reaches(mem, kids, path', parent, start, end, r) {
      if Reaches(mem, kids, path', parent, start, end, r) {
        assert path <= path';
        ReachesOrder(mem, kids, depth, path', parent, start, end, r);
        var k := NextStep(mem, kids, path, path', parent, start, end, r);
        OneCovers(mem, kids, depth, p, kids[p][i], k, start, end);
        assert false;
      }
    }
  }

  lemma NoneLeft(mem: Mem, kids: Kids, depth: Depths, path: seq<Ptr>, parent: Ptr, start: nat, end: nat, p: Ptr)
    requires Linked(mem, kids, depth) && p in mem && Looking(mem, kids, path, parent, start, end, p, |kids[p]|)
    ensures NoRegion(mem, kids, parent, start, end)
  {
    forall path', r ensures !Reaches(mem, kids, path', parent, start, end, r) {
      if Reaches(mem, kids, path', parent, start, end, r) {
        var k := NextStep(mem, kids, path, path', parent, start, end, r);
        var j := ParentOf(mem, kids, depth, p, k);
        assert false;
      }
    }
  }

  /** Entry `i` of the children of `p`, the node `n`, has been taken out and freed. */
  ghost predicate Freed(mem: Mem, kids: Kids, p: Ptr, i: nat, n: Ptr, mem': Mem, kids': Kids) {
    && p in mem && p in kids && i < |kids[p]| && kids[p][i] == n && n in mem && (i > 0 ==> kids[p][i - 1] in mem)
    && mem' == SetLink(mem, p, PrevOf(kids[p], i), mem[n].sibling) - {n} && kids' == WithoutKid(kids, p, i) - {n}
  }

  /** Lines 411-413: out of the list, and freed without a look at its children. */
  method Discard(t: ResourceTree, p: Ptr, prev: Ptr, n: Ptr, ghost i: nat)
    requires t.Valid() && p in t.mem && i < |t.kids[p]| && t.kids[p][i] == n && n in t.mem && n != p && n != NULL
    requires prev == PrevOf(t.kids[p], i)
    modifies t
    ensures Linked(t.mem, t.kids, t.depth) && Freed(old(t.mem), old(t.kids), p, i, n, t.mem, t.kids)
    ensures n in old(t.kids) && Orphans(t.mem, t.kids, n, old(t.kids)[n])
    ensures t.Valid() <==> old(t.mem)[n].child == NULL
  {
    Bypass(t, p, prev, n, i);
    ghost var mem1, kids1, depth1 := t.mem, t.kids, t.depth;
    t.mem, t.kids, t.depth := t.mem - {n}, t.kids - {n}, t.depth - {n};
    FreeNode(mem1, kids1, depth1, n, t.mem, t.kids, t.depth);
    assert t.mem == SetLink(old(t.mem), p, prev, old(t.mem)[n].sibling) - {n};
  }

  // ---------------------------------------------------------------- request, then release

  /** A node that has been settled is the region for its range. */
  lemma SettledReaches(mem: Mem, kids: Kids, depth: Depths, parent: Ptr, n: Ptr, path: seq<Ptr>, i: nat, mem': Mem,
                       kids': Kids)
    requires Linked(mem, kids, depth) && parent in mem && Loose(mem, kids, n) && mem[n].busy
      && Settled(mem, kids, parent, n, path, i, mem', kids')
    ensures Reaches(mem', kids', path, parent, mem[n].start, mem[n].end, n) && mem'[n].child == NULL
  {
    var p := path[|path| - 1];
    forall q | q in mem && q != n
      ensures q in mem' && mem'[q].start == mem[q].start && mem'[q].end == mem[q].end && mem'[q].busy == mem[q].busy {
    }
    assert kids'[p][i] == n;
    forall j | 0 <= j < |path| - 1 ensures Down(mem', kids', path, j) {
      assert Down(mem, kids, path, j);
      var a := ParentOf(mem, kids, depth, path[j], path[j + 1]);
      if path[j] == p {
        assert kids[p] == kids[p][..i] + kids[p][i..];
      }
    }
  }

  lemma Restored(mem: Mem, kids: Kids, depth: Depths, p: Ptr, n: Ptr, r: Res, i: nat, mem1: Mem, kids1: Kids,
                 mem2: Mem, kids2: Kids, mem3: Mem, kids3: Kids, j: nat)
    requires Linked(mem, kids, depth) && p in mem && n !in mem && n != NULL && r.parent == NULL
    requires mem1 == mem[n := r] && kids1 == kids[n := []] && i <= |kids[p]|
    requires PlaceFor(mem1, kids1, p, i, n) && mem2 == LinkedMem(mem1, kids1, p, i, n)
      && kids2 == WithKid(kids1, p, i, n)
    requires Freed(mem2, kids2, p, j, n, mem3, kids3)
    ensures mem3 == mem && kids3 == kids
  {
    assert NodeOk(mem, kids, depth, p);
    NthOk(mem, kids, depth, p, i);
    if i > 0 { ChildNotRoot(mem, kids, depth, p, i - 1); }
    assert forall k :: k in kids[p] ==> k in mem by {
      forall k | k in kids[p] ensures k in mem { var a := ParentOf(mem, kids, depth, p, k); }
    }
    RestoredKids(kids, p, n, i, kids2, kids3, j);
    SetLinkBack(mem, p, PrevOf(kids[p], i), n, r.(sibling := Nth(kids[p], i), parent := p), Nth(kids[p], i));
  }

  lemma RestoredKids(kids: Kids, p: Ptr, n: Ptr, i: nat, kids2: Kids, kids3: Kids, j: nat)
    requires p in kids && n !in kids && n !in kids[p] && i <= |kids[p]| && kids2 == WithKid(kids[n := []], p, i, n)
    requires j < |kids2[p]| && kids2[p][j] == n && kids3 == WithoutKid(kids2, p, j) - {n}
    ensures j == i && PrevOf(kids2[p], j) == PrevOf(kids[p], i) && kids3 == kids
  {
    var list := kids2[p];
    assert list[..i] + list[i + 1..] == kids[p];
  }

  lemma SetLinkBack(mem: Mem, p: Ptr, prev: Ptr, n: Ptr, r: Res, next: Ptr)
    requires p in mem && (prev == NULL || prev in mem) && n !in mem
    requires if prev == NULL then mem[p].child == next else mem[prev].sibling == next
    ensures SetLink(SetLink(mem[n := r], p, prev, n), p, prev, next) - {n} == mem
  {
  }

  /** A region that is requested and then released leaves the tree as it was. */
  method RequestThenRelease(t: ResourceTree, parent: Ptr, start: nat, size: nat, n: Ptr) returns (got: bool)
    requires t.Valid() && parent in t.mem && start < U64 && size < U64 && n !in t.mem && n != NULL
    modifies t
    ensures t.Valid() && t.mem == old(t.mem) && t.kids == old(t.kids)
  {
    var res, path, i := RequestRegion(t, parent, start, size, n);
    if res == NULL {
      return false;
    }
    ghost var mem1, kids1, depth1 := old(t.mem)[n := Region(start, size)], old(t.kids)[n := []], old(t.depth)[n := 0.0];
    AddLoose(old(t.mem), old(t.kids), old(t.depth), n, Region(start, size));
    ghost var mem2, kids2, depth2, end := t.mem, t.kids, t.depth, EndOf(start, size);
    SettledReaches(mem1, kids1, depth1, parent, n, path, i, mem2, kids2);
    forall path', r | Reaches(mem2, kids2, path', parent, start, end, r) ensures r == n && path' == path {
      OneRegion(mem2, kids2, depth2, path, path', parent, start, end, n, r);
    }
    var freed, orphan, path', j := ReleaseRegion(t, parent, start, size);
    Restored(old(t.mem), old(t.kids), old(t.depth), path[|path| - 1], n, Region(start, size), i, mem1, kids1, mem2,
      kids2, t.mem, t.kids, j);
    return true;
  }

  lemma SlotHere(mem: Mem, kids: Kids, parent: Ptr, n: Ptr)
    requires parent in mem && parent in kids && n in mem && Fits(mem, kids, parent, n)
    ensures Slot(mem, kids, [parent], parent, n)
  {
  }

  /** Under a node without children, two regions can be claimed side by side, as far as the node reaches. */
  method Neighbours(t: ResourceTree, parent: Ptr, start: nat, size: nat, more: nat, n: Ptr, m: Ptr)
    requires t.Valid() && parent in t.mem && t.kids[parent] == [] && size >= 1 && more >= 1
    requires t.mem[parent].start <= start && start + size + more <= t.mem[parent].end + 1
    requires n !in t.mem && m !in t.mem && n != m && n != NULL && m != NULL
    modifies t
    ensures t.Valid() && n in t.mem && m in t.mem && Spans(t.mem[n], start, size)
      && Spans(t.mem[m], start + size, more)
  {
    ghost var a, kids := t.mem[n := Region(start, size)], t.kids[n := []];
    assert NodeOk(t.mem, t.kids, t.depth, parent);
    SlotHere(a, kids, parent, n);
    var res, path, i := RequestRegion(t, parent, start, size, n);
    OnlyHere(a, kids, parent, n, path);
    ghost var r := t.mem[n];
    assert t.kids[parent] == [n];
    SlotHere(t.mem[m := Region(start + size, more)], t.kids[m := []], parent, m);
    var res', path', i' := RequestRegion(t, parent, start + size, more, m);
    SameSpan(r, t.mem[n], start, size);
  }

  ghost predicate Leads(mem: Mem, kids: Kids, path: seq<Ptr>) {
    |path| > 1 && Down(mem, kids, path, 0)
  }

  /** Without children there is one way only. */
  lemma OnlyHere(mem: Mem, kids: Kids, parent: Ptr, n: Ptr, path: seq<Ptr>)
    requires parent in kids && kids[parent] == [] && Way(mem, kids, path, parent)
    ensures path == [parent]
  {
    assert !Leads(mem, kids, path);
  }

  lemma SameSpan(r: Res, r': Res, start: nat, size: nat)
    requires Spans(r, start, size) && r'.start == r.start && r'.end == r.end
    ensures Spans(r', start, size)
  {
    forall x: nat ensures Has(r', x) <==> start <= x < start + size {
      assert Has(r, x) <==> start <= x < start + size;
    }
  }

  // ---------------------------------------------------------------- a region with children

  /** A busy region with a child of its own: `[0,10]` over the busy `[2,8]` over `[4,5]`. */
  ghost function Three(): Mem {
    map[1 := Res(0, 10, false, NULL, NULL, 2), 2 := Res(2, 8, true, 1, NULL, 3), 3 := Res(4, 5, false, 2, NULL, NULL)]
  }

  ghost function ThreeKids(): Kids {
    map[1 := [2], 2 := [3], 3 := []]
  }

  /**
    Releasing the region `[2,8]` of that tree frees the node that the child `[4,5]` names as its parent: the
    tree is well formed before and not afterwards.
   */
  lemma FreedParent(mem': Mem, kids': Kids, i: nat, depth': Depths)
    requires Freed(Three(), ThreeKids(), 1, i, 2, mem', kids')
    ensures exists depth: Depths :: WellFormed(Three(), ThreeKids(), depth)
    ensures Reaches(Three(), ThreeKids(), [1], 1, 2, 8, 2)
    ensures 3 in mem' && mem'[3].parent == 2 && 2 !in mem' && !WellFormed(mem', kids', depth')
  {
    var mem, kids, depth := Three(), ThreeKids(), map[1 := 1.0, 2 := 2.0, 3 := 3.0];
    assert KidOk(mem, kids, depth, 1, 0) && KidOk(mem, kids, depth, 2, 0);
    forall p | p in mem ensures NodeOk(mem, kids, depth, p) && Owned(mem, kids, p) {
      assert p == 1 || p == 2 || p == 3;
    }
    assert WellFormed(mem, kids, depth);
    assert !Owned(mem', kids', 3);
  }
}
