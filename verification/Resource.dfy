/**
  The resource tree of kernel/resource.c: address ranges with child, sibling and parent links,
  relinked in place. `kids` lists the children of every node in order; the links in memory are
  said, node by node, to be exactly those of the lists. The depths make the tree acyclic; they
  are real numbers so that a node can be put between a parent and its children.
 */
module Resource {

  type Ptr = nat

  const NULL: Ptr := 0
  const U64: nat := 0x1_0000_0000_0000_0000

  /** `struct resource`; of the flags, whether the range is busy. */
  datatype Res = Res(start: nat, end: nat, busy: bool, parent: Ptr, sibling: Ptr, child: Ptr)

  type Mem = map<Ptr, Res>
  type Kids = map<Ptr, seq<Ptr>>
  type Depths = map<Ptr, real>

  /** Entry `i` of a list, or null after its end. */
  function Nth(list: seq<Ptr>, i: nat): Ptr {
    if i < |list| then list[i] else NULL
  }

  /** Entry `i` of the children of `p` is linked, ordered and contained as it should be. */
  ghost predicate KidOk(mem: Mem, kids: Kids, depth: Depths, p: Ptr, i: nat)
    requires p in mem && p in kids && p in depth && i < |kids[p]|
  {
    var k := kids[p][i];
    && k in mem && k in depth && mem[k].parent == p && mem[k].sibling == Nth(kids[p], i + 1)
    && mem[p].start <= mem[k].start <= mem[k].end <= mem[p].end && depth[p] < depth[k]
    && (i + 1 < |kids[p]| ==> kids[p][i + 1] in mem && mem[k].end < mem[kids[p][i + 1]].start)
  }

  ghost predicate NodeOk(mem: Mem, kids: Kids, depth: Depths, p: Ptr)
    requires p in mem
  {
    && p != NULL && p in kids && p in depth && mem[p].child == Nth(kids[p], 0) && mem[p].start < U64 && mem[p].end < U64
    && forall i {:trigger KidOk(mem, kids, depth, p, i)} :: 0 <= i < |kids[p]| ==> KidOk(mem, kids, depth, p, i)
  }

  /** Every list of children is linked, ordered, disjoint and inside its owner, and its members know their owner. */
  ghost predicate Linked(mem: Mem, kids: Kids, depth: Depths) {
    && mem.Keys == kids.Keys == depth.Keys
    && forall p {:trigger NodeOk(mem, kids, depth, p)} :: p in mem ==> NodeOk(mem, kids, depth, p)
  }

  /** The parent link of `p` is null or leads to the node that lists `p`. */
  ghost predicate Owned(mem: Mem, kids: Kids, p: Ptr)
    requires p in mem
  {
    mem[p].parent == NULL || (mem[p].parent in kids && p in kids[mem[p].parent])
  }

  ghost predicate Homed(mem: Mem, kids: Kids) {
    forall p {:trigger Owned(mem, kids, p)} :: p in mem ==> Owned(mem, kids, p)
  }

  /** All links are right, downwards and upwards. */
  ghost predicate WellFormed(mem: Mem, kids: Kids, depth: Depths) {
    Linked(mem, kids, depth) && Homed(mem, kids)
  }

  /** A node that is in nobody's list and has no children. */
  ghost predicate Loose(mem: Mem, kids: Kids, p: Ptr) {
    p in mem && p in kids && mem[p].parent == NULL && kids[p] == [] && mem[p].child == NULL
  }

  ghost predicate Overlap(a: Res, b: Res) {
    a.start <= b.end && b.start <= a.end
  }

  ghost predicate Inside(a: Res, b: Res) {
    b.start <= a.start && a.end <= b.end
  }

  // ---------------------------------------------------------------- order among children

  lemma {:induction false} KidsApart(mem: Mem, kids: Kids, depth: Depths, p: Ptr, i: nat, j: nat)
    requires p in mem && NodeOk(mem, kids, depth, p) && i < j < |kids[p]|
    ensures kids[p][i] in mem && kids[p][j] in mem && mem[kids[p][i]].end < mem[kids[p][j]].start
    decreases j
  {
    assert KidOk(mem, kids, depth, p, i) && KidOk(mem, kids, depth, p, j);
    if i + 1 < j {
      KidsApart(mem, kids, depth, p, i, j - 1);
      assert KidOk(mem, kids, depth, p, j - 1);
    }
  }

  lemma KidsDistinct(mem: Mem, kids: Kids, depth: Depths, p: Ptr, i: nat, j: nat)
    requires p in mem && NodeOk(mem, kids, depth, p) && i < |kids[p]| && j < |kids[p]| && kids[p][i] == kids[p][j]
    ensures i == j
  {
    assert KidOk(mem, kids, depth, p, i) && KidOk(mem, kids, depth, p, j);
    if i < j {
      KidsApart(mem, kids, depth, p, i, j);
    } else if j < i {
      KidsApart(mem, kids, depth, p, j, i);
    }
  }

  // ---------------------------------------------------------------- linking

  /** Linking `n` before entry `i` of the children of `root`. */
  ghost function WithKid(kids: Kids, root: Ptr, i: nat, n: Ptr): Kids
    requires root in kids && i <= |kids[root]|
  {
    kids[root := kids[root][..i] + [n] + kids[root][i..]]
  }

  /** The link that leads to entry `i` of the children of `root`, set to `ptr`. */
  function SetLink(mem: Mem, root: Ptr, prev: Ptr, ptr: Ptr): Mem
    requires root in mem && (prev != NULL ==> prev in mem)
  {
    if prev == NULL then mem[root := mem[root].(child := ptr)] else mem[prev := mem[prev].(sibling := ptr)]
  }

  /** The node whose link leads to entry `i`: the sibling before it, if there is one. */
  ghost function PrevOf(list: seq<Ptr>, i: nat): Ptr
    requires i <= |list|
  {
    if i == 0 then NULL else list[i - 1]
  }

  /** Nodes whose fields, apart from their own list, are the same. */
  ghost predicate SameOutside(a: Res, b: Res) {
    a.start == b.start && a.end == b.end && a.parent == b.parent && a.sibling == b.sibling
  }

  /** A list none of whose nodes changes. */
  lemma NodeKept(mem: Mem, kids: Kids, depth: Depths, mem': Mem, kids': Kids, depth': Depths, p: Ptr)
    requires p in mem && NodeOk(mem, kids, depth, p) && p in mem' && p in kids' && p in depth' && kids'[p] == kids[p]
    requires mem'[p].child == mem[p].child && mem'[p].start == mem[p].start && mem'[p].end == mem[p].end
    requires forall k :: k in kids[p] ==>
      k in mem && k in mem' && SameOutside(mem[k], mem'[k]) && k in depth' && depth'[p] < depth'[k]
    ensures NodeOk(mem', kids', depth', p)
  {
    forall i | 0 <= i < |kids'[p]| ensures KidOk(mem', kids', depth', p, i) {
      assert KidOk(mem, kids, depth, p, i);
      assert kids[p][i] in kids[p];
      if i + 1 < |kids[p]| { assert kids[p][i + 1] in kids[p]; }
    }
  }

  /** Every member of a list has the list's owner as its parent. */
  lemma ParentOf(mem: Mem, kids: Kids, depth: Depths, p: Ptr, k: Ptr) returns (i: nat)
    requires Linked(mem, kids, depth) && p in mem && k in kids[p]
    ensures i < |kids[p]| && kids[p][i] == k && KidOk(mem, kids, depth, p, i)
    ensures k in mem && mem[k].parent == p && k != NULL && depth[p] < depth[k]
  {
    assert NodeOk(mem, kids, depth, p);
    i :| 0 <= i < |kids[p]| && kids[p][i] == k;
    assert KidOk(mem, kids, depth, p, i);
    assert NodeOk(mem, kids, depth, k);
  }

  /** Entry `i` of the children of `root` is the place for `n`. */
  ghost predicate PlaceFor(mem: Mem, kids: Kids, root: Ptr, i: nat, n: Ptr) {
    && root in mem && root in kids && n in mem && i <= |kids[root]| && n != root
    && mem[n].start <= mem[n].end && Inside(mem[n], mem[root])
    && (i > 0 ==> kids[root][i - 1] in mem && mem[kids[root][i - 1]].end < mem[n].start)
    && (i < |kids[root]| ==> kids[root][i] in mem && mem[n].end < mem[kids[root][i]].start)
  }

  ghost function LinkedMem(mem: Mem, kids: Kids, root: Ptr, i: nat, n: Ptr): Mem
    requires root in mem && root in kids && n in mem && i <= |kids[root]| && (i > 0 ==> kids[root][i - 1] in mem)
  {
    SetLink(mem[n := mem[n].(sibling := Nth(kids[root], i), parent := root)], root, PrevOf(kids[root], i), n)
  }

  /** What linking does to entry `o` of the old list. */
  lemma LinkedOld(mem: Mem, kids: Kids, depth: Depths, root: Ptr, i: nat, n: Ptr, o: nat)
    requires Linked(mem, kids, depth) && Loose(mem, kids, n) && PlaceFor(mem, kids, root, i, n) && o < |kids[root]|
    ensures var k, mem' := kids[root][o], LinkedMem(mem, kids, root, i, n);
      && k in mem && k in mem' && k != n && k != root && KidOk(mem, kids, depth, root, o)
      && mem'[k] == mem[k].(sibling := if o + 1 == i then n else mem[k].sibling)
  {
    assert NodeOk(mem, kids, depth, root);
    var a := ParentOf(mem, kids, depth, root, kids[root][o]);
    if i > 0 && kids[root][o] == kids[root][i - 1] { KidsDistinct(mem, kids, depth, root, o, i - 1); }
  }

  /** The new memory, lists and depths after `n` is linked before entry `i` of the children of `root`. */
  ghost predicate Linking(mem: Mem, kids: Kids, depth: Depths, root: Ptr, i: nat, n: Ptr, mem': Mem, kids': Kids,
                          depth': Depths)
  {
    && Linked(mem, kids, depth) && Loose(mem, kids, n) && PlaceFor(mem, kids, root, i, n)
    && mem' == LinkedMem(mem, kids, root, i, n) && kids' == WithKid(kids, root, i, n)
    && depth' == depth[n := depth[root] + 1.0]
  }

  lemma LinkEntryNew(mem: Mem, kids: Kids, depth: Depths, root: Ptr, i: nat, n: Ptr, mem': Mem, kids': Kids,
                     depth': Depths)
    requires Linking(mem, kids, depth, root, i, n, mem', kids', depth')
    ensures root in mem' && root in kids' && KidOk(mem', kids', depth', root, i)
  {
    if i > 0 { LinkedOld(mem, kids, depth, root, i, n, i - 1); }
    if i < |kids[root]| {
      LinkedOld(mem, kids, depth, root, i, n, i);
      assert kids'[root][i + 1] == kids[root][i];
    }
  }

  lemma LinkEntryOld(mem: Mem, kids: Kids, depth: Depths, root: Ptr, i: nat, n: Ptr, mem': Mem, kids': Kids,
                     depth': Depths, o: nat, j: nat)
    requires Linking(mem, kids, depth, root, i, n, mem', kids', depth')
    requires o < |kids[root]| && j == if o < i then o else o + 1
    ensures root in mem' && root in kids' && KidOk(mem', kids', depth', root, j)
  {
    var list, list' := kids[root], kids'[root];
    LinkedOld(mem, kids, depth, root, i, n, o);
    assert list'[j] == list[o];
    if j + 1 == i {
      assert list'[j + 1] == n;
    } else if o + 1 < |list| {
      LinkedOld(mem, kids, depth, root, i, n, o + 1);
      assert list'[j + 1] == list[o + 1];
    }
  }

  lemma LinkRoot(mem: Mem, kids: Kids, depth: Depths, root: Ptr, i: nat, n: Ptr, mem': Mem, kids': Kids, depth': Depths)
    requires Linking(mem, kids, depth, root, i, n, mem', kids', depth')
    ensures root in mem' && NodeOk(mem', kids', depth', root)
  {
    assert NodeOk(mem, kids, depth, root);
    if i > 0 {
      var a := ParentOf(mem, kids, depth, root, kids[root][i - 1]);
    }
    forall j | 0 <= j < |kids'[root]| ensures KidOk(mem', kids', depth', root, j) {
      if j == i {
        LinkEntryNew(mem, kids, depth, root, i, n, mem', kids', depth');
      } else {
        LinkEntryOld(mem, kids, depth, root, i, n, mem', kids', depth', if j < i then j else j - 1, j);
      }
    }
  }

  lemma LinkHome(mem: Mem, kids: Kids, root: Ptr, i: nat, n: Ptr, mem': Mem, kids': Kids)
    requires Homed(mem, kids) && PlaceFor(mem, kids, root, i, n) && n in kids
    requires mem' == LinkedMem(mem, kids, root, i, n) && kids' == WithKid(kids, root, i, n)
    ensures Homed(mem', kids')
  {
    var list := kids[root];
    assert list == list[..i] + list[i..];
    assert kids'[root][i] == n;
    forall p | p in mem' ensures Owned(mem', kids', p) {
      assert Owned(mem, kids, p);
    }
  }

  /** Linking a loose node at its place keeps the lists right. */
  lemma LinkKid(mem: Mem, kids: Kids, depth: Depths, root: Ptr, i: nat, n: Ptr, mem': Mem, kids': Kids, depth': Depths)
    requires Linking(mem, kids, depth, root, i, n, mem', kids', depth')
    ensures Linked(mem', kids', depth')
  {
    if i > 0 { var q := ParentOf(mem, kids, depth, root, kids[root][i - 1]); }
    forall p | p in mem' ensures NodeOk(mem', kids', depth', p) {
      assert NodeOk(mem, kids, depth, p);
      if p == root {
        LinkRoot(mem, kids, depth, root, i, n, mem', kids', depth');
      } else if p != n {
        forall k | k in kids[p] ensures k in mem' && SameOutside(mem[k], mem'[k]) && depth'[p] < depth'[k] && k in mem {
          var j := ParentOf(mem, kids, depth, p, k);
        }
        NodeKept(mem, kids, depth, mem', kids', depth', p);
      }
    }
  }

  class ResourceTree {
    var mem: Mem
    ghost var kids: Kids
    ghost var depth: Depths

    ghost predicate Valid()
      reads this
    {
      WellFormed(mem, kids, depth)
    }

    constructor ()
      ensures Valid() && mem == map[] && kids == map[] && depth == map[]
    {
      mem, kids, depth := map[], map[], map[];
    }
  }

  // ---------------------------------------------------------------- requesting

  /** `n` can be linked under `root`: its range is not empty, lies inside, and is free. */
  ghost predicate Fits(mem: Mem, kids: Kids, root: Ptr, n: Ptr)
    requires root in mem && root in kids && n in mem
  {
    && mem[n].start <= mem[n].end && Inside(mem[n], mem[root])
    && forall i {:trigger kids[root][i]} :: 0 <= i < |kids[root]| && kids[root][i] in mem ==>
      !Overlap(mem[kids[root][i]], mem[n])
  }

  /** The first child of `root`, number `i`, that is in the way of `n`. */
  ghost predicate Blocks(mem: Mem, kids: Kids, root: Ptr, n: Ptr, i: nat)
    requires root in kids && n in mem
  {
    && i < |kids[root]| && kids[root][i] in mem && Overlap(mem[kids[root][i]], mem[n])
    && forall j :: 0 <= j < i && kids[root][j] in mem ==> mem[kids[root][j]].end < mem[n].start
  }

  lemma FreeBeyond(mem: Mem, kids: Kids, depth: Depths, root: Ptr, n: Ptr, i: nat)
    requires Linked(mem, kids, depth) && root in mem && n in mem && i <= |kids[root]| && n != root
    requires mem[n].start <= mem[n].end && Inside(mem[n], mem[root])
    requires forall j {:trigger kids[root][j]} :: 0 <= j < i && kids[root][j] in mem ==>
      mem[kids[root][j]].end < mem[n].start
    requires i < |kids[root]| ==> kids[root][i] in mem && mem[n].end < mem[kids[root][i]].start
    ensures Fits(mem, kids, root, n) && PlaceFor(mem, kids, root, i, n)
  {
    assert NodeOk(mem, kids, depth, root);
    forall j | 0 <= j < |kids[root]| && kids[root][j] in mem ensures !Overlap(mem[kids[root][j]], mem[n]) {
      if i < j {
        KidsApart(mem, kids, depth, root, i, j);
        assert KidOk(mem, kids, depth, root, i);
      }
      assert KidOk(mem, kids, depth, root, j);
    }
    if i > 0 { assert KidOk(mem, kids, depth, root, i - 1); }
  }

  /**
    `__request_resource`, lines 33-59. Returns the node in the way, or null; `i` is the place taken, or the
    child in the way.
   */
  method Request(t: ResourceTree, root: Ptr, n: Ptr) returns (conflict: Ptr, ghost i: nat)
    requires t.Valid() && root in t.mem && Loose(t.mem, t.kids, n) && n != root
    modifies t
    ensures t.Valid() && (conflict == NULL <==> old(Fits(t.mem, t.kids, root, n)))
    ensures conflict == NULL ==>
      PlaceFor(old(t.mem), old(t.kids), root, i, n) && t.mem == LinkedMem(old(t.mem), old(t.kids), root, i, n)
    ensures conflict == NULL ==> t.kids == WithKid(old(t.kids), root, i, n)
    ensures conflict != NULL ==> t.mem == old(t.mem) && t.kids == old(t.kids) && t.depth == old(t.depth)
    ensures conflict != NULL ==> conflict == root || (Blocks(t.mem, t.kids, root, n, i) && conflict == t.kids[root][i])
    ensures conflict == root <==> !(old(t.mem)[n].start <= old(t.mem)[n].end && Inside(old(t.mem)[n], old(t.mem)[root]))
  {
    i := 0;
    var start, end := t.mem[n].start, t.mem[n].end;
    assert NodeOk(t.mem, t.kids, t.depth, root);
    if end < start || start < t.mem[root].start || end > t.mem[root].end {
      return root, 0;
    }
    var prev, tmp := NULL, t.mem[root].child;
    NthOk(t.mem, t.kids, t.depth, root, 0);
    while tmp != NULL && t.mem[tmp].start <= end
      invariant t.Valid() && t.mem == old(t.mem) && t.kids == old(t.kids) && t.depth == old(t.depth) && root in t.mem
      invariant i <= |t.kids[root]| && tmp == Nth(t.kids[root], i) && prev == PrevOf(t.kids[root], i)
      invariant (tmp != NULL <==> i < |t.kids[root]|) && (tmp != NULL ==> tmp in t.mem)
      invariant forall j {:trigger t.kids[root][j]} :: 0 <= j < i && t.kids[root][j] in t.mem ==>
        t.mem[t.kids[root][j]].end < start
      decreases |t.kids[root]| - i
    {
      ChildNotRoot(t.mem, t.kids, t.depth, root, i);
      if t.mem[tmp].end >= start {
        return tmp, i;
      }
      prev, tmp := tmp, t.mem[tmp].sibling;
      i := i + 1;
      NthOk(t.mem, t.kids, t.depth, root, i);
    }
    FreeBeyond(t.mem, t.kids, t.depth, root, n, i);
    t.mem := t.mem[n := t.mem[n].(sibling := tmp, parent := root)];
    t.mem := SetLink(t.mem, root, prev, n);
    t.kids := WithKid(t.kids, root, i, n);
    t.depth := t.depth[n := t.depth[root] + 1.0];
    LinkKid(old(t.mem), old(t.kids), old(t.depth), root, i, n, t.mem, t.kids, t.depth);
    LinkHome(old(t.mem), old(t.kids), root, i, n, t.mem, t.kids);
    conflict := NULL;
  }

  lemma NthOk(mem: Mem, kids: Kids, depth: Depths, root: Ptr, i: nat)
    requires Linked(mem, kids, depth) && root in mem
    ensures (Nth(kids[root], i) != NULL <==> i < |kids[root]|) && (i < |kids[root]| ==> kids[root][i] in mem)
  {
    if i < |kids[root]| {
      ChildNotRoot(mem, kids, depth, root, i);
    }
  }

  lemma ChildNotRoot(mem: Mem, kids: Kids, depth: Depths, root: Ptr, i: nat)
    requires Linked(mem, kids, depth) && root in mem && i < |kids[root]|
    ensures kids[root][i] in mem && kids[root][i] != root && kids[root][i] != NULL && KidOk(mem, kids, depth, root, i)
  {
    var j := ParentOf(mem, kids, depth, root, kids[root][i]);
    assert NodeOk(mem, kids, depth, root);
  }
}
