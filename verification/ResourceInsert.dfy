/** Putting a range over existing ones in a resource tree, and moving the ends of a range. */
module ResourceInsert {
  import opened Resource
  import opened ResourceAlloc
  import opened ResourceRegion

  // ---------------------------------------------------------------- adopting

  /** Entries `i` up to `j` of the children of `p` go below `n`, which takes their place. */
  ghost function AdoptedKids(kids: Kids, p: Ptr, i: nat, j: nat, n: Ptr): Kids
    requires p in kids && i <= j < |kids[p]|
  {
    kids[p := kids[p][..i] + [n] + kids[p][j + 1..]][n := kids[p][i..j + 1]]
  }

  ghost function AdoptedRes(mem: Mem, list: seq<Ptr>, p: Ptr, i: nat, j: nat, n: Ptr, q: Ptr): Res
    requires q in mem && i <= j < |list|
  {
    if q == n then mem[q].(parent := p, sibling := Nth(list, j + 1), child := list[i])
    else if q in list[i..j + 1] then mem[q].(parent := n, sibling := if q == list[j] then NULL else mem[q].sibling)
    else if i == 0 && q == p then mem[q].(child := n)
    else if i > 0 && q == list[i - 1] then mem[q].(sibling := n)
    else mem[q]
  }

  ghost function AdoptedMem(mem: Mem, kids: Kids, p: Ptr, i: nat, j: nat, n: Ptr): Mem
    requires p in kids && i <= j < |kids[p]|
  {
    map q | q in mem :: AdoptedRes(mem, kids[p], p, i, j, n, q)
  }

  /** The range of `n` covers entries `i` up to `j` of the children of `p`, and no others come near it. */
  ghost predicate Surrounds(mem: Mem, kids: Kids, p: Ptr, i: nat, j: nat, n: Ptr) {
    && p in mem && p in kids && n in mem && n != p && i <= j < |kids[p]| && mem[n].start <= mem[n].end
      && Inside(mem[n], mem[p])
    && (forall x {:trigger kids[p][x]} :: i <= x <= j ==> kids[p][x] in mem && Inside(mem[kids[p][x]], mem[n]))
    && (i > 0 ==> kids[p][i - 1] in mem && mem[kids[p][i - 1]].end < mem[n].start)
    && (j + 1 < |kids[p]| ==> kids[p][j + 1] in mem && mem[n].end < mem[kids[p][j + 1]].start)
  }

  ghost predicate Between(depth: Depths, list: seq<Ptr>, p: Ptr, r: real) {
    p in depth && depth[p] < r && forall x {:trigger list[x]} :: 0 <= x < |list| ==>
      list[x] in depth && r < depth[list[x]]
  }

  lemma {:induction false} FindBetween(depth: Depths, list: seq<Ptr>, p: Ptr) returns (r: real)
    requires p in depth && forall x {:trigger list[x]} :: 0 <= x < |list| ==>
      list[x] in depth && depth[p] < depth[list[x]]
    ensures Between(depth, list, p, r)
  {
    if |list| == 0 {
      r := depth[p] + 1.0;
    } else {
      var k := list[|list| - 1];
      r := FindBetween(depth, list[..|list| - 1], p);
      if depth[k] <= r {
        r := (depth[p] + depth[k]) / 2.0;
      }
      forall x | 0 <= x < |list| ensures list[x] in depth && r < depth[list[x]] {
        if x < |list| - 1 { assert list[..|list| - 1][x] == list[x]; }
      }
    }
  }

  ghost predicate Adopting(mem: Mem, kids: Kids, depth: Depths, p: Ptr, i: nat, j: nat, n: Ptr, r: real) {
    && Linked(mem, kids, depth) && Loose(mem, kids, n) && Surrounds(mem, kids, p, i, j, n)
      && Between(depth, kids[p][i..j + 1], p, r)
  }

  /** Members of a list, told apart by their places. */
  lemma InSlice(mem: Mem, kids: Kids, depth: Depths, p: Ptr, i: nat, j: nat, x: nat)
    requires Linked(mem, kids, depth) && p in mem && i <= j < |kids[p]| && x < |kids[p]|
    ensures kids[p][x] in kids[p][i..j + 1] <==> i <= x <= j
  {
    assert NodeOk(mem, kids, depth, p);
    if kids[p][x] in kids[p][i..j + 1] {
      var y :| 0 <= y < j + 1 - i && kids[p][i..j + 1][y] == kids[p][x];
      KidsDistinct(mem, kids, depth, p, x, i + y);
    }
    if i <= x <= j {
      assert kids[p][i..j + 1][x - i] == kids[p][x];
    }
  }

  /** What becomes of entry `x` of the old list. */
  lemma AdoptedAt(mem: Mem, kids: Kids, depth: Depths, p: Ptr, i: nat, j: nat, n: Ptr, r: real, x: nat)
    requires Adopting(mem, kids, depth, p, i, j, n, r) && x < |kids[p]|
    ensures var k, mem' := kids[p][x], AdoptedMem(mem, kids, p, i, j, n);
      && k in mem && k in mem' && k != n && k != p && k != NULL && KidOk(mem, kids, depth, p, x)
      && mem'[k].start == mem[k].start && mem'[k].end == mem[k].end
      && mem'[k].parent == (if i <= x <= j then n else p)
      && mem'[k].sibling == (if x == j then NULL else if x + 1 == i then n else mem[k].sibling)
  {
    ChildNotRoot(mem, kids, depth, p, x);
    InSlice(mem, kids, depth, p, i, j, x);
    assert NodeOk(mem, kids, depth, p);
    if kids[p][x] == kids[p][j] { KidsDistinct(mem, kids, depth, p, x, j); }
    if i > 0 && kids[p][x] == kids[p][i - 1] { KidsDistinct(mem, kids, depth, p, x, i - 1); }
  }

  lemma AdoptedChild(mem: Mem, kids: Kids, depth: Depths, p: Ptr, i: nat, j: nat, n: Ptr, r: real, x: nat)
    requires Adopting(mem, kids, depth, p, i, j, n, r) && x < j + 1 - i
    ensures var mem', kids', depth' := AdoptedMem(mem, kids, p, i, j, n), AdoptedKids(kids, p, i, j, n), depth[n := r];
      n in mem' && KidOk(mem', kids', depth', n, x)
  {
    AdoptedAt(mem, kids, depth, p, i, j, n, r, i + x);
    assert kids[p][i..j + 1][x] == kids[p][i + x];
    if i + x < j {
      AdoptedAt(mem, kids, depth, p, i, j, n, r, i + x + 1);
      assert kids[p][i..j + 1][x + 1] == kids[p][i + x + 1];
    }
  }

  lemma AdoptedNew(mem: Mem, kids: Kids, depth: Depths, p: Ptr, i: nat, j: nat, n: Ptr, r: real, mem': Mem,
                   kids': Kids, depth': Depths)
    requires Adopting(mem, kids, depth, p, i, j, n, r)
    requires mem' == AdoptedMem(mem, kids, p, i, j, n) && kids' == AdoptedKids(kids, p, i, j, n)
      && depth' == depth[n := r]
    ensures n in mem' && NodeOk(mem', kids', depth', n)
  {
    assert NodeOk(mem, kids, depth, n);
    assert kids[p][i..j + 1][0] == kids[p][i];
    forall x | 0 <= x < |kids'[n]| ensures KidOk(mem', kids', depth', n, x) {
      AdoptedChild(mem, kids, depth, p, i, j, n, r, x);
    }
  }

  lemma AdoptedEntry(mem: Mem, kids: Kids, depth: Depths, p: Ptr, i: nat, j: nat, n: Ptr, r: real, mem': Mem,
                     kids': Kids, depth': Depths, x: nat)
    requires Adopting(mem, kids, depth, p, i, j, n, r)
    requires mem' == AdoptedMem(mem, kids, p, i, j, n) && kids' == AdoptedKids(kids, p, i, j, n)
      && depth' == depth[n := r]
    requires x < |kids[p]| - (j - i)
    ensures p in mem' && KidOk(mem', kids', depth', p, x)
  {
    var list := kids[p][..i] + [n] + kids[p][j + 1..];
    assert kids'[p] == list;
    if x != i {
      var o := if x < i then x else x + (j - i);
      assert list[x] == kids[p][o];
      AdoptedAt(mem, kids, depth, p, i, j, n, r, o);
      if x + 1 != i && x + 1 < |list| {
        assert list[x + 1] == kids[p][o + 1];
        AdoptedAt(mem, kids, depth, p, i, j, n, r, o + 1);
      }
    } else if j + 1 < |kids[p]| {
      assert list[i + 1] == kids[p][j + 1];
      AdoptedAt(mem, kids, depth, p, i, j, n, r, j + 1);
    }
  }

  lemma AdoptedParent(mem: Mem, kids: Kids, depth: Depths, p: Ptr, i: nat, j: nat, n: Ptr, r: real, mem': Mem,
                      kids': Kids, depth': Depths)
    requires Adopting(mem, kids, depth, p, i, j, n, r)
    requires mem' == AdoptedMem(mem, kids, p, i, j, n) && kids' == AdoptedKids(kids, p, i, j, n)
      && depth' == depth[n := r]
    ensures p in mem' && NodeOk(mem', kids', depth', p)
  {
    assert NodeOk(mem, kids, depth, p);
    ParentNotListed(mem, kids, depth, p);
    forall x | 0 <= x < |kids'[p]| ensures KidOk(mem', kids', depth', p, x) {
      AdoptedEntry(mem, kids, depth, p, i, j, n, r, mem', kids', depth', x);
    }
    if i > 0 { AdoptedAt(mem, kids, depth, p, i, j, n, r, 0); }
  }

  lemma ParentNotListed(mem: Mem, kids: Kids, depth: Depths, p: Ptr)
    requires Linked(mem, kids, depth) && p in mem
    ensures p !in kids[p]
  {
    if p in kids[p] {
      var i := ParentOf(mem, kids, depth, p, p);
    }
  }

  /** Putting `n` over some children of `p` keeps the tree well formed. */
  lemma Adopt(mem: Mem, kids: Kids, depth: Depths, p: Ptr, i: nat, j: nat, n: Ptr, r: real, mem': Mem, kids': Kids,
              depth': Depths)
    requires Adopting(mem, kids, depth, p, i, j, n, r)
    requires mem' == AdoptedMem(mem, kids, p, i, j, n) && kids' == AdoptedKids(kids, p, i, j, n)
      && depth' == depth[n := r]
    ensures Linked(mem', kids', depth')
  {
    forall q | q in mem' ensures NodeOk(mem', kids', depth', q) {
      assert NodeOk(mem, kids, depth, q);
      if q == n {
        AdoptedNew(mem, kids, depth, p, i, j, n, r, mem', kids', depth');
      } else if q == p {
        AdoptedParent(mem, kids, depth, p, i, j, n, r, mem', kids', depth');
      } else {
        AdoptedOther(mem, kids, depth, p, i, j, n, r, mem', kids', depth', q);
      }
    }
  }

  lemma AdoptedHome(mem: Mem, kids: Kids, depth: Depths, p: Ptr, i: nat, j: nat, n: Ptr, r: real, mem': Mem,
                    kids': Kids)
    requires Adopting(mem, kids, depth, p, i, j, n, r) && Homed(mem, kids)
    requires mem' == AdoptedMem(mem, kids, p, i, j, n) && kids' == AdoptedKids(kids, p, i, j, n)
    ensures Homed(mem', kids')
  {
    var list := kids[p];
    assert list == list[..i] + list[i..j + 1] + list[j + 1..];
    assert kids'[p][i] == n;
    forall q | q in mem' ensures Owned(mem', kids', q) {
      assert Owned(mem, kids, q);
      if q != n && q in list {
        var x := ParentOf(mem, kids, depth, p, q);
        AdoptedAt(mem, kids, depth, p, i, j, n, r, x);
      }
    }
  }

  lemma AdoptedOther(mem: Mem, kids: Kids, depth: Depths, p: Ptr, i: nat, j: nat, n: Ptr, r: real, mem': Mem,
                     kids': Kids, depth': Depths, q: Ptr)
    requires Adopting(mem, kids, depth, p, i, j, n, r) && q in mem && q != n && q != p
    requires mem' == AdoptedMem(mem, kids, p, i, j, n) && kids' == AdoptedKids(kids, p, i, j, n)
      && depth' == depth[n := r]
    ensures NodeOk(mem', kids', depth', q)
  {
    assert NodeOk(mem, kids, depth, q);
    forall k | k in kids[q]
      ensures k in mem && k in mem' && SameOutside(mem[k], mem'[k]) && k in depth' && depth'[q] < depth'[k] {
      var y := ParentOf(mem, kids, depth, q, k);
      NotAmong(mem, kids, depth, p, k);
    }
    NodeKept(mem, kids, depth, mem', kids', depth', q);
  }

  lemma NotAmong(mem: Mem, kids: Kids, depth: Depths, p: Ptr, k: Ptr)
    requires Linked(mem, kids, depth) && p in mem && k in mem && mem[k].parent != p
    ensures forall x :: 0 <= x < |kids[p]| ==> kids[p][x] != k
  {
    forall x | 0 <= x < |kids[p]| ensures kids[p][x] != k {
      var y := ParentOf(mem, kids, depth, p, kids[p][x]);
    }
  }

  // ---------------------------------------------------------------- relinking

  /** A node while `n` adopts: the first `m` of the adopted children have their new parent. */
  ghost function StageRes(mem: Mem, list: seq<Ptr>, p: Ptr, i: nat, j: nat, n: Ptr, m: nat, q: Ptr): Res
    requires q in mem && i <= j < |list| && m <= j + 1 - i
  {
    if q == n then mem[q].(parent := p, sibling := Nth(list, j + 1), child := list[i])
    else
      mem[q].(parent := if q in list[i..i + m] then n else mem[q].parent, sibling := if q == list[j] then NULL
      else mem[q].sibling)
  }

  ghost function StageMem(mem: Mem, list: seq<Ptr>, p: Ptr, i: nat, j: nat, n: Ptr, m: nat): Mem
    requires i <= j < |list| && m <= j + 1 - i
  {
    map q | q in mem :: StageRes(mem, list, p, i, j, n, m, q)
  }

  lemma StageStart(mem: Mem, kids: Kids, depth: Depths, p: Ptr, i: nat, j: nat, n: Ptr, r: real)
    requires Adopting(mem, kids, depth, p, i, j, n, r)
    ensures kids[p][j] in mem && kids[p][j] != n && mem[kids[p][j]].sibling == Nth(kids[p], j + 1)
    ensures var last := kids[p][j];
      mem[n := mem[n].(parent := p, sibling := mem[last].sibling, child := kids[p][i])][last :=
        mem[last].(sibling := NULL)] == StageMem(mem, kids[p], p, i, j, n, 0)
  {
    AdoptedAt(mem, kids, depth, p, i, j, n, r, j);
  }

  /** The child that is to get its new parent next, or null after the last one. */
  ghost predicate NextIs(list: seq<Ptr>, i: nat, j: nat, m: nat, next: Ptr)
    requires i <= j < |list| && m <= j + 1 - i
  {
    if m == j + 1 - i then next == NULL else next == list[i + m] && next != NULL
  }

  lemma StageStep(mem: Mem, kids: Kids, depth: Depths, p: Ptr, i: nat, j: nat, n: Ptr, r: real, m: nat)
    requires Adopting(mem, kids, depth, p, i, j, n, r) && m < j + 1 - i
    ensures var k, st := kids[p][i + m], StageMem(mem, kids[p], p, i, j, n, m);
      && k in st && NextIs(kids[p], i, j, m + 1, st[k].sibling)
      && st[k := st[k].(parent := n)] == StageMem(mem, kids[p], p, i, j, n, m + 1)
  {
    if m < j - i { AdoptedAt(mem, kids, depth, p, i, j, n, r, i + m + 1); }
    var k := kids[p][i + m];
    AdoptedAt(mem, kids, depth, p, i, j, n, r, i + m);
    if k == kids[p][j] {
      assert NodeOk(mem, kids, depth, p);
      KidsDistinct(mem, kids, depth, p, i + m, j);
    }
    StageNext(mem, kids[p], p, i, j, n, m);
  }

  lemma StageNext(mem: Mem, list: seq<Ptr>, p: Ptr, i: nat, j: nat, n: Ptr, m: nat)
    requires i <= j < |list| && m < j + 1 - i && list[i + m] in mem && list[i + m] != n
    ensures var k, st := list[i + m], StageMem(mem, list, p, i, j, n, m);
      st[k := st[k].(parent := n)] == StageMem(mem, list, p, i, j, n, m + 1)
  {
    var k, st, st' := list[i + m], StageMem(mem, list, p, i, j, n, m), StageMem(mem, list, p, i, j, n, m + 1);
    assert list[i..i + m + 1] == list[i..i + m] + [k];
    var up := st[k := st[k].(parent := n)];
    assert up.Keys == st'.Keys;
    forall q | q in up ensures up[q] == st'[q] {
      assert q in list[i..i + m + 1] <==> q in list[i..i + m] || q == k;
    }
  }

  lemma StageEndAt(mem: Mem, kids: Kids, depth: Depths, p: Ptr, i: nat, j: nat, n: Ptr, r: real, st: Mem, q: Ptr)
    requires Adopting(mem, kids, depth, p, i, j, n, r) && q in mem && p !in kids[p]
    requires st == StageMem(mem, kids[p], p, i, j, n, j + 1 - i) && p in st && (i > 0 ==> kids[p][i - 1] in st)
    ensures SetLink(st, p, PrevOf(kids[p], i), n)[q] == AdoptedRes(mem, kids[p], p, i, j, n, q)
  {
    var list := kids[p];
    assert list[i..i + (j + 1 - i)] == list[i..j + 1];
    AdoptedAt(mem, kids, depth, p, i, j, n, r, j);
    InSlice(mem, kids, depth, p, i, j, j);
    if i > 0 {
      AdoptedAt(mem, kids, depth, p, i, j, n, r, i - 1);
      InSlice(mem, kids, depth, p, i, j, i - 1);
    }
  }

  lemma StageEnd(mem: Mem, kids: Kids, depth: Depths, p: Ptr, i: nat, j: nat, n: Ptr, r: real, st: Mem)
    requires Adopting(mem, kids, depth, p, i, j, n, r) && st == StageMem(mem, kids[p], p, i, j, n, j + 1 - i)
    ensures p in st && (i > 0 ==> kids[p][i - 1] in st)
    ensures SetLink(st, p, PrevOf(kids[p], i), n) == AdoptedMem(mem, kids, p, i, j, n)
  {
    ParentNotListed(mem, kids, depth, p);
    if i > 0 { ChildNotRoot(mem, kids, depth, p, i - 1); }
    var st', ad := SetLink(st, p, PrevOf(kids[p], i), n), AdoptedMem(mem, kids, p, i, j, n);
    assert st'.Keys == st.Keys && ad.Keys == mem.Keys;
    forall q | q in mem ensures st'[q] == ad[q] {
      StageEndAt(mem, kids, depth, p, i, j, n, r, st, q);
    }
  }

  /** Lines 227-233: the adopted children get their new parent. */
  method SetParents(t: ResourceTree, p: Ptr, n: Ptr, first: Ptr, last: Ptr, ghost i: nat, ghost j: nat, ghost r: real)
    requires Adopting(t.mem, t.kids, t.depth, p, i, j, n, r) && first == t.kids[p][i] && last == t.kids[p][j]
    modifies t`mem
    ensures t.mem == StageMem(old(t.mem), t.kids[p], p, i, j, n, j + 1 - i)
  {
    ghost var mem := t.mem;
    StageStart(mem, t.kids, t.depth, p, i, j, n, r);
    t.mem := t.mem[n := t.mem[n].(parent := p, sibling := t.mem[last].sibling, child := first)];
    t.mem := t.mem[last := t.mem[last].(sibling := NULL)];
    AdoptedAt(mem, t.kids, t.depth, p, i, j, n, r, i);
    var next := first;
    ghost var m: nat := 0;
    while next != NULL
      invariant m <= j + 1 - i && t.mem == StageMem(mem, t.kids[p], p, i, j, n, m) && NextIs(t.kids[p], i, j, m, next)
      decreases j + 1 - i - m
    {
      StageStep(mem, t.kids, t.depth, p, i, j, n, r, m);
      var k := next;
      next := t.mem[k].sibling;
      t.mem := t.mem[k := t.mem[k].(parent := n)];
      m := m + 1;
    }
  }

  /** Lines 235-242: the link that led to the first of them leads to `n`. */
  method LinkOver(t: ResourceTree, p: Ptr, n: Ptr, first: Ptr, ghost mem: Mem, ghost i: nat, ghost j: nat,
                  ghost r: real)
    requires Adopting(mem, t.kids, t.depth, p, i, j, n, r) && first == t.kids[p][i]
      && t.mem == StageMem(mem, t.kids[p], p, i, j, n, j + 1 - i)
    modifies t`mem
    ensures t.mem == AdoptedMem(mem, t.kids, p, i, j, n)
  {
    StageEnd(mem, t.kids, t.depth, p, i, j, n, r, t.mem);
    assert NodeOk(mem, t.kids, t.depth, p);
    ParentNotListed(mem, t.kids, t.depth, p);
    FirstKid(mem, t.kids, t.depth, p, i, j, n, r);
    if t.mem[p].child == first {
      t.mem := t.mem[p := t.mem[p].(child := n)];
    } else {
      var next := t.mem[p].child;
      ghost var x: nat := 0;
      EarlierKid(mem, t.kids, t.depth, p, i, j, n, r, 0);
      AdoptedAt(mem, t.kids, t.depth, p, i, j, n, r, i - 1);
      while t.mem[next].sibling != first
        invariant t.mem == old(t.mem) && x < i && next == t.kids[p][x] && next in t.mem
          && t.mem[next].sibling == t.kids[p][x + 1] && (t.mem[next].sibling == first <==> x == i - 1)
        decreases i - x
      {
        next := t.mem[next].sibling;
        x := x + 1;
        EarlierKid(mem, t.kids, t.depth, p, i, j, n, r, x);
      }
      t.mem := t.mem[next := t.mem[next].(sibling := n)];
    }
  }

  lemma FirstKid(mem: Mem, kids: Kids, depth: Depths, p: Ptr, i: nat, j: nat, n: Ptr, r: real)
    requires Adopting(mem, kids, depth, p, i, j, n, r) && p !in kids[p]
    ensures var st := StageMem(mem, kids[p], p, i, j, n, j + 1 - i);
      p in st && st[p].child == kids[p][0] && (st[p].child == kids[p][i] <==> i == 0)
  {
    assert NodeOk(mem, kids, depth, p);
    if kids[p][0] == kids[p][i] { KidsDistinct(mem, kids, depth, p, 0, i); }
  }

  lemma EarlierKid(mem: Mem, kids: Kids, depth: Depths, p: Ptr, i: nat, j: nat, n: Ptr, r: real, x: nat)
    requires Adopting(mem, kids, depth, p, i, j, n, r) && x < i
    ensures var st := StageMem(mem, kids[p], p, i, j, n, j + 1 - i);
      kids[p][x] in st && st[kids[p][x]].sibling == kids[p][x + 1] && (kids[p][x + 1] == kids[p][i] <==> x == i - 1)
  {
    AdoptedAt(mem, kids, depth, p, i, j, n, r, x);
    AdoptedAt(mem, kids, depth, p, i, j, n, r, j);
    assert NodeOk(mem, kids, depth, p);
    if kids[p][x] == kids[p][j] { KidsDistinct(mem, kids, depth, p, x, j); }
    if kids[p][x + 1] == kids[p][i] { KidsDistinct(mem, kids, depth, p, x + 1, i); }
  }

  // ---------------------------------------------------------------- inserting

  /**
    Lines 215-223: the last of the children from entry `i` on that `n` must cover; fails if it covers one only
    in part.
   */
  method Cover(t: ResourceTree, p: Ptr, n: Ptr, first: Ptr, ghost i: nat) returns (ok: bool, last: Ptr, ghost j: nat)
    requires t.Valid() && p in t.mem && n in t.mem && n != p && Blocks(t.mem, t.kids, p, n, i) && first == t.kids[p][i]
    requires t.mem[n].start <= t.mem[n].end && Inside(t.mem[n], t.mem[p])
    ensures ok ==> Surrounds(t.mem, t.kids, p, i, j, n) && last == t.kids[p][j]
    ensures !ok ==>
      i <= j < |t.kids[p]| && last == t.kids[p][j] && last in t.mem && Overlap(t.mem[last], t.mem[n])
      && !Inside(t.mem[last], t.mem[n])
  {
    last, j := first, i;
    ChildNotRoot(t.mem, t.kids, t.depth, p, i);
    while true
      invariant i <= j < |t.kids[p]| && last == t.kids[p][j] && KidOk(t.mem, t.kids, t.depth, p, j)
        && Overlap(t.mem[last], t.mem[n])
      invariant forall x {:trigger t.kids[p][x]} :: i <= x < j ==>
        t.kids[p][x] in t.mem && Inside(t.mem[t.kids[p][x]], t.mem[n])
      decreases |t.kids[p]| - j
    {
      if t.mem[last].start < t.mem[n].start || t.mem[last].end > t.mem[n].end {
        return false, last, j;
      }
      NthOk(t.mem, t.kids, t.depth, p, j + 1);
      if t.mem[last].sibling == NULL || t.mem[t.mem[last].sibling].start > t.mem[n].end {
        if i > 0 { ChildNotRoot(t.mem, t.kids, t.depth, p, i - 1); }
        return true, last, j;
      }
      ChildNotRoot(t.mem, t.kids, t.depth, p, j + 1);
      last := t.mem[last].sibling;
      j := j + 1;
    }
  }

  /** Ranges that overlap without either holding the other. */
  ghost predicate Clash(a: Res, b: Res) {
    Overlap(a, b) && !Inside(a, b) && !Inside(b, a)
  }

  lemma ClashFound(mem: Mem, kids: Kids, depth: Depths, p: Ptr, n: Ptr, i: nat, j: nat)
    requires Linked(mem, kids, depth) && p in mem && n in mem && Blocks(mem, kids, p, n, i) && i <= j < |kids[p]|
    requires Inside(mem[n], mem[kids[p][i]]) ==> Inside(mem[kids[p][i]], mem[n])
    requires kids[p][j] in mem && Overlap(mem[kids[p][j]], mem[n]) && !Inside(mem[kids[p][j]], mem[n])
    ensures Clash(mem[kids[p][j]], mem[n])
  {
    assert NodeOk(mem, kids, depth, p);
    if i < j { KidsApart(mem, kids, depth, p, i, j); }
  }

  ghost predicate Step(kids: Kids, chain: seq<Ptr>, j: nat)
    requires j + 1 < |chain|
  {
    chain[j] in kids && chain[j + 1] in kids[chain[j]]
  }

  /** From `a` down to a node below it. */
  ghost predicate Descends(kids: Kids, chain: seq<Ptr>, a: Ptr) {
    && |chain| > 1 && chain[0] == a
    && forall j {:trigger Step(kids, chain, j)} :: 0 <= j < |chain| - 1 ==> Step(kids, chain, j)
  }

  /** A chain that ends at a node which clashes with `n`. */
  ghost predicate ToClash(mem: Mem, kids: Kids, chain: seq<Ptr>, a: Ptr, n: Ptr) {
    Descends(kids, chain, a) && chain[|chain| - 1] in mem && n in mem && Clash(mem[chain[|chain| - 1]], mem[n])
  }

  /** No node below `a` clashes with `n`. */
  ghost predicate NoClash(mem: Mem, kids: Kids, a: Ptr, n: Ptr) {
    forall chain :: !ToClash(mem, kids, chain, a, n)
  }

  /** Whatever clashes with `n` below `a` is not above the end of `path`. */
  ghost predicate ClashBelow(mem: Mem, kids: Kids, path: seq<Ptr>, a: Ptr, n: Ptr) {
    forall chain {:trigger ToClash(mem, kids, chain, a, n)} :: ToClash(mem, kids, chain, a, n) ==> path <= chain
  }

  /** A node is inside every node above it. */
  lemma {:induction false} ChainInside(mem: Mem, kids: Kids, depth: Depths, chain: seq<Ptr>, a: Ptr, x: nat)
    requires Linked(mem, kids, depth) && a in mem && Descends(kids, chain, a) && x < |chain|
    ensures chain[x] in mem && chain[|chain| - 1] in mem && Inside(mem[chain[|chain| - 1]], mem[chain[x]])
    decreases |chain| - x
  {
    ChainNodes(mem, kids, depth, chain, a, x);
    if x < |chain| - 1 {
      ChainInside(mem, kids, depth, chain, a, x + 1);
      assert Step(kids, chain, x);
      var i := ParentOf(mem, kids, depth, chain[x], chain[x + 1]);
    }
  }

  lemma {:induction false} ChainNodes(mem: Mem, kids: Kids, depth: Depths, chain: seq<Ptr>, a: Ptr, x: nat)
    requires Linked(mem, kids, depth) && a in mem && Descends(kids, chain, a) && x < |chain|
    ensures chain[x] in mem
  {
    if x > 0 {
      ChainNodes(mem, kids, depth, chain, a, x - 1);
      assert Step(kids, chain, x - 1);
      var i := ParentOf(mem, kids, depth, chain[x - 1], chain[x]);
    }
  }

  /** The way to a clash goes on, from a node around `n`, to a child that overlaps `n` and is not inside it. */
  lemma ClashThrough(mem: Mem, kids: Kids, depth: Depths, path: seq<Ptr>, chain: seq<Ptr>, a: Ptr, n: Ptr)
    returns (x: nat)
    requires Linked(mem, kids, depth) && a in mem && ToClash(mem, kids, chain, a, n) && |path| > 0 && path <= chain
    requires path[|path| - 1] in mem && Inside(mem[n], mem[path[|path| - 1]])
    ensures var p := path[|path| - 1];
      && |path| < |chain| && x < |kids[p]| && kids[p][x] == chain[|path|] && kids[p][x] in mem
      && Overlap(mem[kids[p][x]], mem[n]) && !Inside(mem[kids[p][x]], mem[n])
  {
    var p := path[|path| - 1];
    assert chain[|path| - 1] == p;
    assert |path| < |chain|;
    ChainInside(mem, kids, depth, chain, a, |path|);
    assert Step(kids, chain, |path| - 1);
    x := ParentOf(mem, kids, depth, p, chain[|path|]);
  }

  /** A child strictly around `n` is on the way to every clash. */
  lemma ClashFurther(mem: Mem, kids: Kids, depth: Depths, path: seq<Ptr>, a: Ptr, n: Ptr, i: nat)
    requires Linked(mem, kids, depth) && a in mem && n in mem && ClashBelow(mem, kids, path, a, n) && |path| > 0
    requires path[|path| - 1] in mem && Inside(mem[n], mem[path[|path| - 1]]) && i < |kids[path[|path| - 1]]|
    requires kids[path[|path| - 1]][i] in mem && Inside(mem[n], mem[kids[path[|path| - 1]][i]])
    ensures ClashBelow(mem, kids, path + [kids[path[|path| - 1]][i]], a, n)
  {
    var p := path[|path| - 1];
    forall chain | ToClash(mem, kids, chain, a, n) ensures path + [kids[p][i]] <= chain {
      var x := ClashThrough(mem, kids, depth, path, chain, a, n);
      assert kids[p][i] in kids[p];
      OneOverlaps(mem, kids, depth, p, x, kids[p][i], n);
    }
  }

  /** Where each child is inside `n` or clear of it, nothing clashes. */
  lemma ClashNowhere(mem: Mem, kids: Kids, depth: Depths, path: seq<Ptr>, a: Ptr, n: Ptr)
    requires Linked(mem, kids, depth) && a in mem && n in mem && ClashBelow(mem, kids, path, a, n) && |path| > 0
    requires path[|path| - 1] in mem && Inside(mem[n], mem[path[|path| - 1]])
    requires forall x {:trigger kids[path[|path| - 1]][x]} ::
      0 <= x < |kids[path[|path| - 1]]| && kids[path[|path| - 1]][x] in mem ==>
        !Overlap(mem[kids[path[|path| - 1]][x]], mem[n]) || Inside(mem[kids[path[|path| - 1]][x]], mem[n])
    ensures NoClash(mem, kids, a, n)
  {
    forall chain ensures !ToClash(mem, kids, chain, a, n) {
      if ToClash(mem, kids, chain, a, n) {
        var x := ClashThrough(mem, kids, depth, path, chain, a, n);
        assert false;
      }
    }
  }

  /** The children that `n` does not surround are clear of it. */
  lemma SurroundsClear(mem: Mem, kids: Kids, depth: Depths, p: Ptr, i: nat, j: nat, n: Ptr, x: nat)
    requires Linked(mem, kids, depth) && Surrounds(mem, kids, p, i, j, n) && x < |kids[p]| && kids[p][x] in mem
    ensures !Overlap(mem[kids[p][x]], mem[n]) || Inside(mem[kids[p][x]], mem[n])
  {
    assert NodeOk(mem, kids, depth, p);
    if x < i - 1 { KidsApart(mem, kids, depth, p, x, i - 1); }
    if x > j + 1 { KidsApart(mem, kids, depth, p, j + 1, x); }
    if i > 0 { ChildNotRoot(mem, kids, depth, p, i - 1); }
    if j + 1 < |kids[p]| { ChildNotRoot(mem, kids, depth, p, j + 1); }
  }

  /** What inserting `n` has come to: it is a child of `p`, alone at entry `i`, or over entries `i` up to `j`. */
  datatype Place = Alone(p: Ptr, i: nat) | Over(p: Ptr, i: nat, j: nat)

  ghost predicate PlacedAt(mem: Mem, kids: Kids, n: Ptr, at: Place, mem': Mem, kids': Kids) {
    match at
    case Alone(p, i) =>
      PlaceFor(mem, kids, p, i, n) && mem' == LinkedMem(mem, kids, p, i, n) && kids' == WithKid(kids, p, i, n)
    case Over(p, i, j) =>
      Surrounds(mem, kids, p, i, j, n) && mem' == AdoptedMem(mem, kids, p, i, j, n)
      && kids' == AdoptedKids(kids, p, i, j, n)
  }

  method TakeOver(t: ResourceTree, p: Ptr, n: Ptr, first: Ptr, last: Ptr, ghost i: nat, ghost j: nat)
    requires t.Valid() && Loose(t.mem, t.kids, n) && Surrounds(t.mem, t.kids, p, i, j, n) && first == t.kids[p][i]
      && last == t.kids[p][j]
    modifies t
    ensures t.Valid() && PlacedAt(old(t.mem), old(t.kids), n, Over(p, i, j), t.mem, t.kids)
  {
    ghost var list := t.kids[p][i..j + 1];
    forall x | 0 <= x < |list| ensures list[x] in t.depth && t.depth[p] < t.depth[list[x]] {
      ChildNotRoot(t.mem, t.kids, t.depth, p, i + x);
    }
    ghost var r := FindBetween(t.depth, list, p);
    SetParents(t, p, n, first, last, i, j, r);
    LinkOver(t, p, n, first, old(t.mem), i, j, r);
    t.kids := AdoptedKids(t.kids, p, i, j, n);
    t.depth := t.depth[n := r];
    Adopt(old(t.mem), old(t.kids), old(t.depth), p, i, j, n, r, t.mem, t.kids, t.depth);
    AdoptedHome(old(t.mem), old(t.kids), old(t.depth), p, i, j, n, r, t.mem, t.kids);
  }

  /** The way down to where `n` is put: each node after the first is strictly around `n`. */
  ghost predicate Descent(mem: Mem, kids: Kids, path: seq<Ptr>, parent: Ptr, n: Ptr, p: Ptr) {
    && n in mem && p in mem && |path| > 0 && path[0] == parent && path[|path| - 1] == p
    && (|path| > 1 ==> Descends(kids, path, parent) && Inside(mem[n], mem[p]))
    && ClashBelow(mem, kids, path, parent, n)
  }

  lemma DescentStep(mem: Mem, kids: Kids, depth: Depths, path: seq<Ptr>, parent: Ptr, n: Ptr, p: Ptr, i: nat)
    requires Linked(mem, kids, depth) && parent in mem && Descent(mem, kids, path, parent, n, p)
    requires Inside(mem[n], mem[p]) && i < |kids[p]| && kids[p][i] in mem && Inside(mem[n], mem[kids[p][i]])
    ensures Descent(mem, kids, path + [kids[p][i]], parent, n, kids[p][i])
  {
    ClashFurther(mem, kids, depth, path, parent, n, i);
    DescendsStep(kids, path, parent, p, kids[p][i]);
  }

  lemma DescendsStep(kids: Kids, path: seq<Ptr>, parent: Ptr, p: Ptr, k: Ptr)
    requires |path| > 0 && path[0] == parent && path[|path| - 1] == p && (|path| > 1 ==> Descends(kids, path, parent))
    requires p in kids && k in kids[p]
    ensures Descends(kids, path + [k], parent)
  {
    var path' := path + [k];
    forall j | 0 <= j < |path'| - 1 ensures Step(kids, path', j) {
      if j < |path| - 1 { assert Step(kids, path, j); }
    }
  }

  lemma DescentClash(mem: Mem, kids: Kids, path: seq<Ptr>, parent: Ptr, n: Ptr, p: Ptr, k: Ptr)
    requires Descent(mem, kids, path, parent, n, p) && p in kids && k in kids[p] && k in mem && Clash(mem[k], mem[n])
    ensures !NoClash(mem, kids, parent, n)
  {
    DescendsStep(kids, path, parent, p, k);
    assert ToClash(mem, kids, path + [k], parent, n);
  }

  /** `insert_resource`, lines 192-247: it works out unless the range is bad or clashes with a node below. */
  method InsertResource(t: ResourceTree, parent: Ptr, n: Ptr) returns (err: int, ghost at: Place)
    requires t.Valid() && parent in t.mem && Loose(t.mem, t.kids, n) && n != parent
    modifies t
    ensures t.Valid() && (err == 0 || err == -EBUSY)
    ensures err == 0 ==> PlacedAt(old(t.mem), old(t.kids), n, at, t.mem, t.kids)
    ensures err != 0 ==> t.mem == old(t.mem) && t.kids == old(t.kids) && t.depth == old(t.depth)
    ensures err == 0 <==>
      && old(t.mem)[n].start <= old(t.mem)[n].end && Inside(old(t.mem)[n], old(t.mem)[parent])
      && NoClash(old(t.mem), old(t.kids), parent, n)
  {
    var p := parent;
    at := Alone(parent, 0);
    ghost var path := [parent];
    while true
      invariant t.mem == old(t.mem) && t.kids == old(t.kids) && t.depth == old(t.depth) && t.Valid()
      invariant p in t.mem && p != n && Descent(t.mem, t.kids, path, parent, n, p)
      invariant p != parent ==>
        t.mem[n].start <= t.mem[n].end && Inside(t.mem[n], t.mem[p]) && Inside(t.mem[n], t.mem[parent])
      decreases Deeper(old(t.depth), p)
    {
      var first, i := Resource.Request(t, p, n);
      if first == NULL {
        ClashNowhere(old(t.mem), old(t.kids), old(t.depth), path, parent, n);
        return 0, Alone(p, i);
      }
      if first == p {
        return -EBUSY, at;
      }
      ChildNotRoot(t.mem, t.kids, t.depth, p, i);
      assert NodeOk(t.mem, t.kids, t.depth, p);
      if t.mem[first].start > t.mem[n].start || t.mem[first].end < t.mem[n].end
        || (t.mem[first].start == t.mem[n].start && t.mem[first].end == t.mem[n].end)
      {
        err, at := PutOver(t, p, n, first, i, parent, path);
        return;
      }
      DeeperLess(t.depth, p, first);
      DescentStep(t.mem, t.kids, t.depth, path, parent, n, p, i);
      path := path + [first];
      p := first;
    }
  }

  /** Lines 215-242: over the children that are in the way, if all of them fit. */
  method PutOver(t: ResourceTree, p: Ptr, n: Ptr, first: Ptr, ghost i: nat, ghost parent: Ptr, ghost path: seq<Ptr>)
    returns (err: int, ghost at: Place)
    requires t.Valid() && p in t.mem && parent in t.mem && Loose(t.mem, t.kids, n) && n != p
    requires Blocks(t.mem, t.kids, p, n, i) && first == t.kids[p][i] && Descent(t.mem, t.kids, path, parent, n, p)
    requires t.mem[n].start <= t.mem[n].end && Inside(t.mem[n], t.mem[p])
    requires Inside(t.mem[n], t.mem[first]) ==> Inside(t.mem[first], t.mem[n])
    modifies t
    ensures t.Valid() && (err == 0 || err == -EBUSY)
    ensures err == 0 <==> NoClash(old(t.mem), old(t.kids), parent, n)
    ensures err == 0 ==> PlacedAt(old(t.mem), old(t.kids), n, at, t.mem, t.kids)
    ensures err != 0 ==> t.mem == old(t.mem) && t.kids == old(t.kids) && t.depth == old(t.depth)
  {
    var ok, last, j := Cover(t, p, n, first, i);
    if !ok {
      ClashFound(t.mem, t.kids, t.depth, p, n, i, j);
      DescentClash(t.mem, t.kids, path, parent, n, p, last);
      return -EBUSY, Alone(p, i);
    }
    forall x | 0 <= x < |t.kids[p]| && t.kids[p][x] in t.mem
      ensures !Overlap(t.mem[t.kids[p][x]], t.mem[n]) || Inside(t.mem[t.kids[p][x]], t.mem[n])
    {
      SurroundsClear(t.mem, t.kids, t.depth, p, i, j, n, x);
    }
    ClashNowhere(t.mem, t.kids, t.depth, path, parent, n);
    TakeOver(t, p, n, first, last, i, j);
    return 0, Over(p, i, j);
  }

  // ---------------------------------------------------------------- adjusting

  /** The new range stays inside the parent, between the neighbours, and around the children. */
  ghost predicate CanAdjust(mem: Mem, kids: Kids, p: Ptr, i: nat, start: nat, end: nat)
    requires p in mem && p in kids && i < |kids[p]| && kids[p][i] in kids
  {
    && mem[p].start <= start && end <= mem[p].end
    && (forall x {:trigger kids[kids[p][i]][x]} :: 0 <= x < |kids[kids[p][i]]| && kids[kids[p][i]][x] in mem ==>
      start <= mem[kids[kids[p][i]][x]].start && mem[kids[kids[p][i]][x]].end <= end)
    && (i > 0 && kids[p][i - 1] in mem ==> mem[kids[p][i - 1]].end < start)
    && (i + 1 < |kids[p]| && kids[p][i + 1] in mem ==> end < mem[kids[p][i + 1]].start)
  }

  lemma Adjusted(mem: Mem, kids: Kids, depth: Depths, p: Ptr, i: nat, start: nat, end: nat, mem': Mem)
    requires WellFormed(mem, kids, depth) && p in mem && i < |kids[p]| && kids[p][i] in mem && start <= end
    requires CanAdjust(mem, kids, p, i, start, end) && mem' == WithRange(mem, kids[p][i], start, end)
    requires start < U64 && end < U64
    ensures WellFormed(mem', kids, depth)
  {
    forall q | q in mem' ensures Owned(mem', kids, q) {
      assert Owned(mem, kids, q);
    }
    var n := kids[p][i];
    ChildNotRoot(mem, kids, depth, p, i);
    forall q | q in mem' ensures NodeOk(mem', kids, depth, q) {
      assert NodeOk(mem, kids, depth, q);
      if q == n {
        ParentNotListed(mem, kids, depth, n);
        forall x | 0 <= x < |kids[n]| ensures KidOk(mem', kids, depth, n, x) {
          ChildNotRoot(mem, kids, depth, n, x);
          if x + 1 < |kids[n]| { ChildNotRoot(mem, kids, depth, n, x + 1); }
        }
      } else if q == p {
        forall x | 0 <= x < |kids[p]| ensures KidOk(mem', kids, depth, p, x) {
          AdjustedEntry(mem, kids, depth, p, i, start, end, mem', x);
        }
      } else {
        forall k | k in kids[q] ensures k in mem && k in mem' && SameOutside(mem[k], mem'[k]) && depth[q] < depth[k] {
          var y := ParentOf(mem, kids, depth, q, k);
        }
        NodeKept(mem, kids, depth, mem', kids, depth, q);
      }
    }
  }

  lemma AdjustedEntry(mem: Mem, kids: Kids, depth: Depths, p: Ptr, i: nat, start: nat, end: nat, mem': Mem, x: nat)
    requires Linked(mem, kids, depth) && p in mem && i < |kids[p]| && kids[p][i] in mem && start <= end && x < |kids[p]|
    requires CanAdjust(mem, kids, p, i, start, end) && mem' == WithRange(mem, kids[p][i], start, end)
    ensures p in mem' && KidOk(mem', kids, depth, p, x)
  {
    assert NodeOk(mem, kids, depth, p);
    ChildNotRoot(mem, kids, depth, p, i);
    ChildNotRoot(mem, kids, depth, p, x);
    if kids[p][x] == kids[p][i] { KidsDistinct(mem, kids, depth, p, x, i); }
    if x + 1 < |kids[p]| {
      ChildNotRoot(mem, kids, depth, p, x + 1);
      if kids[p][x + 1] == kids[p][i] { KidsDistinct(mem, kids, depth, p, x + 1, i); }
    }
  }

  /** Lines 265-268: whether all children of `n` stay inside. */
  method ChildrenFit(t: ResourceTree, n: Ptr, start: nat, end: nat) returns (ok: bool)
    requires t.Valid() && n in t.mem
    ensures ok <==>
      forall x {:trigger t.kids[n][x]} :: 0 <= x < |t.kids[n]| && t.kids[n][x] in t.mem ==>
      start <= t.mem[t.kids[n][x]].start && t.mem[t.kids[n][x]].end <= end
  {
    var tmp := t.mem[n].child;
    ghost var x: nat := 0;
    assert NodeOk(t.mem, t.kids, t.depth, n);
    NthOk(t.mem, t.kids, t.depth, n, 0);
    while tmp != NULL
      invariant x <= |t.kids[n]| && tmp == Nth(t.kids[n], x) && (tmp != NULL <==> x < |t.kids[n]|)
      invariant forall y {:trigger t.kids[n][y]} :: 0 <= y < x && t.kids[n][y] in t.mem ==>
        start <= t.mem[t.kids[n][y]].start && t.mem[t.kids[n][y]].end <= end
      decreases |t.kids[n]| - x
    {
      ChildNotRoot(t.mem, t.kids, t.depth, n, x);
      if t.mem[tmp].start < start || t.mem[tmp].end > end {
        return false;
      }
      tmp := t.mem[tmp].sibling;
      x := x + 1;
      NthOk(t.mem, t.kids, t.depth, n, x);
    }
    ok := true;
  }

  /** Lines 273-276: the sibling before `n`, or null. */
  method Previous(t: ResourceTree, p: Ptr, n: Ptr, ghost i: nat) returns (prev: Ptr)
    requires t.Valid() && p in t.mem && i < |t.kids[p]| && t.kids[p][i] == n
    ensures prev == PrevOf(t.kids[p], i)
  {
    var tmp := t.mem[p].child;
    assert NodeOk(t.mem, t.kids, t.depth, p);
    ChildNotRoot(t.mem, t.kids, t.depth, p, 0);
    if tmp == n {
      KidsDistinct(t.mem, t.kids, t.depth, p, 0, i);
      return NULL;
    }
    ghost var x: nat := 0;
    while t.mem[tmp].sibling != n
      invariant x < i && tmp == t.kids[p][x] && KidOk(t.mem, t.kids, t.depth, p, x)
      decreases i - x
    {
      tmp := t.mem[tmp].sibling;
      x := x + 1;
      ChildNotRoot(t.mem, t.kids, t.depth, p, x);
    }
    KidsDistinct(t.mem, t.kids, t.depth, p, x + 1, i);
    prev := tmp;
  }

  /** A linked node is listed by its parent. */
  lemma PlaceIn(mem: Mem, kids: Kids, depth: Depths, n: Ptr) returns (i: nat)
    requires WellFormed(mem, kids, depth) && n in mem && mem[n].parent != NULL
    ensures mem[n].parent in mem && i < |kids[mem[n].parent]| && kids[mem[n].parent][i] == n
  {
    assert Owned(mem, kids, n);
    i := ParentOf(mem, kids, depth, mem[n].parent, n);
  }

  /** An empty range among the children of `p` is no tree. */
  lemma EmptyKid(mem: Mem, kids: Kids, depth: Depths, p: Ptr, i: nat)
    requires p in mem && p in kids && i < |kids[p]| && kids[p][i] in mem && mem[kids[p][i]].end < mem[kids[p][i]].start
    ensures !WellFormed(mem, kids, depth)
  {
    if WellFormed(mem, kids, depth) {
      ChildNotRoot(mem, kids, depth, p, i);
      assert false;
    }
  }

  /** The new range is one that the tree has room for. */
  lemma AdjustExact(mem: Mem, kids: Kids, depth: Depths, p: Ptr, i: nat, start: nat, end: nat)
    requires WellFormed(mem, kids, depth) && p in mem && i < |kids[p]| && kids[p][i] in mem && start <= end
    requires start < U64 && end < U64
    ensures CanAdjust(mem, kids, p, i, start, end) <==> WellFormed(WithRange(mem, kids[p][i], start, end), kids, depth)
  {
    var n := kids[p][i];
    var mem' := WithRange(mem, n, start, end);
    if CanAdjust(mem, kids, p, i, start, end) {
      Adjusted(mem, kids, depth, p, i, start, end, mem');
    } else if WellFormed(mem', kids, depth) {
      RoomFor(mem, kids, depth, p, i, start, end, mem');
      assert false;
    }
  }

  lemma RoomFor(mem: Mem, kids: Kids, depth: Depths, p: Ptr, i: nat, start: nat, end: nat, mem': Mem)
    requires WellFormed(mem, kids, depth) && p in mem && i < |kids[p]| && kids[p][i] in mem
    requires mem' == WithRange(mem, kids[p][i], start, end) && WellFormed(mem', kids, depth)
    ensures CanAdjust(mem, kids, p, i, start, end)
  {
    var n := kids[p][i];
    ChildNotRoot(mem, kids, depth, p, i);
    assert NodeOk(mem', kids, depth, p) && NodeOk(mem', kids, depth, n);
    assert KidOk(mem', kids, depth, p, i);
    if i > 0 {
      assert KidOk(mem', kids, depth, p, i - 1);
      KidsApart(mem, kids, depth, p, i - 1, i);
    }
    if i + 1 < |kids[p]| {
      assert KidOk(mem', kids, depth, p, i + 1);
      KidsApart(mem, kids, depth, p, i, i + 1);
    }
    forall x | 0 <= x < |kids[n]| && kids[n][x] in mem
      ensures start <= mem[kids[n][x]].start && mem[kids[n][x]].end <= end {
      assert KidOk(mem', kids, depth, n, x);
      ParentNotListed(mem, kids, depth, n);
    }
  }

  /**
    `adjust_resource`, lines 254-288, of a linked node. The end may wrap below the start, and this is not looked
    at: the tree stays well formed exactly when the range is refused or is not empty.
   */
  method Adjust(t: ResourceTree, n: Ptr, start: nat, size: nat) returns (err: int, ghost i: nat)
    requires t.Valid() && n in t.mem && t.mem[n].parent != NULL && start < U64 && size < U64
    modifies t`mem
    ensures err == 0 || err == -EBUSY
    ensures var p := old(t.mem)[n].parent;
      && p in old(t.mem) && p in t.kids && i < |t.kids[p]| && t.kids[p][i] == n && n in t.kids
      && (err == 0 <==> CanAdjust(old(t.mem), t.kids, p, i, start, EndOf(start, size)))
    ensures t.mem == if err == 0 then WithRange(old(t.mem), n, start, EndOf(start, size)) else old(t.mem)
    ensures err == 0 && size >= 1 && start + size <= U64 ==> Spans(t.mem[n], start, size)
    ensures start <= EndOf(start, size) ==>
      (err == 0 <==> WellFormed(WithRange(old(t.mem), n, start, EndOf(start, size)), t.kids, t.depth))
    ensures t.Valid() <==>
      !CanAdjust(old(t.mem), t.kids, old(t.mem)[n].parent, i, start, EndOf(start, size)) || start <= EndOf(start, size)
  {
    var p, end := t.mem[n].parent, EndOf(start, size);
    i := PlaceIn(t.mem, t.kids, t.depth, n);
    if start <= end {
      AdjustExact(t.mem, t.kids, t.depth, p, i, start, end);
    }
    if start < t.mem[p].start || end > t.mem[p].end {
      return -EBUSY, i;
    }
    var ok := ChildrenFit(t, n, start, end);
    if !ok {
      return -EBUSY, i;
    }
    ChildNotRoot(t.mem, t.kids, t.depth, p, i);
    NthOk(t.mem, t.kids, t.depth, p, i + 1);
    if t.mem[n].sibling != NULL && t.mem[t.mem[n].sibling].start <= end {
      return -EBUSY, i;
    }
    var prev := Previous(t, p, n, i);
    if i > 0 { ChildNotRoot(t.mem, t.kids, t.depth, p, i - 1); }
    if prev != NULL && start <= t.mem[prev].end {
      return -EBUSY, i;
    }
    SetEnds(t, p, n, i, start, end);
    return 0, i;
  }

  /** Lines 281-282. */
  method SetEnds(t: ResourceTree, p: Ptr, n: Ptr, ghost i: nat, start: nat, end: nat)
    requires t.Valid() && p in t.mem && i < |t.kids[p]| && t.kids[p][i] == n && n in t.mem && start < U64 && end < U64
    requires CanAdjust(t.mem, t.kids, p, i, start, end)
    modifies t`mem
    ensures t.mem == WithRange(old(t.mem), n, start, end) && (t.Valid() <==> start <= end)
  {
    ChildNotRoot(t.mem, t.kids, t.depth, p, i);
    if start <= end {
      Adjusted(t.mem, t.kids, t.depth, p, i, start, end, WithRange(t.mem, n, start, end));
    } else {
      EmptyKid(WithRange(t.mem, n, start, end), t.kids, t.depth, p, i);
    }
    t.mem := WithRange(t.mem, n, start, end);
  }

  /**
    Under `[0,10]`, the node `[2,3]` is adjusted to start 5 and size 0: this is granted, and leaves the range
    `[5,4]`.
   */
  method AdjustToNothing() returns (t: ResourceTree, err: int)
    ensures err == 0 && 1 in t.mem && 2 in t.mem && t.mem[2].parent == 1
    ensures t.mem[2].start == 5 && t.mem[2].end == 4 && !t.Valid()
  {
    t := new ResourceTree();
    AddNode(t, 1, Res(0, 10, false, NULL, NULL, NULL));
    AddNode(t, 2, Res(2, 3, false, NULL, NULL, NULL));
    var conflict, i := Resource.Request(t, 1, 2);
    assert EndOf(5, 0) == 4;
    ghost var j;
    err, j := Adjust(t, 2, 5, 0);
  }
}
