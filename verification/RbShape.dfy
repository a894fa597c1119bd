/**
  Red-black trees of lib/rbtree.c: nodes with parent links and a colour, rewritten in place.

  The fields of the nodes are described by a map from nodes to cells. A `Tree` is the subtree
  hanging at some node; a `Ctx` is the rest of the tree seen from that node, innermost link
  first. `State(c, t, m, top)` says that the cells `m` and the root pointer `top` are exactly
  those of the tree obtained by putting `t` in the hole of `c`. Every loop of the source moves
  the hole, and its invariant speaks about the pair.
 */
module RbShape {

  /** The address of a node; address 0 is the null pointer. */
  type Ptr = nat

  const NULL: Ptr := 0

  /** The fields of `struct rb_node`, with the colour bit split off the parent pointer. */
  datatype Cell = Cell(parent: Ptr, left: Ptr, right: Ptr, red: bool)

  type Mem = map<Ptr, Cell>

  datatype Side = L | R

  datatype Tree = Leaf | Bin(l: Tree, n: Ptr, red: bool, r: Tree)

  datatype Ctx = Top | Arm(up: Ctx, side: Side, n: Ptr, red: bool, sib: Tree)

  /** The subtree rooted at `n` whose child on `side` is `t` and whose other child is `sib`. */
  ghost function Join(side: Side, t: Tree, n: Ptr, red: bool, sib: Tree): Tree {
    if side == L then Bin(t, n, red, sib) else Bin(sib, n, red, t)
  }

  ghost function Plug(c: Ctx, t: Tree): Tree
    decreases c
  {
    match c
    case Top => t
    case Arm(up, side, n, red, sib) => Plug(up, Join(side, t, n, red, sib))
  }

  ghost function Inorder(t: Tree): seq<Ptr> {
    match t
    case Leaf => []
    case Bin(l, n, red, r) => Inorder(l) + [n] + Inorder(r)
  }

  /** The nodes before, respectively after, the hole in order. */
  ghost function Before(c: Ctx): seq<Ptr> {
    match c
    case Top => []
    case Arm(up, L, n, red, sib) => Before(up)
    case Arm(up, R, n, red, sib) => Before(up) + (Inorder(sib) + [n])
  }

  ghost function After(c: Ctx): seq<Ptr> {
    match c
    case Top => []
    case Arm(up, L, n, red, sib) => ([n] + Inorder(sib)) + After(up)
    case Arm(up, R, n, red, sib) => After(up)
  }

  lemma Regroup(a: seq<Ptr>, b: seq<Ptr>, m: seq<Ptr>, d: seq<Ptr>, e: seq<Ptr>)
    ensures a + (b + m + d) + e == a + b + ((m + d) + e)
    ensures a + (b + m + d) + e == (a + (b + m)) + d + e
  {
  }

  lemma InorderRotated(a: Tree, x: Ptr, cx: bool, b: Tree, y: Ptr, cy: bool, d: Tree, cx': bool, cy': bool)
    ensures Inorder(Bin(a, x, cx, Bin(b, y, cy, d))) == Inorder(Bin(Bin(a, x, cx', b), y, cy', d))
  {
    assert Inorder(Bin(b, y, cy, d)) == Inorder(b) + [y] + Inorder(d);
    assert Inorder(Bin(a, x, cx', b)) == Inorder(a) + [x] + Inorder(b);
    var p, q, r := Inorder(a) + [x], Inorder(b), [y] + Inorder(d);
    assert p + (q + r) == (p + q) + r;
    assert q + [y] + Inorder(d) == q + r;
    assert p + q + [y] + Inorder(d) == p + q + r;
  }

  lemma {:induction false} InorderPlug(c: Ctx, t: Tree)
    ensures Inorder(Plug(c, t)) == Before(c) + Inorder(t) + After(c)
    decreases c
  {
    match c
    case Top =>
    case Arm(up, side, n, red, sib) =>
      InorderPlug(up, Join(side, t, n, red, sib));
      if side == L {
        Regroup(Before(up), Inorder(t), [n], Inorder(sib), After(up));
      } else {
        Regroup(Before(up), Inorder(sib), [n], Inorder(t), After(up));
      }
  }

  // ---------------------------------------------------------------- footprints

  ghost function Nodes(t: Tree): set<Ptr> {
    match t
    case Leaf => {}
    case Bin(l, n, red, r) => Nodes(l) + {n} + Nodes(r)
  }

  ghost function CNodes(c: Ctx): set<Ptr> {
    match c
    case Top => {}
    case Arm(up, side, n, red, sib) => CNodes(up) + {n} + Nodes(sib)
  }

  ghost predicate Distinct(t: Tree) {
    match t
    case Leaf => true
    case Bin(l, n, red, r) =>
      && Distinct(l) && Distinct(r)
      && n !in Nodes(l) && n !in Nodes(r) && Nodes(l) !! Nodes(r)
  }

  ghost predicate CDistinct(c: Ctx) {
    match c
    case Top => true
    case Arm(up, side, n, red, sib) =>
      && CDistinct(up) && Distinct(sib)
      && n !in CNodes(up) && n !in Nodes(sib) && CNodes(up) !! Nodes(sib)
  }

  // ---------------------------------------------------------------- heap representation

  ghost function RootOf(t: Tree): (p: Ptr)
    ensures t.Bin? ==> p in Nodes(t)
  {
    if t.Leaf? then NULL else t.n
  }

  ghost function ParentOf(c: Ctx): (p: Ptr)
    ensures c.Arm? ==> p in CNodes(c)
  {
    if c.Top? then NULL else c.n
  }

  ghost predicate Rep(t: Tree, p: Ptr, m: Mem) {
    match t
    case Leaf => true
    case Bin(l, n, red, r) =>
      n != NULL && n in m && m[n] == Cell(p, RootOf(l), RootOf(r), red) && Rep(l, n, m) && Rep(r, n, m)
  }

  ghost predicate RepCtx(c: Ctx, hole: Ptr, m: Mem, top: Ptr)
    decreases c
  {
    match c
    case Top => top == hole
    case Arm(up, side, n, red, sib) =>
      && n != NULL && n in m
      && m[n] == (if side == L then Cell(ParentOf(up), hole, RootOf(sib), red)
        else Cell(ParentOf(up), RootOf(sib), hole, red))
      && Rep(sib, n, m) && RepCtx(up, n, m, top)
  }

  ghost predicate State(c: Ctx, t: Tree, m: Mem, top: Ptr) {
    && NULL !in m && Distinct(t) && CDistinct(c) && Nodes(t) !! CNodes(c)
    && Rep(t, ParentOf(c), m) && RepCtx(c, RootOf(t), m, top)
  }

  /** In the state, and with the cells `rest` outside the tree. */
  ghost predicate Held(c: Ctx, t: Tree, m: Mem, top: Ptr, rest: Mem) {
    && State(c, t, m, top)
    && forall n {:trigger n in rest} :: n in rest ==> n !in Nodes(t) && n !in CNodes(c) && n in m && m[n] == rest[n]
  }

  /** Only cells of `s` differ. */
  ghost predicate Kept(m: Mem, m': Mem, s: set<Ptr>) {
    forall n :: n in m && n !in s ==> n in m' && m'[n] == m[n]
  }

  ghost function Others(m: Mem, s: set<Ptr>): Mem {
    map n | n in m && n !in s :: m[n]
  }

  lemma OthersHeld(c: Ctx, t: Tree, m: Mem, top: Ptr, s: set<Ptr>)
    requires State(c, t, m, top) && Nodes(t) + CNodes(c) <= s
    ensures Held(c, t, m, top, Others(m, s))
  {
  }

  lemma HeldKept(m: Mem, s: set<Ptr>, c: Ctx, t: Tree, m': Mem, top: Ptr)
    requires Held(c, t, m', top, Others(m, s))
    ensures Kept(m, m', s)
  {
    forall n | n in m && n !in s ensures n in m' && m'[n] == m[n] {
      assert n in Others(m, s);
    }
  }

  ghost predicate Same(s: set<Ptr>, m: Mem, m': Mem) {
    forall n :: n in s ==> n in m && n in m' && m[n] == m'[n]
  }

  lemma {:induction false} RepSame(t: Tree, p: Ptr, m: Mem, m': Mem)
    requires Rep(t, p, m) && Same(Nodes(t), m, m')
    ensures Rep(t, p, m')
  {
    if t.Bin? {
      RepSame(t.l, t.n, m, m');
      RepSame(t.r, t.n, m, m');
    }
  }

  lemma {:induction false} RepCtxSame(c: Ctx, hole: Ptr, m: Mem, m': Mem, top: Ptr)
    requires RepCtx(c, hole, m, top) && Same(CNodes(c), m, m')
    ensures RepCtx(c, hole, m', top)
    decreases c
  {
    if c.Arm? {
      RepSame(c.sib, c.n, m, m');
      RepCtxSame(c.up, c.n, m, m', top);
    }
  }

  lemma {:induction false} RepIn(t: Tree, p: Ptr, m: Mem)
    requires Rep(t, p, m)
    ensures Nodes(t) <= m.Keys
  {
    if t.Bin? {
      RepIn(t.l, t.n, m);
      RepIn(t.r, t.n, m);
    }
  }

  lemma {:induction false} RepCtxIn(c: Ctx, hole: Ptr, m: Mem, top: Ptr)
    requires RepCtx(c, hole, m, top)
    ensures CNodes(c) <= m.Keys
    decreases c
  {
    if c.Arm? {
      RepIn(c.sib, c.n, m);
      RepCtxIn(c.up, c.n, m, top);
    }
  }

  lemma {:induction false} PlugNodes(c: Ctx, t: Tree)
    ensures Nodes(Plug(c, t)) == Nodes(t) + CNodes(c)
    decreases c
  {
    match c
    case Top =>
    case Arm(up, side, n, red, sib) => PlugNodes(up, Join(side, t, n, red, sib));
  }

  /** Moving the hole one level down does not change what the memory represents. */
  lemma StateDown(c: Ctx, side: Side, t: Tree, n: Ptr, red: bool, sib: Tree, m: Mem, top: Ptr)
    ensures State(c, Join(side, t, n, red, sib), m, top) <==> State(Arm(c, side, n, red, sib), t, m, top)
    ensures forall rest :: Held(c, Join(side, t, n, red, sib), m, top, rest) <==>
      Held(Arm(c, side, n, red, sib), t, m, top, rest)
  {
  }

  /** Moving the hole does not change what the memory represents. */
  lemma {:induction false} StatePlug(c: Ctx, t: Tree, m: Mem, top: Ptr)
    ensures State(c, t, m, top) <==> State(Top, Plug(c, t), m, top)
    ensures forall rest :: Held(c, t, m, top, rest) <==> Held(Top, Plug(c, t), m, top, rest)
    decreases c
  {
    match c
    case Top =>
    case Arm(up, side, n, red, sib) =>
      StateDown(up, side, t, n, red, sib, m, top);
      StatePlug(up, Join(side, t, n, red, sib), m, top);
  }

  /** Every node of a tree is the root of the subtree in some hole. */
  lemma {:induction false} FocusIn(c: Ctx, t: Tree, x: Ptr) returns (c': Ctx, t': Tree)
    requires x in Nodes(t)
    ensures Plug(c', t') == Plug(c, t) && t'.Bin? && t'.n == x
    decreases t
  {
    if t.n == x {
      c', t' := c, t;
    } else if x in Nodes(t.l) {
      c', t' := FocusIn(Arm(c, L, t.n, t.red, t.r), t.l, x);
    } else {
      c', t' := FocusIn(Arm(c, R, t.n, t.red, t.l), t.r, x);
    }
  }
}
