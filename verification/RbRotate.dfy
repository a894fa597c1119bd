/** Rotations of lib/rbtree.c, each stated as the tree it leaves at the rotated place. */
module RbRotate {
  import opened RbShape

  /** Only the parent link of the root of `t` differs. */
  lemma RepReparent(t: Tree, q: Ptr, p: Ptr, m: Mem, m': Mem)
    requires Rep(t, q, m) && Distinct(t)
    requires t.Bin? ==> t.n in m' && m'[t.n] == m[t.n].(parent := p)
    requires Same(Nodes(t) - (if t.Bin? then {t.n} else {}), m, m')
    ensures Rep(t, p, m')
  {
    if t.Bin? {
      RepSame(t.l, t.n, m, m');
      RepSame(t.r, t.n, m, m');
    }
  }

  ghost predicate Relinked(c: Ctx, h: Ptr, m: Mem, m': Mem, top: Ptr, top': Ptr) {
    match c
    case Top => top' == h
    case Arm(up, side, n, red, sib) =>
      && top' == top && n in m && n in m'
      && m'[n] == (if side == L then m[n].(left := h) else m[n].(right := h))
  }

  /** Only the link to the hole differs. */
  lemma RepCtxRelink(c: Ctx, h: Ptr, h': Ptr, m: Mem, m': Mem, top: Ptr, top': Ptr)
    requires RepCtx(c, h, m, top) && CDistinct(c)
    requires Relinked(c, h', m, m', top, top')
    requires Same(CNodes(c) - (if c.Arm? then {c.n} else {}), m, m')
    ensures RepCtx(c, h', m', top')
  {
    if c.Arm? {
      RepSame(c.sib, c.n, m, m');
      RepCtxSame(c.up, c.n, m, m', top);
    }
  }

  /** Both shapes of a rotation own the same nodes, each once. */
  lemma RotateNodes(a: Tree, x: Ptr, cx: bool, b: Tree, y: Ptr, cy: bool, d: Tree)
    ensures Nodes(Bin(a, x, cx, Bin(b, y, cy, d))) == Nodes(a) + {x} + Nodes(b) + {y} + Nodes(d)
    ensures Nodes(Bin(Bin(a, x, cx, b), y, cy, d)) == Nodes(a) + {x} + Nodes(b) + {y} + Nodes(d)
    ensures Distinct(Bin(a, x, cx, Bin(b, y, cy, d))) <==> Distinct(Bin(Bin(a, x, cx, b), y, cy, d))
  {
    assert Nodes(Bin(b, y, cy, d)) == Nodes(b) + {y} + Nodes(d);
    assert Nodes(Bin(a, x, cx, b)) == Nodes(a) + {x} + Nodes(b);
    assert Distinct(Bin(b, y, cy, d)) <==>
      Distinct(b) && Distinct(d) && y !in Nodes(b) && y !in Nodes(d) && Nodes(b) !! Nodes(d);
    assert Distinct(Bin(a, x, cx, b)) <==>
      Distinct(a) && Distinct(b) && x !in Nodes(a) && x !in Nodes(b) && Nodes(a) !! Nodes(b);
  }

  ghost function Other(side: Side): Side {
    if side == L then R else L
  }

  ghost function Replaced(cell: Cell, n: Ptr, n': Ptr): Cell {
    cell.(left := if cell.left == n then n' else cell.left, right := if cell.right == n then n' else cell.right)
  }

  /** Everything a rotation of `x` with its child `y` does besides `x` and `y` themselves. */
  ghost predicate RotatedAround(m: Mem, m': Mem, x: Ptr, y: Ptr, b: Ptr, p: Ptr, top: Ptr, top': Ptr) {
    && m'.Keys == m.Keys
    && (b != NULL ==> b in m && m'[b] == m[b].(parent := x))
    && (p != NULL ==> p in m && m'[p] == Replaced(m[p], x, y))
    && (forall n :: n in m && n != x && n != y && n != b && n != p ==> m'[n] == m[n])
    && top' == if p == NULL then y else top
  }

  /** A rotation leaves alone the context, but for its link to the hole. */
  lemma RotatedCtx(c: Ctx, x: Ptr, y: Ptr, b: Ptr, m: Mem, m': Mem, top: Ptr, top': Ptr)
    requires NULL !in m && RepCtx(c, x, m, top) && CDistinct(c)
    requires x !in CNodes(c) && y !in CNodes(c) && b !in CNodes(c) && x != NULL
    requires RotatedAround(m, m', x, y, b, ParentOf(c), top, top')
    ensures RepCtx(c, y, m', top')
  {
    RepCtxIn(c, x, m, top);
    RepCtxRelink(c, x, y, m, m', top, top');
  }

  lemma RotatedAway(t: Tree, q: Ptr, x: Ptr, y: Ptr, b: Ptr, p: Ptr, m: Mem, m': Mem, top: Ptr, top': Ptr)
    requires Rep(t, q, m) && RotatedAround(m, m', x, y, b, p, top, top')
    requires x !in Nodes(t) && y !in Nodes(t) && b !in Nodes(t) && p !in Nodes(t)
    ensures Rep(t, q, m')
  {
    RepIn(t, q, m);
    RepSame(t, q, m, m');
  }

  lemma RotatedInner(t: Tree, x: Ptr, y: Ptr, p: Ptr, m: Mem, m': Mem, top: Ptr, top': Ptr)
    requires Rep(t, y, m) && Distinct(t) && RotatedAround(m, m', x, y, RootOf(t), p, top, top')
    requires NULL !in m && x !in Nodes(t) && y !in Nodes(t) && p !in Nodes(t)
    ensures Rep(t, x, m')
  {
    RepIn(t, y, m);
    RepReparent(t, y, x, m, m');
  }

  lemma {:induction false} NullOutside(t: Tree, p: Ptr, m: Mem)
    requires NULL !in m && Rep(t, p, m)
    ensures NULL !in Nodes(t)
  {
    RepIn(t, p, m);
  }

  lemma NullOutsideCtx(c: Ctx, h: Ptr, m: Mem, top: Ptr)
    requires NULL !in m && RepCtx(c, h, m, top)
    ensures NULL !in CNodes(c)
  {
    RepCtxIn(c, h, m, top);
  }

  lemma RotateLeftState(c: Ctx, a: Tree, x: Ptr, cx: bool, b: Tree, y: Ptr, cy: bool, d: Tree, m: Mem, m': Mem,
                        top: Ptr, top': Ptr)
    requires State(c, Bin(a, x, cx, Bin(b, y, cy, d)), m, top)
    requires RotatedAround(m, m', x, y, RootOf(b), ParentOf(c), top, top')
    requires x in m' && y in m' && m'[x] == Cell(y, RootOf(a), RootOf(b), cx)
      && m'[y] == Cell(ParentOf(c), x, RootOf(d), cy)
    ensures State(c, Bin(Bin(a, x, cx, b), y, cy, d), m', top')
    ensures forall rest :: Held(c, Bin(a, x, cx, Bin(b, y, cy, d)), m, top, rest) ==>
      Held(c, Bin(Bin(a, x, cx, b), y, cy, d), m', top', rest)
  {
    RotateNodes(a, x, cx, b, y, cy, d);
    NullOutside(Bin(a, x, cx, Bin(b, y, cy, d)), ParentOf(c), m);
    NullOutsideCtx(c, x, m, top);
    assert Rep(Bin(b, y, cy, d), x, m) && Distinct(Bin(b, y, cy, d));
    RotatedAway(a, x, x, y, RootOf(b), ParentOf(c), m, m', top, top');
    RotatedInner(b, x, y, ParentOf(c), m, m', top, top');
    RotatedAway(d, y, x, y, RootOf(b), ParentOf(c), m, m', top, top');
    assert Rep(Bin(a, x, cx, b), y, m');
    RotatedCtx(c, x, y, RootOf(b), m, m', top, top');
  }

  lemma RotateRightState(c: Ctx, a: Tree, x: Ptr, cx: bool, b: Tree, y: Ptr, cy: bool, d: Tree, m: Mem, m': Mem,
                         top: Ptr, top': Ptr)
    requires State(c, Bin(Bin(a, x, cx, b), y, cy, d), m, top)
    requires RotatedAround(m, m', y, x, RootOf(b), ParentOf(c), top, top')
    requires x in m' && y in m' && m'[y] == Cell(x, RootOf(b), RootOf(d), cy)
      && m'[x] == Cell(ParentOf(c), RootOf(a), y, cx)
    ensures State(c, Bin(a, x, cx, Bin(b, y, cy, d)), m', top')
    ensures forall rest :: Held(c, Bin(Bin(a, x, cx, b), y, cy, d), m, top, rest) ==>
      Held(c, Bin(a, x, cx, Bin(b, y, cy, d)), m', top', rest)
  {
    RotateNodes(a, x, cx, b, y, cy, d);
    NullOutside(Bin(Bin(a, x, cx, b), y, cy, d), ParentOf(c), m);
    NullOutsideCtx(c, y, m, top);
    assert Rep(Bin(a, x, cx, b), y, m) && Distinct(Bin(a, x, cx, b));
    RotatedAway(a, x, y, x, RootOf(b), ParentOf(c), m, m', top, top');
    RotatedInner(b, y, x, ParentOf(c), m, m', top, top');
    RotatedAway(d, y, y, x, RootOf(b), ParentOf(c), m, m', top, top');
    assert Rep(Bin(b, y, cy, d), x, m');
    RotatedCtx(c, y, x, RootOf(b), m, m', top, top');
  }

  /** `x`, its child `y`, the inner grandchild `b` and the parent `p` do not alias. */
  ghost predicate Rotatable(m: Mem, x: Ptr, y: Ptr, b: Ptr, p: Ptr) {
    && NULL !in m && x in m && y in m && y != x
    && (b != NULL ==> b in m && b != x && b != y)
    && (p != NULL ==> p in m && p != x && p != y && p != b && (m[p].left == x <==> m[p].right != x))
  }

  lemma StateRotatable(c: Ctx, a: Tree, x: Ptr, cx: bool, y: Ptr, b: Tree, cy: bool, d: Tree, side: Side, m: Mem,
                       top: Ptr)
    requires State(c, Join(side, Join(Other(side), b, y, cy, d), x, cx, a), m, top)
    ensures Rotatable(m, x, y, RootOf(b), ParentOf(c))
  {
    var yt := Join(Other(side), b, y, cy, d);
    assert Rep(yt, x, m) && Distinct(yt);
    RepIn(b, y, m);
    RepCtxIn(c, x, m, top);
  }

  /** The nodes of a tree and its root pointer. */
  class RbRoot {
    var mem: Mem
    var top: Ptr

    /** Cells that are not of the tree. Nothing below changes it: it is there to say that they keep their fields. */
    ghost var rest: Mem

    /** `__rb_rotate_left`, on the cells. */
    method RotateLeftCells(node: Ptr, ghost y: Ptr, ghost b: Ptr)
      requires node in mem && mem[node].right == y && y in mem && mem[y].left == b
      requires Rotatable(mem, node, y, b, mem[node].parent)
      modifies `mem, `top
      ensures RotatedAround(old(mem), mem, node, y, b, old(mem)[node].parent, old(top), top)
      ensures mem[node] == Cell(y, old(mem)[node].left, b, old(mem)[node].red)
      ensures mem[y] == Cell(old(mem)[node].parent, node, old(mem)[y].right, old(mem)[y].red)
    {
      var right := mem[node].right;
      var parent := mem[node].parent;
      mem := mem[node := mem[node].(right := mem[right].left)];
      if mem[node].right != NULL {
        mem := mem[mem[right].left := mem[mem[right].left].(parent := node)];
      }
      mem := mem[right := mem[right].(left := node)];
      mem := mem[right := mem[right].(parent := parent)];
      if parent != NULL {
        if node == mem[parent].left {
          mem := mem[parent := mem[parent].(left := right)];
        } else {
          mem := mem[parent := mem[parent].(right := right)];
        }
      } else {
        top := right;
      }
      mem := mem[node := mem[node].(parent := right)];
    }

    /** `__rb_rotate_left`: the right child `y` of `node` takes its place. */
    method RotateLeft(node: Ptr, ghost c: Ctx, ghost a: Tree, ghost cx: bool, ghost b: Tree, ghost y: Ptr,
                      ghost cy: bool, ghost d: Tree)
      requires Held(c, Bin(a, node, cx, Bin(b, y, cy, d)), mem, top, rest)
      modifies `mem, `top
      ensures mem.Keys == old(mem.Keys)
      ensures Held(c, Bin(Bin(a, node, cx, b), y, cy, d), mem, top, rest)
    {
      StateRotatable(c, a, node, cx, y, b, cy, d, R, mem, top);
      assert Rep(Bin(b, y, cy, d), node, mem);
      RotateLeftCells(node, y, RootOf(b));
      RotateLeftState(c, a, node, cx, b, y, cy, d, old(mem), mem, old(top), top);
    }

    /** `__rb_rotate_right`, on the cells. */
    method RotateRightCells(node: Ptr, ghost y: Ptr, ghost b: Ptr)
      requires node in mem && mem[node].left == y && y in mem && mem[y].right == b
      requires Rotatable(mem, node, y, b, mem[node].parent)
      modifies `mem, `top
      ensures RotatedAround(old(mem), mem, node, y, b, old(mem)[node].parent, old(top), top)
      ensures mem[node] == Cell(y, b, old(mem)[node].right, old(mem)[node].red)
      ensures mem[y] == Cell(old(mem)[node].parent, old(mem)[y].left, node, old(mem)[y].red)
    {
      var left := mem[node].left;
      var parent := mem[node].parent;
      mem := mem[node := mem[node].(left := mem[left].right)];
      if mem[node].left != NULL {
        mem := mem[mem[left].right := mem[mem[left].right].(parent := node)];
      }
      mem := mem[left := mem[left].(right := node)];
      mem := mem[left := mem[left].(parent := parent)];
      if parent != NULL {
        if node == mem[parent].right {
          mem := mem[parent := mem[parent].(right := left)];
        } else {
          mem := mem[parent := mem[parent].(left := left)];
        }
      } else {
        top := left;
      }
      mem := mem[node := mem[node].(parent := left)];
    }

    /** `__rb_rotate_right`: the left child `x` of `node` takes its place. */
    method RotateRight(node: Ptr, ghost c: Ctx, ghost a: Tree, ghost x: Ptr, ghost cx: bool, ghost b: Tree,
                       ghost cy: bool, ghost d: Tree)
      requires Held(c, Bin(Bin(a, x, cx, b), node, cy, d), mem, top, rest)
      modifies `mem, `top
      ensures mem.Keys == old(mem.Keys)
      ensures Held(c, Bin(a, x, cx, Bin(b, node, cy, d)), mem, top, rest)
    {
      StateRotatable(c, d, node, cy, x, b, cx, a, L, mem, top);
      assert Rep(Bin(a, x, cx, b), node, mem);
      RotateRightCells(node, x, RootOf(b));
      RotateRightState(c, a, x, cx, b, node, cy, d, old(mem), mem, old(top), top);
    }
  }
}
