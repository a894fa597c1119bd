/** `rb_insert_color` of lib/rbtree.c. */
module RbInsert {
  import opened RbShape
  import opened RbBalance
  import opened RbRotate

  /** The colour of the node in focus changes, nothing else. */
  lemma RecolorState(c: Ctx, l: Tree, n: Ptr, red: bool, r: Tree, red': bool, m: Mem, top: Ptr)
    requires State(c, Bin(l, n, red, r), m, top)
    ensures n in m && State(c, Bin(l, n, red', r), m[n := m[n].(red := red')], top)
    ensures forall rest :: Held(c, Bin(l, n, red, r), m, top, rest) ==>
      Held(c, Bin(l, n, red', r), m[n := m[n].(red := red')], top, rest)
  {
    var m' := m[n := m[n].(red := red')];
    RepIn(l, n, m);
    RepIn(r, n, m);
    RepCtxIn(c, n, m, top);
    RepSame(l, n, m, m');
    RepSame(r, n, m, m');
    RepCtxSame(c, n, m, m', top);
  }

  ghost function Black(t: Tree): Tree {
    if t.Leaf? then t else Bin(t.l, t.n, false, t.r)
  }

  /** Grandparent `g`, parent `p` and uncle around the subtree `t`. */
  ghost function Family(sg: Side, sp: Side, t: Tree, p: Ptr, pr: bool, s: Tree, g: Ptr, gr: bool, u: Tree): Tree {
    Join(sg, Join(sp, t, p, pr, s), g, gr, u)
  }

  lemma FamilyInorder(sg: Side, sp: Side, t: Tree, p: Ptr, pr: bool, s: Tree, g: Ptr, gr: bool, u: Tree, pr': bool,
                      gr': bool)
    ensures Inorder(Family(sg, sp, t, p, pr', s, g, gr', Black(u))) == Inorder(Family(sg, sp, t, p, pr, s, g, gr, u))
  {
    assert Inorder(Black(u)) == Inorder(u);
    assert Inorder(Join(sp, t, p, pr', s)) == Inorder(Join(sp, t, p, pr, s));
  }

  /** Red uncle: recolouring moves the possible red-red pair two levels up. */
  lemma RecolorBalanced(up: Ctx, sg: Side, sp: Side, t: Tree, p: Ptr, s: Tree, g: Ptr, u: Tree, k: nat)
    requires Bal(t, k) && CBal(Arm(Arm(up, sg, g, false, u), sp, p, true, s), k) && IsRed(u)
    ensures Bal(Family(sg, sp, t, p, false, s, g, true, Black(u)), k + 1) && CBal(up, k + 1)
  {
    assert CBal(Arm(up, sg, g, false, u), k);
    assert Bal(Black(u), k + 1);
    assert Bal(Join(sp, t, p, false, s), k + 1);
  }

  /** Black uncle: one rotation at the grandparent repairs the tree for good. */
  lemma RotateBalanced(up: Ctx, sg: Side, a: Tree, p: Ptr, b: Tree, g: Ptr, u: Tree, k: nat)
    requires Bal(a, k) && IsRed(a) && Bal(b, k) && !IsRed(b) && !IsRed(u)
    requires CBal(Arm(up, sg, g, false, u), k)
    ensures CBal(Arm(up, sg, p, false, Join(sg, b, g, true, u)), k)
  {
  }

  ghost function Colored(m: Mem, n: Ptr, red: bool): Mem
    requires n in m
  {
    m[n := m[n].(red := red)]
  }

  lemma RecolorParent(c: Ctx, sg: Side, sp: Side, t: Tree, p: Ptr, pr: bool, s: Tree, g: Ptr, gr: bool, u: Tree,
                      pr': bool, m: Mem, top: Ptr)
    requires State(c, Family(sg, sp, t, p, pr, s, g, gr, u), m, top)
    ensures p in m && State(c, Family(sg, sp, t, p, pr', s, g, gr, u), Colored(m, p, pr'), top)
    ensures forall rest :: Held(c, Family(sg, sp, t, p, pr, s, g, gr, u), m, top, rest) ==>
      Held(c, Family(sg, sp, t, p, pr', s, g, gr, u), Colored(m, p, pr'), top, rest)
  {
    var c' := Arm(c, sg, g, gr, u);
    StateDown(c, sg, Join(sp, t, p, pr, s), g, gr, u, m, top);
    RecolorTop(c', sp, t, p, pr, s, pr', m, top);
    StateDown(c, sg, Join(sp, t, p, pr', s), g, gr, u, Colored(m, p, pr'), top);
  }

  lemma RecolorUncle(c: Ctx, sg: Side, pt: Tree, g: Ptr, gr: bool, u: Tree, m: Mem, top: Ptr)
    requires State(c, Join(sg, pt, g, gr, u), m, top) && u.Bin?
    ensures u.n in m && State(c, Join(sg, pt, g, gr, Black(u)), Colored(m, u.n, false), top)
    ensures forall rest :: Held(c, Join(sg, pt, g, gr, u), m, top, rest) ==>
      Held(c, Join(sg, pt, g, gr, Black(u)), Colored(m, u.n, false), top, rest)
  {
    StateDown(c, Other(sg), u, g, gr, pt, m, top);
    RecolorState(Arm(c, Other(sg), g, gr, pt), u.l, u.n, u.red, u.r, false, m, top);
    StateDown(c, Other(sg), Black(u), g, gr, pt, Colored(m, u.n, false), top);
  }

  lemma RecolorTop(c: Ctx, sg: Side, pt: Tree, g: Ptr, gr: bool, u: Tree, gr': bool, m: Mem, top: Ptr)
    requires State(c, Join(sg, pt, g, gr, u), m, top)
    ensures g in m && State(c, Join(sg, pt, g, gr', u), Colored(m, g, gr'), top)
    ensures forall rest :: Held(c, Join(sg, pt, g, gr, u), m, top, rest) ==>
      Held(c, Join(sg, pt, g, gr', u), Colored(m, g, gr'), top, rest)
  {
    var t := Join(sg, pt, g, gr, u);
    RecolorState(c, t.l, g, gr, t.r, gr', m, top);
  }

  /** The possible red-red pair is at the hole: everything else obeys the colour rules. */
  ghost predicate Fixing(c: Ctx, t: Tree, k: nat) {
    IsRed(t) && Bal(t, k) && CBal(c, k)
  }

  method FlipColors(root: RbRoot, uncle: Ptr, parent: Ptr, gparent: Ptr,
                    ghost up: Ctx, ghost sg: Side, ghost sp: Side, ghost t: Tree, ghost s: Tree, ghost u: Tree)
    requires u.Bin? && u.n == uncle
    requires Held(up, Family(sg, sp, t, parent, true, s, gparent, false, u), root.mem, root.top, root.rest)
    modifies root`mem, root`top
    ensures root.mem.Keys == old(root.mem.Keys)
    ensures Held(up, Family(sg, sp, t, parent, false, s, gparent, true, Black(u)), root.mem, root.top, root.rest)
  {
    RecolorUncle(up, sg, Join(sp, t, parent, true, s), gparent, false, u, root.mem, root.top);
    root.mem := root.mem[uncle := root.mem[uncle].(red := false)];
    RecolorParent(up, sg, sp, t, parent, true, s, gparent, false, Black(u), false, root.mem, root.top);
    root.mem := root.mem[parent := root.mem[parent].(red := false)];
    RecolorTop(up, sg, Join(sp, t, parent, false, s), gparent, false, Black(u), true, root.mem, root.top);
    root.mem := root.mem[gparent := root.mem[gparent].(red := true)];
  }

  /** Both rotations at the grandparent keep the order of the nodes. */
  lemma RotateInorder(sg: Side, a: Tree, p: Ptr, pr: bool, b: Tree, g: Ptr, gr: bool, u: Tree, pr': bool, gr': bool)
    ensures Inorder(Join(sg, Join(sg, a, p, pr, b), g, gr, u)) == Inorder(Join(sg, a, p, pr', Join(sg, b, g, gr', u)))
  {
    if sg == L {
      InorderRotated(a, p, pr', b, g, gr', u, pr, gr);
    } else {
      InorderRotated(u, g, gr, b, p, pr, a, gr', pr');
    }
  }

  /** Lines 103-105: the red parent becomes the black root of the rotated grandparent. */
  method FixLeft(root: RbRoot, parent: Ptr, gparent: Ptr, ghost up: Ctx, ghost a: Tree, ghost b: Tree, ghost u: Tree)
    requires Held(up, Bin(Bin(a, parent, true, b), gparent, false, u), root.mem, root.top, root.rest)
    modifies root`mem, root`top
    ensures root.mem.Keys == old(root.mem.Keys)
    ensures Held(up, Bin(a, parent, false, Bin(b, gparent, true, u)), root.mem, root.top, root.rest)
  {
    RecolorParent(up, L, L, a, parent, true, b, gparent, false, u, false, root.mem, root.top);
    root.mem := root.mem[parent := root.mem[parent].(red := false)];
    RecolorTop(up, L, Bin(a, parent, false, b), gparent, false, u, true, root.mem, root.top);
    root.mem := root.mem[gparent := root.mem[gparent].(red := true)];
    root.RotateRight(gparent, up, a, parent, false, b, true, u);
  }

  /** Lines 128-130, the mirror image. */
  method FixRight(root: RbRoot, parent: Ptr, gparent: Ptr, ghost up: Ctx, ghost a: Tree, ghost b: Tree, ghost u: Tree)
    requires Held(up, Bin(u, gparent, false, Bin(b, parent, true, a)), root.mem, root.top, root.rest)
    modifies root`mem, root`top
    ensures root.mem.Keys == old(root.mem.Keys)
    ensures Held(up, Bin(Bin(u, gparent, true, b), parent, false, a), root.mem, root.top, root.rest)
  {
    RecolorParent(up, R, R, a, parent, true, b, gparent, false, u, false, root.mem, root.top);
    root.mem := root.mem[parent := root.mem[parent].(red := false)];
    RecolorTop(up, R, Bin(b, parent, false, a), gparent, false, u, true, root.mem, root.top);
    root.mem := root.mem[gparent := root.mem[gparent].(red := true)];
    root.RotateLeft(gparent, up, u, true, b, parent, false, a);
  }

  ghost function Depth(c: Ctx): nat {
    if c.Top? then 0 else 1 + Depth(c.up)
  }

  /** A step of the loop at the node in focus, with red parent `p` and black grandparent `g`. */
  ghost predicate Stepped(c: Ctx, t: Tree, c': Ctx, t': Tree, k': nat, node': Ptr) {
    && t'.Bin? && t'.n == node' && Fixing(c', t', k') && Depth(c') < Depth(c)
    && Inorder(Plug(c', t')) == Inorder(Plug(c, t))
  }

  lemma RecolorStep(up: Ctx, sg: Side, sp: Side, t: Tree, p: Ptr, s: Tree, g: Ptr, u: Tree, k: nat)
    requires Fixing(Arm(Arm(up, sg, g, false, u), sp, p, true, s), t, k) && IsRed(u)
    ensures Stepped(Arm(Arm(up, sg, g, false, u), sp, p, true, s), t,
                    up, Family(sg, sp, t, p, false, s, g, true, Black(u)), k + 1, g)
  {
    RecolorBalanced(up, sg, sp, t, p, s, g, u, k);
    FamilyInorder(sg, sp, t, p, true, s, g, false, u, false, true);
    InorderPlug(up, Family(sg, sp, t, p, true, s, g, false, u));
    InorderPlug(up, Family(sg, sp, t, p, false, s, g, true, Black(u)));
  }

  lemma RotateStep(up: Ctx, sg: Side, a: Tree, p: Ptr, b: Tree, g: Ptr, u: Tree, k: nat)
    requires Fixing(Arm(Arm(up, sg, g, false, u), sg, p, true, b), a, k) && !IsRed(u)
    ensures Stepped(Arm(Arm(up, sg, g, false, u), sg, p, true, b), a,
                    Arm(up, sg, p, false, Join(sg, b, g, true, u)), a, k, a.n)
  {
    assert CBal(Arm(up, sg, g, false, u), k);
    RotateBalanced(up, sg, a, p, b, g, u, k);
    RotateInorder(sg, a, p, true, b, g, false, u, false, true);
    InorderPlug(up, Join(sg, Join(sg, a, p, true, b), g, false, u));
    InorderPlug(up, Join(sg, a, p, false, Join(sg, b, g, true, u)));
  }

  /** The rotation at the parent that turns an inner grandchild into an outer one. */
  lemma InnerStep(up: Ctx, sg: Side, s: Tree, p: Ptr, a: Tree, x: Ptr, b: Tree, g: Ptr, u: Tree, k: nat)
    requires Fixing(Arm(Arm(up, sg, g, false, u), Other(sg), p, true, s), Join(sg, a, x, true, b), k)
    ensures Fixing(Arm(Arm(up, sg, g, false, u), sg, x, true, b), Join(sg, s, p, true, a), k)
    ensures Inorder(Plug(Arm(Arm(up, sg, g, false, u), sg, x, true, b), Join(sg, s, p, true, a)))
         == Inorder(Plug(Arm(Arm(up, sg, g, false, u), Other(sg), p, true, s), Join(sg, a, x, true, b)))
  {
    var c := Arm(up, sg, g, false, u);
    var t, t' := Join(Other(sg), Join(sg, a, x, true, b), p, true, s), Join(sg, Join(sg, s, p, true, a), x, true, b);
    if sg == L {
      InorderRotated(s, p, true, a, x, true, b, true, true);
    } else {
      InorderRotated(b, x, true, a, p, true, s, true, true);
    }
    assert Inorder(t) == Inorder(t');
    InorderPlug(c, t);
    InorderPlug(c, t');
  }

  /** One iteration of the loop when the parent is a left child, lines 80-105. */
  method StepLeft(root: RbRoot, node: Ptr, parent: Ptr, gparent: Ptr, ghost c: Ctx, ghost t: Tree, ghost k: nat)
    returns (node': Ptr, ghost c': Ctx, ghost t': Tree, ghost k': nat)
    requires Held(c, t, root.mem, root.top, root.rest) && t.Bin? && t.n == node && Fixing(c, t, k)
    requires c.Arm? && c.n == parent && c.red && c.up.n == gparent && c.up.side == L
    modifies root`mem, root`top
    ensures root.mem.Keys == old(root.mem.Keys)
    ensures Held(c', t', root.mem, root.top, root.rest) && Stepped(c, t, c', t', k', node')
  {
    ghost var up, u := c.up.up, c.up.sib;
    assert CBal(c.up, k) && !c.up.red;
    StateDown(c.up, c.side, t, parent, true, c.sib, root.mem, root.top);
    StateDown(up, L, Join(c.side, t, parent, true, c.sib), gparent, false, u, root.mem, root.top);
    assert RepCtx(c.up, parent, root.mem, root.top) && Rep(u, gparent, root.mem);
    var uncle := root.mem[gparent].right;
    if uncle != NULL && root.mem[uncle].red {
      FlipColors(root, uncle, parent, gparent, up, L, c.side, t, c.sib, u);
      RecolorStep(up, L, c.side, t, parent, c.sib, gparent, u, k);
      node', c', t', k' := gparent, up, Family(L, c.side, t, parent, false, c.sib, gparent, true, Black(u)), k + 1;
    } else {
      ghost var p, a, b := parent, t, c.sib;
      var parent' := parent;
      node' := node;
      if root.mem[parent].right == node {
        InnerStep(up, L, c.sib, parent, t.l, node, t.r, gparent, u, k);
        root.RotateLeft(parent, c.up, c.sib, true, t.l, node, true, t.r);
        node', parent' := parent, node;
        a, b := Bin(c.sib, parent, true, t.l), t.r;
        StateDown(up, L, Bin(a, node, true, b), gparent, false, u, root.mem, root.top);
      }
      RotateStep(up, L, a, parent', b, gparent, u, k);
      FixLeft(root, parent', gparent, up, a, b, u);
      c', t', k' := Arm(up, L, parent', false, Bin(b, gparent, true, u)), a, k;
      StateDown(up, L, a, parent', false, Bin(b, gparent, true, u), root.mem, root.top);
    }
  }

  /** The mirror image, lines 106-131. */
  method StepRight(root: RbRoot, node: Ptr, parent: Ptr, gparent: Ptr, ghost c: Ctx, ghost t: Tree, ghost k: nat)
    returns (node': Ptr, ghost c': Ctx, ghost t': Tree, ghost k': nat)
    requires Held(c, t, root.mem, root.top, root.rest) && t.Bin? && t.n == node && Fixing(c, t, k)
    requires c.Arm? && c.n == parent && c.red && c.up.n == gparent && c.up.side == R
    modifies root`mem, root`top
    ensures root.mem.Keys == old(root.mem.Keys)
    ensures Held(c', t', root.mem, root.top, root.rest) && Stepped(c, t, c', t', k', node')
  {
    ghost var up, u := c.up.up, c.up.sib;
    assert CBal(c.up, k) && !c.up.red;
    StateDown(c.up, c.side, t, parent, true, c.sib, root.mem, root.top);
    StateDown(up, R, Join(c.side, t, parent, true, c.sib), gparent, false, u, root.mem, root.top);
    assert RepCtx(c.up, parent, root.mem, root.top) && Rep(u, gparent, root.mem);
    var uncle := root.mem[gparent].left;
    if uncle != NULL && root.mem[uncle].red {
      FlipColors(root, uncle, parent, gparent, up, R, c.side, t, c.sib, u);
      RecolorStep(up, R, c.side, t, parent, c.sib, gparent, u, k);
      node', c', t', k' := gparent, up, Family(R, c.side, t, parent, false, c.sib, gparent, true, Black(u)), k + 1;
    } else {
      ghost var a, b := t, c.sib;
      var parent' := parent;
      node' := node;
      if root.mem[parent].left == node {
        InnerStep(up, R, c.sib, parent, t.r, node, t.l, gparent, u, k);
        root.RotateRight(parent, c.up, t.l, node, true, t.r, true, c.sib);
        node', parent' := parent, node;
        a, b := Bin(t.r, parent, true, c.sib), t.l;
        StateDown(up, R, Bin(b, node, true, a), gparent, false, u, root.mem, root.top);
      }
      RotateStep(up, R, a, parent', b, gparent, u, k);
      FixRight(root, parent', gparent, up, a, b, u);
      c', t', k' := Arm(up, R, parent', false, Bin(u, gparent, true, b)), a, k;
      StateDown(up, R, a, parent', false, Bin(u, gparent, true, b), root.mem, root.top);
    }
  }

  /** After the loop the only possible fault left is a red root, and line 134 repairs it. */
  lemma FinishBalanced(c: Ctx, t: Tree, k: nat)
    requires Fixing(c, t, k) && (c.Arm? ==> !c.red)
    ensures RedBlack(Black(Plug(c, t))) && Inorder(Black(Plug(c, t))) == Inorder(Plug(c, t)) && Plug(c, t).Bin?
  {
    if c.Arm? {
      PlugBalanced(c, t, k);
      PlugNodes(c, t);
      var w := Plug(c, t);
      assert w.Bin? && Black(w) == w;
    } else {
      assert Bal(Black(t), k + 1);
    }
  }

  /**
    `rb_insert_color`: `node` has just been linked as a red leaf of a tree that was valid
    without it. The tree is valid again and holds `node` at the place where it was linked.
   */
  method InsertColor(root: RbRoot, node: Ptr, ghost at: Ctx) returns (ghost t: Tree)
    requires Held(at, Bin(Leaf, node, true, Leaf), root.mem, root.top, root.rest)
    requires RedBlack(Plug(at, Leaf))
    modifies root`mem, root`top
    ensures root.mem.Keys == old(root.mem.Keys)
    ensures Held(Top, t, root.mem, root.top, root.rest) && RedBlack(t)
    ensures Inorder(t) == Before(at) + [node] + After(at)
  {
    var n := node;
    ghost var c := at;
    ghost var k := UnplugBalanced(at, Leaf);
    t := Bin(Leaf, node, true, Leaf);
    InorderPlug(at, t);
    assert Inorder(Leaf) == [];
    while root.mem[n].parent != NULL && root.mem[root.mem[n].parent].red
      invariant root.mem.Keys == old(root.mem.Keys)
      invariant Held(c, t, root.mem, root.top, root.rest) && t.Bin? && t.n == n && Fixing(c, t, k)
      invariant Inorder(Plug(c, t)) == Before(at) + [node] + After(at)
      decreases Depth(c)
    {
      var parent := root.mem[n].parent;
      assert CBal(c, k) && RepCtx(c, n, root.mem, root.top) && RepCtx(c.up, parent, root.mem, root.top);
      var gparent := root.mem[parent].parent;
      if parent == root.mem[gparent].left {
        n, c, t, k := StepLeft(root, n, parent, gparent, c, t, k);
      } else {
        n, c, t, k := StepRight(root, n, parent, gparent, c, t, k);
      }
    }
    FinishBalanced(c, t, k);
    StatePlug(c, t, root.mem, root.top);
    t := Plug(c, t);
    RecolorState(Top, t.l, t.n, t.red, t.r, false, root.mem, root.top);
    root.mem := root.mem[root.top := root.mem[root.top].(red := false)];
    t := Black(t);
  }
}
