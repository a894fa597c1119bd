/** `rb_erase` of lib/rbtree.c. */
module RbErase {
  import opened RbShape
  import opened RbBalance
  import opened RbRotate
  import opened RbInsert
  import opened RbEraseColor

  // ---------------------------------------------------------------- __rb_erase_color

  lemma {:induction false} TopInCtx(c: Ctx, h: Ptr, m: Mem, top: Ptr)
    requires RepCtx(c, h, m, top) && c.Arm?
    ensures top in CNodes(c) && top != NULL
    decreases c
  {
    if c.up.Arm? { TopInCtx(c.up, c.n, m, top); }
  }

  /** Lines 220-221. */
  method Paint(root: RbRoot, n: Ptr, ghost c: Ctx, ghost t: Tree) returns (ghost w: Tree)
    requires Held(c, t, root.mem, root.top, root.rest) && n == RootOf(t)
    modifies root`mem, root`top
    ensures root.mem.Keys == old(root.mem.Keys)
    ensures w == Plug(c, Black(t)) && Held(Top, w, root.mem, root.top, root.rest)
  {
    if n != NULL {
      RecolorState(c, t.l, t.n, t.red, t.r, false, root.mem, root.top);
      root.mem := root.mem[n := root.mem[n].(red := false)];
    }
    StatePlug(c, Black(t), root.mem, root.top);
    w := Plug(c, Black(t));
  }

  /** `__rb_erase_color`: the subtree at `node` is one black short; afterwards the tree is valid. */
  method EraseColor(root: RbRoot, node: Ptr, parent: Ptr, ghost c0: Ctx, ghost t0: Tree, ghost k0: nat)
    returns (ghost t: Tree)
    requires Held(c0, t0, root.mem, root.top, root.rest) && node == RootOf(t0) && parent == ParentOf(c0)
    requires Short(c0, t0, k0)
    modifies root`mem, root`top
    ensures root.mem.Keys == old(root.mem.Keys)
    ensures Held(Top, t, root.mem, root.top, root.rest) && RedBlack(t)
    ensures Inorder(t) == Inorder(Plug(c0, t0))
  {
    var n, p := node, parent;
    ghost var c, k := c0, k0;
    t := t0;
    var done := false;
    while (n == NULL || !root.mem[n].red) && n != root.top
      invariant root.mem.Keys == old(root.mem.Keys)
      invariant Held(c, t, root.mem, root.top, root.rest) && n == RootOf(t) && p == ParentOf(c)
      invariant !done && Short(c, t, k)
      invariant Inorder(Plug(c, t)) == Inorder(Plug(c0, t0))
      decreases Depth(c), !IsRed(t)
    {
      assert RepCtx(c, n, root.mem, root.top);
      if root.mem[p].left == n {
        done, n, p, c, t, k := EraseStepLeft(root, n, p, c, t, k);
      } else {
        done, n, p, c, t, k := EraseStepRight(root, n, p, c, t, k);
      }
      if done {
        break;
      }
    }
    if !done && c.Arm? {
      TopInCtx(c, n, root.mem, root.top);
    }
    PaintedValid(c, t, k, done);
    t := Paint(root, n, c, t);
  }

  /** Line 221 finishes the repair in every way the loop can end. */
  lemma PaintedValid(c: Ctx, t: Tree, k: nat, done: bool)
    requires if done then c.Top? && RedBlack(t) else Short(c, t, k) && (IsRed(t) || c.Top?)
    ensures RedBlack(Plug(c, Black(t))) && Inorder(Plug(c, Black(t))) == Inorder(Plug(c, t))
  {
    if done {
      assert Black(t) == t;
    } else {
      ShortFinish(c, t, k);
      InorderPlug(c, t);
      InorderPlug(c, Black(t));
    }
  }

  // ---------------------------------------------------------------- splicing a node out

  /** The links of `m'` bypass the node `n`, which has the only child `ch` (or none). */
  ghost predicate Spliced(m: Mem, m': Mem, n: Ptr, ch: Ptr, p: Ptr, top: Ptr, top': Ptr) {
    && m'.Keys == m.Keys
    && (ch != NULL ==> ch in m && m'[ch] == m[ch].(parent := p))
    && (p != NULL ==> p in m && m'[p] == Replaced(m[p], n, ch))
    && (forall x :: x in m && x != ch && x != p ==> m'[x] == m[x])
    && top' == if p == NULL then ch else top
  }

  lemma SpliceState(c: Ctx, side: Side, n: Ptr, red: bool, ch: Tree, m: Mem, m': Mem, top: Ptr, top': Ptr)
    requires State(c, Join(side, ch, n, red, Leaf), m, top)
    requires Spliced(m, m', n, RootOf(ch), ParentOf(c), top, top')
    ensures State(c, ch, m', top') && n !in Nodes(ch) && n !in CNodes(c)
  {
    assert Nodes(Leaf) == {} && Rep(ch, n, m);
    NullOutside(ch, n, m);
    NullOutsideCtx(c, n, m, top);
    RepIn(ch, n, m);
    RepCtxIn(c, n, m, top);
    RepReparent(ch, n, ParentOf(c), m, m');
    RepCtxRelink(c, n, RootOf(ch), m, m', top, top');
  }

  lemma SpliceHeld(c: Ctx, side: Side, n: Ptr, red: bool, ch: Tree, m: Mem, m': Mem, top: Ptr, top': Ptr, rest: Mem)
    requires Held(c, Join(side, ch, n, red, Leaf), m, top, rest) && State(c, ch, m', top')
    requires Spliced(m, m', n, RootOf(ch), ParentOf(c), top, top')
    ensures Held(c, ch, m', top', rest) && n !in rest
  {
    NullOutside(ch, n, m);
  }

  // ---------------------------------------------------------------- replacing a node

  /** The links of `m'` lead to `s`, which has the fields of `n`, instead of `n`. */
  ghost predicate Substituted(m: Mem, m': Mem, n: Ptr, s: Ptr, l: Ptr, r: Ptr, p: Ptr, top: Ptr, top': Ptr) {
    && m'.Keys == m.Keys && s in m && n in m
    && m'[s] == m[n]
    && (l != NULL ==> l in m && m'[l] == m[l].(parent := s))
    && (r != NULL ==> r in m && m'[r] == m[r].(parent := s))
    && (p != NULL ==> p in m && m'[p] == Replaced(m[p], n, s))
    && (forall x :: x in m && x != s && x != l && x != r && x != p ==> m'[x] == m[x])
    && top' == if p == NULL then s else top
  }

  lemma SubstitutedChild(t: Tree, n: Ptr, s: Ptr, o: Ptr, p: Ptr, m: Mem, m': Mem, top: Ptr, top': Ptr)
    requires NULL !in m && Rep(t, n, m) && Distinct(t) && s !in Nodes(t) && o !in Nodes(t) && p !in Nodes(t)
    requires Substituted(m, m', n, s, RootOf(t), o, p, top, top')
      || Substituted(m, m', n, s, o, RootOf(t), p, top, top')
    ensures Rep(t, s, m')
  {
    RepIn(t, n, m);
    RepReparent(t, n, s, m, m');
  }

  lemma SubstitutedCtx(c: Ctx, n: Ptr, s: Ptr, l: Ptr, r: Ptr, m: Mem, m': Mem, top: Ptr, top': Ptr)
    requires NULL !in m && RepCtx(c, n, m, top) && CDistinct(c) && n != NULL && n !in CNodes(c)
    requires s !in CNodes(c) && l !in CNodes(c) && r !in CNodes(c)
    requires Substituted(m, m', n, s, l, r, ParentOf(c), top, top')
    ensures RepCtx(c, s, m', top')
  {
    RepCtxIn(c, n, m, top);
    RepCtxRelink(c, n, s, m, m', top, top');
  }

  lemma SubstituteState(c: Ctx, l: Tree, n: Ptr, red: bool, r: Tree, s: Ptr, m: Mem, m': Mem, top: Ptr, top': Ptr)
    requires State(c, Bin(l, n, red, r), m, top)
    requires s !in Nodes(Bin(l, n, red, r)) && s !in CNodes(c) && s != NULL
    requires Substituted(m, m', n, s, RootOf(l), RootOf(r), ParentOf(c), top, top')
    ensures State(c, Bin(l, s, red, r), m', top')
  {
    NullOutside(Bin(l, n, red, r), ParentOf(c), m);
    NullOutsideCtx(c, n, m, top);
    SubstitutedChild(l, n, s, RootOf(r), ParentOf(c), m, m', top, top');
    SubstitutedChild(r, n, s, RootOf(l), ParentOf(c), m, m', top, top');
    SubstitutedCtx(c, n, s, RootOf(l), RootOf(r), m, m', top, top');
  }

  lemma SubstituteHeld(c: Ctx, l: Tree, n: Ptr, red: bool, r: Tree, s: Ptr, m: Mem, m': Mem, top: Ptr, top': Ptr,
                       rest: Mem)
    requires Held(c, Bin(l, n, red, r), m, top, rest) && State(c, Bin(l, s, red, r), m', top') && s !in rest
    requires Substituted(m, m', n, s, RootOf(l), RootOf(r), ParentOf(c), top, top')
    ensures Held(c, Bin(l, s, red, r), m', top', rest)
  {
  }

  // ---------------------------------------------------------------- rb_erase

  /** What removing a node with at most one child means for the colour rules. */
  lemma SpliceBalanced(c: Ctx, side: Side, n: Ptr, red: bool, ch: Tree) returns (k: nat)
    requires RedBlack(Plug(c, Join(side, ch, n, red, Leaf)))
    ensures if red then RedBlack(Plug(c, ch)) else Short(c, ch, k)
  {
    k := UnplugBalanced(c, Join(side, ch, n, red, Leaf));
    if red {
      PlugBalanced(c, ch, k);
    } else {
      k := k - 1;
    }
  }

  /** Lines 274-284. */
  method SpliceOut(root: RbRoot, node: Ptr, child: Ptr, parent: Ptr, ghost c: Ctx, ghost side: Side, ghost red: bool,
                   ghost ch: Tree)
    requires Held(c, Join(side, ch, node, red, Leaf), root.mem, root.top, root.rest)
    requires child == RootOf(ch) && parent == ParentOf(c)
    modifies root`mem, root`top
    ensures root.mem.Keys == old(root.mem.Keys)
    ensures Held(c, ch, root.mem, root.top, root.rest) && node !in Nodes(ch) && node !in CNodes(c)
    ensures node !in root.rest
  {
    assert Rep(ch, node, root.mem);
    RepIn(ch, node, root.mem);
    RepCtxIn(c, node, root.mem, root.top);
    if child != NULL {
      root.mem := root.mem[child := root.mem[child].(parent := parent)];
    }
    if parent != NULL {
      if root.mem[parent].left == node {
        root.mem := root.mem[parent := root.mem[parent].(left := child)];
      } else {
        root.mem := root.mem[parent := root.mem[parent].(right := child)];
      }
    } else {
      root.top := child;
    }
    SpliceState(c, side, node, red, ch, old(root.mem), root.mem, old(root.top), root.top);
    SpliceHeld(c, side, node, red, ch, old(root.mem), root.mem, old(root.top), root.top, root.rest);
  }

  /** `rb_erase` of a node with at most one child, lines 229-232 and 271-288. */
  method EraseOne(root: RbRoot, node: Ptr, child: Ptr, ghost c: Ctx, ghost side: Side, ghost cr: bool, ghost ch: Tree)
    returns (ghost t: Tree)
    requires Held(c, Join(side, ch, node, cr, Leaf), root.mem, root.top, root.rest) && child == RootOf(ch)
    requires RedBlack(Plug(c, Join(side, ch, node, cr, Leaf)))
    modifies root`mem, root`top
    ensures root.mem.Keys == old(root.mem.Keys)
    ensures Held(Top, t, root.mem, root.top, root.rest) && RedBlack(t)
    ensures Inorder(t) == Before(c) + Inorder(ch) + After(c)
  {
    var parent := root.mem[node].parent;
    var red := root.mem[node].red;
    ghost var k := SpliceBalanced(c, side, node, cr, ch);
    SpliceOut(root, node, child, parent, c, side, cr, ch);
    InorderPlug(c, ch);
    if !red {
      t := EraseColor(root, child, parent, c, ch, k);
    } else {
      StatePlug(c, ch, root.mem, root.top);
      t := Plug(c, ch);
    }
  }

  ghost function Append(p: Ctx, c: Ctx): Ctx {
    match p
    case Top => c
    case Arm(up, side, n, red, sib) => Arm(Append(up, c), side, n, red, sib)
  }

  lemma {:induction false} PlugAppend(p: Ctx, c: Ctx, t: Tree)
    ensures Plug(Append(p, c), t) == Plug(c, Plug(p, t))
    decreases p
  {
    match p
    case Top =>
    case Arm(up, side, n, red, sib) => PlugAppend(up, c, Join(side, t, n, red, sib));
  }

  /** Line 238: the leftmost node under `start`. */
  method Leftmost(root: RbRoot, start: Ptr, ghost c: Ctx, ghost r: Tree)
    returns (node: Ptr, ghost path: Ctx, ghost f: Tree)
    requires State(c, r, root.mem, root.top) && r.Bin? && r.n == start
    ensures f.Bin? && f.n == node && f.l.Leaf? && Plug(path, f) == r && Before(path) == []
    ensures State(Append(path, c), f, root.mem, root.top)
    ensures forall rest :: Held(c, r, root.mem, root.top, rest) ==>
      Held(Append(path, c), f, root.mem, root.top, rest)
    ensures path.Arm? ==> path.side == L
  {
    node, path, f := start, Top, r;
    while root.mem[node].left != NULL
      invariant f.Bin? && f.n == node && Plug(path, f) == r && Before(path) == []
      invariant State(Append(path, c), f, root.mem, root.top)
      invariant forall rest :: Held(c, r, root.mem, root.top, rest) ==>
        Held(Append(path, c), f, root.mem, root.top, rest)
      invariant path.Arm? ==> path.side == L
      decreases f
    {
      assert Rep(f.l, node, root.mem);
      StateDown(Append(path, c), L, f.l, node, f.red, f.r, root.mem, root.top);
      path, f := Arm(path, L, node, f.red, f.r), f.l;
      node := root.mem[node].left;
    }
    assert Rep(f.l, node, root.mem);
  }

  /** Lines 244-250: the successor `node` of `old_` is unlinked from its place below `old_`. */
  method Unhook(root: RbRoot, old_: Ptr, node: Ptr, child: Ptr, parent: Ptr, ghost c: Ctx, ghost red: bool,
                ghost ch: Tree)
    returns (parent': Ptr)
    requires Held(c, Bin(Leaf, node, red, ch), root.mem, root.top, root.rest) && child == RootOf(ch)
    requires c.Arm? && c.n == parent && (c.side == R <==> parent == old_)
    modifies root`mem, root`top
    ensures root.mem.Keys == old(root.mem.Keys)
    ensures Held(c, ch, root.mem, root.top, root.rest) && node !in Nodes(ch) && node !in CNodes(c)
    ensures node !in root.rest
    ensures parent' == if parent == old_ then node else parent
  {
    assert Rep(ch, node, root.mem);
    RepIn(ch, node, root.mem);
    RepCtxIn(c, node, root.mem, root.top);
    NullOutsideCtx(c, node, root.mem, root.top);
    parent' := parent;
    if child != NULL {
      root.mem := root.mem[child := root.mem[child].(parent := parent)];
    }
    if parent == old_ {
      root.mem := root.mem[parent := root.mem[parent].(right := child)];
      parent' := node;
    } else {
      root.mem := root.mem[parent := root.mem[parent].(left := child)];
    }
    SpliceState(c, R, node, red, ch, old(root.mem), root.mem, old(root.top), root.top);
    SpliceHeld(c, R, node, red, ch, old(root.mem), root.mem, old(root.top), root.top, root.rest);
  }

  /** Lines 256-267: the neighbours of `old_` are linked to `node`. */
  method Adopt(root: RbRoot, old_: Ptr, node: Ptr)
    requires NULL !in root.mem && old_ in root.mem && node in root.mem && old_ != node
    requires var o := root.mem[old_];
      && o.left in root.mem && o.left != node && o.left != old_ && o.left != o.right
      && (o.right != NULL ==> o.right in root.mem && o.right != node && o.right != old_)
      && (o.parent != NULL ==> && o.parent in root.mem && o.parent !in {node, old_, o.left, o.right}
                               && (root.mem[o.parent].left == old_ <==> root.mem[o.parent].right != old_))
    modifies root`mem, root`top
    ensures var m, o := old(root.mem), old(root.mem[old_]);
      && root.mem.Keys == m.Keys && root.mem[node] == m[node]
      && root.mem[o.left] == m[o.left].(parent := node)
      && (o.right != NULL ==> root.mem[o.right] == m[o.right].(parent := node))
      && (o.parent != NULL ==> root.mem[o.parent] == Replaced(m[o.parent], old_, node))
      && (forall x :: x in m && x != o.left && x != o.right && x != o.parent ==> root.mem[x] == m[x])
      && root.top == if o.parent == NULL then node else old(root.top)
  {
    var o := root.mem[old_];
    if o.parent != NULL {
      if root.mem[o.parent].left == old_ {
        root.mem := root.mem[o.parent := root.mem[o.parent].(left := node)];
      } else {
        root.mem := root.mem[o.parent := root.mem[o.parent].(right := node)];
      }
    } else {
      root.top := node;
    }
    root.mem := root.mem[o.left := root.mem[o.left].(parent := node)];
    if o.right != NULL {
      root.mem := root.mem[o.right := root.mem[o.right].(parent := node)];
    }
  }

  /** The neighbours of the node in focus exist and are different. */
  lemma Neighbours(c: Ctx, l: Tree, n: Ptr, red: bool, r: Tree, m: Mem, top: Ptr)
    requires State(c, Bin(l, n, red, r), m, top)
    ensures n in m && m[n] == Cell(ParentOf(c), RootOf(l), RootOf(r), red)
    ensures l.Bin? ==> l.n in m && l.n != n && l.n != RootOf(r)
    ensures r.Bin? ==> r.n in m && r.n != n
    ensures c.Arm? ==> c.n in m && c.n != n && c.n != RootOf(l) && c.n != RootOf(r)
    ensures c.Arm? ==> (m[c.n].left == n <==> m[c.n].right != n)
  {
    RepIn(Bin(l, n, red, r), ParentOf(c), m);
    RepCtxIn(c, n, m, top);
    NullOutsideCtx(c, n, m, top);
  }

  /** Lines 252-267: `node` takes over the fields and the place of `old_`. */
  method TakeOver(root: RbRoot, old_: Ptr, node: Ptr, ghost c: Ctx, ghost l: Tree, ghost red: bool, ghost r: Tree)
    requires Held(c, Bin(l, old_, red, r), root.mem, root.top, root.rest) && l.Bin?
    requires node in root.mem && node !in Nodes(Bin(l, old_, red, r)) && node !in CNodes(c) && node !in root.rest
    modifies root`mem, root`top
    ensures root.mem.Keys == old(root.mem.Keys)
    ensures Held(c, Bin(l, node, red, r), root.mem, root.top, root.rest)
  {
    Neighbours(c, l, old_, red, r, root.mem, root.top);
    NullOutsideCtx(c, old_, root.mem, root.top);
    root.mem := root.mem[node := root.mem[node].(parent := root.mem[old_].parent, red := root.mem[old_].red)];
    root.mem := root.mem[node := root.mem[node].(right := root.mem[old_].right)];
    root.mem := root.mem[node := root.mem[node].(left := root.mem[old_].left)];
    Adopt(root, old_, node);
    SubstituteState(c, l, old_, red, r, node, old(root.mem), root.mem, old(root.top), root.top);
    SubstituteHeld(c, l, old_, red, r, node, old(root.mem), root.mem, old(root.top), root.top, root.rest);
  }

  lemma {:induction false} AppendNodes(p: Ctx, c: Ctx)
    ensures CNodes(Append(p, c)) == CNodes(p) + CNodes(c)
    decreases p
  {
    if p.Arm? { AppendNodes(p.up, c); }
  }

  /** The successor `s` of `n` is linked from `n` itself or, as a left child, from below `n`. */
  lemma SuccessorParent(path: Ctx, c: Ctx, n: Ptr)
    requires CDistinct(Append(path, c)) && c.Arm? && c.n == n && c.side == R && (path.Arm? ==> path.side == L)
    ensures Append(path, c).Arm? && (Append(path, c).side == R <==> Append(path, c).n == n)
  {
    if path.Arm? { AppendNodes(path.up, c); }
  }

  /** `rb_erase` lines 237-267: the successor of `old_` is put in its place. */
  method PutSuccessor(root: RbRoot, old_: Ptr, ghost c: Ctx, ghost l: Tree, ghost cr: bool, ghost r: Tree)
    returns (node: Ptr, child: Ptr, parent: Ptr, red: bool, ghost path: Ctx, ghost sr: Tree)
    requires Held(c, Bin(l, old_, cr, r), root.mem, root.top, root.rest) && l.Bin? && r.Bin?
    modifies root`mem, root`top
    ensures root.mem.Keys == old(root.mem.Keys)
    ensures r == Plug(path, Bin(Leaf, node, red, sr)) && Before(path) == []
    ensures Held(Append(path, Arm(c, R, node, cr, l)), sr, root.mem, root.top, root.rest)
    ensures child == RootOf(sr) && parent == ParentOf(Append(path, Arm(c, R, node, cr, l)))
  {
    ghost var c1, f := Arm(c, R, old_, cr, l), r;
    StateDown(c, R, r, old_, cr, l, root.mem, root.top);
    node, path, f := Leftmost(root, root.mem[old_].right, c1, r);
    ghost var cs := Append(path, c1);
    sr := f.r;
    child, parent, red := root.mem[node].right, root.mem[node].parent, root.mem[node].red;
    SuccessorParent(path, c1, old_);
    parent := Unhook(root, old_, node, child, parent, cs, red, sr);
    TakeOverBelow(root, old_, node, c, l, cr, path, sr);
  }

  /** Lines 252-267 seen from the child of the unlinked successor. */
  method TakeOverBelow(root: RbRoot, old_: Ptr, node: Ptr, ghost c: Ctx, ghost l: Tree, ghost cr: bool,
                       ghost path: Ctx, ghost sr: Tree)
    requires Held(Append(path, Arm(c, R, old_, cr, l)), sr, root.mem, root.top, root.rest) && l.Bin?
    requires node in root.mem && node !in Nodes(sr) && node !in CNodes(Append(path, Arm(c, R, old_, cr, l)))
      && node !in root.rest
    modifies root`mem, root`top
    ensures root.mem.Keys == old(root.mem.Keys)
    ensures Held(Append(path, Arm(c, R, node, cr, l)), sr, root.mem, root.top, root.rest)
  {
    ghost var c1, c2, r' := Arm(c, R, old_, cr, l), Arm(c, R, node, cr, l), Plug(path, sr);
    PlugAppend(path, c1, sr);
    StatePlug(Append(path, c1), sr, root.mem, root.top);
    StatePlug(c, Bin(l, old_, cr, r'), root.mem, root.top);
    PlugNodes(Append(path, c1), sr);
    PlugNodes(c, Bin(l, old_, cr, r'));
    TakeOver(root, old_, node, c, l, cr, r');
    PlugAppend(path, c2, sr);
    StatePlug(Append(path, c2), sr, root.mem, root.top);
    StatePlug(c, Bin(l, node, cr, r'), root.mem, root.top);
  }

  lemma SuccessorBalanced(c: Ctx, l: Tree, n: Ptr, cr: bool, r: Tree, s: Ptr, red: bool, path: Ctx, sr: Tree)
    returns (k: nat)
    requires RedBlack(Plug(c, Bin(l, n, cr, r))) && r == Plug(path, Bin(Leaf, s, red, sr))
    ensures var c' := Append(path, Arm(c, R, s, cr, l)); if red then RedBlack(Plug(c', sr)) else Short(c', sr, k)
  {
    var j := UnplugBalanced(c, Bin(l, n, cr, r));
    PlugBalanced(c, Bin(l, s, cr, r), j);
    PlugAppend(path, Arm(c, R, s, cr, l), Bin(Leaf, s, red, sr));
    k := SpliceBalanced(Append(path, Arm(c, R, s, cr, l)), R, s, red, sr);
  }

  lemma SuccessorInorder(c: Ctx, l: Tree, cr: bool, r: Tree, s: Ptr, red: bool, path: Ctx, sr: Tree)
    requires r == Plug(path, Bin(Leaf, s, red, sr)) && Before(path) == []
    ensures Inorder(Plug(Append(path, Arm(c, R, s, cr, l)), sr)) == Before(c) + (Inorder(l) + Inorder(r)) + After(c)
  {
    PlugAppend(path, Arm(c, R, s, cr, l), sr);
    InorderPlug(c, Bin(l, s, cr, Plug(path, sr)));
    InorderPlug(path, Bin(Leaf, s, red, sr));
    InorderPlug(path, sr);
    assert Inorder(Leaf) == [];
    SuccessorFirst(Inorder(l), s, Inorder(sr), After(path));
  }

  lemma SuccessorFirst(l: seq<Ptr>, s: Ptr, a: seq<Ptr>, b: seq<Ptr>)
    ensures l + [s] + ([] + a + b) == l + ([] + ([] + [s] + a) + b)
  {
    assert [] + a + b == a + b;
    assert [] + ([] + [s] + a) + b == [s] + (a + b);
  }

  /** `rb_erase` of a node with two children, lines 235-268 and 286-288: its successor replaces it. */
  method EraseTwo(root: RbRoot, old_: Ptr, ghost c: Ctx, ghost l: Tree, ghost cr: bool, ghost r: Tree)
    returns (ghost t: Tree)
    requires Held(c, Bin(l, old_, cr, r), root.mem, root.top, root.rest) && l.Bin? && r.Bin?
    requires RedBlack(Plug(c, Bin(l, old_, cr, r)))
    modifies root`mem, root`top
    ensures root.mem.Keys == old(root.mem.Keys)
    ensures Held(Top, t, root.mem, root.top, root.rest) && RedBlack(t)
    ensures Inorder(t) == Before(c) + (Inorder(l) + Inorder(r)) + After(c)
  {
    var node, child, parent, red;
    ghost var path, sr;
    node, child, parent, red, path, sr := PutSuccessor(root, old_, c, l, cr, r);
    ghost var cs := Append(path, Arm(c, R, node, cr, l));
    ghost var k := SuccessorBalanced(c, l, old_, cr, r, node, red, path, sr);
    SuccessorInorder(c, l, cr, r, node, red, path, sr);
    if !red {
      t := EraseColor(root, child, parent, cs, sr, k);
    } else {
      StatePlug(cs, sr, root.mem, root.top);
      t := Plug(cs, sr);
    }
  }

  /**
    `rb_erase`: the tree stays valid, its in-order sequence loses exactly `node`, and no cell outside it changes.
   */
  method Erase(root: RbRoot, node: Ptr, ghost t: Tree)
    returns (ghost t': Tree, ghost before: seq<Ptr>, ghost after: seq<Ptr>)
    requires State(Top, t, root.mem, root.top) && RedBlack(t) && node in Nodes(t)
    modifies root
    ensures root.mem.Keys == old(root.mem.Keys)
    ensures State(Top, t', root.mem, root.top) && RedBlack(t')
    ensures Inorder(t) == before + [node] + after && Inorder(t') == before + after
    ensures Kept(old(root.mem), root.mem, Nodes(t))
  {
    root.rest := Others(root.mem, Nodes(t));
    OthersHeld(Top, t, root.mem, root.top, Nodes(t));
    ghost var c, f := FocusIn(Top, t, node);
    StatePlug(c, f, root.mem, root.top);
    InorderPlug(c, f);
    before, after := Before(c) + Inorder(f.l), Inorder(f.r) + After(c);
    assert Inorder(t) == before + [node] + after;
    Neighbours(c, f.l, node, f.red, f.r, root.mem, root.top);
    assert f == Bin(f.l, node, f.red, f.r) && Inorder(Leaf) == [];
    assert Rep(f.l, node, root.mem) && Rep(f.r, node, root.mem);
    if root.mem[node].left == NULL {
      assert before == Before(c);
      assert before + after == Before(c) + Inorder(f.r) + After(c);
      t' := EraseOne(root, node, root.mem[node].right, c, R, f.red, f.r);
    } else if root.mem[node].right == NULL {
      assert after == After(c);
      t' := EraseOne(root, node, root.mem[node].left, c, L, f.red, f.l);
    } else {
      assert before + after == Before(c) + (Inorder(f.l) + Inorder(f.r)) + After(c);
      t' := EraseTwo(root, node, c, f.l, f.red, f.r);
    }
    HeldKept(old(root.mem), Nodes(t), Top, t', root.mem, root.top);
  }
}
