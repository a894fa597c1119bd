/** `__rb_erase_color` of lib/rbtree.c. */
module RbEraseColor {
  import opened RbShape
  import opened RbBalance
  import opened RbRotate
  import opened RbInsert

  /**
    The subtree in focus is one black node short of what its place asks for: it is black and
    has `k` blacks per path where `k + 1` are wanted, or it is red and painting it black helps.
   */
  ghost predicate Short(c: Ctx, t: Tree, k: nat) {
    CBal(c, k + 1) && if IsRed(t) then Bal(Black(t), k + 1) else Bal(t, k)
  }

  lemma ShortFinish(c: Ctx, t: Tree, k: nat)
    requires Short(c, t, k) && (IsRed(t) || c.Top?)
    ensures RedBlack(Plug(c, Black(t)))
  {
    if IsRed(t) {
      PlugBalanced(c, Black(t), k + 1);
    } else {
      PlugBalanced(c, t, k);
    }
  }

  lemma ShortSibling(c: Ctx, t: Tree, k: nat)
    requires Short(c, t, k) && c.Arm?
    ensures c.sib.Bin? && Bal(c.sib, k + 1)
  {
  }

  /** Red sibling: a rotation at the parent brings a black one. */
  lemma RedSiblingShort(up: Ctx, side: Side, p: Ptr, i: Tree, on: Ptr, o: Tree, t: Tree, k: nat)
    requires Short(Arm(up, side, p, false, Join(side, i, on, true, o)), t, k)
    ensures Short(Arm(Arm(up, side, on, false, o), side, p, true, i), t, k) && !IsRed(i)
  {
    assert Bal(Join(side, i, on, true, o), k + 1);
    assert CBal(Arm(up, side, on, false, o), k + 1);
  }

  /** Black nephews: painting the sibling red moves the shortage to the parent. */
  lemma BlackNephewsShort(up: Ctx, side: Side, p: Ptr, pr: bool, i: Tree, on: Ptr, o: Tree, t: Tree, k: nat)
    requires Short(Arm(up, side, p, pr, Join(side, i, on, false, o)), t, k) && !IsRed(t) && !IsRed(i) && !IsRed(o)
    ensures Short(up, Join(side, t, p, pr, Join(side, i, on, true, o)), if pr then k else k + 1)
  {
    assert Bal(Join(side, i, on, false, o), k + 1);
    assert Bal(Join(side, i, on, true, o), k);
  }

  /** Red inner nephew: a rotation at the sibling makes the outer nephew red. */
  lemma InnerNephewShort(up: Ctx, side: Side, p: Ptr, pr: bool, x: Tree, n: Ptr, y: Tree, on: Ptr, o: Tree, t: Tree,
                         k: nat)
    requires Short(Arm(up, side, p, pr, Join(side, Join(side, x, n, true, y), on, false, o)), t, k) && !IsRed(o)
    ensures Short(Arm(up, side, p, pr, Join(side, x, n, false, Join(side, y, on, true, o))), t, k)
  {
    assert Bal(Join(side, Join(side, x, n, true, y), on, false, o), k + 1);
    assert Bal(Join(side, x, n, true, y), k);
    assert Bal(Join(side, y, on, true, o), k);
  }

  /** Red outer nephew: a rotation at the parent ends the shortage. */
  lemma OuterNephewDone(up: Ctx, side: Side, p: Ptr, pr: bool, i: Tree, on: Ptr, o: Tree, t: Tree, k: nat)
    requires Short(Arm(up, side, p, pr, Join(side, i, on, false, o)), t, k) && !IsRed(t) && IsRed(o)
    ensures RedBlack(Plug(up, Join(side, Join(side, t, p, false, i), on, pr, Black(o))))
  {
    assert Bal(Join(side, i, on, false, o), k + 1);
    assert Bal(i, k) && Bal(o, k) && Bal(t, k);
    assert Bal(Black(o), k + 1) && Bal(Join(side, t, p, false, i), k + 1);
    PlugBalanced(up, Join(side, Join(side, t, p, false, i), on, pr, Black(o)), if pr then k + 1 else k + 2);
  }

  lemma RedSiblingInorder(up: Ctx, side: Side, p: Ptr, pr: bool, i: Tree, on: Ptr, o: Tree, t: Tree, pr': bool,
                          or: bool, or': bool, o': Tree)
    requires o' == o || o' == Black(o)
    ensures Inorder(Plug(Arm(up, side, p, pr, Join(side, i, on, or, o)), t))
         == Inorder(Plug(up, Join(side, Join(side, t, p, pr', i), on, or', o')))
  {
    assert Inorder(o') == Inorder(o);
    RotateInorder(side, t, p, pr', i, on, or', o, pr, or);
    InorderPlug(up, Join(side, t, p, pr, Join(side, i, on, or, o)));
    InorderPlug(up, Join(side, Join(side, t, p, pr', i), on, or', o'));
  }

  lemma RecolorSiblingInorder(up: Ctx, side: Side, p: Ptr, pr: bool, i: Tree, on: Ptr, or: bool, o: Tree, t: Tree,
                              or': bool)
    ensures Inorder(Plug(Arm(up, side, p, pr, Join(side, i, on, or, o)), t))
         == Inorder(Plug(up, Join(side, t, p, pr, Join(side, i, on, or', o))))
  {
    assert Inorder(Join(side, i, on, or, o)) == Inorder(Join(side, i, on, or', o));
    InorderPlug(up, Join(side, t, p, pr, Join(side, i, on, or, o)));
    InorderPlug(up, Join(side, t, p, pr, Join(side, i, on, or', o)));
  }

  lemma InnerNephewInorder(up: Ctx, side: Side, p: Ptr, pr: bool, x: Tree, n: Ptr, y: Tree, on: Ptr, o: Tree, t: Tree)
    ensures Inorder(Plug(Arm(up, side, p, pr, Join(side, Join(side, x, n, true, y), on, false, o)), t))
         == Inorder(Plug(Arm(up, side, p, pr, Join(side, x, n, false, Join(side, y, on, true, o))), t))
  {
    RotateInorder(side, x, n, true, y, on, false, o, false, true);
    InorderPlug(up, Join(side, t, p, pr, Join(side, Join(side, x, n, true, y), on, false, o)));
    InorderPlug(up, Join(side, t, p, pr, Join(side, x, n, false, Join(side, y, on, true, o))));
  }

  /** Lines 148-154. */
  method RedSiblingLeft(root: RbRoot, parent: Ptr, other: Ptr, ghost up: Ctx, ghost t: Tree, ghost i: Tree,
                        ghost o: Tree, ghost k: nat)
    returns (other': Ptr)
    requires Held(Arm(up, L, parent, false, Bin(i, other, true, o)), t, root.mem, root.top, root.rest)
    requires Short(Arm(up, L, parent, false, Bin(i, other, true, o)), t, k)
    modifies root`mem, root`top
    ensures root.mem.Keys == old(root.mem.Keys) && other' == RootOf(i)
    ensures Held(Arm(Arm(up, L, other, false, o), L, parent, true, i), t, root.mem, root.top, root.rest)
  {
    StateDown(up, L, t, parent, false, Bin(i, other, true, o), root.mem, root.top);
    RecolorParent(up, R, R, o, other, true, i, parent, false, t, false, root.mem, root.top);
    root.mem := root.mem[other := root.mem[other].(red := false)];
    RecolorTop(up, L, t, parent, false, Bin(i, other, false, o), true, root.mem, root.top);
    root.mem := root.mem[parent := root.mem[parent].(red := true)];
    root.RotateLeft(parent, up, t, true, i, other, false, o);
    StateDown(up, L, Bin(t, parent, true, i), other, false, o, root.mem, root.top);
    StateDown(Arm(up, L, other, false, o), L, t, parent, true, i, root.mem, root.top);
    other' := root.mem[parent].right;
  }

  /** Lines 166-171: the red inner nephew replaces the sibling. */
  method InnerNephewLeft(root: RbRoot, parent: Ptr, other: Ptr, ghost up: Ctx, ghost pr: bool, ghost t: Tree,
                         ghost x: Tree, ghost n: Ptr, ghost y: Tree, ghost o: Tree)
    returns (other': Ptr)
    requires Held(Arm(up, L, parent, pr, Bin(Bin(x, n, true, y), other, false, o)), t, root.mem, root.top, root.rest)
    modifies root`mem, root`top
    ensures root.mem.Keys == old(root.mem.Keys) && other' == n
    ensures Held(Arm(up, L, parent, pr, Bin(x, n, false, Bin(y, other, true, o))), t, root.mem, root.top, root.rest)
  {
    ghost var c := Arm(up, R, parent, pr, t);
    StateDown(up, L, t, parent, pr, Bin(Bin(x, n, true, y), other, false, o), root.mem, root.top);
    StateDown(up, R, Bin(Bin(x, n, true, y), other, false, o), parent, pr, t, root.mem, root.top);
    RecolorParent(c, L, L, x, n, true, y, other, false, o, false, root.mem, root.top);
    var oLeft := root.mem[other].left;
    if oLeft != NULL {
      root.mem := root.mem[oLeft := root.mem[oLeft].(red := false)];
    }
    RecolorTop(c, L, Bin(x, n, false, y), other, false, o, true, root.mem, root.top);
    root.mem := root.mem[other := root.mem[other].(red := true)];
    root.RotateRight(other, c, x, n, false, y, true, o);
    StateDown(up, R, Bin(x, n, false, Bin(y, other, true, o)), parent, pr, t, root.mem, root.top);
    StateDown(up, L, t, parent, pr, Bin(x, n, false, Bin(y, other, true, o)), root.mem, root.top);
    other' := root.mem[parent].right;
  }

  /** Lines 173-177. */
  method OuterNephewLeft(root: RbRoot, parent: Ptr, other: Ptr, ghost up: Ctx, ghost pr: bool, ghost t: Tree,
                         ghost i: Tree, ghost o: Tree)
    requires Held(Arm(up, L, parent, pr, Bin(i, other, false, o)), t, root.mem, root.top, root.rest) && o.Bin?
    modifies root`mem, root`top
    ensures root.mem.Keys == old(root.mem.Keys)
    ensures Held(up, Bin(Bin(t, parent, false, i), other, pr, Black(o)), root.mem, root.top, root.rest)
  {
    StateDown(up, L, t, parent, pr, Bin(i, other, false, o), root.mem, root.top);
    RecolorParent(up, R, R, o, other, false, i, parent, pr, t, pr, root.mem, root.top);
    root.mem := root.mem[other := root.mem[other].(red := root.mem[parent].red)];
    RecolorTop(up, L, t, parent, pr, Bin(i, other, pr, o), false, root.mem, root.top);
    root.mem := root.mem[parent := root.mem[parent].(red := false)];
    ghost var c := Arm(up, R, parent, false, t);
    StateDown(up, R, Bin(i, other, pr, o), parent, false, t, root.mem, root.top);
    RecolorUncle(c, L, i, other, pr, o, root.mem, root.top);
    assert Rep(Bin(i, other, pr, o), parent, root.mem) && Rep(o, other, root.mem);
    if root.mem[other].right != NULL {
      root.mem := root.mem[root.mem[other].right := root.mem[root.mem[other].right].(red := false)];
    }
    StateDown(up, R, Bin(i, other, pr, Black(o)), parent, false, t, root.mem, root.top);
    root.RotateLeft(parent, up, t, false, i, other, pr, Black(o));
  }

  /** Lines 162-180: the sibling is black and has a red child. */
  method RedNephewLeft(root: RbRoot, parent: Ptr, other0: Ptr, ghost up: Ctx, ghost pr: bool, ghost t: Tree,
                       ghost i0: Tree, ghost o0: Tree, ghost k: nat)
    returns (ghost t': Tree)
    requires Held(Arm(up, L, parent, pr, Bin(i0, other0, false, o0)), t, root.mem, root.top, root.rest)
    requires Short(Arm(up, L, parent, pr, Bin(i0, other0, false, o0)), t, k) && !IsRed(t) && (IsRed(i0) || IsRed(o0))
    modifies root`mem, root`top
    ensures root.mem.Keys == old(root.mem.Keys)
    ensures Held(Top, t', root.mem, root.top, root.rest) && RedBlack(t')
    ensures Inorder(t') == Inorder(Plug(Arm(up, L, parent, pr, Bin(i0, other0, false, o0)), t))
  {
    ghost var i, o := i0, o0;
    var other := other0;
    assert Rep(Bin(i, other, false, o), parent, root.mem);
    assert Rep(o, other, root.mem);
    if root.mem[other].right == NULL || !root.mem[root.mem[other].right].red {
      InnerNephewShort(up, L, parent, pr, i.l, i.n, i.r, other, o, t, k);
      InnerNephewInorder(up, L, parent, pr, i.l, i.n, i.r, other, o, t);
      other := InnerNephewLeft(root, parent, other, up, pr, t, i.l, i.n, i.r, o);
      i, o := i.l, Bin(i.r, other0, true, o);
    }
    OuterNephewDone(up, L, parent, pr, i, other, o, t, k);
    RedSiblingInorder(up, L, parent, pr, i, other, o, t, false, false, pr, Black(o));
    OuterNephewLeft(root, parent, other, up, pr, t, i, o);
    ghost var f := Bin(Bin(t, parent, false, i), other, pr, Black(o));
    StatePlug(up, f, root.mem, root.top);
    t' := Plug(up, f);
  }

  /** Lines 155-180: the sibling is black. */
  method BlackSiblingLeft(root: RbRoot, node: Ptr, parent: Ptr, other: Ptr, ghost c: Ctx, ghost t: Tree, ghost k: nat)
    returns (done: bool, node': Ptr, parent': Ptr, ghost c': Ctx, ghost t': Tree, ghost k': nat)
    requires Held(c, t, root.mem, root.top, root.rest) && Short(c, t, k) && !IsRed(t)
    requires c.Arm? && c.side == L && c.n == parent && RootOf(t) == node
    requires c.sib.Bin? && c.sib.n == other && !c.sib.red
    modifies root`mem, root`top
    ensures root.mem.Keys == old(root.mem.Keys)
    ensures Held(c', t', root.mem, root.top, root.rest) && Inorder(Plug(c', t')) == Inorder(Plug(c, t))
    ensures done ==> c'.Top? && RedBlack(t') && node' == root.top
    ensures !done ==>
      Short(c', t', k') && node' == RootOf(t') && parent' == ParentOf(c') && c' == c.up && (IsRed(t') <==> c.red)
  {
    ghost var up, pr, i, o := c.up, c.red, c.sib.l, c.sib.r;
    assert RepCtx(c, node, root.mem, root.top) && Rep(c.sib, parent, root.mem);
    assert Rep(i, other, root.mem) && Rep(o, other, root.mem);
    if (root.mem[other].left == NULL || !root.mem[root.mem[other].left].red)
       && (root.mem[other].right == NULL || !root.mem[root.mem[other].right].red)
    {
      BlackNephewsShort(up, L, parent, pr, i, other, o, t, k);
      RecolorSiblingInorder(up, L, parent, pr, i, other, false, o, t, true);
      StateDown(up, L, t, parent, pr, c.sib, root.mem, root.top);
      RecolorParent(up, R, R, o, other, false, i, parent, pr, t, true, root.mem, root.top);
      root.mem := root.mem[other := root.mem[other].(red := true)];
      c', t', k' := up, Bin(t, parent, pr, Bin(i, other, true, o)), if pr then k else k + 1;
      done, node', parent' := false, parent, root.mem[parent].parent;
    } else {
      t' := RedNephewLeft(root, parent, other, up, pr, t, i, o, k);
      c', k', parent' := Top, k, parent;
      done, node' := true, root.top;
    }
  }

  /** One iteration of the loop when the node in focus is a left child, lines 147-180. */
  method EraseStepLeft(root: RbRoot, node: Ptr, parent: Ptr, ghost c: Ctx, ghost t: Tree, ghost k: nat)
    returns (done: bool, node': Ptr, parent': Ptr, ghost c': Ctx, ghost t': Tree, ghost k': nat)
    requires Held(c, t, root.mem, root.top, root.rest) && Short(c, t, k) && !IsRed(t)
    requires c.Arm? && c.side == L && c.n == parent && RootOf(t) == node
    modifies root`mem, root`top
    ensures root.mem.Keys == old(root.mem.Keys)
    ensures Held(c', t', root.mem, root.top, root.rest) && Inorder(Plug(c', t')) == Inorder(Plug(c, t))
    ensures done ==> c'.Top? && RedBlack(t') && node' == root.top
    ensures !done ==> Short(c', t', k') && node' == RootOf(t') && parent' == ParentOf(c')
    ensures !done ==> Depth(c') < Depth(c) || (Depth(c') == Depth(c) && IsRed(t'))
  {
    ghost var c1 := c;
    ShortSibling(c, t, k);
    assert RepCtx(c, node, root.mem, root.top) && Rep(c.sib, parent, root.mem);
    var other := root.mem[parent].right;
    if root.mem[other].red {
      ghost var i, o := c.sib.l, c.sib.r;
      RedSiblingShort(c.up, L, parent, i, other, o, t, k);
      RedSiblingInorder(c.up, L, parent, false, i, other, o, t, true, true, false, o);
      ghost var on := other;
      other := RedSiblingLeft(root, parent, other, c.up, t, i, o, k);
      c1 := Arm(Arm(c.up, L, on, false, o), L, parent, true, i);
      ShortSibling(c1, t, k);
    }
    done, node', parent', c', t', k' := BlackSiblingLeft(root, node, parent, other, c1, t, k);
  }

  /** Lines 185-191. */
  method RedSiblingRight(root: RbRoot, parent: Ptr, other: Ptr, ghost up: Ctx, ghost t: Tree, ghost i: Tree,
                         ghost o: Tree, ghost k: nat)
    returns (other': Ptr)
    requires Held(Arm(up, R, parent, false, Bin(o, other, true, i)), t, root.mem, root.top, root.rest)
    requires Short(Arm(up, R, parent, false, Bin(o, other, true, i)), t, k)
    modifies root`mem, root`top
    ensures root.mem.Keys == old(root.mem.Keys) && other' == RootOf(i)
    ensures Held(Arm(Arm(up, R, other, false, o), R, parent, true, i), t, root.mem, root.top, root.rest)
  {
    StateDown(up, R, t, parent, false, Bin(o, other, true, i), root.mem, root.top);
    RecolorParent(up, L, L, o, other, true, i, parent, false, t, false, root.mem, root.top);
    root.mem := root.mem[other := root.mem[other].(red := false)];
    RecolorTop(up, R, t, parent, false, Bin(o, other, false, i), true, root.mem, root.top);
    root.mem := root.mem[parent := root.mem[parent].(red := true)];
    root.RotateRight(parent, up, o, other, false, i, true, t);
    StateDown(up, R, Bin(i, parent, true, t), other, false, o, root.mem, root.top);
    StateDown(Arm(up, R, other, false, o), R, t, parent, true, i, root.mem, root.top);
    other' := root.mem[parent].left;
  }

  /** Lines 203-208: the red inner nephew replaces the sibling. */
  method InnerNephewRight(root: RbRoot, parent: Ptr, other: Ptr, ghost up: Ctx, ghost pr: bool, ghost t: Tree,
                         ghost x: Tree, ghost n: Ptr, ghost y: Tree, ghost o: Tree)
    returns (other': Ptr)
    requires Held(Arm(up, R, parent, pr, Bin(o, other, false, Bin(y, n, true, x))), t, root.mem, root.top, root.rest)
    modifies root`mem, root`top
    ensures root.mem.Keys == old(root.mem.Keys) && other' == n
    ensures Held(Arm(up, R, parent, pr, Bin(Bin(o, other, true, y), n, false, x)), t, root.mem, root.top, root.rest)
  {
    ghost var c := Arm(up, L, parent, pr, t);
    StateDown(up, R, t, parent, pr, Bin(o, other, false, Bin(y, n, true, x)), root.mem, root.top);
    StateDown(up, L, Bin(o, other, false, Bin(y, n, true, x)), parent, pr, t, root.mem, root.top);
    RecolorParent(c, R, R, x, n, true, y, other, false, o, false, root.mem, root.top);
    var oRight := root.mem[other].right;
    if oRight != NULL {
      root.mem := root.mem[oRight := root.mem[oRight].(red := false)];
    }
    RecolorTop(c, R, Bin(y, n, false, x), other, false, o, true, root.mem, root.top);
    root.mem := root.mem[other := root.mem[other].(red := true)];
    root.RotateLeft(other, c, o, true, y, n, false, x);
    StateDown(up, L, Bin(Bin(o, other, true, y), n, false, x), parent, pr, t, root.mem, root.top);
    StateDown(up, R, t, parent, pr, Bin(Bin(o, other, true, y), n, false, x), root.mem, root.top);
    other' := root.mem[parent].left;
  }

  /** Lines 210-214. */
  method OuterNephewRight(root: RbRoot, parent: Ptr, other: Ptr, ghost up: Ctx, ghost pr: bool, ghost t: Tree,
                          ghost i: Tree, ghost o: Tree)
    requires Held(Arm(up, R, parent, pr, Bin(o, other, false, i)), t, root.mem, root.top, root.rest) && o.Bin?
    modifies root`mem, root`top
    ensures root.mem.Keys == old(root.mem.Keys)
    ensures Held(up, Bin(Black(o), other, pr, Bin(i, parent, false, t)), root.mem, root.top, root.rest)
  {
    StateDown(up, R, t, parent, pr, Bin(o, other, false, i), root.mem, root.top);
    RecolorParent(up, L, L, o, other, false, i, parent, pr, t, pr, root.mem, root.top);
    root.mem := root.mem[other := root.mem[other].(red := root.mem[parent].red)];
    RecolorTop(up, R, t, parent, pr, Bin(o, other, pr, i), false, root.mem, root.top);
    root.mem := root.mem[parent := root.mem[parent].(red := false)];
    ghost var c := Arm(up, L, parent, false, t);
    StateDown(up, L, Bin(o, other, pr, i), parent, false, t, root.mem, root.top);
    RecolorUncle(c, R, i, other, pr, o, root.mem, root.top);
    assert Rep(Bin(o, other, pr, i), parent, root.mem) && Rep(o, other, root.mem);
    if root.mem[other].left != NULL {
      root.mem := root.mem[root.mem[other].left := root.mem[root.mem[other].left].(red := false)];
    }
    StateDown(up, L, Bin(Black(o), other, pr, i), parent, false, t, root.mem, root.top);
    root.RotateRight(parent, up, Black(o), other, pr, i, false, t);
  }

  /** Lines 199-217: the sibling is black and has a red child. */
  method RedNephewRight(root: RbRoot, parent: Ptr, other0: Ptr, ghost up: Ctx, ghost pr: bool, ghost t: Tree,
                        ghost i0: Tree, ghost o0: Tree, ghost k: nat)
    returns (ghost t': Tree)
    requires Held(Arm(up, R, parent, pr, Bin(o0, other0, false, i0)), t, root.mem, root.top, root.rest)
    requires Short(Arm(up, R, parent, pr, Bin(o0, other0, false, i0)), t, k) && !IsRed(t) && (IsRed(i0) || IsRed(o0))
    modifies root`mem, root`top
    ensures root.mem.Keys == old(root.mem.Keys)
    ensures Held(Top, t', root.mem, root.top, root.rest) && RedBlack(t')
    ensures Inorder(t') == Inorder(Plug(Arm(up, R, parent, pr, Bin(o0, other0, false, i0)), t))
  {
    ghost var i, o := i0, o0;
    var other := other0;
    assert Rep(Bin(o, other, false, i), parent, root.mem);
    assert Rep(o, other, root.mem);
    if root.mem[other].left == NULL || !root.mem[root.mem[other].left].red {
      InnerNephewShort(up, R, parent, pr, i.r, i.n, i.l, other, o, t, k);
      InnerNephewInorder(up, R, parent, pr, i.r, i.n, i.l, other, o, t);
      other := InnerNephewRight(root, parent, other, up, pr, t, i.r, i.n, i.l, o);
      i, o := i.r, Bin(o, other0, true, i.l);
    }
    OuterNephewDone(up, R, parent, pr, i, other, o, t, k);
    RedSiblingInorder(up, R, parent, pr, i, other, o, t, false, false, pr, Black(o));
    OuterNephewRight(root, parent, other, up, pr, t, i, o);
    ghost var f := Bin(Black(o), other, pr, Bin(i, parent, false, t));
    StatePlug(up, f, root.mem, root.top);
    t' := Plug(up, f);
  }

  /** Lines 192-217: the sibling is black. */
  method BlackSiblingRight(root: RbRoot, node: Ptr, parent: Ptr, other: Ptr, ghost c: Ctx, ghost t: Tree, ghost k: nat)
    returns (done: bool, node': Ptr, parent': Ptr, ghost c': Ctx, ghost t': Tree, ghost k': nat)
    requires Held(c, t, root.mem, root.top, root.rest) && Short(c, t, k) && !IsRed(t)
    requires c.Arm? && c.side == R && c.n == parent && RootOf(t) == node
    requires c.sib.Bin? && c.sib.n == other && !c.sib.red
    modifies root`mem, root`top
    ensures root.mem.Keys == old(root.mem.Keys)
    ensures Held(c', t', root.mem, root.top, root.rest) && Inorder(Plug(c', t')) == Inorder(Plug(c, t))
    ensures done ==> c'.Top? && RedBlack(t') && node' == root.top
    ensures !done ==>
      Short(c', t', k') && node' == RootOf(t') && parent' == ParentOf(c') && c' == c.up && (IsRed(t') <==> c.red)
  {
    ghost var up, pr, i, o := c.up, c.red, c.sib.r, c.sib.l;
    assert RepCtx(c, node, root.mem, root.top) && Rep(c.sib, parent, root.mem);
    assert Rep(i, other, root.mem) && Rep(o, other, root.mem);
    if (root.mem[other].right == NULL || !root.mem[root.mem[other].right].red)
       && (root.mem[other].left == NULL || !root.mem[root.mem[other].left].red)
    {
      BlackNephewsShort(up, R, parent, pr, i, other, o, t, k);
      RecolorSiblingInorder(up, R, parent, pr, i, other, false, o, t, true);
      StateDown(up, R, t, parent, pr, c.sib, root.mem, root.top);
      RecolorParent(up, L, L, o, other, false, i, parent, pr, t, true, root.mem, root.top);
      root.mem := root.mem[other := root.mem[other].(red := true)];
      c', t', k' := up, Bin(Bin(o, other, true, i), parent, pr, t), if pr then k else k + 1;
      done, node', parent' := false, parent, root.mem[parent].parent;
    } else {
      t' := RedNephewRight(root, parent, other, up, pr, t, i, o, k);
      c', k', parent' := Top, k, parent;
      done, node' := true, root.top;
    }
  }

  /** One iteration of the loop when the node in focus is a right child, lines 184-217. */
  method EraseStepRight(root: RbRoot, node: Ptr, parent: Ptr, ghost c: Ctx, ghost t: Tree, ghost k: nat)
    returns (done: bool, node': Ptr, parent': Ptr, ghost c': Ctx, ghost t': Tree, ghost k': nat)
    requires Held(c, t, root.mem, root.top, root.rest) && Short(c, t, k) && !IsRed(t)
    requires c.Arm? && c.side == R && c.n == parent && RootOf(t) == node
    modifies root`mem, root`top
    ensures root.mem.Keys == old(root.mem.Keys)
    ensures Held(c', t', root.mem, root.top, root.rest) && Inorder(Plug(c', t')) == Inorder(Plug(c, t))
    ensures done ==> c'.Top? && RedBlack(t') && node' == root.top
    ensures !done ==> Short(c', t', k') && node' == RootOf(t') && parent' == ParentOf(c')
    ensures !done ==> Depth(c') < Depth(c) || (Depth(c') == Depth(c) && IsRed(t'))
  {
    ghost var c1 := c;
    ShortSibling(c, t, k);
    assert RepCtx(c, node, root.mem, root.top) && Rep(c.sib, parent, root.mem);
    var other := root.mem[parent].left;
    if root.mem[other].red {
      ghost var i, o := c.sib.r, c.sib.l;
      RedSiblingShort(c.up, R, parent, i, other, o, t, k);
      RedSiblingInorder(c.up, R, parent, false, i, other, o, t, true, true, false, o);
      ghost var on := other;
      other := RedSiblingRight(root, parent, other, c.up, t, i, o, k);
      c1 := Arm(Arm(c.up, R, on, false, o), R, parent, true, i);
      ShortSibling(c1, t, k);
    }
    done, node', parent', c', t', k' := BlackSiblingRight(root, node, parent, other, c1, t, k);
  }
}
