/** Linking a new leaf, and in-order traversal: `rb_link_node`, `rb_first`, `rb_next`. */
module RbWalk {
  import opened RbShape
  import opened RbBalance
  import opened RbRotate
  import opened RbInsert
  import opened RbErase

  lemma LinkState(c: Ctx, n: Ptr, m: Mem, m': Mem, top: Ptr, top': Ptr)
    requires State(c, Leaf, m, top) && n != NULL && n !in CNodes(c) && NULL !in m'
    requires n in m' && m'[n] == Cell(ParentOf(c), NULL, NULL, true)
    requires Relinked(c, n, m, m', top, top') && Same(CNodes(c) - (if c.Arm? then {c.n} else {}), m, m')
    ensures State(c, Bin(Leaf, n, true, Leaf), m', top')
    ensures forall rest :: Held(c, Leaf, m, top, rest) && n !in rest && Kept(m, m', CNodes(c) + {n}) ==>
      Held(c, Bin(Leaf, n, true, Leaf), m', top', rest)
  {
    assert Nodes(Leaf) == {};
    RepCtxRelink(c, NULL, n, m, m', top, top');
  }

  /** `rb_link_node` at the left (`left`) or right link of `parent`, or at the root link of an empty tree. */
  method Link(root: RbRoot, node: Ptr, parent: Ptr, left: bool, ghost c: Ctx)
    requires Held(c, Leaf, root.mem, root.top, root.rest) && parent == ParentOf(c)
      && (c.Arm? ==> (left <==> c.side == L))
    requires node != NULL && node !in CNodes(c) && node !in root.rest
    modifies root`mem, root`top
    ensures root.mem.Keys == old(root.mem.Keys) + {node}
    ensures Held(c, Bin(Leaf, node, true, Leaf), root.mem, root.top, root.rest)
  {
    RepCtxIn(c, NULL, root.mem, root.top);
    root.mem := root.mem[node := Cell(parent, NULL, NULL, true)];
    if parent == NULL {
      root.top := node;
    } else if left {
      root.mem := root.mem[parent := root.mem[parent].(left := node)];
    } else {
      root.mem := root.mem[parent := root.mem[parent].(right := node)];
    }
    LinkState(c, node, old(root.mem), root.mem, old(root.top), root.top);
  }

  /**
    A new node linked at any empty place of a valid tree and coloured: valid, with `node` at that place, and no
    other cell changed.
   */
  method Insert(root: RbRoot, node: Ptr, parent: Ptr, left: bool, ghost c: Ctx) returns (ghost t: Tree)
    requires State(c, Leaf, root.mem, root.top) && RedBlack(Plug(c, Leaf))
    requires parent == ParentOf(c) && (c.Arm? ==> (left <==> c.side == L))
    requires node != NULL && node !in CNodes(c)
    modifies root
    ensures root.mem.Keys == old(root.mem.Keys) + {node}
    ensures State(Top, t, root.mem, root.top) && RedBlack(t)
    ensures Inorder(Plug(c, Leaf)) == Before(c) + After(c) && Inorder(t) == Before(c) + [node] + After(c)
    ensures Kept(old(root.mem), root.mem, CNodes(c) + {node})
  {
    root.rest := Others(root.mem, CNodes(c) + {node});
    OthersHeld(c, Leaf, root.mem, root.top, CNodes(c) + {node});
    InorderPlug(c, Leaf);
    assert Before(c) + [] + After(c) == Before(c) + After(c);
    Link(root, node, parent, left, c);
    t := InsertColor(root, node, c);
    HeldKept(old(root.mem), CNodes(c) + {node}, Top, t, root.mem, root.top);
  }

  /** `rb_first`: the first node in order, or null for the empty tree. */
  method First(root: RbRoot, ghost t: Tree) returns (n: Ptr)
    requires State(Top, t, root.mem, root.top)
    ensures n == if Inorder(t) == [] then NULL else Inorder(t)[0]
  {
    n := root.top;
    if n == NULL {
      return;
    }
    ghost var path, f;
    n, path, f := Leftmost(root, n, Top, t);
    InorderPlug(path, f);
    assert Inorder(Leaf) == [];
    assert Inorder(f)[0] == n;
  }

  /** `rb_next`: the node after `node` in order, or null for the last one. */
  method Next(root: RbRoot, node: Ptr, ghost t: Tree) returns (r: Ptr, ghost before: seq<Ptr>, ghost after: seq<Ptr>)
    requires State(Top, t, root.mem, root.top) && node in Nodes(t)
    ensures Inorder(t) == before + [node] + after
    ensures r == if after == [] then NULL else after[0]
  {
    ghost var c, f := FocusIn(Top, t, node);
    StatePlug(c, f, root.mem, root.top);
    InorderPlug(c, f);
    before, after := Before(c) + Inorder(f.l), Inorder(f.r) + After(c);
    assert Inorder(t) == before + [node] + after;
    Neighbours(c, f.l, node, f.red, f.r, root.mem, root.top);
    if root.mem[node].parent == node {
      r := NULL;
      assert false;
      return;
    }
    if root.mem[node].right != NULL {
      ghost var path, g;
      StateDown(c, R, f.r, node, f.red, f.l, root.mem, root.top);
      r, path, g := Leftmost(root, root.mem[node].right, Arm(c, R, node, f.red, f.l), f.r);
      InorderPlug(path, g);
      assert Inorder(Leaf) == [];
      assert Inorder(g)[0] == r && Inorder(f.r)[0] == r;
      return;
    }
    assert Rep(f.r, node, root.mem);
    assert Inorder(f.r) == [];
    var n := node;
    r := root.mem[n].parent;
    while r != NULL && n == root.mem[r].right
      invariant State(c, f, root.mem, root.top) && f.Bin? && f.n == n && r == ParentOf(c)
      invariant After(c) == after
      decreases c
    {
      StateDown(c.up, c.side, f, r, c.red, c.sib, root.mem, root.top);
      assert RepCtx(c, n, root.mem, root.top);
      Neighbours(c, f.l, n, f.red, f.r, root.mem, root.top);
      c, f := c.up, Join(c.side, f, r, c.red, c.sib);
      n := r;
      r := root.mem[n].parent;
    }
    assert RepCtx(c, n, root.mem, root.top);
  }
}
