/** Colour rules of a red-black tree, for whole trees and for trees with a hole. */
module RbBalance {
  import opened RbShape

  ghost predicate IsRed(t: Tree) {
    t.Bin? && t.red
  }

  /** `t` has no red node with a red child, and `k` black nodes on every path to a leaf. */
  ghost predicate Bal(t: Tree, k: nat) {
    match t
    case Leaf => k == 0
    case Bin(l, n, red, r) =>
      if red then !IsRed(l) && !IsRed(r) && Bal(l, k) && Bal(r, k)
      else k > 0 && Bal(l, k - 1) && Bal(r, k - 1)
  }

  ghost predicate RedBlack(t: Tree) {
    !IsRed(t) && exists k: nat :: Bal(t, k)
  }

  /** Filling the hole with a tree of `k` blacks per path meets the colour rules of the context. */
  ghost predicate CBal(c: Ctx, k: nat)
    decreases c
  {
    match c
    case Top => true
    case Arm(up, side, n, red, sib) =>
      && Bal(sib, k)
      && if red then !IsRed(sib) && up.Arm? && !up.red && CBal(up, k) else CBal(up, k + 1)
  }

  /** The parent of the hole is a red node, or there is no parent: the hole wants a black root. */
  ghost predicate WantsBlack(c: Ctx) {
    c.Top? || c.red
  }

  lemma {:induction false} PlugBalanced(c: Ctx, t: Tree, k: nat)
    requires Bal(t, k) && CBal(c, k) && (WantsBlack(c) ==> !IsRed(t))
    ensures RedBlack(Plug(c, t))
    decreases c
  {
    match c
    case Top =>
    case Arm(up, side, n, red, sib) =>
      PlugBalanced(up, Join(side, t, n, red, sib), if red then k else k + 1);
  }

  lemma {:induction false} UnplugBalanced(c: Ctx, t: Tree) returns (k: nat)
    requires RedBlack(Plug(c, t))
    ensures Bal(t, k) && CBal(c, k) && (WantsBlack(c) ==> !IsRed(t))
    decreases c
  {
    match c
    case Top => k :| Bal(t, k);
    case Arm(up, side, n, red, sib) =>
      var j := UnplugBalanced(up, Join(side, t, n, red, sib));
      k := if red then j else j - 1;
  }

}
