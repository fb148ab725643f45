/** What the fix-up of RB_REMOVE_COLOR does to the picture. The tree in the hole is one black node short. */
module RbRemoval {
  import opened Elements
  import opened RbColour
  import opened RbOrder
  import opened TreeShape

  /** t, whose root may be red, has black height h where the context expects h + 1. */
  ghost predicate RemoveColours(c: Ctx, t: Tree, h: nat) {
    && (t.Bin? ==> NoRedRed(t.l) && NoRedRed(t.r))
    && Balanced(t, h) && CtxNoRedRed(c) && CtxBalanced(c, h + 1) && RootBlack(c)
  }

  /** The same place seen from the sibling. */
  ghost function Flip(c: Ctx, t: Tree): Ctx
    requires !c.Top?
  {
    In(c.up, !c.left, c.n, c.red, t)
  }

  ghost function Near(c: Ctx): Tree
    requires !c.Top? && c.sib.Bin?
  {
    Kid(c.left, c.sib)
  }

  ghost function Far(c: Ctx): Tree
    requires !c.Top? && c.sib.Bin?
  {
    Kid(!c.left, c.sib)
  }

  lemma SiblingExists(c: Ctx, t: Tree, h: nat)
    requires RemoveColours(c, t, h) && !c.Top?
    ensures c.sib.Bin?
  {
  }

  /** The colours of the nephews, as their fields show them. */
  lemma Nephews(c: Ctx, t: Tree)
    requires Sep(Plug(c, t)) && !c.Top? && c.sib.Bin?
    ensures Near(c).Bin? ==> Near(c).n in Nodes(Plug(c, t)) && CellOf(Plug(c, t), null, Near(c).n).red == Near(c).red
    ensures Far(c).Bin? ==> Far(c).n in Nodes(Plug(c, t)) && CellOf(Plug(c, t), null, Far(c).n).red == Far(c).red
  {
    var f := Flip(c, t);
    assert Plug(f, c.sib) == Plug(c, t);
    Around(Down(f, c.sib, true), c.sib.l);
    Around(Down(f, c.sib, false), c.sib.r);
  }

  // ----- the sibling is red: it is turned above the parent

  ghost function SiblingUp(c: Ctx): Ctx
    requires !c.Top? && c.sib.Bin?
  {
    In(In(c.up, c.left, c.sib.n, false, Far(c)), c.left, c.n, true, Near(c))
  }

  lemma SiblingRedColours(c: Ctx, t: Tree, h: nat)
    requires RemoveColours(c, t, h) && !c.Top? && IsRed(c.sib)
    ensures RemoveColours(SiblingUp(c), t, h) && !c.red && Near(c).Bin? && !Near(c).red
  {
    assert CtxNoRedRed(c.up) && CtxBalanced(c.up, h + 2);
    assert Balanced(Near(c), h + 1) && Balanced(Far(c), h + 1);
    assert NoRedRed(Near(c)) && NoRedRed(Far(c));
    var u := In(c.up, c.left, c.sib.n, false, Far(c));
    assert CtxNoRedRed(u) && CtxBalanced(u, h + 1) && RootBlack(u);
  }

  // ----- the sibling and its children are black: it turns red

  ghost function SiblingRedden(c: Ctx, t: Tree): Tree
    requires !c.Top? && c.sib.Bin?
  {
    Mk(c.left, t, c.n, c.red, Bin(c.sib.l, c.sib.n, true, c.sib.r))
  }

  lemma SiblingBlackColours(c: Ctx, t: Tree, h: nat)
    requires RemoveColours(c, t, h) && !IsRed(t) && !c.Top? && c.sib.Bin? && !c.sib.red
    requires !IsRed(Near(c)) && !IsRed(Far(c))
    ensures RemoveColours(c.up, SiblingRedden(c, t), if c.red then h else h + 1)
  {
  }

  // ----- only the near nephew is red: it is turned above the sibling

  ghost function NearUp(c: Ctx): Ctx
    requires !c.Top? && c.sib.Bin? && Near(c).Bin?
  {
    c.(sib := Mk(c.left, Kid(c.left, Near(c)), Near(c).n, false,
                 Mk(c.left, Kid(!c.left, Near(c)), c.sib.n, true, Far(c))))
  }

  lemma NearRedColours(c: Ctx, t: Tree, h: nat)
    requires RemoveColours(c, t, h) && !c.Top? && c.sib.Bin? && !c.sib.red && IsRed(Near(c)) && !IsRed(Far(c))
    ensures RemoveColours(NearUp(c), t, h) && NearUp(c).sib.Bin? && !NearUp(c).sib.red && IsRed(Far(NearUp(c)))
  {
    assert NoRedRed(Near(c)) && NoRedRed(Far(c)) && Balanced(Near(c), h) && Balanced(Far(c), h);
    var b := Mk(c.left, Kid(!c.left, Near(c)), c.sib.n, true, Far(c));
    assert NoRedRed(b) && Balanced(b, h);
    assert NoRedRed(NearUp(c).sib) && Balanced(NearUp(c).sib, h + 1);
  }

  // ----- the far nephew is red: the parent is turned under the sibling, and the blackness is made up

  ghost function FarUp(c: Ctx, t: Tree): Tree
    requires !c.Top? && c.sib.Bin?
  {
    Mk(c.left, Mk(c.left, t, c.n, false, Near(c)), c.sib.n, c.red, Blacken(Far(c)))
  }

  lemma FarRedColours(c: Ctx, t: Tree, h: nat)
    requires RemoveColours(c, t, h) && !IsRed(t) && !c.Top? && c.sib.Bin? && !c.sib.red && IsRed(Far(c))
    ensures RedBlack(Plug(c.up, FarUp(c, t)))
  {
    assert NoRedRed(Near(c)) && NoRedRed(Far(c)) && Balanced(Near(c), h) && Balanced(Far(c), h);
    var p := Mk(c.left, t, c.n, false, Near(c));
    assert NoRedRed(p) && Balanced(p, h + 1);
    assert NoRedRed(Blacken(Far(c))) && Balanced(Blacken(Far(c)), h + 1);
    PlugRedBlack(c.up, FarUp(c, t), if c.red then h + 1 else h + 2);
  }

  // ----- where the removed node is, and what is left of the colours without it

  lemma {:induction false} PathTo(c: Ctx, t: Tree, h: nat, x: Node) returns (c': Ctx, t': Tree, h': nat)
    requires Intact(c, t, h) && x in Nodes(t)
    ensures Plug(c', t') == Plug(c, t) && t'.Bin? && t'.n == x && Intact(c', t', h')
    decreases t
  {
    if x == t.n {
      return c, t, h;
    }
    var left := x in Nodes(t.l);
    StepDown(c, t, h, left);
    c', t', h' := PathTo(Down(c, t, left), Kid(left, t), if t.red then h else h - 1, x);
  }

  /** Without its root, which had the one child ch or none, t leaves either a good tree or one short of blackness. */
  lemma LiftColours(c: Ctx, t: Tree, h: nat, ch: Tree)
    requires Intact(c, t, h) && t.Bin? && ((t.l.Leaf? && ch == t.r) || (t.r.Leaf? && ch == t.l))
    ensures t.red ==> RedBlack(Plug(c, ch))
    ensures !t.red ==> h > 0 && RemoveColours(c, ch, h - 1)
  {
    assert NoRedRed(ch);
    if t.red {
      PlugRedBlack(c, ch, h);
    }
  }

  /** The frames of rc below those of base. */
  ghost function Append(rc: Ctx, base: Ctx): Ctx {
    if rc.Top? then base else rc.(up := Append(rc.up, base))
  }

  lemma {:induction false} PlugAppend(rc: Ctx, base: Ctx, t: Tree)
    ensures Plug(Append(rc, base), t) == Plug(base, Plug(rc, t))
  {
    if !rc.Top? {
      PlugAppend(rc.up, base, Mk(rc.left, t, rc.n, rc.red, rc.sib));
    }
  }

  lemma {:induction false} BaseIn(rc: Ctx, base: Ctx)
    requires !base.Top?
    ensures base.n in CtxNodes(Append(rc, base))
  {
    if !rc.Top? {
      BaseIn(rc.up, base);
    }
  }

  /** Moving to the base changes the parent of the hole only if the path to it is empty. */
  lemma BaseParent(rc: Ctx, base: Ctx, t: Tree, y: Node)
    requires !base.Top? && Sep(Plug(Append(rc, base), t))
    ensures Par(Append(rc, base.(n := y))) == if Par(Append(rc, base)) == base.n then y else Par(Append(rc, base))
  {
    PlugSep(Append(rc, base), t);
    if !rc.Top? {
      BaseIn(rc.up, base);
    }
  }

  /** Colours do not look at which node stands at the base. */
  lemma {:induction false} RenameBase(rc: Ctx, base: Ctx, y: Node, h: nat)
    requires !base.Top?
    ensures var d, d' := Append(rc, base), Append(rc, base.(n := y));
      && (CtxNoRedRed(d) <==> CtxNoRedRed(d')) && (CtxBalanced(d, h) <==> CtxBalanced(d', h))
      && (RootBlack(d) <==> RootBlack(d')) && (ParBlack(d) <==> ParBlack(d')) && !d.Top? && !d'.Top?
  {
    if !rc.Top? {
      RenameBase(rc.up, base, y, if rc.red then h else h + 1);
    }
  }

  /** LiftColours, for a node that moves to the base of the path to it. */
  lemma MoveColours(rc: Ctx, base: Ctx, t: Tree, h: nat)
    requires !base.Top? && Intact(Append(rc, base), t, h) && t.Bin? && t.l.Leaf?
    ensures t.red ==> RedBlack(Plug(Append(rc, base.(n := t.n)), t.r))
    ensures !t.red ==> h > 0 && RemoveColours(Append(rc, base.(n := t.n)), t.r, h - 1)
  {
    RenameBase(rc, base, t.n, h);
    assert Intact(Append(rc, base.(n := t.n)), t, h);
    LiftColours(Append(rc, base.(n := t.n)), t, h, t.r);
  }

  ghost predicate LeftSpine(rc: Ctx) {
    rc.Top? || (rc.left && LeftSpine(rc.up))
  }

  lemma {:induction false} SpineInorder(rc: Ctx, t: Tree)
    requires LeftSpine(rc)
    ensures Inorder(Plug(rc, t)) == Inorder(t) + After(rc)
  {
    PlugInorder(rc, t);
    SpineBefore(rc);
  }

  lemma {:induction false} SpineBefore(rc: Ctx)
    requires LeftSpine(rc)
    ensures Before(rc) == []
  {
    if !rc.Top? {
      SpineBefore(rc.up);
    }
  }

  lemma EmptyLeft<T>(b: seq<T>, x: seq<T>, a: seq<T>)
    ensures (b + []) + (x + a) == b + x + a
  {
  }

  lemma AssocThree<T>(a: seq<T>, y: seq<T>, r: seq<T>, z: seq<T>)
    ensures a + ((y + r) + z) == a + y + (r + z)
  {
  }

  lemma EmptyRight<T>(b: seq<T>, x: seq<T>, a: seq<T>)
    ensures (b + x) + ([] + a) == b + x + a
  {
  }

  /** The in-order sequence loses exactly the root of t. */
  lemma LiftInorder(c: Ctx, t: Tree, ch: Tree)
    requires t.Bin? && ((t.l.Leaf? && ch == t.r) || (t.r.Leaf? && ch == t.l))
    requires Sorted(Inorder(Plug(c, t)))
    ensures Without(Inorder(Plug(c, t)), t.n, Inorder(Plug(c, ch)))
  {
    PlugInorder(c, t);
    PlugInorder(c, ch);
    var a, b := Before(c) + Inorder(t.l), Inorder(t.r) + After(c);
    AssocTwo(Before(c), Inorder(t.l), [t.n], Inorder(t.r), After(c));
    if t.l.Leaf? {
      EmptyLeft(Before(c), Inorder(t.r), After(c));
    } else {
      EmptyRight(Before(c), Inorder(t.l), After(c));
    }
    TakeOut(a, t.n, b);
  }

  lemma AssocCons<T>(y: seq<T>, x: seq<T>, a: seq<T>)
    ensures [] + y + x + a == y + (x + a)
  {
  }

  lemma SuccessorFirst(t: Tree, rc: Ctx, y: Node, yred: bool, ch: Tree)
    requires LeftSpine(rc) && t == Plug(rc, Bin(Leaf, y, yred, ch))
    ensures Inorder(t) == [y] + Inorder(Plug(rc, ch))
  {
    SpineInorder(rc, Bin(Leaf, y, yred, ch));
    SpineInorder(rc, ch);
    AssocCons([y], Inorder(ch), After(rc));
  }

  /** The successor y = min of t.r moves from below old = t.n into its place. */
  lemma SuccessorInorder(c: Ctx, t: Tree, rc: Ctx, y: Node, yred: bool, ch: Tree)
    requires t.Bin? && LeftSpine(rc) && t.r == Plug(rc, Bin(Leaf, y, yred, ch))
    requires Sorted(Inorder(Plug(c, t)))
    ensures Without(Inorder(Plug(c, t)), t.n, Inorder(Plug(c, Bin(t.l, y, t.red, Plug(rc, ch)))))
  {
    var a, r := Before(c) + Inorder(t.l), Inorder(Plug(rc, ch));
    SuccessorFirst(t.r, rc, y, yred, ch);
    Neighbours(c, t);
    Neighbours(c, Bin(t.l, y, t.red, Plug(rc, ch)));
    AssocThree(a, [y], r, After(c));
    TakeOut(a, t.n, ([y] + r) + After(c));
  }
}
