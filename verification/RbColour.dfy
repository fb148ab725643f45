/** The red-black conditions, on trees and on contexts, and what each fix-up step does to them. */
module RbColour {
  import opened Elements
  import opened TreeShape

  predicate IsRed(t: Tree) {
    t.Bin? && t.red
  }

  function Blacken(t: Tree): Tree {
    if t.Leaf? then Leaf else Bin(t.l, t.n, false, t.r)
  }

  /** No red node has a red child. */
  ghost predicate NoRedRed(t: Tree) {
    t.Bin? ==> NoRedRed(t.l) && NoRedRed(t.r) && (t.red ==> !IsRed(t.l) && !IsRed(t.r))
  }

  /** Every path from the root of t to a leaf has h black nodes. */
  ghost predicate Balanced(t: Tree, h: nat) {
    if t.Leaf? then h == 0
    else if t.red then Balanced(t.l, h) && Balanced(t.r, h)
    else h > 0 && Balanced(t.l, h - 1) && Balanced(t.r, h - 1)
  }

  ghost function BlackHeight(t: Tree): nat {
    if t.Leaf? then 0 else BlackHeight(t.l) + if t.red then 0 else 1
  }

  lemma {:induction false} BalancedHeight(t: Tree, h: nat)
    requires Balanced(t, h)
    ensures h == BlackHeight(t)
  {
    if t.Bin? {
      BalancedHeight(t.l, if t.red then h else h - 1);
    }
  }

  ghost predicate RedBlack(t: Tree) {
    NoRedRed(t) && Balanced(t, BlackHeight(t)) && !IsRed(t)
  }

  // ----- the same conditions around a hole

  predicate ParBlack(c: Ctx) {
    c.Top? || !c.red
  }

  ghost predicate CtxNoRedRed(c: Ctx) {
    c.Top? || (CtxNoRedRed(c.up) && NoRedRed(c.sib) && (c.red ==> !IsRed(c.sib) && ParBlack(c.up)))
  }

  /** The context is balanced once the hole is filled with a tree of black height h. */
  ghost predicate CtxBalanced(c: Ctx, h: nat) {
    c.Top? || (Balanced(c.sib, h) && CtxBalanced(c.up, if c.red then h else h + 1))
  }

  ghost predicate RootBlack(c: Ctx) {
    c.Top? || (if c.up.Top? then !c.red else RootBlack(c.up))
  }

  lemma {:induction false} PlugRedBlack(c: Ctx, t: Tree, h: nat)
    requires NoRedRed(t) && CtxNoRedRed(c) && (IsRed(t) ==> !c.Top? && !c.red)
    requires Balanced(t, h) && CtxBalanced(c, h) && RootBlack(c)
    ensures RedBlack(Plug(c, t))
  {
    if c.Top? {
      BalancedHeight(t, h);
    } else {
      PlugRedBlack(c.up, Mk(c.left, t, c.n, c.red, c.sib), if c.red then h else h + 1);
    }
  }

  /** A place inside an intact tree. */
  ghost predicate Intact(c: Ctx, t: Tree, h: nat) {
    && NoRedRed(t) && CtxNoRedRed(c) && (IsRed(t) ==> !c.Top? && !c.red)
    && Balanced(t, h) && CtxBalanced(c, h) && RootBlack(c)
  }

  /** One step down, to the left or to the right. */
  ghost function Down(c: Ctx, t: Tree, left: bool): Ctx
    requires t.Bin?
  {
    In(c, left, t.n, t.red, Kid(!left, t))
  }

  lemma StepDown(c: Ctx, t: Tree, h: nat, left: bool)
    requires Intact(c, t, h) && t.Bin?
    ensures t.red || h > 0
    ensures Intact(Down(c, t, left), Kid(left, t), if t.red then h else h - 1)
    ensures Plug(Down(c, t, left), Kid(left, t)) == Plug(c, t)
  {
  }

  // ----- insertion

  /** The state of RB_INSERT_COLOR: t is red, and nothing is wrong but that its parent may be red too. */
  ghost predicate InsertColours(c: Ctx, t: Tree, h: nat) {
    IsRed(t) && NoRedRed(t) && Balanced(t, h) && CtxNoRedRed(c) && CtxBalanced(c, h) && RootBlack(c)
  }

  lemma GrandParentBlack(c: Ctx, t: Tree, h: nat)
    requires InsertColours(c, t, h) && !c.Top? && c.red
    ensures !c.up.Top? && !c.up.red
  {
    assert RootBlack(c.up);
  }

  /** The uncle is red: parent and uncle turn black, the grandparent red. */
  ghost function UncleRed(c: Ctx, t: Tree): Tree
    requires !c.Top? && !c.up.Top? && c.up.sib.Bin?
  {
    Mk(c.up.left, Mk(c.left, t, c.n, false, c.sib), c.up.n, true, Blacken(c.up.sib))
  }

  lemma UncleRedColours(c: Ctx, t: Tree, h: nat)
    requires InsertColours(c, t, h) && !c.Top? && c.red && !c.up.Top? && IsRed(c.up.sib)
    ensures InsertColours(c.up.up, UncleRed(c, t), h + 1)
  {
    assert CtxNoRedRed(c.up) && CtxBalanced(c.up, h) && Balanced(c.up.sib, h) && RootBlack(c.up);
    var p := Mk(c.left, t, c.n, false, c.sib);
    assert NoRedRed(p) && Balanced(p, h + 1);
    var u := Blacken(c.up.sib);
    assert NoRedRed(u) && Balanced(u, h + 1);
  }

  /** Where the parent c.n is after the root of t has been turned up above it, and what hangs from it. */
  ghost function UpCtx(c: Ctx, t: Tree): Ctx
    requires !c.Top? && t.Bin?
  {
    In(c.up, !c.left, t.n, t.red, Kid(c.left, t))
  }

  ghost function UpTree(c: Ctx, t: Tree): Tree
    requires !c.Top? && t.Bin?
  {
    Mk(!c.left, c.sib, c.n, c.red, Kid(!c.left, t))
  }

  lemma UpTurns(c: Ctx, t: Tree)
    requires Apart(c, t) && !c.Top? && t.Bin?
    ensures Apart(UpCtx(c, t), UpTree(c, t))
    ensures Inorder(Plug(UpCtx(c, t), UpTree(c, t))) == Inorder(Plug(c, t))
    ensures !c.left ==> TurnsLeft(Plug(c, t), Plug(UpCtx(c, t), UpTree(c, t)), c.n, t.n, RootOf(t.l), Par(c.up))
    ensures c.left ==> TurnsLeft(Plug(UpCtx(c, t), UpTree(c, t)), Plug(c, t), t.n, c.n, RootOf(t.r), Par(c.up))
  {
    var p := Mk(c.left, t, c.n, c.red, c.sib);
    PlugSep(c, t);
    PlugSep(c.up, p);
    if c.left {
      RotRTurns(c.up, p);
      Same(c.up, p, RotR(p));
    } else {
      RotLTurns(c.up, p);
      RotKeeps(p);
      Same(c.up, p, RotL(p));
    }
    PlugSep(UpCtx(c, t), UpTree(c, t));
    PlugSep(c.up, Mk(!c.left, UpTree(c, t), t.n, t.red, Kid(c.left, t)));
  }

  lemma Same(c: Ctx, t: Tree, t': Tree)
    requires Inorder(t) == Inorder(t')
    ensures Inorder(Plug(c, t)) == Inorder(Plug(c, t'))
  {
    PlugInorder(c, t);
    PlugInorder(c, t');
  }

  /** t is the inner grandchild: its parent is turned under it, and is the new place of the violation. */
  lemma InnerTurned(c: Ctx, t: Tree, h: nat)
    requires InsertColours(c, t, h) && !c.Top? && c.red && !c.up.Top? && c.left != c.up.left
    ensures InsertColours(UpCtx(c, t), UpTree(c, t), h)
    ensures ParBlack(c.up)
  {
  }

  /** t is the outer grandchild: the grandparent is turned under the parent, which is then black. */
  ghost function OuterCtx(c: Ctx): Ctx
    requires !c.Top? && !c.up.Top?
  {
    In(c.up.up, c.left, c.n, false, Mk(c.left, c.sib, c.up.n, true, c.up.sib))
  }

  lemma OuterTurned(c: Ctx, t: Tree, h: nat)
    requires InsertColours(c, t, h) && !c.Top? && c.red && !c.up.Top? && c.left == c.up.left && !IsRed(c.up.sib)
    ensures InsertColours(OuterCtx(c), t, h) && ParBlack(OuterCtx(c))
  {
    assert CtxNoRedRed(c.up) && CtxBalanced(c.up, h) && Balanced(c.up.sib, h) && RootBlack(c.up);
    var g := Mk(c.left, c.sib, c.up.n, true, c.up.sib);
    assert NoRedRed(g) && Balanced(g, h);
  }

  // ----- painting the nodes around a hole

  lemma PaintParent(c: Ctx, t: Tree, red: bool)
    requires Sep(Plug(c, t)) && !c.Top?
    ensures Paint(Plug(c, t), c.n, red) == Plug(c.(red := red), t)
    ensures Sep(Plug(c.(red := red), t)) && c.n in Nodes(Plug(c, t))
    ensures Inorder(Plug(c.(red := red), t)) == Inorder(Plug(c, t))
  {
    PlugSep(c, t);
    PaintHole(c.up, Mk(c.left, t, c.n, c.red, c.sib), c.n, red);
    PaintKeeps(Plug(c, t), c.n, red);
  }

  lemma PaintSibling(c: Ctx, t: Tree, red: bool)
    requires Sep(Plug(c, t)) && !c.Top? && c.sib.Bin?
    ensures Paint(Plug(c, t), c.sib.n, red) == Plug(c.(sib := c.sib.(red := red)), t)
    ensures Sep(Plug(c.(sib := c.sib.(red := red)), t)) && c.sib.n in Nodes(Plug(c, t))
    ensures Inorder(Plug(c.(sib := c.sib.(red := red)), t)) == Inorder(Plug(c, t))
  {
    PlugSep(c, t);
    assert c.sib.n in Nodes(c.sib);
    PaintHole(c.up, Mk(c.left, t, c.n, c.red, c.sib), c.sib.n, red);
    PaintKeeps(Plug(c, t), c.sib.n, red);
  }

  /** What the fields of the parent of the hole and of the hole's sibling say. */
  lemma Around(c: Ctx, t: Tree)
    requires Sep(Plug(c, t)) && !c.Top?
    ensures c.n in Nodes(Plug(c, t)) && CellOf(Plug(c, t), null, c.n) == FrameCell(c, RootOf(t))
    ensures t.Bin? ==> RootOf(c.sib) != t.n
    ensures c.sib.Bin? ==> c.sib.n in Nodes(Plug(c, t))
    ensures c.sib.Bin? ==> CellOf(Plug(c, t), null, c.sib.n) == Cell(RootOf(c.sib.l), RootOf(c.sib.r), c.n, c.sib.red)
  {
    PlugSep(c, t);
    FrameCellOf(c, t);
    if c.sib.Bin? {
      InnerCell(In(c.up, !c.left, c.n, c.red, t), c.sib, c.sib.n);
    }
  }
}
