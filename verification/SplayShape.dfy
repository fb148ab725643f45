/** The ghost picture during a top-down splay: the left and the right spine that have been peeled off, as
    contexts whose hole is still open, and the tree t between them. */
module SplayShape {
  import opened Elements
  import opened TreeShape

  /** The child on the side left turned up to the root. */
  ghost function Turn(left: bool, t: Tree): Tree
    requires t.Bin? && Kid(left, t).Bin?
  {
    if left then RotR(t) else RotL(t)
  }

  /** The same links. */
  ghost predicate Alike(k: Cell, k': Cell) {
    k.left == k'.left && k.right == k'.right
  }

  lemma KidLinks(left: bool, t: Tree, x: Node)
    requires t.Bin? && Sep(t) && x in Nodes(Kid(left, t))
    ensures Alike(CellOf(Kid(left, t), null, x), CellOf(t, null, x))
  {
    assert CellOf(t, null, x) == CellOf(Kid(left, t), t.n, x);
    ParentShift(Kid(left, t), null, t.n, x);
  }

  lemma TurnKeeps(left: bool, t: Tree)
    requires t.Bin? && Kid(left, t).Bin?
    ensures Nodes(Turn(left, t)) == Nodes(t) && Inorder(Turn(left, t)) == Inorder(t)
    ensures Sep(Turn(left, t)) <==> Sep(t)
  {
    RotKeeps(if left then RotR(t) else t);
  }

  /** All links but the two that a rotation writes stay. */
  lemma TurnLinks(left: bool, t: Tree, x: Node)
    requires t.Bin? && Kid(left, t).Bin? && Sep(t) && x in Nodes(t)
    ensures Alike(CellOf(Turn(left, t), null, x), Linked(left, x, CellOf(t, null, x), t.n, Kid(left, t)))
  {
    TurnKeeps(left, t);
    RotLCells(if left then RotR(t) else t, null, x);
    RightCell(if left then RotR(t) else t, null);
  }

  ghost function Linked(left: bool, x: Node, k: Cell, e: Node, s: Tree): Cell
    requires s.Bin?
  {
    if x == e then (if left then k.(left := RootOf(s.r)) else k.(right := RootOf(s.l)))
    else if x == s.n then (if left then k.(right := e) else k.(left := e))
    else k
  }

  /** The spines and the tree between them share no node, and header is none of theirs. */
  ghost predicate Parted(header: Node, lc: Ctx, t: Tree, rc: Ctx) {
    && Apart(lc, t) && Apart(rc, t) && CtxNodes(lc) !! CtxNodes(rc)
    && header !in CtxNodes(lc) && header !in Nodes(t) && header !in CtxNodes(rc)
  }

  lemma TurnParts(left: bool, header: Node, lc: Ctx, t: Tree, rc: Ctx)
    requires Parted(header, lc, t, rc) && t.Bin? && Kid(left, t).Bin?
    ensures Parted(header, lc, Turn(left, t), rc) && Nodes(Turn(left, t)) == Nodes(t)
    ensures var e, s := t.n, Kid(left, t).n;
      {e, s} <= Nodes(t) && {e, s} !! CtxNodes(lc) && {e, s} !! CtxNodes(rc)
  {
    TurnKeeps(left, t);
  }

  /** The spine c after the root of t, with the subtree that stays with it, has been hung from its open end. */
  ghost function Push(left: bool, c: Ctx, t: Tree): Ctx
    requires t.Bin?
  {
    In(c, left, t.n, t.red, Kid(!left, t))
  }

  lemma PushParts(left: bool, c: Ctx, t: Tree)
    requires Apart(c, t) && t.Bin?
    ensures Apart(Push(left, c, t), Kid(left, t))
    ensures CtxNodes(Push(left, c, t)) + Nodes(Kid(left, t)) == CtxNodes(c) + Nodes(t)
  {
  }

  /** The links along the longer spine. */
  lemma PushLinks(left: bool, c: Ctx, t: Tree)
    requires Apart(c, t) && t.Bin?
    ensures RootOf(Plug(Push(left, c, t), Leaf)) == if c.Top? then t.n else RootOf(Plug(c, Leaf))
    ensures var k := CellOf(Plug(Push(left, c, t), Leaf), null, t.n);
      if left then k.right == RootOf(t.r) else k.left == RootOf(t.l)
    ensures forall x | x in Nodes(Kid(!left, t)) ::
      Alike(CellOf(Plug(Push(left, c, t), Leaf), null, x), CellOf(t, null, x))
    ensures forall x | x in CtxNodes(c) && x != Par(c) ::
      CellOf(Plug(Push(left, c, t), Leaf), null, x) == CellOf(Plug(c, Leaf), null, x)
    ensures c.In? ==> CellOf(Plug(Push(left, c, t), Leaf), null, c.n) == FrameCell(c, t.n)
    ensures c.In? ==> CellOf(Plug(c, Leaf), null, c.n) == FrameCell(c, null)
  {
    var b, s := Mk(left, Leaf, t.n, t.red, Kid(!left, t)), Kid(!left, t);
    assert Plug(Push(left, c, t), Leaf) == Plug(c, b);
    assert Nodes(b) == {t.n} + Nodes(s) && Apart(c, b);
    Exchange(c, Leaf, b);
    if c.In? { FrameCellOf(c, Leaf); }
    forall x | x in Nodes(s)
      ensures CellOf(b, Par(c), x) == CellOf(s, t.n, x) == CellOf(t, null, x)
    {
    }
  }

  /** The links of the spine c with x hung from its open end. */
  lemma FillLinks(c: Ctx, x: Tree)
    requires Apart(c, x)
    ensures RootOf(Plug(c, x)) == if c.Top? then RootOf(x) else RootOf(Plug(c, Leaf))
    ensures Sep(Plug(c, x)) && Nodes(Plug(c, x)) == CtxNodes(c) + Nodes(x)
    ensures forall n | n in CtxNodes(c) && n != Par(c) :: CellOf(Plug(c, x), null, n) == CellOf(Plug(c, Leaf), null, n)
    ensures c.In? ==> CellOf(Plug(c, x), null, c.n) == FrameCell(c, RootOf(x))
    ensures c.In? ==> CellOf(Plug(c, Leaf), null, c.n) == FrameCell(c, null)
    ensures forall n | n in Nodes(x) :: Alike(CellOf(Plug(c, x), null, n), CellOf(x, null, n))
  {
    PlugSep(c, x);
    Exchange(c, Leaf, x);
    if c.In? { FrameCellOf(c, Leaf); }
    forall n | n in Nodes(x)
      ensures Alike(CellOf(x, Par(c), n), CellOf(x, null, n))
    {
      ParentShift(x, Par(c), null, n);
    }
  }

  // ----- keys

  /** The whole is sorted and is s, all keys to the left of t are below key, and all to the right above it. */
  ghost predicate Closing(lc: Ctx, t: Tree, rc: Ctx, key: nat, s: seq<Node>) {
    && Sorted(s) && s == Before(lc) + Inorder(t) + After(rc)
    && After(lc) == [] && Before(rc) == []
    && Below(Before(lc), key) && Above(After(rc), key)
  }

  lemma CloseLeft(lc: Ctx, t: Tree, rc: Ctx, key: nat, s: seq<Node>)
    requires Closing(lc, t, rc, key, s) && t.Bin? && key < t.n.nodeid
    ensures Closing(lc, t.l, Push(true, rc, t), key, s)
  {
    AssocTwo(Before(lc), Inorder(t.l), [t.n], Inorder(t.r), After(rc));
    SplitOut(Before(lc) + Inorder(t.l), t.n, Inorder(t.r) + After(rc));
    AssocL(Before(lc), Inorder(t.l), [t.n], Inorder(t.r), After(rc));
  }

  lemma CloseRight(lc: Ctx, t: Tree, rc: Ctx, key: nat, s: seq<Node>)
    requires Closing(lc, t, rc, key, s) && t.Bin? && t.n.nodeid < key
    ensures Closing(Push(false, lc, t), t.r, rc, key, s)
  {
    AssocTwo(Before(lc), Inorder(t.l), [t.n], Inorder(t.r), After(rc));
    SplitOut(Before(lc) + Inorder(t.l), t.n, Inorder(t.r) + After(rc));
    AssocR(Before(lc), Inorder(t.l), [t.n], Inorder(t.r), After(rc));
  }

  lemma CloseTurn(left: bool, lc: Ctx, t: Tree, rc: Ctx, key: nat, s: seq<Node>)
    requires Closing(lc, t, rc, key, s) && t.Bin? && Kid(left, t).Bin?
    requires if left then key < t.l.n.nodeid else t.r.n.nodeid < key
    ensures Closing(lc, Turn(left, t), rc, key, s) && Kid(left, Turn(left, t)) == Kid(left, Kid(left, t))
  {
    TurnKeeps(left, t);
  }

  /** The root divides the keys as well as it can: nothing lies between it and key. */
  ghost predicate Divided(t: Tree, key: nat) {
    && t.Bin?
    && (key <= t.n.nodeid ==> Below(Inorder(t.l), key))
    && (t.n.nodeid <= key ==> Above(Inorder(t.r), key))
  }

  /** What the splay leaves: the root, with each spine filled with the subtree on its side. */
  ghost function Assembled(lc: Ctx, t: Tree, rc: Ctx): Tree
    requires t.Bin?
  {
    Bin(Plug(lc, t.l), t.n, t.red, Plug(rc, t.r))
  }

  lemma AssembledParts(header: Node, lc: Ctx, t: Tree, rc: Ctx)
    requires Parted(header, lc, t, rc) && t.Bin?
    ensures Apart(lc, t.l) && Apart(rc, t.r)
    ensures Nodes(Plug(lc, t.l)) == CtxNodes(lc) + Nodes(t.l) && Nodes(Plug(rc, t.r)) == CtxNodes(rc) + Nodes(t.r)
    ensures Sep(Assembled(lc, t, rc)) && Nodes(Assembled(lc, t, rc)) == CtxNodes(lc) + Nodes(t) + CtxNodes(rc)
  {
    assert Nodes(t) == Nodes(t.l) + {t.n} + Nodes(t.r);
    PlugSep(lc, t.l);
    PlugSep(rc, t.r);
  }

  lemma AssembledDivides(lc: Ctx, t: Tree, rc: Ctx, key: nat, s: seq<Node>)
    requires Closing(lc, t, rc, key, s) && t.Bin?
    requires key < t.n.nodeid ==> t.l.Leaf?
    requires t.n.nodeid < key ==> t.r.Leaf?
    ensures Inorder(Assembled(lc, t, rc)) == s && Divided(Assembled(lc, t, rc), key)
  {
    var a, b := Inorder(t.l), Inorder(t.r);
    PlugInorder(lc, t.l);
    PlugInorder(rc, t.r);
    assert Inorder(Plug(lc, t.l)) == Before(lc) + a && Inorder(Plug(rc, t.r)) == b + After(rc);
    AssocTwo(Before(lc), a, [t.n], b, After(rc));
    SplitOut(Before(lc) + a, t.n, b + After(rc));
    assert key < t.n.nodeid ==> Before(lc) + a == Before(lc);
    assert t.n.nodeid < key ==> b + After(rc) == After(rc);
  }

  /** If the key is anywhere, it is at the root. */
  lemma AtRoot(t: Tree, key: nat)
    requires Sorted(Inorder(t)) && Divided(t, key)
    ensures forall x | x in Nodes(t) && x.nodeid == key :: x == t.n
  {
    SplitOut(Inorder(t.l), t.n, Inorder(t.r));
    forall x | x in Nodes(t) && x.nodeid == key
      ensures x == t.n
    {
      InorderNodes(t.l, x);
      InorderNodes(t.r, x);
    }
  }

  /** The new root of an insertion: the old one, and what lies on its side, goes to the side of its key. */
  ghost function Grown(left: bool, t: Tree, elm: Node): Tree
    requires t.Bin?
  {
    if left then Bin(t.l, elm, false, t.(l := Leaf)) else Bin(t.(r := Leaf), elm, false, t.r)
  }

  lemma GrownApart(left: bool, t: Tree, elm: Node)
    requires Sep(t) && t.Bin? && elm !in Nodes(t)
    ensures Sep(Grown(left, t, elm)) && Nodes(Grown(left, t, elm)) == Nodes(t) + {elm}
  {
    assert Nodes(t) == Nodes(t.l) + {t.n} + Nodes(t.r);
  }

  lemma GrownInorder(left: bool, t: Tree, elm: Node)
    requires t.Bin?
    ensures var x := if left then Inorder(t.l) else Inorder(t.l) + [t.n];
      var y := if left then [t.n] + Inorder(t.r) else Inorder(t.r);
      Inorder(Grown(left, t, elm)) == x + [elm] + y && Inorder(t) == x + y
  {
    var a, b := Inorder(t.l), Inorder(t.r);
    if left {
      assert Inorder(t.(l := Leaf)) == [t.n] + b;
      assert a + [t.n] + b == a + ([t.n] + b);
    } else {
      assert Inorder(t.(r := Leaf)) == a + [t.n];
    }
  }

  lemma GrownFits(left: bool, t: Tree, elm: Node)
    requires Sorted(Inorder(t)) && Divided(t, elm.nodeid)
    requires elm.nodeid != t.n.nodeid && left == (elm.nodeid < t.n.nodeid)
    ensures Without(Inorder(Grown(left, t, elm)), elm, Inorder(t)) && Sorted(Inorder(Grown(left, t, elm)))
  {
    var a, b := Inorder(t.l), Inorder(t.r);
    var x, y := if left then a else a + [t.n], if left then [t.n] + b else b;
    SplitOut(a, t.n, b);
    GrownInorder(left, t, elm);
    PutIn(x, elm, y);
  }

  /** The left part of a tree divided at its root, splayed again for the same key: its root has nothing to its right. */
  lemma NothingRight(t: Tree, key: nat)
    requires Divided(t, key) && Sorted(Inorder(t)) && Below(Inorder(t), key)
    ensures t.r.Leaf?
  {
    InorderNodes(t, t.n);
    if t.r.Bin? {
      var x := t.r.n;
      InorderNodes(t.r, x);
      InorderNodes(t, x);
    }
  }

  /** Removing the root: with nothing on the left, the right part is left; else the left part, splayed to l, takes
      it up. */
  lemma RootTakenOut(t: Tree, l: Tree)
    requires t.Bin? && Sep(t) && Sorted(Inorder(t)) && Inorder(l) == Inorder(t.l)
    requires Sep(l) && Nodes(l) == Nodes(t.l) && (l.Bin? ==> l.r.Leaf?)
    ensures var u := if l.Bin? then l.(r := t.r) else t.r;
      Sep(u) && Nodes(u) == Nodes(t) - {t.n} && Without(Inorder(t), t.n, Inorder(u))
  {
    TakeOut(Inorder(t.l), t.n, Inorder(t.r));
    if l.Bin? {
      assert Inorder(l) == Inorder(l.l) + [l.n];
      assert Nodes(l) == Nodes(l.l) + {l.n};
    } else {
      assert Inorder(t.l) + Inorder(t.r) == Inorder(t.r);
    }
  }
}
