/** The ghost picture that both trees of compat/tree.h share: the tree as a value over the node objects, and a
    context with one hole for the place an operation has reached. A splay tree has no use for the colours. */
module TreeShape {
  import opened Elements

  datatype Tree = Leaf | Bin(l: Tree, n: Node, red: bool, r: Tree)

  /** A tree with a hole, innermost frame first. left: the hole is the left child of n; sib is its sibling. */
  datatype Ctx = Top | In(up: Ctx, left: bool, n: Node, red: bool, sib: Tree)

  function RootOf(t: Tree): Node? {
    if t.Leaf? then null else t.n
  }

  function Par(c: Ctx): Node? {
    if c.Top? then null else c.n
  }

  /** The node n with x on its left if left, else on its right, and y on the other side. */
  function Mk(left: bool, x: Tree, n: Node, red: bool, y: Tree): Tree {
    if left then Bin(x, n, red, y) else Bin(y, n, red, x)
  }

  /** The subtree on this side. */
  ghost function Kid(left: bool, t: Tree): Tree
    requires t.Bin?
  {
    if left then t.l else t.r
  }

  function Plug(c: Ctx, t: Tree): Tree {
    if c.Top? then t else Plug(c.up, Mk(c.left, t, c.n, c.red, c.sib))
  }

  function Inorder(t: Tree): seq<Node> {
    match t
    case Leaf => []
    case Bin(l, n, _, r) => Inorder(l) + [n] + Inorder(r)
  }

  function Before(c: Ctx): seq<Node> {
    if c.Top? then [] else if c.left then Before(c.up) else Before(c.up) + Inorder(c.sib) + [c.n]
  }

  function After(c: Ctx): seq<Node> {
    if c.Top? then [] else if c.left then [c.n] + Inorder(c.sib) + After(c.up) else After(c.up)
  }

  lemma {:induction false} PlugInorder(c: Ctx, t: Tree)
    ensures Inorder(Plug(c, t)) == Before(c) + Inorder(t) + After(c)
  {
    if !c.Top? {
      PlugInorder(c.up, Mk(c.left, t, c.n, c.red, c.sib));
      if c.left {
        AssocL(Before(c.up), Inorder(t), [c.n], Inorder(c.sib), After(c.up));
      } else {
        AssocR(Before(c.up), Inorder(c.sib), [c.n], Inorder(t), After(c.up));
      }
    }
  }

  // ----- the nodes of a tree, and their separation

  ghost function Nodes(t: Tree): set<Node> {
    match t
    case Leaf => {}
    case Bin(l, n, _, r) => Nodes(l) + {n} + Nodes(r)
  }

  ghost function CtxNodes(c: Ctx): set<Node> {
    if c.Top? then {} else CtxNodes(c.up) + {c.n} + Nodes(c.sib)
  }

  ghost predicate Sep(t: Tree) {
    match t
    case Leaf => true
    case Bin(l, n, _, r) => Sep(l) && Sep(r) && n !in Nodes(l) && n !in Nodes(r) && Nodes(l) !! Nodes(r)
  }

  ghost predicate CtxSep(c: Ctx) {
    c.Top? || (CtxSep(c.up) && Sep(c.sib) && c.n !in CtxNodes(c.up) && c.n !in Nodes(c.sib)
               && CtxNodes(c.up) !! Nodes(c.sib))
  }

  ghost predicate Apart(c: Ctx, t: Tree) {
    Sep(t) && CtxSep(c) && Nodes(t) !! CtxNodes(c)
  }

  lemma {:induction false} PlugSep(c: Ctx, t: Tree)
    ensures Nodes(Plug(c, t)) == CtxNodes(c) + Nodes(t)
    ensures Sep(Plug(c, t)) <==> Apart(c, t)
  {
    if !c.Top? {
      PlugSep(c.up, Mk(c.left, t, c.n, c.red, c.sib));
    }
  }

  lemma {:induction false} InorderNodes(t: Tree, x: Node)
    ensures x in Inorder(t) <==> x in Nodes(t)
  {
    if t.Bin? {
      InorderNodes(t.l, x);
      InorderNodes(t.r, x);
    }
  }

  // ----- what each node's fields must be

  datatype Cell = Cell(left: Node?, right: Node?, parent: Node?, red: bool)

  /** The fields that the picture t, hanging below p, prescribes for its node x. */
  ghost function CellOf(t: Tree, p: Node?, x: Node): Cell {
    match t
    case Leaf => Cell(null, null, null, false)
    case Bin(l, n, red, r) =>
      if x == n then Cell(RootOf(l), RootOf(r), p, red)
      else if x in Nodes(l) then CellOf(l, n, x)
      else CellOf(r, n, x)
  }

  lemma {:induction false} InnerCell(c: Ctx, t: Tree, x: Node)
    requires Apart(c, t) && x in Nodes(t)
    ensures CellOf(Plug(c, t), null, x) == CellOf(t, Par(c), x)
  {
    if !c.Top? {
      InnerCell(c.up, Mk(c.left, t, c.n, c.red, c.sib), x);
    }
  }

  ghost function FrameCell(c: Ctx, hole: Node?): Cell
    requires !c.Top?
  {
    if c.left then Cell(hole, RootOf(c.sib), Par(c.up), c.red) else Cell(RootOf(c.sib), hole, Par(c.up), c.red)
  }

  lemma FrameCellOf(c: Ctx, t: Tree)
    requires Apart(c, t) && !c.Top?
    ensures CellOf(Plug(c, t), null, c.n) == FrameCell(c, RootOf(t))
  {
    InnerCell(c.up, Mk(c.left, t, c.n, c.red, c.sib), c.n);
  }

  /** Exchanging what fills the hole touches nothing of the context but the frame around the hole. */
  lemma {:induction false} OuterCell(c: Ctx, t: Tree, t': Tree, x: Node)
    requires Apart(c, t) && Apart(c, t') && x in CtxNodes(c) && x != c.n
    ensures CellOf(Plug(c, t'), null, x) == CellOf(Plug(c, t), null, x)
  {
    var b, b' := Mk(c.left, t, c.n, c.red, c.sib), Mk(c.left, t', c.n, c.red, c.sib);
    if x !in CtxNodes(c.up) {
      InnerCell(c.up, b, x);
      InnerCell(c.up, b', x);
    } else if x == c.up.n {
      FrameCellOf(c.up, b);
      FrameCellOf(c.up, b');
    } else {
      OuterCell(c.up, b, b', x);
    }
  }

  lemma {:induction false} PlugRoot(c: Ctx, t: Tree, t': Tree)
    ensures RootOf(Plug(c, t')) == if c.Top? then RootOf(t') else RootOf(Plug(c, t))
  {
    if !c.Top? {
      PlugRoot(c.up, Mk(c.left, t, c.n, c.red, c.sib), Mk(c.left, t', c.n, c.red, c.sib));
    }
  }

  /** All cells after the filling t of the hole is exchanged for t', in terms of the cells before. */
  lemma Exchange(c: Ctx, t: Tree, t': Tree)
    requires Apart(c, t) && Apart(c, t')
    ensures Nodes(Plug(c, t')) == CtxNodes(c) + Nodes(t')
    ensures forall x | x in Nodes(t') :: CellOf(Plug(c, t'), null, x) == CellOf(t', Par(c), x)
    ensures forall x | x in CtxNodes(c) && x != Par(c) ::
      CellOf(Plug(c, t'), null, x) == CellOf(Plug(c, t), null, x)
    ensures !c.Top? ==> c.n in CtxNodes(c) && CellOf(Plug(c, t'), null, c.n) == FrameCell(c, RootOf(t'))
    ensures RootOf(Plug(c, t')) == if c.Top? then RootOf(t') else RootOf(Plug(c, t))
  {
    PlugSep(c, t');
    PlugRoot(c, t, t');
    forall x | x in Nodes(t')
      ensures CellOf(Plug(c, t'), null, x) == CellOf(t', Par(c), x)
    {
      InnerCell(c, t', x);
    }
    forall x | x in CtxNodes(c) && x != Par(c)
      ensures CellOf(Plug(c, t'), null, x) == CellOf(Plug(c, t), null, x)
    {
      OuterCell(c, t, t', x);
    }
    if !c.Top? {
      FrameCellOf(c, t');
    }
  }

  // ----- rotation

  ghost function RotL(t: Tree): Tree
    requires t.Bin? && t.r.Bin?
  {
    Bin(Bin(t.l, t.n, t.red, t.r.l), t.r.n, t.r.red, t.r.r)
  }

  ghost function RotR(t: Tree): Tree
    requires t.Bin? && t.l.Bin?
  {
    Bin(t.l.l, t.l.n, t.l.red, Bin(t.l.r, t.n, t.red, t.r))
  }

  lemma RotKeeps(t: Tree)
    requires t.Bin? && t.r.Bin?
    ensures RotL(t).l.Bin? && RotR(RotL(t)) == t
    ensures Inorder(RotL(t)) == Inorder(t) && Nodes(RotL(t)) == Nodes(t)
    ensures Sep(RotL(t)) <==> Sep(t)
  {
    var a, s, b, d := t.l, t.r, t.r.l, t.r.r;
    AssocFive(Inorder(a), [t.n], Inorder(b), [s.n], Inorder(d));
    assert Nodes(t) == Nodes(a) + {t.n} + Nodes(s) && Nodes(s) == Nodes(b) + {s.n} + Nodes(d);
    assert Sep(t) <==> Sep(a) && Sep(s) && t.n !in Nodes(a) && t.n !in Nodes(s) && Nodes(a) !! Nodes(s);
  }

  lemma RotLCells(t: Tree, p: Node?, x: Node)
    requires t.Bin? && t.r.Bin? && Sep(t) && x in Nodes(t) && p !in Nodes(t)
    ensures CellOf(RotL(t), p, x) == Turned(x, CellOf(t, p, x), t.n, t.r.n, RootOf(t.r.l), p)
  {
    var a, s, b, d := t.l, t.r, t.r.l, t.r.r;
    assert Sep(s) && Nodes(s) == Nodes(b) + {s.n} + Nodes(d);
    assert CellOf(Bin(a, t.n, t.red, b), s.n, x)
        == if x == t.n then Cell(RootOf(a), RootOf(b), s.n, t.red)
           else if x in Nodes(a) then CellOf(a, t.n, x) else CellOf(b, t.n, x);
    if x in Nodes(b) {
      assert CellOf(t, p, x) == CellOf(s, t.n, x) == CellOf(b, s.n, x);
    }
  }

  /** T' differs from T by a left rotation at e: s is e's right child, b is s's left child, p is above e. */
  ghost predicate TurnsLeft(T: Tree, T': Tree, e: Node, s: Node, b: Node?, p: Node?) {
    && Nodes(T') == Nodes(T) && e in Nodes(T) && s in Nodes(T) && e != s
    && b != e && b != s && p != e && p != s && (b == null || b != p)
    && (b != null ==> b in Nodes(T)) && (p != null ==> p in Nodes(T))
    && CellOf(T, null, e).right == s && CellOf(T, null, e).parent == p && CellOf(T, null, s).left == b
    && CellOf(T, null, s).parent == e && (b != null ==> CellOf(T, null, b).parent == s)
    && (p != null ==> CellOf(T, null, p).left == e || CellOf(T, null, p).right == e)
    && (p != null ==> CellOf(T, null, p).left != s)
    && (p == null ==> RootOf(T) == e)
    && RootOf(T') == (if p == null then s else RootOf(T))
    && (forall x | x in Nodes(T) :: CellOf(T', null, x) == Turned(x, CellOf(T, null, x), e, s, b, p))
  }

  ghost function Turned(x: Node, k: Cell, e: Node, s: Node, b: Node?, p: Node?): Cell {
    if x == e then k.(right := b, parent := s)
    else if x == s then k.(left := e, parent := p)
    else if x == b then k.(parent := e)
    else if x != p then k
    else if k.left == e then k.(left := s)
    else k.(right := s)
  }

  lemma RotLNode(c: Ctx, t: Tree, x: Node)
    requires t.Bin? && t.r.Bin? && Apart(c, t) && Apart(c, RotL(t)) && x in Nodes(Plug(c, t))
    ensures CellOf(Plug(c, RotL(t)), null, x)
         == Turned(x, CellOf(Plug(c, t), null, x), t.n, t.r.n, RootOf(t.r.l), Par(c))
  {
    PlugSep(c, t);
    RotKeeps(t);
    if x in Nodes(t) {
      InnerCell(c, t, x);
      InnerCell(c, RotL(t), x);
      RotLCells(t, Par(c), x);
    } else {
      assert t.r.n in Nodes(t.r) && (t.r.l.Bin? ==> t.r.l.n in Nodes(t.r));
      if x == c.n {
        FrameCellOf(c, t);
        FrameCellOf(c, RotL(t));
      } else {
        OuterCell(c, t, RotL(t), x);
      }
    }
  }

  lemma RightCell(t: Tree, p: Node?)
    requires t.Bin? && t.r.Bin? && Sep(t)
    ensures CellOf(t, p, t.r.n) == Cell(RootOf(t.r.l), RootOf(t.r.r), t.n, t.r.red)
    ensures t.r.l.Bin? ==> CellOf(t, p, t.r.l.n).parent == t.r.n
  {
    assert t.r.n in Nodes(t.r) && t.r.n !in Nodes(t.l);
    if t.r.l.Bin? {
      assert t.r.l.n in Nodes(t.r.l) && t.r.l.n in Nodes(t.r) && t.r.l.n !in Nodes(t.l) && Sep(t.r);
      assert CellOf(t, p, t.r.l.n) == CellOf(t.r, t.n, t.r.l.n) == CellOf(t.r.l, t.r.n, t.r.l.n);
    }
  }

  lemma RotLTurns(c: Ctx, t: Tree)
    requires t.Bin? && t.r.Bin? && Apart(c, t)
    ensures Apart(c, RotL(t))
    ensures TurnsLeft(Plug(c, t), Plug(c, RotL(t)), t.n, t.r.n, RootOf(t.r.l), Par(c))
  {
    RotKeeps(t);
    assert Sep(t.r) && {t.n, t.r.n} <= Nodes(t) && (t.r.l.Bin? ==> t.r.l.n in Nodes(t.r));
    RightCell(t, Par(c));
    Exchange(c, t, t);
    Exchange(c, t, RotL(t));
    forall x | x in Nodes(Plug(c, t))
      ensures CellOf(Plug(c, RotL(t)), null, x)
           == Turned(x, CellOf(Plug(c, t), null, x), t.n, t.r.n, RootOf(t.r.l), Par(c))
    {
      RotLNode(c, t, x);
    }
  }

  /** The same for a right rotation: turning it back left gives T again. */
  lemma RotRTurns(c: Ctx, t: Tree)
    requires t.Bin? && t.l.Bin? && Apart(c, t)
    ensures Apart(c, RotR(t)) && Inorder(RotR(t)) == Inorder(t)
    ensures TurnsLeft(Plug(c, RotR(t)), Plug(c, t), t.l.n, t.n, RootOf(t.l.r), Par(c))
  {
    RotKeeps(RotR(t));
    RotLTurns(c, RotR(t));
  }

  // ----- taking a node out, putting another in its place

  lemma ParentShift(t: Tree, p: Node?, q: Node?, x: Node)
    requires x in Nodes(t)
    ensures CellOf(t, p, x) == if x == t.n then CellOf(t, q, x).(parent := p) else CellOf(t, q, x)
  {
  }

  /** T' is T without e, whose only child (or none) is ch and whose parent is p. */
  ghost predicate Lifts(T: Tree, T': Tree, e: Node, ch: Node?, p: Node?) {
    && e in Nodes(T) && Nodes(T') == Nodes(T) - {e} && ch != e && p != e && (ch == null || ch != p)
    && (ch != null ==> ch in Nodes(T)) && (p != null ==> p in Nodes(T))
    && RootOf(T') == (if p == null then ch else RootOf(T))
    && (forall x | x in Nodes(T') :: CellOf(T', null, x) == Lifted(x, CellOf(T, null, x), e, ch, p))
  }

  ghost function Lifted(x: Node, k: Cell, e: Node, ch: Node?, p: Node?): Cell {
    if x == ch then k.(parent := p)
    else if x != p then k
    else if k.left == e then k.(left := ch)
    else k.(right := ch)
  }

  lemma LiftCells(c: Ctx, t: Tree, ch: Tree)
    requires Apart(c, t) && t.Bin? && ((t.l.Leaf? && ch == t.r) || (t.r.Leaf? && ch == t.l))
    ensures Apart(c, ch) && Lifts(Plug(c, t), Plug(c, ch), t.n, RootOf(ch), Par(c))
  {
    PlugSep(c, t);
    PlugSep(c, ch);
    Exchange(c, t, t);
    Exchange(c, t, ch);
    forall x | x in Nodes(Plug(c, ch))
      ensures CellOf(Plug(c, ch), null, x) == Lifted(x, CellOf(Plug(c, t), null, x), t.n, RootOf(ch), Par(c))
    {
      if x in Nodes(ch) {
        assert CellOf(t, Par(c), x) == CellOf(ch, t.n, x);
        ParentShift(ch, Par(c), t.n, x);
        assert x != Par(c);
      } else {
        assert x in CtxNodes(c) && x != RootOf(ch);
      }
    }
  }

  /** T' is T with y in the place of e, whose children are l and r and whose parent is p. */
  ghost predicate Replaces(T: Tree, T': Tree, e: Node, y: Node, l: Node, r: Node?, p: Node?) {
    && e in Nodes(T) && y !in Nodes(T) && Nodes(T') == Nodes(T) - {e} + {y}
    && l != e && r != e && p != e && l != r && l != p && (r == null || r != p)
    && l in Nodes(T) && (r != null ==> r in Nodes(T)) && (p != null ==> p in Nodes(T))
    && RootOf(T') == (if p == null then y else RootOf(T))
    && CellOf(T, null, e) == CellOf(T', null, y) && CellOf(T', null, y).(red := false) == Cell(l, r, p, false)
    && (forall x | x in Nodes(T) && x != e :: CellOf(T', null, x) == Replaced(x, CellOf(T, null, x), e, y, l, r, p))
  }

  ghost function Replaced(x: Node, k: Cell, e: Node, y: Node, l: Node, r: Node?, p: Node?): Cell {
    if x == l || x == r then k.(parent := y)
    else if x != p then k
    else if k.left == e then k.(left := y)
    else k.(right := y)
  }

  lemma ReplaceCells(c: Ctx, t: Tree, y: Node)
    requires Apart(c, t) && t.Bin? && t.l.Bin? && y !in Nodes(Plug(c, t))
    ensures Apart(c, t.(n := y))
    ensures Replaces(Plug(c, t), Plug(c, t.(n := y)), t.n, y, t.l.n, RootOf(t.r), Par(c))
  {
    var t' := t.(n := y);
    PlugSep(c, t);
    PlugSep(c, t');
    Exchange(c, t, t);
    Exchange(c, t, t');
    forall x | x in Nodes(Plug(c, t)) && x != t.n
      ensures CellOf(Plug(c, t'), null, x)
           == Replaced(x, CellOf(Plug(c, t), null, x), t.n, y, t.l.n, RootOf(t.r), Par(c))
    {
      if x in Nodes(t.l) {
        ParentShift(t.l, y, t.n, x);
      } else if x in Nodes(t.r) {
        ParentShift(t.r, y, t.n, x);
      }
    }
  }

  // ----- recolouring

  ghost function Paint(t: Tree, x: Node, red: bool): Tree {
    match t
    case Leaf => Leaf
    case Bin(l, n, k, r) =>
      if x == n then Bin(l, n, red, r)
      else if x in Nodes(l) then Bin(Paint(l, x, red), n, k, r)
      else Bin(l, n, k, Paint(r, x, red))
  }

  lemma {:induction false} PaintKeeps(t: Tree, x: Node, red: bool)
    ensures Inorder(Paint(t, x, red)) == Inorder(t) && Nodes(Paint(t, x, red)) == Nodes(t)
    ensures RootOf(Paint(t, x, red)) == RootOf(t)
    ensures Sep(t) ==> Sep(Paint(t, x, red))
  {
    if t.Bin? {
      PaintKeeps(t.l, x, red);
      PaintKeeps(t.r, x, red);
    }
  }

  lemma {:induction false} PaintCell(t: Tree, p: Node?, x: Node, red: bool, y: Node)
    requires Sep(t) && x in Nodes(t) && y in Nodes(t)
    ensures CellOf(Paint(t, x, red), p, y)
         == if y == x then CellOf(t, p, y).(red := red) else CellOf(t, p, y)
  {
    PaintKeeps(t.l, x, red);
    PaintKeeps(t.r, x, red);
    if x != t.n && y != t.n {
      if x in Nodes(t.l) && y in Nodes(t.l) {
        PaintCell(t.l, t.n, x, red, y);
      } else if x in Nodes(t.r) && y in Nodes(t.r) {
        PaintCell(t.r, t.n, x, red, y);
      }
    }
  }

  lemma {:induction false} PaintHole(c: Ctx, t: Tree, x: Node, red: bool)
    requires Apart(c, t) && x in Nodes(t)
    ensures Paint(Plug(c, t), x, red) == Plug(c, Paint(t, x, red))
    ensures Apart(c, Paint(t, x, red))
  {
    PaintKeeps(t, x, red);
    if !c.Top? {
      PaintHole(c.up, Mk(c.left, t, c.n, c.red, c.sib), x, red);
    }
  }
}
