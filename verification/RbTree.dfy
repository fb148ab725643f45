/** The red-black tree of compat/tree.h, in place: finding, walking, inserting and removing, with the two fix-up
    loops. */
module RbTree {
  import opened Elements
  import opened RbColour
  import opened RbOrder
  import opened RbRemoval
  import opened TreeShape

  /** x is as the cell k says. */
  ghost predicate Is(x: Node, k: Cell)
    reads x
  {
    x.left == k.left && x.right == k.right && x.parent == k.parent && x.red == k.red
  }

  class Head {
    var root: Node?
    ghost var tree: Tree
    ghost var repr: set<Node>

    ghost predicate Valid()
      reads this, repr
    {
      Mem(tree) && RedBlack(tree) && Sorted(Inorder(tree))
    }

    /** The elements, in key order. */
    ghost function Elems(): seq<Node>
      reads this
    {
      Inorder(tree)
    }

    constructor ()
      ensures Valid() && repr == {} && Elems() == []
    {
      root, tree, repr := null, Leaf, {};
    }

    /** A key has at most one node. */
    lemma OneNode(x: Node, y: Node)
      requires Valid() && x in repr && y in repr && x.nodeid == y.nodeid
      ensures x == y
    {
      InorderNodes(tree, x);
      InorderNodes(tree, y);
      var i :| 0 <= i < |Elems()| && Elems()[i] == x;
      var j :| 0 <= j < |Elems()| && Elems()[j] == y;
    }

    /** The maximum height is 2 lg(n + 1). */
    lemma HeightOf()
      requires Valid()
      ensures Pow2(Height(tree)) <= (|Elems()| + 1) * (|Elems()| + 1)
    {
      HeightBound(tree);
    }

    /** The heap is the tree T. */
    ghost predicate Mem(T: Tree)
      reads this, repr
    {
      Sep(T) && Nodes(T) == repr && root == RootOf(T) && forall x | x in repr :: Is(x, CellOf(T, null, x))
    }

    /** The heap is the tree with t in the hole of c. */
    ghost predicate At(c: Ctx, t: Tree)
      reads this, repr
    {
      Mem(Plug(c, t))
    }

    // ----- the writes

    method RotateLeft(elm: Node, ghost s: Node, ghost b: Node?, ghost p: Node?)
      requires elm.right == s && s.left == b && elm.parent == p
      requires elm != s && b != elm && b != s && p != elm && p != s && (b == null || b != p)
      modifies `root, elm, s, if b == null then {} else {b}, if p == null then {} else {p}
      ensures Is(elm, Cell(old(elm.left), b, s, old(elm.red)))
      ensures Is(s, Cell(elm, old(s.right), p, old(s.red)))
      ensures b != null ==> Is(b, Cell(old(b.left), old(b.right), elm, old(b.red)))
      ensures p != null && old(p.left) == elm ==> Is(p, Cell(s, old(p.right), old(p.parent), old(p.red)))
      ensures p != null && old(p.left) != elm ==> Is(p, Cell(old(p.left), s, old(p.parent), old(p.red)))
      ensures root == if p == null then s else old(root)
    {
      var tmp := elm.right;
      elm.right := tmp.left;
      if elm.right != null {
        tmp.left.parent := elm;
      }
      tmp.parent := elm.parent;
      if tmp.parent != null {
        if elm == elm.parent.left {
          elm.parent.left := tmp;
        } else {
          elm.parent.right := tmp;
        }
      } else {
        root := tmp;
      }
      tmp.left := elm;
      elm.parent := tmp;
    }

    method RotateRight(elm: Node, ghost s: Node, ghost b: Node?, ghost p: Node?)
      requires elm.left == s && s.right == b && elm.parent == p
      requires elm != s && b != elm && b != s && p != elm && p != s && (b == null || b != p)
      modifies `root, elm, s, if b == null then {} else {b}, if p == null then {} else {p}
      ensures Is(elm, Cell(b, old(elm.right), s, old(elm.red)))
      ensures Is(s, Cell(old(s.left), elm, p, old(s.red)))
      ensures b != null ==> Is(b, Cell(old(b.left), old(b.right), elm, old(b.red)))
      ensures p != null && old(p.left) == elm ==> Is(p, Cell(s, old(p.right), old(p.parent), old(p.red)))
      ensures p != null && old(p.left) != elm ==> Is(p, Cell(old(p.left), s, old(p.parent), old(p.red)))
      ensures root == if p == null then s else old(root)
    {
      var tmp := elm.left;
      elm.left := tmp.right;
      if elm.left != null {
        tmp.right.parent := elm;
      }
      tmp.parent := elm.parent;
      if tmp.parent != null {
        if elm == elm.parent.left {
          elm.parent.left := tmp;
        } else {
          elm.parent.right := tmp;
        }
      } else {
        root := tmp;
      }
      tmp.right := elm;
      elm.parent := tmp;
    }

    method TurnLeft(elm: Node, ghost T: Tree, ghost T': Tree)
      requires Mem(T) && elm in repr && elm.right != null
      requires Sep(T') && TurnsLeft(T, T', elm, elm.right, elm.right.left, elm.parent)
      modifies this, repr
      ensures Mem(T') && repr == old(repr) && tree == old(tree)
    {
      ghost var s, b, p := elm.right, elm.right.left, elm.parent;
      RotateLeft(elm, s, b, p);
      forall x | x in repr
        ensures Is(x, CellOf(T', null, x))
      {
        assert old(Is(x, CellOf(T, null, x)));
        if x != elm && x != s && x != b && x != p {
          assert CellOf(T', null, x) == CellOf(T, null, x);
        }
      }
    }

    method TurnRight(elm: Node, ghost T: Tree, ghost T': Tree)
      requires Mem(T) && elm in repr && elm.left != null
      requires Sep(T') && TurnsLeft(T', T, elm.left, elm, elm.left.right, elm.parent)
      modifies this, repr
      ensures Mem(T') && repr == old(repr) && tree == old(tree)
    {
      ghost var s, b, p := elm.left, elm.left.right, elm.parent;
      assert elm.parent == CellOf(T, null, elm).parent;
      RotateRight(elm, s, b, p);
      forall x | x in repr
        ensures Is(x, CellOf(T', null, x))
      {
        assert old(Is(x, CellOf(T, null, x)));
        if x != elm && x != s && x != b && x != p {
          assert CellOf(T', null, x) == CellOf(T, null, x);
        }
      }
    }

    method SetColor(x: Node, red: bool, ghost T: Tree)
      requires Mem(T) && x in repr
      modifies x`red
      ensures Mem(Paint(T, x, red))
    {
      x.red := red;
      PaintKeeps(T, x, red);
      forall y | y in repr
        ensures Is(y, CellOf(Paint(T, x, red), null, y))
      {
        PaintCell(T, null, x, red, y);
      }
    }

    /** Paints the parent of the hole. */
    method SetParentColor(x: Node, red: bool, ghost c: Ctx, ghost t: Tree)
      requires At(c, t) && !c.Top? && x == c.n
      modifies repr
      ensures At(c.(red := red), t) && Inorder(Plug(c.(red := red), t)) == Inorder(Plug(c, t))
    {
      PaintParent(c, t, red);
      SetColor(x, red, Plug(c, t));
    }

    /** Paints the sibling of the hole. */
    method SetSiblingColor(x: Node, red: bool, ghost c: Ctx, ghost t: Tree)
      requires At(c, t) && !c.Top? && c.sib.Bin? && x == c.sib.n
      modifies repr
      ensures At(c.(sib := c.sib.(red := red)), t)
      ensures Inorder(Plug(c.(sib := c.sib.(red := red)), t)) == Inorder(Plug(c, t))
    {
      PaintSibling(c, t, red);
      SetColor(x, red, Plug(c, t));
    }

    /** Rotates parent, turning the filling of the hole up above it; left says on which side the hole is. */
    method TurnUp(left: bool, parent: Node, ghost c: Ctx, ghost t: Tree)
      requires At(c, t) && !c.Top? && t.Bin? && left == c.left && parent == c.n
      modifies this, repr
      ensures At(UpCtx(c, t), UpTree(c, t)) && repr == old(repr) && tree == old(tree)
      ensures Inorder(Plug(UpCtx(c, t), UpTree(c, t))) == Inorder(Plug(c, t))
    {
      PlugSep(c, t);
      Around(c, t);
      InnerCell(c, t, t.n);
      UpTurns(c, t);
      PlugSep(UpCtx(c, t), UpTree(c, t));
      if left {
        TurnRight(parent, Plug(c, t), Plug(UpCtx(c, t), UpTree(c, t)));
      } else {
        TurnLeft(parent, Plug(c, t), Plug(UpCtx(c, t), UpTree(c, t)));
      }
    }

    // ----- walks

    method Find(key: nat) returns (r: Node?)
      requires Valid()
      ensures r != null ==> r in repr && r.nodeid == key
      ensures r == null ==> forall x | x in repr :: x.nodeid != key
    {
      var tmp := root;
      ghost var c, t := Top, tree;
      PlugInorder(c, t);
      while tmp != null
        invariant At(c, t) && Plug(c, t) == tree && tmp == RootOf(t)
        invariant OnPath(c, t, key)
        decreases t
      {
        ReadNode(c, t);
        PathDown(c, t, key);
        if key < tmp.nodeid {
          tmp := tmp.left;
          c, t := Down(c, t, true), t.l;
        } else if key > tmp.nodeid {
          tmp := tmp.right;
          c, t := Down(c, t, false), t.r;
        } else {
          return tmp;
        }
      }
      PathEnd(c, key);
      r := null;
    }

    /** The leftmost (left) or rightmost node of the filling t, whose root is tmp. */
    method Descend(left: bool, tmp0: Node?, ghost c0: Ctx, ghost t0: Tree) returns (parent: Node?)
      requires At(c0, t0) && tmp0 == RootOf(t0)
      ensures parent == if left then First(Inorder(t0)) else Last(Inorder(t0))
    {
      var tmp := tmp0;
      parent := null;
      ghost var c, t := c0, t0;
      while tmp != null
        invariant At(c, t) && tmp == RootOf(t)
        invariant t.Bin? ==>
          if left then First(Inorder(t0)) == First(Inorder(t)) else Last(Inorder(t0)) == Last(Inorder(t))
        invariant t.Leaf? ==> parent == if left then First(Inorder(t0)) else Last(Inorder(t0))
        decreases t
      {
        ReadNode(c, t);
        parent := tmp;
        tmp := if left then tmp.left else tmp.right;
        c, t := Down(c, t, left), Kid(left, t);
      }
    }

    /** RB_MIN (left) and RB_MAX. */
    method MinMax(left: bool) returns (r: Node?)
      requires Valid()
      ensures r == if left then First(Elems()) else Last(Elems())
    {
      r := Descend(left, root, Top, tree);
    }

    /** Climbs out of the filling t, whose root is elm0: the first node after it (left) or the last before it. */
    method Climb(left: bool, elm0: Node, ghost c0: Ctx, ghost t0: Tree) returns (r: Node?)
      requires At(c0, t0) && t0.Bin? && t0.n == elm0
      ensures r == if left then First(After(c0)) else Last(Before(c0))
    {
      var elm := elm0;
      ghost var c, t := c0, t0;
      ReadNode(c, t);
      if !c.Top? { ReadParent(c, t); }
      while elm.parent != null && elm == (if left then elm.parent.right else elm.parent.left)
        invariant At(c, t) && t.Bin? && t.n == elm && elm.parent == Par(c)
        invariant !c.Top? ==> (c.n.left == elm <==> c.left) && (c.n.right == elm <==> !c.left)
        invariant if left then First(After(c)) == First(After(c0)) else Last(Before(c)) == Last(Before(c0))
        decreases c
      {
        elm := elm.parent;
        c, t := c.up, Mk(c.left, t, c.n, c.red, c.sib);
        ReadNode(c, t);
        if !c.Top? { ReadParent(c, t); }
      }
      r := elm.parent;
    }

    /** RB_NEXT (left) and RB_PREV: elm stands at place i of the key order. */
    method Step(left: bool, elm: Node, ghost i: nat) returns (r: Node?)
      requires Valid() && i < |Elems()| && Elems()[i] == elm
      ensures r == if left then (if i + 1 < |Elems()| then Elems()[i + 1] else null)
                   else if i > 0 then Elems()[i - 1] else null
    {
      InorderNodes(tree, elm);
      ghost var c, t, h := PathTo(Top, tree, BlackHeight(tree), elm);
      Neighbours(c, t);
      OnePlace(Before(c) + Inorder(t.l), elm, Inorder(t.r) + After(c), i);
      ReadNode(c, t);
      var sub := if left then elm.right else elm.left;
      if sub != null {
        r := Descend(left, sub, Down(c, t, !left), Kid(!left, t));
      } else {
        r := Climb(left, elm, c, t);
      }
    }

    /** RB_FOREACH (left) and RB_FOREACH_REVERSE: every element once, in order. */
    method ForEach(left: bool) returns (visited: seq<Node>)
      requires Valid()
      ensures |visited| == |Elems()|
      ensures forall i | 0 <= i < |visited| :: visited[i] == Elems()[if left then i else |Elems()| - 1 - i]
    {
      visited := [];
      var x := MinMax(left);
      ghost var s := Elems();
      while x != null
        invariant |visited| <= |s| && Valid() && s == Elems()
        invariant forall i | 0 <= i < |visited| :: visited[i] == s[if left then i else |s| - 1 - i]
        invariant x == if |visited| == |s| then null else s[if left then |visited| else |s| - 1 - |visited|]
        decreases |s| - |visited|
      {
        ghost var i := if left then |visited| else |s| - 1 - |visited|;
        visited := visited + [x];
        x := Step(left, x, i);
      }
    }

    // ----- insertion

    /** The uncle tmp is red: blackness moves down from the grandparent. */
    method InsertRecolour(parent: Node, gparent: Node, tmp: Node, ghost c: Ctx, ghost t: Tree)
      requires At(c, t) && !c.Top? && !c.up.Top? && c.up.sib.Bin?
      requires parent == c.n && gparent == c.up.n && tmp == c.up.sib.n
      modifies repr
      ensures At(c.up.up, UncleRed(c, t)) && Inorder(Plug(c.up.up, UncleRed(c, t))) == Inorder(Plug(c, t))
    {
      ghost var u := c.up.(sib := Blacken(c.up.sib));
      SetSiblingColor(tmp, false, c.up, Mk(c.left, t, c.n, c.red, c.sib));
      SetParentColor(parent, false, c.(up := u), t);
      SetParentColor(gparent, true, u, Mk(c.left, t, c.n, false, c.sib));
    }

    /** The uncle is black; left says on which side of the grandparent the parent is. */
    method InsertRotate(left: bool, elm: Node, gparent: Node, ghost c: Ctx, ghost t: Tree, ghost h: nat)
      returns (elm': Node, ghost c': Ctx, ghost t': Tree)
      requires At(c, t) && InsertColours(c, t, h) && !c.Top? && c.red && !c.up.Top? && !IsRed(c.up.sib)
      requires elm == t.n && gparent == c.up.n && left == c.up.left
      modifies this, repr
      ensures At(c', t') && InsertColours(c', t', h) && t'.n == elm' && repr == old(repr) && tree == old(tree)
      ensures Inorder(Plug(c', t')) == Inorder(Plug(c, t))
      ensures ParBlack(c')
    {
      ReadParent(c, t);
      var parent := elm.parent;
      c', t', elm' := c, t, elm;
      if elm == (if left then parent.right else parent.left) {
        TurnUp(!left, parent, c, t);
        InnerTurned(c, t, h);
        c', t' := UpCtx(c, t), UpTree(c, t);
        elm', parent := parent, elm;
      }
      OuterTurned(c', t', h);
      SetParentColor(parent, false, c', t');
      ghost var p := Mk(left, t', c'.n, false, c'.sib);
      SetParentColor(gparent, true, c'.up, p);
      TurnUp(left, gparent, c'.up.(red := true), p);
      c' := OuterCtx(c');
    }

    /** One turn of the loop of RB_INSERT_COLOR. */
    method InsertStep(elm: Node, ghost c: Ctx, ghost t: Tree, ghost h: nat)
      returns (elm': Node, ghost c': Ctx, ghost t': Tree, ghost h': nat)
      requires At(c, t) && InsertColours(c, t, h) && t.n == elm && !c.Top? && c.red
      modifies this, repr
      ensures At(c', t') && InsertColours(c', t', h') && t'.n == elm' && repr == old(repr) && tree == old(tree)
      ensures Inorder(Plug(c', t')) == Inorder(Plug(c, t))
      ensures Depth(c) > 0 && (ParBlack(c') || Depth(c') < Depth(c))
    {
      GrandParentBlack(c, t, h);
      ReadParent(c, t);
      ReadParent(c.up, Mk(c.left, t, c.n, c.red, c.sib));
      h' := h;
      var parent := elm.parent;
      var gparent := parent.parent;
      var left := parent == gparent.left;
      var tmp := if left then gparent.right else gparent.left;
      if tmp != null && tmp.red {
        UncleRedColours(c, t, h);
        InsertRecolour(parent, gparent, tmp, c, t);
        elm', c', t', h' := gparent, c.up.up, UncleRed(c, t), h + 1;
      } else {
        elm', c', t' := InsertRotate(left, elm, gparent, c, t, h);
      }
    }

    method InsertColor(elm0: Node, ghost c0: Ctx, ghost t0: Tree, ghost h0: nat) returns (ghost T: Tree)
      requires At(c0, t0) && InsertColours(c0, t0, h0) && t0.n == elm0
      modifies this, repr
      ensures Mem(T) && RedBlack(T) && repr == old(repr) && Inorder(T) == Inorder(Plug(c0, t0))
    {
      var elm := elm0;
      ghost var c, t, h := c0, t0, h0;
      ReadNode(c, t);
      while elm.parent != null && elm.parent.red
        invariant At(c, t) && InsertColours(c, t, h) && t.n == elm && repr == old(repr)
        invariant elm.parent == Par(c) && (!c.Top? ==> c.n.red == c.red)
        invariant Inorder(Plug(c, t)) == Inorder(Plug(c0, t0))
        decreases if ParBlack(c) then 0 else Depth(c)
      {
        elm, c, t, h := InsertStep(elm, c, t, h);
        ReadNode(c, t);
      }
      T := Paint(Plug(c, t), Plug(c, t).n, false);
      RootPainted(c, t, h);
      SetColor(root, false, Plug(c, t));
    }

    /** The fields of the root of the filling, and the parent's colour. */
    lemma ReadNode(c: Ctx, t: Tree)
      requires At(c, t) && t.Bin?
      ensures t.n in repr && Is(t.n, Cell(RootOf(t.l), RootOf(t.r), Par(c), t.red))
      ensures !c.Top? ==> c.n in repr && c.n.red == c.red
    {
      PlugSep(c, t);
      InnerCell(c, t, t.n);
      assert Is(t.n, CellOf(Plug(c, t), null, t.n));
      if !c.Top? {
        Around(c, t);
        assert Is(c.n, CellOf(Plug(c, t), null, c.n));
      }
    }

    /** The fields of the parent of the hole, and the sibling's colour. */
    lemma ReadParent(c: Ctx, t: Tree)
      requires At(c, t) && !c.Top?
      ensures c.n in repr && Is(c.n, FrameCell(c, RootOf(t)))
      ensures t.Bin? ==> t.n in repr && t.n.parent == c.n && RootOf(c.sib) != t.n
      ensures c.sib.Bin? ==> c.sib.n in repr && c.sib.n.red == c.sib.red
    {
      Around(c, t);
      assert Is(c.n, CellOf(Plug(c, t), null, c.n));
      if t.Bin? {
        ReadNode(c, t);
      }
      if c.sib.Bin? {
        assert Is(c.sib.n, CellOf(Plug(c, t), null, c.sib.n));
      }
    }

    // ----- search

    /** Hangs the new red node elm at the place the search has reached. */
    method Attach(left: bool, elm: Node, parent: Node?, ghost c: Ctx)
      requires At(c, Leaf) && elm !in repr && parent == Par(c) && (!c.Top? ==> left == c.left)
      modifies this, repr, elm
      ensures At(c, Bin(Leaf, elm, true, Leaf)) && repr == old(repr) + {elm}
    {
      ghost var t := Bin(Leaf, elm, true, Leaf);
      PlugSep(c, Leaf);
      PlugSep(c, t);
      Exchange(c, Leaf, Leaf);
      Exchange(c, Leaf, t);
      elm.parent, elm.left, elm.right, elm.red := parent, null, null, true;
      if parent != null {
        if left {
          parent.left := elm;
        } else {
          parent.right := elm;
        }
      } else {
        root := elm;
      }
      ghost var was := repr;
      repr := repr + {elm};
      forall x | x in repr
        ensures Is(x, CellOf(Plug(c, t), null, x))
      {
        if x in was {
          assert old(Is(x, CellOf(Plug(c, Leaf), null, x)));
        }
      }
    }

    /** The search of RB_INSERT: the node with the key, or else the place where it belongs. */
    method Locate(key: nat) returns (found: Node?, parent: Node?, left: bool, ghost c: Ctx, ghost h: nat)
      requires Valid()
      ensures found != null ==> found in repr && found.nodeid == key
      ensures found == null ==> forall x | x in repr :: x.nodeid != key
      ensures found == null ==> Plug(c, Leaf) == tree && At(c, Leaf) && Intact(c, Leaf, h) && OnPath(c, Leaf, key)
      ensures found == null ==> parent == Par(c) && (!c.Top? ==> left == c.left)
    {
      var tmp := root;
      parent, left := null, false;
      ghost var t;
      c, t, h := Top, tree, BlackHeight(tree);
      PlugInorder(c, t);
      while tmp != null
        invariant At(c, t) && Plug(c, t) == tree && tmp == RootOf(t)
        invariant OnPath(c, t, key) && Intact(c, t, h)
        invariant parent == Par(c) && (!c.Top? ==> left == c.left)
        decreases t
      {
        ReadNode(c, t);
        PathDown(c, t, key);
        parent := tmp;
        if key == parent.nodeid {
          found := tmp;
          return;
        }
        left := key < parent.nodeid;
        tmp := if left then tmp.left else tmp.right;
        StepDown(c, t, h, left);
        c, t, h := Down(c, t, left), Kid(left, t), if t.red then h else h - 1;
      }
      PathEnd(c, key);
      found := null;
    }

    method InsertAt(left: bool, elm: Node, parent: Node?, ghost c: Ctx, ghost h: nat)
      requires Valid() && Plug(c, Leaf) == tree && Intact(c, Leaf, h) && OnPath(c, Leaf, elm.nodeid)
      requires elm !in repr && parent == Par(c) && (!c.Top? ==> left == c.left)
      modifies this, repr, elm
      ensures Valid() && repr == old(repr) + {elm}
      ensures Elems() == Before(c) + [elm] + After(c)
    {
      PathFits(c, elm, true);
      Attach(left, elm, parent, c);
      tree := InsertColor(elm, c, Bin(Leaf, elm, true, Leaf), h);
    }

    /** Returns the node that already has elm's key, or null after adding elm. */
    method Insert(elm: Node) returns (r: Node?)
      requires Valid()
      modifies this, repr, elm
      ensures Valid()
      ensures r != null ==>
        r in old(repr) && r.nodeid == elm.nodeid && unchanged(this) && unchanged(repr) && unchanged(elm)
      ensures r == null ==> forall x | x in old(repr) :: x.nodeid != elm.nodeid
      ensures r == null ==> repr == old(repr) + {elm} && Without(Elems(), elm, old(Elems()))
    {
      var parent, left;
      ghost var c, h;
      r, parent, left, c, h := Locate(elm.nodeid);
      if r == null {
        PathFits(c, elm, true);
        TakeOut(Before(c), elm, After(c));
        InsertAt(left, elm, parent, c, h);
      }
    }

    // ----- removal

    /** The sibling tmp is red: it is turned above the parent. left says on which side of the parent the hole is. */
    method RemoveSiblingRed(left: bool, parent: Node, tmp: Node, ghost c: Ctx, ghost t: Tree)
      requires At(c, t) && !c.Top? && left == c.left && parent == c.n && c.sib.Bin? && tmp == c.sib.n
      modifies this, repr
      ensures At(SiblingUp(c), t) && repr == old(repr) && tree == old(tree)
      ensures Inorder(Plug(SiblingUp(c), t)) == Inorder(Plug(c, t))
    {
      SetSiblingColor(tmp, false, c, t);
      ghost var c1 := c.(sib := Blacken(c.sib));
      SetParentColor(parent, true, c1, t);
      TurnUp(!left, parent, Flip(c1.(red := true), t), c1.sib);
    }

    /** Only the near nephew is red: it is turned above the sibling tmp. */
    method RemoveNearRed(left: bool, near: Node, tmp: Node, ghost c: Ctx, ghost t: Tree)
      requires At(c, t) && !c.Top? && left == c.left && c.sib.Bin? && tmp == c.sib.n
      requires Near(c).Bin? && near == Near(c).n
      modifies this, repr
      ensures At(NearUp(c), t) && repr == old(repr) && tree == old(tree)
      ensures Inorder(Plug(NearUp(c), t)) == Inorder(Plug(c, t))
    {
      SetSiblingColor(near, false, Down(Flip(c, t), c.sib, !c.left), Far(c));
      ghost var s1 := Mk(c.left, Blacken(Near(c)), c.sib.n, c.sib.red, Far(c));
      SetSiblingColor(tmp, true, c.(sib := s1), t);
      ghost var s2 := s1.(red := true);
      TurnUp(left, tmp, Down(Flip(c.(sib := s2), t), s2, c.left), Blacken(Near(c)));
    }

    /** The far nephew is red: the parent is turned under the sibling tmp. */
    method RemoveFarRed(left: bool, parent: Node, tmp: Node, ghost c: Ctx, ghost t: Tree)
      requires At(c, t) && !c.Top? && left == c.left && parent == c.n && c.sib.Bin? && tmp == c.sib.n
      requires parent.red == c.red && Far(c).Bin? && Far(c).n == if left then tmp.right else tmp.left
      modifies this, repr
      ensures At(c.up, FarUp(c, t)) && repr == old(repr) && tree == old(tree)
      ensures Inorder(Plug(c.up, FarUp(c, t))) == Inorder(Plug(c, t))
    {
      var far := if left then tmp.right else tmp.left;
      SetSiblingColor(tmp, parent.red, c, t);
      ghost var c1 := c.(sib := c.sib.(red := c.red));
      SetParentColor(parent, false, c1, t);
      ghost var c2 := c1.(red := false);
      SetSiblingColor(far, false, Down(Flip(c2, t), c2.sib, c.left), Near(c2));
      ghost var s := Mk(c.left, Near(c), tmp, c.red, Blacken(Far(c)));
      TurnUp(!left, parent, Flip(c2.(sib := s), t), s);
    }

    /** The colours of the nephews, read off the heap. */
    lemma ReadNephews(c: Ctx, t: Tree)
      requires At(c, t) && !c.Top? && c.sib.Bin?
      ensures c.sib.n in repr && Is(c.sib.n, Cell(RootOf(c.sib.l), RootOf(c.sib.r), c.n, c.sib.red))
      ensures Near(c).Bin? ==> Near(c).n in repr && Near(c).n.red == Near(c).red
      ensures Far(c).Bin? ==> Far(c).n in repr && Far(c).n.red == Far(c).red
    {
      Around(c, t);
      assert Is(c.sib.n, CellOf(Plug(c, t), null, c.sib.n));
      Nephews(c, t);
      if Near(c).Bin? {
        assert Is(Near(c).n, CellOf(Plug(c, t), null, Near(c).n));
      }
      if Far(c).Bin? {
        assert Is(Far(c).n, CellOf(Plug(c, t), null, Far(c).n));
      }
    }

    /** The turn of the loop of RB_REMOVE_COLOR once the sibling tmp is black. done: the loop breaks. */
    method RemoveBlackSibling(left: bool, parent: Node, tmp: Node, ghost c: Ctx, ghost t: Tree, ghost h: nat)
      returns (done: bool, ghost c': Ctx, ghost t': Tree, ghost h': nat)
      requires At(c, t) && RemoveColours(c, t, h) && !IsRed(t) && !c.Top? && c.sib.Bin? && !c.sib.red
      requires left == c.left && parent == c.n && tmp == c.sib.n
      modifies this, repr
      ensures At(c', t') && repr == old(repr) && tree == old(tree)
      ensures Inorder(Plug(c', t')) == Inorder(Plug(c, t))
      ensures done ==> RedBlack(Plug(c', t'))
      ensures !done ==> RemoveColours(c', t', h') && t' == SiblingRedden(c, t) && c' == c.up
    {
      ReadNephews(c, t);
      h' := if c.red then h else h + 1;
      var near := if left then tmp.left else tmp.right;
      var far := if left then tmp.right else tmp.left;
      if (near == null || !near.red) && (far == null || !far.red) {
        SiblingBlackColours(c, t, h);
        SetSiblingColor(tmp, true, c, t);
        done, c', t' := false, c.up, SiblingRedden(c, t);
      } else {
        c' := c;
        var top := tmp;
        if far == null || !far.red {
          NearRedColours(c, t, h);
          RemoveNearRed(left, near, tmp, c, t);
          c' := NearUp(c);
          top := near;
        }
        FarRedColours(c', t, h);
        ReadNephews(c', t);
        ReadParent(c', t);
        RemoveFarRed(left, parent, top, c', t);
        done, c', t' := true, c'.up, FarUp(c', t);
      }
    }

    /** One turn of the loop of RB_REMOVE_COLOR. */
    method RemoveStep(elm: Node?, parent: Node, ghost c: Ctx, ghost t: Tree, ghost h: nat)
      returns (done: bool, elm': Node?, parent': Node?, ghost c': Ctx, ghost t': Tree, ghost h': nat)
      requires At(c, t) && RemoveColours(c, t, h) && !IsRed(t) && !c.Top?
      requires elm == RootOf(t) && parent == c.n
      modifies this, repr
      ensures At(c', t') && repr == old(repr) && tree == old(tree)
      ensures Inorder(Plug(c', t')) == Inorder(Plug(c, t))
      ensures done ==> RedBlack(Plug(c', t')) && elm' == root
      ensures !done ==> RemoveColours(c', t', h') && elm' == RootOf(t') && parent' == Par(c')
      ensures !done ==> IsRed(t') || Depth(c') < Depth(c)
    {
      SiblingExists(c, t, h);
      ReadParent(c, t);
      c', t', h' := c, t, h;
      var left := parent.left == elm;
      var tmp := if left then parent.right else parent.left;
      if tmp.red {
        SiblingRedColours(c, t, h);
        RemoveSiblingRed(left, parent, tmp, c, t);
        c' := SiblingUp(c);
        ReadParent(c', t);
        tmp := if left then parent.right else parent.left;
      }
      done, c', t', h' := RemoveBlackSibling(left, parent, tmp, c', t', h');
      if done {
        elm', parent' := root, null;
      } else {
        ReadNode(c', t');
        elm', parent' := parent, parent.parent;
      }
    }

    /** The filling t0 of the hole is one black node short; makes up for it. */
    method RemoveColor(parent0: Node?, elm0: Node?, ghost c0: Ctx, ghost t0: Tree, ghost h0: nat)
      returns (ghost T: Tree)
      requires At(c0, t0) && RemoveColours(c0, t0, h0) && elm0 == RootOf(t0) && parent0 == Par(c0)
      modifies this, repr
      ensures Mem(T) && RedBlack(T) && repr == old(repr) && Inorder(T) == Inorder(Plug(c0, t0))
    {
      var elm, parent, done := elm0, parent0, false;
      ghost var c, t, h := c0, t0, h0;
      RootOutside(c, t);
      if t.Bin? { ReadNode(c, t); }
      while !done && (elm == null || !elm.red) && elm != root
        invariant At(c, t) && repr == old(repr) && Inorder(Plug(c, t)) == Inorder(Plug(c0, t0))
        invariant done ==> RedBlack(Plug(c, t)) && elm == root
        invariant !done ==> RemoveColours(c, t, h) && elm == RootOf(t) && parent == Par(c)
        invariant !done ==> (elm == root <==> c.Top?) && (elm != null ==> elm.red == t.red)
        decreases !done, if IsRed(t) then 0 else 1 + Depth(c)
      {
        done, elm, parent, c, t, h := RemoveStep(elm, parent, c, t, h);
        RootOutside(c, t);
        if t.Bin? { ReadNode(c, t); }
      }
      T := Plug(c, t);
      if elm != null {
        ghost var x: Node := elm;
        if done {
          PaintRoot(T);
        } else {
          PlugSep(c, t);
          PaintHole(c, t, x, false);
          PaintKeeps(T, x, false);
        }
        SetColor(elm, false, T);
        T := Paint(T, x, false);
      }
      if !done {
        BlackenedFits(c, t, h);
      }
    }

    method Unlink(elm: Node, child: Node?, parent: Node?)
      requires child != parent || child == null
      modifies `root, if child == null then {} else {child}, if parent == null then {} else {parent}
      ensures child != null ==> Is(child, Cell(old(child.left), old(child.right), parent, old(child.red)))
      ensures parent != null && old(parent.left) == elm ==>
        Is(parent, Cell(child, old(parent.right), old(parent.parent), old(parent.red)))
      ensures parent != null && old(parent.left) != elm ==>
        Is(parent, Cell(old(parent.left), child, old(parent.parent), old(parent.red)))
      ensures root == if parent == null then child else old(root)
    {
      if child != null {
        child.parent := parent;
      }
      if parent != null {
        if parent.left == elm {
          parent.left := child;
        } else {
          parent.right := child;
        }
      } else {
        root := child;
      }
    }

    /** Takes elm, which has at most the one child given, out of the tree. */
    method Splice(elm: Node, child: Node?, parent: Node?, ghost T: Tree, ghost T': Tree)
      requires Mem(T) && Sep(T') && Lifts(T, T', elm, child, parent)
      modifies this, repr
      ensures Mem(T') && repr == old(repr) - {elm} && tree == old(tree)
      ensures elm.left == old(elm.left) && elm.right == old(elm.right)
      ensures elm.parent == old(elm.parent) && elm.red == old(elm.red)
    {
      Unlink(elm, child, parent);
      repr := repr - {elm};
      forall x | x in repr
        ensures Is(x, CellOf(T', null, x))
      {
        assert old(Is(x, CellOf(T, null, x)));
        if x != child && x != parent {
          assert CellOf(T', null, x) == CellOf(T, null, x);
        }
      }
    }

    method SpliceAt(elm: Node, child: Node?, parent: Node?, ghost c: Ctx, ghost t: Tree, ghost ch: Tree)
      requires At(c, t) && t.Bin? && t.n == elm && ((t.l.Leaf? && ch == t.r) || (t.r.Leaf? && ch == t.l))
      requires child == RootOf(ch) && parent == Par(c)
      modifies this, repr
      ensures At(c, ch) && repr == old(repr) - {elm} && elm in old(repr) && tree == old(tree)
      ensures elm.parent == old(elm.parent)
    {
      PlugSep(c, t);
      LiftCells(c, t, ch);
      PlugSep(c, ch);
      Splice(elm, child, parent, Plug(c, t), Plug(c, ch));
    }

    /** elm, a node from outside, takes over the fields of old and every link to it. */
    method TakeOver(elm: Node, old_: Node, ghost l: Node, ghost r: Node?, ghost p: Node?)
      requires old_.left == l && old_.right == r && old_.parent == p
      requires elm != old_ && elm != l && elm != r && elm != p && old_ != l && old_ != r && old_ != p
      requires l != r && l != p && (p == null || r != p)
      modifies `root, elm, l, if r == null then {} else {r}, if p == null then {} else {p}
      ensures Is(elm, Cell(l, r, p, old(old_.red)))
      ensures Is(l, Cell(old(l.left), old(l.right), elm, old(l.red)))
      ensures r != null ==> Is(r, Cell(old(r.left), old(r.right), elm, old(r.red)))
      ensures p != null && old(p.left) == old_ ==> Is(p, Cell(elm, old(p.right), old(p.parent), old(p.red)))
      ensures p != null && old(p.left) != old_ ==> Is(p, Cell(old(p.left), elm, old(p.parent), old(p.red)))
      ensures root == if p == null then elm else old(root)
    {
      elm.left, elm.right, elm.parent, elm.red := old_.left, old_.right, old_.parent, old_.red;
      if old_.parent != null {
        if old_.parent.left == old_ {
          old_.parent.left := elm;
        } else {
          old_.parent.right := elm;
        }
      } else {
        root := elm;
      }
      old_.left.parent := elm;
      if old_.right != null {
        old_.right.parent := elm;
      }
    }

    method Replace(elm: Node, old_: Node, ghost T: Tree, ghost T': Tree)
      requires Mem(T) && Sep(T') && old_ in repr && old_.left != null
      requires Replaces(T, T', old_, elm, old_.left, old_.right, old_.parent)
      modifies this, repr, elm
      ensures Mem(T') && repr == old(repr) - {old_} + {elm} && tree == old(tree)
    {
      ghost var l, r, p := old_.left, old_.right, old_.parent;
      TakeOver(elm, old_, l, r, p);
      repr := repr - {old_} + {elm};
      forall x | x in repr
        ensures Is(x, CellOf(T', null, x))
      {
        if x != elm {
          assert old(Is(x, CellOf(T, null, x)));
          if x != l && x != r && x != p {
            assert CellOf(T', null, x) == CellOf(T, null, x);
          }
        }
      }
    }

    method ReplaceAt(elm: Node, old_: Node, ghost c: Ctx, ghost t: Tree)
      requires At(c, t) && t.Bin? && t.n == old_ && t.l.Bin? && elm !in repr
      modifies this, repr, elm
      ensures At(c, t.(n := elm)) && repr == old(repr) - {old_} + {elm} && old_ in old(repr) && tree == old(tree)
    {
      ReadNode(c, t);
      PlugSep(c, t);
      ReplaceCells(c, t, elm);
      PlugSep(c, t.(n := elm));
      Replace(elm, old_, Plug(c, t), Plug(c, t.(n := elm)));
    }

    /** The end of RB_REMOVE: a removed black node, red == false, must be made up for. */
    method RemoveDone(red: bool, parent: Node?, child: Node?, ghost c: Ctx, ghost ch: Tree, ghost h: nat)
      requires At(c, ch) && child == RootOf(ch) && parent == Par(c) && Sorted(Inorder(Plug(c, ch)))
      requires red ==> RedBlack(Plug(c, ch))
      requires !red ==> RemoveColours(c, ch, h)
      modifies this, repr
      ensures Valid() && repr == old(repr) && Elems() == Inorder(Plug(c, ch))
    {
      if red {
        tree := Plug(c, ch);
      } else {
        tree := RemoveColor(parent, child, c, ch, h);
      }
    }

    method RemoveOne(elm: Node, child: Node?, ghost c: Ctx, ghost t: Tree, ghost h: nat, ghost ch: Tree)
      requires Valid() && Plug(c, t) == tree && t.Bin? && t.n == elm && Intact(c, t, h)
      requires ((t.l.Leaf? && ch == t.r) || (t.r.Leaf? && ch == t.l)) && child == RootOf(ch)
      modifies this, repr
      ensures Valid() && repr == old(repr) - {elm} && Without(old(Elems()), elm, Elems())
    {
      ReadNode(c, t);
      LiftColours(c, t, h, ch);
      LiftInorder(c, t, ch);
      var parent, red := elm.parent, elm.red;
      SpliceAt(elm, child, parent, c, t, ch);
      RemoveDone(red, parent, child, c, ch, if red then 0 else h - 1);
    }

    /** The node that follows old_, at the left end of its right subtree t.r. */
    method Successor(old_: Node, ghost c: Ctx, ghost t: Tree, ghost h: nat)
      returns (elm: Node, ghost rc: Ctx, ghost cur: Tree, ghost hc: nat)
      requires At(c, t) && t.Bin? && t.n == old_ && Intact(c, t, h) && t.r.Bin?
      ensures Plug(Append(rc, Down(c, t, false)), cur) == Plug(c, t) && Plug(rc, cur) == t.r && LeftSpine(rc)
      ensures Intact(Append(rc, Down(c, t, false)), cur, hc) && cur.Bin? && cur.n == elm && cur.l.Leaf?
    {
      ReadNode(c, t);
      StepDown(c, t, h, false);
      ghost var base := Down(c, t, false);
      elm := old_.right;
      rc, cur, hc := Top, t.r, if t.red then h else h - 1;
      ReadNode(base, cur);
      while elm.left != null
        invariant Plug(Append(rc, base), cur) == Plug(c, t) && Plug(rc, cur) == t.r && LeftSpine(rc)
        invariant Intact(Append(rc, base), cur, hc) && cur.Bin? && cur.n == elm && elm.left == RootOf(cur.l)
        decreases cur
      {
        elm := elm.left;
        StepDown(Append(rc, base), cur, hc, true);
        rc, cur, hc := Down(rc, cur, true), cur.l, if cur.red then hc else hc - 1;
        ReadNode(Append(rc, base), cur);
      }
    }

    method RemoveTwo(old_: Node, ghost c: Ctx, ghost t: Tree, ghost h: nat)
      requires Valid() && Plug(c, t) == tree && t.Bin? && t.n == old_ && Intact(c, t, h) && t.l.Bin? && t.r.Bin?
      modifies this, repr
      ensures Valid() && repr == old(repr) - {old_} && Without(old(Elems()), old_, Elems())
    {
      var elm; ghost var rc, cur, hc;
      elm, rc, cur, hc := Successor(old_, c, t, h);
      ghost var base, ch := Down(c, t, false), cur.r;
      ghost var cy, cz := Append(rc, base), Append(rc, base.(n := elm));
      ReadNode(cy, cur);
      var child, parent, red := elm.right, elm.parent, elm.red;
      BaseParent(rc, base, cur, elm);
      SpliceAt(elm, child, parent, cy, cur, ch);
      if elm.parent == old_ {
        parent := elm;
      }
      ghost var t1 := Bin(t.l, old_, t.red, Plug(rc, ch));
      PlugAppend(rc, base, ch);
      ReplaceAt(elm, old_, c, t1);
      OutAndBack(old(repr), elm, old_);
      PlugAppend(rc, base.(n := elm), ch);
      MoveColours(rc, base, cur, hc);
      SuccessorInorder(c, t, rc, elm, cur.red, ch);
      RemoveDone(red, parent, child, cz, ch, if red then 0 else hc - 1);
    }

    /** Takes elm, an element of the tree, out of it. */
    method Remove(elm: Node) returns (r: Node)
      requires Valid() && elm in repr
      modifies this, repr
      ensures Valid() && r == elm && repr == old(repr) - {elm}
      ensures Without(old(Elems()), elm, Elems())
    {
      ghost var c, t, h := PathTo(Top, tree, BlackHeight(tree), elm);
      ReadNode(c, t);
      if elm.left == null {
        RemoveOne(elm, elm.right, c, t, h, t.r);
      } else if elm.right == null {
        RemoveOne(elm, elm.left, c, t, h, t.l);
      } else {
        RemoveTwo(elm, c, t, h);
      }
      r := elm;
    }
  }

  ghost function Depth(c: Ctx): nat {
    if c.Top? then 0 else 1 + Depth(c.up)
  }

  lemma RootPainted(c: Ctx, t: Tree, h: nat)
    requires InsertColours(c, t, h) && ParBlack(c) && Sep(Plug(c, t))
    ensures Plug(c, t).Bin? && RedBlack(Paint(Plug(c, t), Plug(c, t).n, false))
    ensures Inorder(Paint(Plug(c, t), Plug(c, t).n, false)) == Inorder(Plug(c, t))
    ensures Plug(c, t).n in Nodes(Plug(c, t))
  {
    PlugRoot(c, t, t);
    PlugSep(c, t);
    if c.Top? {
      var q := Paint(t, t.n, false);
      assert Balanced(q, h + 1);
      BalancedHeight(q, h + 1);
    } else {
      PlugRedBlack(c, t, h);
    }
  }

  /** Above the hole there is no way back to its filling: the root is the filling only if the context is empty. */
  lemma RootOutside(c: Ctx, t: Tree)
    requires Sep(Plug(c, t))
    ensures RootOf(t) == RootOf(Plug(c, t)) <==> c.Top?
  {
    PlugSep(c, t);
    if !c.Top? {
      RootInCtx(c, t);
    }
  }

  lemma {:induction false} RootInCtx(c: Ctx, t: Tree)
    requires !c.Top?
    ensures Plug(c, t).Bin? && Plug(c, t).n in CtxNodes(c)
  {
    if !c.up.Top? {
      RootInCtx(c.up, Mk(c.left, t, c.n, c.red, c.sib));
    }
  }

  lemma PaintRoot(t: Tree)
    requires RedBlack(t) && t.Bin?
    ensures Paint(t, t.n, false) == t && t.n in Nodes(t)
  {
  }

  lemma BlackenedFits(c: Ctx, t: Tree, h: nat)
    requires RemoveColours(c, t, h) && (IsRed(t) || c.Top?)
    ensures RedBlack(Plug(c, Blacken(t)))
  {
    var b := Blacken(t);
    if IsRed(t) {
      assert Balanced(b, h + 1);
      PlugRedBlack(c, b, h + 1);
    } else {
      assert b == t;
      PlugRedBlack(c, b, h);
    }
  }

  lemma OutAndBack(s: set<Node>, x: Node, y: Node)
    requires x in s && y in s - {x}
    ensures s - {x} - {y} + {x} == s - {y}
  {
  }
}
