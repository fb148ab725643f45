/** The top-down splay tree of compat/tree.h over linked nodes. */
module SplayTree {
  import opened Elements
  import opened SplayShape
  import opened TreeShape

  /** The links of x are as the cell k says. */
  ghost predicate Has(x: Node, k: Cell)
    reads x
  {
    x.spLeft == k.left && x.spRight == k.right
  }

  /** The heap below the root of t is t. */
  ghost predicate Tied(t: Tree)
    reads Nodes(t)
  {
    forall x | x in Nodes(t) :: Has(x, CellOf(t, null, x))
  }

  /** The heap along the spine c is c; the link at the hole is not yet settled. */
  ghost predicate Strung(c: Ctx)
    reads CtxNodes(c)
  {
    forall x | x in CtxNodes(c) ::
      && (x != Par(c) || !c.left ==> x.spLeft == CellOf(Plug(c, Leaf), null, x).left)
      && (x != Par(c) || c.left ==> x.spRight == CellOf(Plug(c, Leaf), null, x).right)
  }

  class SplayHead {
    var root: Node?
    ghost var tree: Tree
    ghost var repr: set<Node>

    ghost predicate Valid()
      reads this, repr
    {
      Nodes(tree) == repr && Sep(tree) && Tied(tree) && root == RootOf(tree) && Sorted(Inorder(tree))
    }

    /** The elements, in key order. */
    ghost function Elems(): seq<Node>
      reads this
    {
      Inorder(tree)
    }

    constructor ()
      ensures Valid() && repr == {} && Elems() == []
    {
      root, tree, repr := null, Leaf, {};
    }

    /** During a splay: the spines lc and rc hang from header, the rest t from the root. */
    ghost predicate Open(header: Node, lc: Ctx, t: Tree, rc: Ctx)
      reads this, header, Nodes(t), CtxNodes(lc), CtxNodes(rc)
    {
      && t.Bin? && root == t.n && Tied(t) && Strung(lc) && Strung(rc)
      && (lc.In? ==> header.spRight == RootOf(Plug(lc, Leaf)) && !lc.left)
      && (rc.In? ==> header.spLeft == RootOf(Plug(rc, Leaf)) && rc.left)
    }

    /** Turns the child tmp on the side left up to the root. */
    method Rotate(left: bool, tmp: Node, ghost t: Tree)
      requires t.Bin? && Sep(t) && Tied(t) && root == t.n && tmp == RootOf(Kid(left, t)) && Nodes(t) <= repr
      modifies `root, root, tmp
      ensures Tied(Turn(left, t)) && root == tmp && Turn(left, t).n == tmp
    {
      TurnKeeps(left, t);
      ghost var e, k := root, Kid(left, t);
      assert tmp in Nodes(k) && tmp in Nodes(t) && e in Nodes(t) && tmp != e && Has(tmp, CellOf(t, null, tmp));
      KidLinks(left, t, tmp);
      if left {
        root.spLeft := tmp.spRight;
        tmp.spRight := root;
      } else {
        root.spRight := tmp.spLeft;
        tmp.spLeft := root;
      }
      root := tmp;
      forall x | x in repr && x in Nodes(t)
        ensures Has(x, CellOf(Turn(left, t), null, x))
      {
        assert old(Has(x, CellOf(t, null, x)));
        TurnLinks(left, t, x);
      }
    }

    /** Moves the root, with its right subtree, to the end of the right spine. */
    method LinkLeft(right: Node, ghost header: Node, ghost lc: Ctx, ghost t: Tree, ghost rc: Ctx) returns (right': Node)
      requires Parted(header, lc, t, rc) && Open(header, lc, t, rc) && t.l.Bin?
      requires right == if rc.Top? then header else rc.n
      modifies `root, right`spLeft
      ensures Open(header, lc, t.l, Push(true, rc, t)) && right' == t.n
    {
      PushLinks(true, rc, t);
      assert Has(root, CellOf(t, null, root));
      right.spLeft := root;
      right' := root;
      root := root.spLeft;
      forall x | x in Nodes(t.l)
        ensures Has(x, CellOf(t.l, null, x))
      {
        assert Has(x, CellOf(t, null, x));
        KidLinks(true, t, x);
      }
    }
  
    /** Moves the root, with its left subtree, to the end of the left spine. */
    method LinkRight(left: Node, ghost header: Node, ghost lc: Ctx, ghost t: Tree, ghost rc: Ctx) returns (left': Node)
      requires Parted(header, lc, t, rc) && Open(header, lc, t, rc) && t.r.Bin?
      requires left == if lc.Top? then header else lc.n
      modifies `root, left`spRight
      ensures Open(header, Push(false, lc, t), t.r, rc) && left' == t.n
    {
      PushLinks(false, lc, t);
      assert Has(root, CellOf(t, null, root));
      left.spRight := root;
      left' := root;
      root := root.spRight;
      forall x | x in Nodes(t.r)
        ensures Has(x, CellOf(t.r, null, x))
      {
        assert Has(x, CellOf(t, null, x));
        KidLinks(false, t, x);
      }
    }

    /** Hangs x from the open end of the left spine. */
    method HookRight(end: Node, x: Node?, ghost c: Ctx, ghost t: Tree)
      requires Strung(c) && Tied(t) && Apart(c, t) && x == RootOf(t)
      requires if c.Top? then end !in Nodes(t) else end == c.n && !c.left
      modifies end`spRight
      ensures Tied(Plug(c, t)) && end.spRight == x && RootOf(Plug(c, t)) == if c.Top? then x else RootOf(Plug(c, Leaf))
    {
      FillLinks(c, t);
      end.spRight := x;
    }

    /** Hangs x from the open end of the right spine. */
    method HookLeft(end: Node, x: Node?, ghost c: Ctx, ghost t: Tree)
      requires Strung(c) && Tied(t) && Apart(c, t) && x == RootOf(t)
      requires if c.Top? then end !in Nodes(t) else end == c.n && c.left
      modifies end`spLeft
      ensures Tied(Plug(c, t)) && end.spLeft == x && RootOf(Plug(c, t)) == if c.Top? then x else RootOf(Plug(c, Leaf))
    {
      FillLinks(c, t);
      end.spLeft := x;
    }

    /** Hangs the subtrees of the root from the spines. */
    method Close(header: Node, left: Node, right: Node, ghost lc: Ctx, ghost t: Tree, ghost rc: Ctx)
      requires Parted(header, lc, t, rc) && Open(header, lc, t, rc)
      requires CtxNodes(lc) + Nodes(t) + CtxNodes(rc) == repr
      requires left == if lc.Top? then header else lc.n
      requires right == if rc.Top? then header else rc.n
      modifies left`spRight, right`spLeft
      ensures Tied(Plug(lc, t.l)) && Tied(Plug(rc, t.r))
      ensures header.spRight == RootOf(Plug(lc, t.l)) && header.spLeft == RootOf(Plug(rc, t.r))
    {
      AssembledParts(header, lc, t, rc);
      Unbind(t);
      ghost var A := Plug(lc, t.l);
      assert Nodes(t.r) <= Nodes(t) <= repr && Nodes(A) <= repr && CtxNodes(rc) <= repr && Nodes(t.l) <= Nodes(t);
      assert left !in Nodes(t) && right !in Nodes(t) && left !in CtxNodes(rc) && right !in Nodes(A);
      HookRight(left, root.spLeft, lc, t.l);
      assert Tied(t.r) && Strung(rc);
      HookLeft(right, root.spRight, rc, t.r);
      assert Tied(A);
    }

    /** Hangs the spines from the root. */
    method Assemble(header: Node, left: Node, right: Node, ghost lc: Ctx, ghost t: Tree, ghost rc: Ctx)
      requires Parted(header, lc, t, rc) && Open(header, lc, t, rc)
      requires CtxNodes(lc) + Nodes(t) + CtxNodes(rc) == repr
      requires left == if lc.Top? then header else lc.n
      requires right == if rc.Top? then header else rc.n
      modifies left`spRight, right`spLeft, root
      ensures Tied(Assembled(lc, t, rc)) && root == t.n
      ensures repr == old(repr) && tree == old(tree)
    {
      AssembledParts(header, lc, t, rc);
      ghost var A, B := Plug(lc, t.l), Plug(rc, t.r);
      assert Nodes(A) <= repr && Nodes(B) <= repr && t.n !in Nodes(A) && t.n !in Nodes(B) && t.n != header;
      Close(header, left, right, lc, t, rc);
      root.spLeft := header.spRight;
      root.spRight := header.spLeft;
      assert Tied(A) && Tied(B);
      Bind(Assembled(lc, t, rc));
    }

    /** A splay for key is under way, with the ends left and right of the spines. */
    ghost predicate Going(header: Node, left: Node, right: Node, lc: Ctx, t: Tree, rc: Ctx, key: nat)
      reads this, header, repr
    {
      && CtxNodes(lc) + Nodes(t) + CtxNodes(rc) == repr && Parted(header, lc, t, rc)
      && Open(header, lc, t, rc) && Closing(lc, t, rc, key, Inorder(tree))
      && left == (if lc.Top? then header else lc.n) && right == (if rc.Top? then header else rc.n)
    }

    method TurnUp(lo: bool, tmp: Node, header: Node, left: Node, right: Node, key: nat,
                  ghost lc: Ctx, ghost t: Tree, ghost rc: Ctx)
      requires Going(header, left, right, lc, t, rc, key) && tmp == RootOf(Kid(lo, t))
      requires if lo then key < tmp.nodeid else tmp.nodeid < key
      modifies `root, root, tmp
      ensures Going(header, left, right, lc, Turn(lo, t), rc, key)
      ensures repr == old(repr) && tree == old(tree)
    {
      CloseTurn(lo, lc, t, rc, key, Inorder(tree));
      TurnParts(lo, header, lc, t, rc);
      assert CtxNodes(lc) <= repr && CtxNodes(rc) <= repr;
      Rotate(lo, tmp, t);
      assert Strung(lc) && Strung(rc);
    }

    method PassLeft(header: Node, left: Node, right: Node, key: nat, ghost lc: Ctx, ghost t: Tree, ghost rc: Ctx)
      returns (right': Node)
      requires Going(header, left, right, lc, t, rc, key) && t.l.Bin? && key < t.n.nodeid
      modifies `root, right`spLeft
      ensures Going(header, left, right', lc, t.l, Push(true, rc, t), key)
      ensures repr == old(repr) && tree == old(tree)
    {
      CloseLeft(lc, t, rc, key, Inorder(tree));
      PushParts(true, rc, t);
      right' := LinkLeft(right, header, lc, t, rc);
    }

    method PassRight(header: Node, left: Node, right: Node, key: nat, ghost lc: Ctx, ghost t: Tree, ghost rc: Ctx)
      returns (left': Node)
      requires Going(header, left, right, lc, t, rc, key) && t.r.Bin? && t.n.nodeid < key
      modifies `root, left`spRight
      ensures Going(header, left', right, Push(false, lc, t), t.r, rc, key)
      ensures repr == old(repr) && tree == old(tree)
    {
      CloseRight(lc, t, rc, key, Inorder(tree));
      PushParts(false, lc, t);
      left' := LinkRight(left, header, lc, t, rc);
    }

    method Finish(header: Node, left: Node, right: Node, key: nat, ghost lc: Ctx, ghost t: Tree, ghost rc: Ctx)
      requires Going(header, left, right, lc, t, rc, key)
      requires (key < t.n.nodeid ==> t.l.Leaf?) && (t.n.nodeid < key ==> t.r.Leaf?)
      modifies this, repr, header
      ensures Valid() && repr == old(repr) && Elems() == old(Elems())
      ensures Divided(tree, key) && forall x | x in repr && x.nodeid == key :: x == root
    {
      AssembledDivides(lc, t, rc, key, Inorder(tree));
      AssembledParts(header, lc, t, rc);
      assert root in Nodes(t) && (lc.In? ==> lc.n in CtxNodes(lc)) && (rc.In? ==> rc.n in CtxNodes(rc));
      Assemble(header, left, right, lc, t, rc);
      tree := Assembled(lc, t, rc);
      AtRoot(tree, key);
    }

    /** One turn of the loop, for a key below the root's. stop: the loop breaks. */
    method GoLeft(header: Node, left: Node, right: Node, key: nat, ghost lc: Ctx, ghost t: Tree, ghost rc: Ctx)
      returns (stop: bool, right': Node, ghost t': Tree, ghost rc': Ctx)
      requires Going(header, left, right, lc, t, rc, key) && key < t.n.nodeid
      modifies `root, repr, header
      ensures Going(header, left, right', lc, t', rc', key) && repr == old(repr) && tree == old(tree)
      ensures if stop then key < t'.n.nodeid && t'.l.Leaf? else t' < t
    {
      stop, right', t', rc' := true, right, t, rc;
      Unbind(t);
      var tmp := root.spLeft;
      if tmp == null {
        return;
      }
      if key < tmp.nodeid {
        TurnUp(true, tmp, header, left, right, key, lc, t, rc);
        t' := Turn(true, t);
        Unbind(t');
        if root.spLeft == null {
          return;
        }
      }
      right' := PassLeft(header, left, right, key, lc, t', rc);
      stop, rc', t' := false, Push(true, rc, t'), t'.l;
    }

    /** One turn of the loop, for a key above the root's. stop: the loop breaks. */
    method GoRight(header: Node, left: Node, right: Node, key: nat, ghost lc: Ctx, ghost t: Tree, ghost rc: Ctx)
      returns (stop: bool, left': Node, ghost t': Tree, ghost lc': Ctx)
      requires Going(header, left, right, lc, t, rc, key) && t.n.nodeid < key
      modifies `root, repr, header
      ensures Going(header, left', right, lc', t', rc, key) && repr == old(repr) && tree == old(tree)
      ensures if stop then t'.n.nodeid < key && t'.r.Leaf? else t' < t
    {
      stop, left', t', lc' := true, left, t, lc;
      Unbind(t);
      var tmp := root.spRight;
      if tmp == null {
        return;
      }
      if key > tmp.nodeid {
        TurnUp(false, tmp, header, left, right, key, lc, t, rc);
        t' := Turn(false, t);
        Unbind(t');
        if root.spRight == null {
          return;
        }
      }
      left' := PassRight(header, left, right, key, lc, t', rc);
      stop, lc', t' := false, Push(false, lc, t'), t'.r;
    }

    /** Moves a node whose key is as near to key as there is to the root. */
    method Splay(key: nat)
      requires Valid() && root != null
      modifies this, repr
      ensures Valid() && repr == old(repr) && Elems() == old(Elems())
      ensures Divided(tree, key) && forall x | x in repr && x.nodeid == key :: x == root
    {
      var node := new Node(0);
      var left, right := node, node;
      ghost var lc, t, rc := Top, tree, Top;
      var stop := false;
      while !stop && root.nodeid != key
        invariant repr == old(repr) && tree == old(tree) && fresh(node)
        invariant Going(node, left, right, lc, t, rc, key)
        invariant stop && key < t.n.nodeid ==> t.l.Leaf?
        invariant stop && t.n.nodeid < key ==> t.r.Leaf?
        decreases !stop, t
      {
        if key < root.nodeid {
          stop, right, t, rc := GoLeft(node, left, right, key, lc, t, rc);
        } else {
          stop, left, t, lc := GoRight(node, left, right, key, lc, t, rc);
        }
      }
      Finish(node, left, right, key, lc, t, rc);
    }

    /** SPLAY_FIND: the element with this key, which becomes the root; null if there is none. */
    method Find(key: nat) returns (r: Node?)
      requires Valid()
      modifies this, repr
      ensures Valid() && repr == old(repr) && Elems() == old(Elems())
      ensures r != null ==> r == root && r in repr && r.nodeid == key
      ensures r == null ==> forall x | x in repr :: x.nodeid != key
    {
      if root == null {
        return null;
      }
      Splay(key);
      r := if root.nodeid == key then root else null;
    }

    /** Puts elm, whose key lies on the side left of the root's, above the root. */
    method Grow(left: bool, elm: Node)
      requires Valid() && Divided(tree, elm.nodeid) && elm !in repr
      requires left == (elm.nodeid < root.nodeid) && elm.nodeid != root.nodeid
      modifies this, root, elm
      ensures Valid() && root == elm && repr == old(repr) + {elm} && Without(Elems(), elm, old(Elems()))
    {
      ghost var t := tree;
      Unbind(t);
      GrownApart(left, t, elm);
      GrownFits(left, t, elm);
      assert Nodes(t.l) <= repr && Nodes(t.r) <= repr;
      if left {
        elm.spLeft := root.spLeft;
        elm.spRight := root;
        root.spLeft := null;
        Bind(t.(l := Leaf));
      } else {
        elm.spRight := root.spRight;
        elm.spLeft := root;
        root.spRight := null;
        Bind(t.(r := Leaf));
      }
      root := elm;
      tree, repr := Grown(left, t, elm), repr + {elm};
      Bind(tree);
    }

    /** Returns the node that already has elm's key, or null after adding elm, which becomes the root. */
    method Insert(elm: Node) returns (r: Node?)
      requires Valid()
      modifies this, repr, elm
      ensures Valid()
      ensures r != null ==> r in old(repr) && r.nodeid == elm.nodeid && repr == old(repr) && Elems() == old(Elems())
      ensures r == null ==> forall x | x in old(repr) :: x.nodeid != elm.nodeid
      ensures r == null ==> repr == old(repr) + {elm} && Without(Elems(), elm, old(Elems())) && root == elm
    {
      if root == null {
        PutFirst(elm);
        return null;
      }
      Splay(elm.nodeid);
      if elm.nodeid == root.nodeid {
        return root;
      }
      Grow(elm.nodeid < root.nodeid, elm);
      r := null;
    }

    method PutFirst(elm: Node)
      requires Valid() && root == null
      modifies this, elm
      ensures Valid() && root == elm && repr == {elm} && Without(Elems(), elm, [])
    {
      elm.spLeft, elm.spRight := null, null;
      root := elm;
      tree, repr := Bin(Leaf, elm, false, Leaf), {elm};
      assert Elems() == [elm] && Elems()[..0] + Elems()[1..] == [];
    }

    /** Takes out the element with elm's key, if there is one, and then returns elm. */
    method Remove(elm: Node) returns (r: Node?)
      requires Valid()
      modifies this, repr
      ensures Valid()
      ensures r == null ==>
        repr == old(repr) && Elems() == old(Elems()) && forall x | x in repr :: x.nodeid != elm.nodeid
      ensures r != null ==> r == elm && exists x | x in old(repr) ::
        x.nodeid == elm.nodeid && repr == old(repr) - {x} && Without(old(Elems()), x, Elems())
    {
      if root == null {
        return null;
      }
      Splay(elm.nodeid);
      if elm.nodeid != root.nodeid {
        return null;
      }
      CutRoot(elm.nodeid);
      r := elm;
    }

    /** Takes the root, which has this key, out. */
    method CutRoot(key: nat)
      requires Valid() && Divided(tree, key) && root.nodeid == key
      modifies this, repr
      ensures Valid() && repr == old(repr) - {old(root)} && Without(old(Elems()), old(root), Elems())
    {
      ghost var t := tree;
      Unbind(t);
      if root.spLeft == null {
        RootTakenOut(t, Leaf);
        root := root.spRight;
        tree, repr := t.r, Nodes(t.r);
      } else {
        var tmp := root.spRight;
        DropRoot(key);
        assert Tied(t.r);
        TakeUp(tmp, t.r);
        RootTakenOut(t, tree.(r := Leaf));
      }
    }

    /** Leaves only the left part of the tree, splayed for the key of the old root. */
    method DropRoot(key: nat)
      requires Valid() && Divided(tree, key) && root.nodeid == key && tree.l.Bin?
      modifies this, Nodes(tree.l)
      ensures Valid() && repr == Nodes(old(tree).l) && tree.Bin? && tree.r.Leaf?
      ensures Elems() == Inorder(old(tree).l)
    {
      ghost var t := tree;
      Unbind(t);
      SplitOut(Inorder(t.l), t.n, Inorder(t.r));
      SortedLeft(Inorder(t.l) + [t.n], Inorder(t.r));
      SortedLeft(Inorder(t.l), [t.n]);
      root := root.spLeft;
      tree, repr := t.l, Nodes(t.l);
      Splay(key);
      NothingRight(tree, key);
    }

    method TakeUp(tmp: Node?, ghost r: Tree)
      requires Valid() && tree.Bin? && tree.r.Leaf? && Sep(r) && Nodes(r) !! repr && Tied(r) && tmp == RootOf(r)
      modifies this, root
      ensures tree == old(tree).(r := r) && Sep(tree) && Tied(tree) && root == old(root) && repr == old(repr) + Nodes(r)
    {
      Unbind(tree);
      root.spRight := tmp;
      tree := tree.(r := r);
      repr := repr + Nodes(r);
      Bind(tree);
    }
  }

  lemma Unbind(t: Tree)
    requires t.Bin? && Sep(t) && Tied(t)
    ensures Tied(t.l) && Tied(t.r) && t.n.spLeft == RootOf(t.l) && t.n.spRight == RootOf(t.r)
  {
    assert Has(t.n, CellOf(t, null, t.n));
    forall left, x | x in Nodes(Kid(left, t))
      ensures Has(x, CellOf(Kid(left, t), null, x))
    {
      assert Has(x, CellOf(t, null, x));
      KidLinks(left, t, x);
    }
    assert Kid(true, t) == t.l && Kid(false, t) == t.r;
  }

  lemma Bind(t: Tree)
    requires t.Bin? && Sep(t) && Tied(t.l) && Tied(t.r) && t.n.spLeft == RootOf(t.l) && t.n.spRight == RootOf(t.r)
    ensures Tied(t)
  {
    forall x | x in Nodes(t)
      ensures Has(x, CellOf(t, null, x))
    {
      if x != t.n {
        KidLinks(x in Nodes(t.l), t, x);
      }
    }
  }
}
