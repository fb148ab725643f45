/** Search order: the in-order sequence of a tree, and where a key stands in it. */
module RbOrder {
  import opened Elements
  import opened RbColour
  import opened TreeShape

  /** The key, if it is anywhere in the tree, is in t: the search has gone the right way. */
  ghost predicate OnPath(c: Ctx, t: Tree, key: nat) {
    Below(Before(c), key) && Above(After(c), key) && Sorted(Inorder(Plug(c, t)))
  }

  lemma PathDown(c: Ctx, t: Tree, key: nat)
    requires OnPath(c, t, key) && t.Bin?
    ensures key < t.n.nodeid ==> OnPath(Down(c, t, true), t.l, key)
    ensures key > t.n.nodeid ==> OnPath(Down(c, t, false), t.r, key)
  {
    PlugInorder(c, t);
    var a, b := Before(c) + Inorder(t.l), Inorder(t.r) + After(c);
    AssocTwo(Before(c), Inorder(t.l), [t.n], Inorder(t.r), After(c));
    SplitOut(a, t.n, b);
    PlugInorder(Down(c, t, true), t.l);
    PlugInorder(Down(c, t, false), t.r);
    assert Plug(Down(c, t, true), t.l) == Plug(c, t) == Plug(Down(c, t, false), t.r);
    if key < t.n.nodeid {
      assert After(Down(c, t, true)) == [t.n] + Inorder(t.r) + After(c);
    }
    if key > t.n.nodeid {
      assert Before(Down(c, t, false)) == Before(c) + Inorder(t.l) + [t.n];
    }
  }

  /** At a leaf, the key is nowhere in the tree. */
  lemma PathEnd(c: Ctx, key: nat)
    requires OnPath(c, Leaf, key)
    ensures forall x | x in Nodes(Plug(c, Leaf)) :: x.nodeid != key
  {
    PlugInorder(c, Leaf);
    forall x | x in Nodes(Plug(c, Leaf))
      ensures x.nodeid != key
    {
      InorderNodes(Plug(c, Leaf), x);
    }
  }

  /** A node with the key fits right where the search ended. */
  lemma PathFits(c: Ctx, n: Node, red: bool)
    requires OnPath(c, Leaf, n.nodeid)
    ensures Inorder(Plug(c, Bin(Leaf, n, red, Leaf))) == Before(c) + [n] + After(c)
    ensures Inorder(Plug(c, Leaf)) == Before(c) + After(c)
    ensures Sorted(Before(c) + [n] + After(c))
  {
    PlugInorder(c, Leaf);
    PlugInorder(c, Bin(Leaf, n, red, Leaf));
    assert Inorder(Bin(Leaf, n, red, Leaf)) == [n];
    assert Before(c) + [] + After(c) == Before(c) + After(c);
    SplitIn(Before(c), n, After(c));
  }

  // ----- neighbours in key order

  /** Around the root of t, in the whole sequence: before it and after it. */
  lemma Neighbours(c: Ctx, t: Tree)
    requires t.Bin?
    ensures Inorder(Plug(c, t)) == (Before(c) + Inorder(t.l)) + [t.n] + (Inorder(t.r) + After(c))
  {
    PlugInorder(c, t);
    AssocTwo(Before(c), Inorder(t.l), [t.n], Inorder(t.r), After(c));
  }

  // ----- height

  ghost function Height(t: Tree): nat {
    if t.Leaf? then 0
    else 1 + if Height(t.l) > Height(t.r) then Height(t.l) else Height(t.r)
  }

  ghost function Pow2(k: nat): nat {
    if k == 0 then 1 else 2 * Pow2(k - 1)
  }

  lemma {:induction false} Pow2Mono(j: nat, k: nat)
    requires j <= k
    ensures Pow2(j) <= Pow2(k)
  {
    if j < k {
      Pow2Mono(j, k - 1);
    }
  }

  lemma {:induction false} Pow2Square(k: nat)
    ensures Pow2(2 * k) == Pow2(k) * Pow2(k)
  {
    if k > 0 {
      Pow2Square(k - 1);
      assert Pow2(2 * k) == 2 * Pow2(2 * k - 1) == 4 * Pow2(2 * (k - 1));
    }
  }

  lemma SquareMono(a: nat, b: nat)
    requires a <= b
    ensures a * a <= b * b
  {
  }

  lemma {:induction false} HeightAndSize(t: Tree, h: nat)
    requires NoRedRed(t) && Balanced(t, h)
    ensures Height(t) <= 2 * h + if IsRed(t) then 1 else 0
    ensures Pow2(h) <= |Inorder(t)| + 1
  {
    if t.Bin? {
      var k := if t.red then h else h - 1;
      HeightAndSize(t.l, k);
      HeightAndSize(t.r, k);
    }
  }

  /** The maximum height of a red-black tree with n nodes is 2 lg(n + 1). */
  lemma HeightBound(t: Tree)
    requires RedBlack(t)
    ensures Pow2(Height(t)) <= (|Inorder(t)| + 1) * (|Inorder(t)| + 1)
  {
    var h, n := BlackHeight(t), |Inorder(t)| + 1;
    HeightAndSize(t, h);
    Pow2Mono(Height(t), 2 * h);
    Pow2Square(h);
    SquareMono(Pow2(h), n);
  }
}
