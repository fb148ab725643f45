/** The elements that the trees of compat/tree.h link together, and sequences of them in key order. */
module Elements {

  /** One element of the tree: its key, its RB_ENTRY fields and its SPLAY_ENTRY fields. */
  class Node {
    const nodeid: nat
    var left: Node?
    var right: Node?
    var parent: Node?
    var red: bool
    var spLeft: Node?
    var spRight: Node?

    constructor (nodeid: nat)
      ensures this.nodeid == nodeid
    {
      this.nodeid := nodeid;
      left, right, parent, red := null, null, null, true;
      spLeft, spRight := null, null;
    }
  }

  ghost predicate Sorted(s: seq<Node>) {
    forall i, j | 0 <= i < j < |s| :: s[i].nodeid < s[j].nodeid
  }

  ghost predicate Below(s: seq<Node>, key: nat) {
    forall x | x in s :: x.nodeid < key
  }

  ghost predicate Above(s: seq<Node>, key: nat) {
    forall x | x in s :: key < x.nodeid
  }

  lemma SplitOut(a: seq<Node>, n: Node, b: seq<Node>)
    requires Sorted(a + [n] + b)
    ensures Below(a, n.nodeid) && Above(b, n.nodeid)
  {
    var s := a + [n] + b;
    assert s[|a|] == n;
    forall x | x in a
      ensures x.nodeid < n.nodeid
    {
      var i :| 0 <= i < |a| && a[i] == x;
      assert s[i] == x;
    }
    forall x | x in b
      ensures n.nodeid < x.nodeid
    {
      var i :| 0 <= i < |b| && b[i] == x;
      assert s[|a| + 1 + i] == x;
    }
  }

  lemma SplitIn(a: seq<Node>, n: Node, b: seq<Node>)
    requires Sorted(a + b) && Below(a, n.nodeid) && Above(b, n.nodeid)
    ensures Sorted(a + [n] + b)
  {
    var s, q := a + b, a + [n] + b;
    forall i, j | 0 <= i < j < |q|
      ensures q[i].nodeid < q[j].nodeid
    {
      var i', j' := if i < |a| then i else i - 1, if j < |a| then j else j - 1;
      assert i < |a| ==> q[i] == a[i] == s[i];
      assert i > |a| ==> q[i] == b[i'- |a|] == s[i'];
      assert j < |a| ==> q[j] == a[j] == s[j];
      assert j > |a| ==> q[j] == b[j'- |a|] == s[j'];
    }
  }

  lemma SortedLeft(a: seq<Node>, b: seq<Node>)
    requires Sorted(a + b)
    ensures Sorted(a)
  {
    assert forall i | 0 <= i < |a| :: a[i] == (a + b)[i];
  }

  /** Taking an element out keeps the order. */
  lemma SplitOff(a: seq<Node>, n: Node, b: seq<Node>)
    requires Sorted(a + [n] + b)
    ensures Sorted(a + b) && n !in a && n !in b
  {
    var s, q := a + [n] + b, a + b;
    SplitOut(a, n, b);
    forall i, j | 0 <= i < j < |q|
      ensures q[i].nodeid < q[j].nodeid
    {
      assert i < |a| ==> q[i] == a[i] == s[i];
      assert i >= |a| ==> q[i] == b[i - |a|] == s[i + 1];
      assert j < |a| ==> q[j] == a[j] == s[j];
      assert j >= |a| ==> q[j] == b[j - |a|] == s[j + 1];
    }
  }

  /** s' is s without x. */
  ghost predicate Without(s: seq<Node>, x: Node, s': seq<Node>) {
    Sorted(s') && exists i | 0 <= i < |s| :: s[i] == x && s' == s[..i] + s[i + 1..]
  }

  lemma TakeOut(a: seq<Node>, x: Node, b: seq<Node>)
    requires Sorted(a + [x] + b)
    ensures Without(a + [x] + b, x, a + b)
  {
    SplitOff(a, x, b);
    var s := a + [x] + b;
    assert s[|a|] == x && s[..|a|] == a && s[|a| + 1..] == b;
  }

  lemma PutIn(a: seq<Node>, x: Node, b: seq<Node>)
    requires Sorted(a + b) && Below(a, x.nodeid) && Above(b, x.nodeid)
    ensures Sorted(a + [x] + b) && Without(a + [x] + b, x, a + b)
  {
    SplitIn(a, x, b);
    TakeOut(a, x, b);
  }

  lemma Distinct(s: seq<Node>, i: nat, j: nat)
    requires Sorted(s) && i < |s| && j < |s|
    ensures s[i] == s[j] ==> i == j
  {
  }

  /** Adding a node and taking it out again leaves the elements as they were. */
  lemma WithoutUnique(s: seq<Node>, x: Node, a: seq<Node>, b: seq<Node>)
    requires Sorted(s) && Without(s, x, a) && Without(s, x, b)
    ensures a == b
  {
    var i :| 0 <= i < |s| && s[i] == x && a == s[..i] + s[i + 1..];
    var j :| 0 <= j < |s| && s[j] == x && b == s[..j] + s[j + 1..];
    Distinct(s, i, j);
  }

  /** In a sorted sequence a node stands at one place only. */
  lemma OnePlace(a: seq<Node>, x: Node, b: seq<Node>, i: nat)
    requires Sorted(a + [x] + b) && i < |a + [x] + b| && (a + [x] + b)[i] == x
    ensures i == |a|
  {
    var s := a + [x] + b;
    assert s[|a|] == x;
    Distinct(s, i, |a|);
  }

  function First(s: seq<Node>): Node? {
    if s == [] then null else s[0]
  }

  function Last(s: seq<Node>): Node? {
    if s == [] then null else s[|s| - 1]
  }

  lemma AssocL<T>(b: seq<T>, x: seq<T>, n: seq<T>, r: seq<T>, a: seq<T>)
    ensures b + (x + n + r) + a == b + x + (n + r + a)
  {
  }

  lemma AssocR<T>(b: seq<T>, l: seq<T>, n: seq<T>, x: seq<T>, a: seq<T>)
    ensures b + (l + n + x) + a == b + l + n + x + a
  {
  }

  lemma AssocFive<T>(a: seq<T>, b: seq<T>, c: seq<T>, d: seq<T>, e: seq<T>)
    ensures a + b + (c + d + e) == a + b + c + d + e
  {
  }

  lemma AssocTwo<T>(b: seq<T>, l: seq<T>, n: seq<T>, r: seq<T>, a: seq<T>)
    ensures b + (l + n + r) + a == (b + l) + n + (r + a)
  {
  }
}
