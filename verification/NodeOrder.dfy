/** The order in which several file nodes are locked, and the list that fusefs_lockfour builds by merging. */
module NodeOrder {
  import opened Lists
  import opened Merge

  /** The parts of a fusenode that locking uses. addr is its address. */
  class Fusenode {
    const addr: nat
    const nodeid: nat
    const parentNodeid: nat
    var noexists: bool   // C_NOEXISTS
    var holds: nat       // how often the running thread has nodelock
    var owner: Owner     // nodelockowner

    constructor (addr: nat, nodeid: nat, parentNodeid: nat)
      ensures this.addr == addr && this.nodeid == nodeid && this.parentNodeid == parentNodeid
      ensures holds == 0 && owner.Nobody? && !noexists
    {
      this.addr, this.nodeid, this.parentNodeid := addr, nodeid, parentNodeid;
      noexists, holds, owner := false, 0, Nobody;
    }
  }

  datatype Owner = Nobody | Shared | Self

  /** A fusenode_t: NULL, a node, or the sentinel 0xffffffff. */
  datatype Ptr = Null | Ref(n: Fusenode) | Sentinel

  /** fusefs_isordered. */
  predicate Ordered(p: Ptr, q: Ptr) {
    if p == q then false
    else if p.Null? || q.Sentinel? then true
    else if q.Null? || p.Sentinel? then false
    else if p.n.nodeid == q.n.parentNodeid then true
    else if q.n.nodeid == p.n.parentNodeid then false
    else p.n.addr < q.n.addr
  }

  /** Different nodes have different addresses. */
  predicate Placed(p: Ptr, q: Ptr) {
    p.Ref? && q.Ref? && p != q ==> p.n.addr != q.n.addr
  }

  /** Two nodes are each other's parents. */
  predicate Mutual(p: Ptr, q: Ptr) {
    p.Ref? && q.Ref? && p != q && p.n.nodeid == q.n.parentNodeid && q.n.nodeid == p.n.parentNodeid
  }

  /** Two nodes may be locked together. */
  predicate Compatible(p: Ptr, q: Ptr) {
    Placed(p, q) && !Mutual(p, q)
  }

  /** Of two different compatible nodes just one may go first. */
  lemma OneFirst(p: Ptr, q: Ptr)
    requires Compatible(p, q) && p != q
    ensures Ordered(p, q) <==> !Ordered(q, p)
  {
  }

  ghost predicate AllCompatible(p1: Ptr, p2: Ptr, p3: Ptr, p4: Ptr) {
    && Compatible(p1, p2) && Compatible(p1, p3) && Compatible(p1, p4)
    && Compatible(p2, p3) && Compatible(p2, p4) && Compatible(p3, p4)
  }

  lemma CompatibleStrict(p1: Ptr, p2: Ptr, p3: Ptr, p4: Ptr)
    requires AllCompatible(p1, p2, p3, p4)
    ensures AllStrict(Ordered, p1, p2, p3, p4)
  {
    forall p, q | p in {p1, p2, p3, p4} && q in {p1, p2, p3, p4} && p != q && Compatible(p, q)
      ensures Strict(Ordered, p, q)
    {
      OneFirst(p, q);
    }
  }

  /** Each of the four nodes is on the list of locks, once, even where the order is not transitive. */
  lemma LockListOnce(p1: Ptr, p2: Ptr, p3: Ptr, p4: Ptr)
    requires AllCompatible(p1, p2, p3, p4)
    ensures NoDup(Four(Ordered, p1, p2, p3, p4))
    ensures forall p :: p in Four(Ordered, p1, p2, p3, p4) <==> p == p1 || p == p2 || p == p3 || p == p4
  {
    CompatibleStrict(p1, p2, p3, p4);
    FourOnce(Ordered, p1, p2, p3, p4);
  }

  lemma Listed(q: Quad, p: Ptr)
    requires AllCompatible(q.p1, q.p2, q.p3, q.p4)
    ensures p in ListOf(q) <==> p == q.p1 || p == q.p2 || p == q.p3 || p == q.p4
  {
    LockListOnce(q.p1, q.p2, q.p3, q.p4);
  }

  /** Under a transitive order the list is sorted. */
  lemma LockListSorted(p1: Ptr, p2: Ptr, p3: Ptr, p4: Ptr)
    requires AllCompatible(p1, p2, p3, p4) && Transitive(Ordered, [p1, p2, p3, p4])
    ensures Sorted(Ordered, Four(Ordered, p1, p2, p3, p4))
  {
    CompatibleStrict(p1, p2, p3, p4);
    FourSorted(Ordered, p1, p2, p3, p4);
  }

  /** There no node is locked before its parent; of two nodes of which neither is the other's parent, the one with the
      lower address is locked first. */
  lemma ParentsFirst(p1: Ptr, p2: Ptr, p3: Ptr, p4: Ptr, i: nat, j: nat)
    requires AllCompatible(p1, p2, p3, p4) && Transitive(Ordered, [p1, p2, p3, p4])
    requires var s := Four(Ordered, p1, p2, p3, p4); i < j < |s| && s[i].Ref? && s[j].Ref?
    ensures var s := Four(Ordered, p1, p2, p3, p4);
      var m, n := s[i].n, s[j].n;
      m.parentNodeid != n.nodeid && (n.parentNodeid == m.nodeid || m.addr < n.addr)
  {
    LockListSorted(p1, p2, p3, p4);
    var s := Four(Ordered, p1, p2, p3, p4);
    assert Ordered(s[i], s[j]);
    NeitherParents(p1, p2, p3, p4, s[i], s[j]);
  }

  lemma NeitherParents(p1: Ptr, p2: Ptr, p3: Ptr, p4: Ptr, p: Ptr, q: Ptr)
    requires AllCompatible(p1, p2, p3, p4) && p != q
    requires p in Four(Ordered, p1, p2, p3, p4) && q in Four(Ordered, p1, p2, p3, p4)
    ensures !Mutual(p, q)
  {
    LockListOnce(p1, p2, p3, p4);
  }

  /** The four nodes of one caller. */
  datatype Quad = Quad(p1: Ptr, p2: Ptr, p3: Ptr, p4: Ptr)

  function ListOf(q: Quad): seq<Ptr> {
    Four(Ordered, q.p1, q.p2, q.p3, q.p4)
  }

  function ListsOf(quads: seq<Quad>): seq<seq<Ptr>> {
    seq(|quads|, u requires 0 <= u < |quads| => ListOf(quads[u]))
  }

  /** Where the order is transitive, any number of callers of fusefs_lockfour, each with some of its locks, never
      wait for each other in a circle. */
  lemma CallersNoCycle(all: seq<Ptr>, quads: seq<Quad>, got: seq<nat>, cycle: seq<nat>)
    requires Transitive(Ordered, all) && |cycle| > 0
    requires forall p, q | p in all && q in all :: Compatible(p, q)
    requires forall q | q in quads :: q.p1 in all && q.p2 in all && q.p3 in all && q.p4 in all
    ensures exists i | 0 <= i < |cycle| :: !WaitsAt(ListsOf(quads), got, cycle, i)
  {
    var lists := ListsOf(quads);
    forall u | 0 <= u < |lists|
      ensures Sorted(Ordered, lists[u]) && forall i | 0 <= i < |lists[u]| :: lists[u][i] in all
    {
      var q := quads[u];
      assert q in quads;
      var ps := [q.p1, q.p2, q.p3, q.p4];
      assert forall p | p in ps :: p in all;
      LockListSorted(q.p1, q.p2, q.p3, q.p4);
      LockListOnce(q.p1, q.p2, q.p3, q.p4);
      forall i | 0 <= i < |lists[u]|
        ensures lists[u][i] in all
      {
        var p := lists[u][i];
        Listed(q, p);
      }
    }
    SortedListsNoCycle(Ordered, all, lists, got, cycle);
  }

  /** Two directories that are each other's parents can be locked twice over. */
  lemma MutualParents(x: Fusenode, y: Fusenode)
    requires x != y && x.nodeid == y.parentNodeid && y.nodeid == x.parentNodeid
    ensures Four(Ordered, Ref(x), Ref(y), Ref(y), Ref(x)) == [Ref(x), Ref(y), Ref(x)]
  {
    var p, q := Ref(x), Ref(y);
    var a, b := [p, q], [q, p];
    assert Ordered(p, q) && Ordered(q, p);
    assert Pair(Ordered, p, q) == a && Pair(Ordered, q, p) == b;
    assert Taken(Ordered, a, b, 2, 1) == [p];
    assert Taken(Ordered, a, b, 1, 1) == [q] + [p];
    assert Taken(Ordered, a, b, 1, 0) == [q] + Taken(Ordered, a, b, 1, 1);
    assert Taken(Ordered, a, b, 0, 0) == [p, q, q, p];
    assert [p, q, q, p][1..] == [q, q, p] && [q, q, p][1..] == [q, p] && [q, p][1..] == [p];
    assert After(p, [p]) == [] by { assert [p][1..] == []; }
    assert After(q, [p]) == [p];
    assert After(q, [q, p]) == [p] && After(p, [q, q, p]) == [q] + [p];
  }

  /** Four arguments drawn from two nodes. */
  function Draw(x: Ptr, y: Ptr, a: bool, b: bool, c: bool, d: bool): Quad {
    Quad(if a then x else y, if b then x else y, if c then x else y, if d then x else y)
  }

  /** Of two nodes at different addresses, some four arguments drawn from them are listed with a repeat, so that one
      would be locked twice, if and only if they are each other's parents. */
  lemma TwiceIffMutualParents(x: Fusenode, y: Fusenode)
    requires x.addr != y.addr
    ensures (exists a, b, c, d :: !NoDup(ListOf(Draw(Ref(x), Ref(y), a, b, c, d))))
        <==> Mutual(Ref(x), Ref(y))
  {
    var p, q := Ref(x), Ref(y);
    if Mutual(p, q) {
      MutualParents(x, y);
      var four := Draw(p, q, true, false, false, true);
      assert ListOf(four)[0] == ListOf(four)[2];
      assert !NoDup(ListOf(four));
    } else {
      forall a, b, c, d
        ensures NoDup(ListOf(Draw(p, q, a, b, c, d)))
      {
        var four := Draw(p, q, a, b, c, d);
        LockListOnce(four.p1, four.p2, four.p3, four.p4);
      }
    }
  }

  /** Of any four nodes, one is listed twice only if two of them are each other's parents. */
  lemma TwiceNeedsMutual(q: Quad)
    requires Placed(q.p1, q.p2) && Placed(q.p1, q.p3) && Placed(q.p1, q.p4)
    requires Placed(q.p2, q.p3) && Placed(q.p2, q.p4) && Placed(q.p3, q.p4)
    requires !NoDup(ListOf(q))
    ensures Mutual(q.p1, q.p2) || Mutual(q.p1, q.p3) || Mutual(q.p1, q.p4)
         || Mutual(q.p2, q.p3) || Mutual(q.p2, q.p4) || Mutual(q.p3, q.p4)
  {
    if AllCompatible(q.p1, q.p2, q.p3, q.p4) {
      LockListOnce(q.p1, q.p2, q.p3, q.p4);
      assert false;
    }
  }

  /** The order need not be transitive: a parent goes before its child whatever their addresses. */
  lemma NotTransitive(x: Fusenode, y: Fusenode, z: Fusenode)
    requires x.addr < y.addr < z.addr && z.nodeid == x.parentNodeid && x.nodeid != z.parentNodeid
    requires x.nodeid != y.parentNodeid && y.nodeid != x.parentNodeid
    requires y.nodeid != z.parentNodeid && z.nodeid != y.parentNodeid
    ensures Ordered(Ref(x), Ref(y)) && Ordered(Ref(y), Ref(z)) && Ordered(Ref(z), Ref(x))
  {
  }
}
