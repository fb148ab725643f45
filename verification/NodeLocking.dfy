/** The locks of file nodes, one and four at a time. */
module NodeLocking {
  import opened Bytes
  import opened Lists
  import opened Merge
  import opened NodeOrder

  datatype LockType = SharedLock | ExclusiveLock | ForceLock

  function P(cp: Fusenode?): Ptr {
    if cp == null then Null else Ref(cp)
  }

  /** fusefs_unlock. */
  method Unlock(cp: Fusenode)
    requires cp.holds > 0
    modifies cp`owner, cp`holds
    ensures cp.holds == old(cp.holds) - 1 && cp.owner.Nobody?
  {
    cp.owner := Nobody;
    cp.holds := cp.holds - 1;
  }

  function OwnerOf(locktype: LockType): Owner {
    if locktype.SharedLock? then Shared else Self
  }

  /** fusefs_lock: a node that no longer exists is not locked, unless by force. order: the nodes whose locks have been
      asked for, one after the other. */
  method Lock(cp: Fusenode, locktype: LockType, ghost order: seq<Fusenode>)
    returns (error: int, ghost order': seq<Fusenode>)
    modifies cp`owner, cp`holds
    ensures error == if cp.noexists && !locktype.ForceLock? then ENOENT else 0
    ensures cp.holds == if error == 0 then old(cp.holds) + 1 else old(cp.holds)
    ensures error == 0 ==> cp.owner == if locktype.SharedLock? then Shared else Self
    ensures order' == order + [cp]
  {
    order' := order + [cp];
    cp.holds := cp.holds + 1;
    cp.owner := OwnerOf(locktype);
    error := 0;
    if !locktype.ForceLock? && cp.noexists {
      Unlock(cp);
      error := ENOENT;
    }
  }

  method OrderPair(p: Ptr, q: Ptr) returns (a: array<Ptr>)
    ensures fresh(a) && a.Length == 3 && a[..2] == Pair(Ordered, p, q) && a[2].Sentinel?
  {
    a := new Ptr[3](_ => Sentinel);
    if Ordered(p, q) {
      a[0], a[1] := p, q;
    } else {
      a[0], a[1] := q, p;
    }
    a[2] := Sentinel;
  }

  /** What the merge takes at positions i and j, and the positions after it. */
  method TakeNext(a: array<Ptr>, b: array<Ptr>, i: nat, j: nat, ghost s: seq<Ptr>, ghost t: seq<Ptr>)
    returns (tmp: Ptr, i': nat, j': nat)
    requires a.Length == 3 && b.Length == 3 && s == a[..2] && t == b[..2] && a[2].Sentinel? && b[2].Sentinel?
    requires Sentinel !in s && Sentinel !in t && i <= 2 && j <= 2 && i + j < 4
    ensures i' <= 2 && j' <= 2 && i' + j' == i + j + 1
    ensures Taken(Ordered, s, t, i, j) == [tmp] + Taken(Ordered, s, t, i', j')
  {
    TakenStep(Ordered, s, t, i, j);
    assert (i < 2 ==> a[i] == s[i]) && (j < 2 ==> b[j] == t[j]);
    if Ordered(a[i], b[j]) {
      tmp, i', j' := a[i], i + 1, j;
    } else {
      tmp, i', j' := b[j], i, j + 1;
    }
  }

  /** The list that fusefs_lockfour builds, in list[..k]. */
  method BuildList(p1: Ptr, p2: Ptr, p3: Ptr, p4: Ptr, list: array<Ptr>) returns (k: nat)
    requires list.Length == 4 && !p1.Sentinel? && !p2.Sentinel? && !p3.Sentinel? && !p4.Sentinel?
    modifies list
    ensures k <= 4 && list[..k] == Four(Ordered, p1, p2, p3, p4)
  {
    var a := OrderPair(p1, p2);
    var b := OrderPair(p3, p4);
    k := MergeLists(a, b, list, a[..2], b[..2]);
  }

  method MergeLists(a: array<Ptr>, b: array<Ptr>, list: array<Ptr>, ghost s: seq<Ptr>, ghost t: seq<Ptr>)
    returns (k: nat)
    requires a.Length == 3 && b.Length == 3 && s == a[..2] && t == b[..2] && a[2].Sentinel? && b[2].Sentinel?
    requires Sentinel !in s && Sentinel !in t && list.Length == 4 && list != a && list != b
    modifies list
    ensures k <= 4 && list[..k] == Squeeze(Taken(Ordered, s, t, 0, 0))
  {
    ghost var rest, all := Taken(Ordered, s, t, 0, 0), Squeeze(Taken(Ordered, s, t, 0, 0));
    var i, j := 0, 0;
    k := 0;
    while i < 2 || j < 2
      invariant i <= 2 && j <= 2 && k <= i + j && s == a[..2] && t == b[..2] && a[2].Sentinel? && b[2].Sentinel?
      invariant rest == Taken(Ordered, s, t, i, j) && Added(list[..k], rest) == all
      decreases 4 - i - j
    {
      var tmp;
      tmp, i, j := TakeNext(a, b, i, j, s, t);
      AddedStep(list[..k], tmp, Taken(Ordered, s, t, i, j));
      rest := Taken(Ordered, s, t, i, j);
      k := Append(list, k, tmp);
    }
    AddedNone(list[..k]);
  }

  /** Appends tmp to list[..k] unless it is the last one there. */
  method Append(list: array<Ptr>, k: nat, tmp: Ptr) returns (k': nat)
    requires k < list.Length
    modifies list
    ensures k' <= k + 1
    ensures list[..k'] == var l := old(list[..k]); if l != [] && l[|l| - 1] == tmp then l else l + [tmp]
  {
    k' := k;
    if k == 0 || tmp != list[k - 1] {
      list[k] := tmp;
      k' := k + 1;
    }
  }

  ghost function NodesOf(cp1: Fusenode?, cp2: Fusenode?, cp3: Fusenode?, cp4: Fusenode?): set<Fusenode> {
    (if cp1 == null then {} else {cp1}) + (if cp2 == null then {} else {cp2})
    + (if cp3 == null then {} else {cp3}) + (if cp4 == null then {} else {cp4})
  }

  /** The nodes of the list, in its order. */
  ghost function Nodes(s: seq<Ptr>): seq<Fusenode> {
    if s == [] then []
    else Nodes(s[..|s| - 1]) + if s[|s| - 1].Ref? then [s[|s| - 1].n] else []
  }

  lemma {:induction false} NodesPrefix(s: seq<Ptr>, i: nat)
    requires i <= |s|
    ensures Nodes(s[..i]) <= Nodes(s)
  {
    if i == |s| {
      assert s[..i] == s;
    } else {
      NodesPrefix(s[..|s| - 1], i);
      assert s[..|s| - 1][..i] == s[..i];
    }
  }

  /** The first i nodes of the list are locked, the others are not. */
  ghost predicate LockedUpTo(s: seq<Ptr>, i: nat, nodes: set<Fusenode>)
    reads nodes
  {
    && (forall p | p in s && p.Ref? :: p.n in nodes)
    && forall m | 0 <= m < |s| && s[m].Ref? :: s[m].n.holds == if m < i then 1 else 0
  }

  /** Drops the locks of the first i nodes of the list. */
  method DropLocks(list: array<Ptr>, i: nat, ghost k: nat, ghost nodes: set<Fusenode>)
    requires i <= k <= list.Length && NoDup(list[..k]) && LockedUpTo(list[..k], i, nodes)
    modifies nodes`owner, nodes`holds
    ensures LockedUpTo(list[..k], 0, nodes)
  {
    var i: nat := i;
    ghost var s := list[..k];
    while i > 0
      invariant i <= k && s == list[..k] && LockedUpTo(s, i, nodes)
    {
      i := i - 1;
      assert list[i] == s[i];
      if list[i].Ref? {
        assert s[i] in s;
        Unlock(list[i].n);
      }
    }
  }

  /** The first i nodes of the list, and no others of it, have been locked, in this order, with this owner. */
  ghost predicate Acquired(s: seq<Ptr>, i: nat, owner: Owner, order: seq<Fusenode>, nodes: set<Fusenode>)
    requires i <= |s|
    reads nodes
  {
    && LockedUpTo(s, i, nodes) && order == Nodes(s[..i])
    && forall m | 0 <= m < i && s[m].Ref? && s[m].n in nodes :: s[m].n.owner == owner
  }

  /** Locks the next node of the list, if it is one. */
  method LockNext(p: Ptr, locktype: LockType, ghost s: seq<Ptr>, ghost i: nat, ghost order: seq<Fusenode>,
                  ghost nodes: set<Fusenode>)
    returns (error: int, ghost order': seq<Fusenode>)
    requires i < |s| && s[i] == p && NoDup(s) && Acquired(s, i, OwnerOf(locktype), order, nodes)
    modifies nodes`owner, nodes`holds
    ensures error == if p.Ref? && p.n.noexists && !locktype.ForceLock? then ENOENT else 0
    ensures error == 0 ==> Acquired(s, i + 1, OwnerOf(locktype), order', nodes)
    ensures error != 0 ==> LockedUpTo(s, i, nodes) && order' == order + [p.n] == Nodes(s[..i + 1])
  {
    assert s[i] in s && s[..i + 1][..i] == s[..i];
    error, order' := 0, order;
    if p.Ref? {
      error, order' := Lock(p.n, locktype, order);
    }
  }

  /** Locks the nodes of the list one after the other, or none of them: then order ends with the one that failed. */
  method LockAll(list: array<Ptr>, k: nat, locktype: LockType, ghost nodes: set<Fusenode>)
    returns (error: int, ghost order: seq<Fusenode>)
    requires k <= list.Length && NoDup(list[..k]) && LockedUpTo(list[..k], 0, nodes)
    modifies nodes`owner, nodes`holds
    ensures error == 0 <==> locktype.ForceLock? || forall m | 0 <= m < k && list[m].Ref? :: !list[m].n.noexists
    ensures error == 0 || error == ENOENT
    ensures if error == 0 then Acquired(list[..k], k, OwnerOf(locktype), order, nodes)
            else LockedUpTo(list[..k], 0, nodes)
                 && order != [] && order[|order| - 1].noexists && order <= Nodes(list[..k])
  {
    ghost var s := list[..k];
    var i := 0;
    order := [];
    while i < k
      invariant i <= k && s == list[..k] && Acquired(s, i, OwnerOf(locktype), order, nodes)
      invariant locktype.ForceLock? || forall m | 0 <= m < i && list[m].Ref? :: !list[m].n.noexists
    {
      assert list[i] == s[i];
      error, order := LockNext(list[i], locktype, s, i, order, nodes);
      if error != 0 {
        NodesPrefix(s, i + 1);
        DropLocks(list, i, k, nodes);
        return;
      }
      i := i + 1;
    }
    error := 0;
  }

  /** The list holds just the nodes, each once. */
  ghost predicate LocksOf(s: seq<Ptr>, nodes: set<Fusenode>) {
    NoDup(s) && (forall p | p in s && p.Ref? :: p.n in nodes) && forall n | n in nodes :: Ref(n) in s
  }

  method ListFour(cp1: Fusenode?, cp2: Fusenode?, cp3: Fusenode?, cp4: Fusenode?)
    returns (list: array<Ptr>, k: nat)
    requires AllCompatible(P(cp1), P(cp2), P(cp3), P(cp4))
    ensures fresh(list) && k <= list.Length && LocksOf(list[..k], NodesOf(cp1, cp2, cp3, cp4))
    ensures list[..k] == ListOf(Quad(P(cp1), P(cp2), P(cp3), P(cp4)))
  {
    list := new Ptr[4](_ => Null);
    k := BuildList(P(cp1), P(cp2), P(cp3), P(cp4), list);
    LocksOfFour(cp1, cp2, cp3, cp4);
  }

  lemma LocksOfFour(cp1: Fusenode?, cp2: Fusenode?, cp3: Fusenode?, cp4: Fusenode?)
    requires AllCompatible(P(cp1), P(cp2), P(cp3), P(cp4))
    ensures LocksOf(Four(Ordered, P(cp1), P(cp2), P(cp3), P(cp4)), NodesOf(cp1, cp2, cp3, cp4))
  {
    LockListOnce(P(cp1), P(cp2), P(cp3), P(cp4));
    var s := Four(Ordered, P(cp1), P(cp2), P(cp3), P(cp4));
    forall p | p in s && p.Ref?
      ensures p.n in NodesOf(cp1, cp2, cp3, cp4)
    {
      Listed(Quad(P(cp1), P(cp2), P(cp3), P(cp4)), p);
    }
    forall n | n in NodesOf(cp1, cp2, cp3, cp4)
      ensures Ref(n) in s
    {
      Listed(Quad(P(cp1), P(cp2), P(cp3), P(cp4)), Ref(n));
    }
  }

  lemma ListedNodes(s: seq<Ptr>, nodes: set<Fusenode>, i: nat)
    requires LocksOf(s, nodes) && (i == 0 || i == |s|)
    ensures LockedUpTo(s, i, nodes) <==> forall n | n in nodes :: n.holds == if i == 0 then 0 else 1
    ensures (forall m | 0 <= m < |s| && s[m].Ref? :: !s[m].n.noexists) <==> forall n | n in nodes :: !n.noexists
  {
    forall n | n in nodes
      ensures exists m | 0 <= m < |s| :: s[m] == Ref(n)
    {
    }
    forall m | 0 <= m < |s| && s[m].Ref?
      ensures s[m].n in nodes
    {
      assert s[m] in s;
    }
  }

  /** Locks each of the four nodes once, in the order of the list, or none of them. */
  method LockFour(cp1: Fusenode?, cp2: Fusenode?, cp3: Fusenode?, cp4: Fusenode?, locktype: LockType)
    returns (error: int, ghost order: seq<Fusenode>)
    requires AllCompatible(P(cp1), P(cp2), P(cp3), P(cp4))
    requires forall n | n in NodesOf(cp1, cp2, cp3, cp4) :: n.holds == 0
    modifies NodesOf(cp1, cp2, cp3, cp4)`owner, NodesOf(cp1, cp2, cp3, cp4)`holds
    ensures forall n | n in NodesOf(cp1, cp2, cp3, cp4) :: n.holds == if error == 0 then 1 else 0
    ensures error == 0 ==> forall n | n in NodesOf(cp1, cp2, cp3, cp4) ::
      n.owner == if locktype.SharedLock? then Shared else Self
    ensures error == 0 <==> locktype.ForceLock? || forall n | n in NodesOf(cp1, cp2, cp3, cp4) :: !n.noexists
    ensures error == 0 || error == ENOENT
    ensures var nodes := Nodes(ListOf(Quad(P(cp1), P(cp2), P(cp3), P(cp4))));
      if error == 0 then order == nodes
      else order != [] && order[|order| - 1].noexists && order <= nodes
  {
    var list, k := ListFour(cp1, cp2, cp3, cp4);
    error, order := LockListed(list, k, locktype, NodesOf(cp1, cp2, cp3, cp4));
  }

  method LockListed(list: array<Ptr>, k: nat, locktype: LockType, ghost nodes: set<Fusenode>)
    returns (error: int, ghost order: seq<Fusenode>)
    requires k <= list.Length && LocksOf(list[..k], nodes) && forall n | n in nodes :: n.holds == 0
    modifies nodes`owner, nodes`holds
    ensures forall n | n in nodes :: n.holds == if error == 0 then 1 else 0
    ensures error == 0 ==> forall n | n in nodes :: n.owner == OwnerOf(locktype)
    ensures error == 0 <==> locktype.ForceLock? || forall n | n in nodes :: !n.noexists
    ensures error == 0 || error == ENOENT
    ensures if error == 0 then order == Nodes(list[..k])
            else order != [] && order[|order| - 1].noexists && order <= Nodes(list[..k])
  {
    ghost var s := list[..k];
    ListedNodes(s, nodes, 0);
    error, order := LockAll(list, k, locktype, nodes);
    ListedNodes(s, nodes, if error == 0 then k else 0);
    assert s[..k] == s && forall m | 0 <= m < k :: list[m] == s[m];
    if error == 0 {
      ListedOwners(s, nodes, OwnerOf(locktype), order);
    }
  }

  lemma ListedOwners(s: seq<Ptr>, nodes: set<Fusenode>, owner: Owner, order: seq<Fusenode>)
    requires LocksOf(s, nodes) && Acquired(s, |s|, owner, order, nodes)
    ensures forall n | n in nodes :: n.owner == owner
  {
    forall n | n in nodes
      ensures n.owner == owner
    {
      var m :| 0 <= m < |s| && s[m] == Ref(n);
    }
  }

  /** Whether cp is among the first k entries of the list. */
  method Contains(list: array<Fusenode?>, k: nat, cp: Fusenode) returns (found: bool)
    requires k <= list.Length
    ensures found <==> cp in list[..k]
  {
    for i := 0 to k
      invariant cp !in list[..i]
    {
      if list[i] == cp {
        return true;
      }
    }
    found := false;
  }

  /** Unlocks each of the four nodes once. */
  method UnlockFour(cp1: Fusenode?, cp2: Fusenode?, cp3: Fusenode?, cp4: Fusenode?)
    requires forall n | n in NodesOf(cp1, cp2, cp3, cp4) :: n.holds == 1
    modifies NodesOf(cp1, cp2, cp3, cp4)`owner, NodesOf(cp1, cp2, cp3, cp4)`holds
    ensures forall n | n in NodesOf(cp1, cp2, cp3, cp4) :: n.holds == 0 && n.owner.Nobody?
  {
    ghost var nodes := NodesOf(cp1, cp2, cp3, cp4);
    var list := new Fusenode?[4](_ => null);
    var k := UnlockNext(cp1, list, 0, nodes, {});
    k := UnlockNext(cp2, list, k, nodes, NodesOf(cp1, null, null, null));
    k := UnlockNext(cp3, list, k, nodes, NodesOf(cp1, cp2, null, null));
    k := UnlockNext(cp4, list, k, nodes, NodesOf(cp1, cp2, cp3, null));
  }

  /** Of the nodes, those in done are unlocked, the others still locked. */
  ghost predicate UnlockedIn(done: set<Fusenode>, nodes: set<Fusenode>)
    reads nodes
  {
    forall n | n in nodes :: if n in done then n.holds == 0 && n.owner.Nobody? else n.holds == 1
  }

  /** Unlocks cp unless it is null or has been unlocked; list[..k] holds those that have been. */
  method UnlockNext(cp: Fusenode?, list: array<Fusenode?>, k: nat, ghost nodes: set<Fusenode>,
                    ghost done: set<Fusenode>)
    returns (k': nat)
    requires k < list.Length && (forall n: Fusenode :: n in done <==> n in list[..k])
    requires UnlockedIn(done, nodes) && (cp != null ==> cp in nodes)
    modifies list, nodes`owner, nodes`holds
    ensures k' <= k + 1 && UnlockedIn(done + NodesOf(cp, null, null, null), nodes)
    ensures forall n: Fusenode :: n in done + NodesOf(cp, null, null, null) <==> n in list[..k']
  {
    k' := k;
    if cp != null {
      var found := Contains(list, k, cp);
      if !found {
        Unlock(cp);
        list[k] := cp;
        k' := k + 1;
        assert list[..k'] == old(list[..k]) + [cp];
      }
    }
  }
}
