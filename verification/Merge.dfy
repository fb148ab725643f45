/** The merge of two ordered pairs that fusefs_lockfour does, for any order of two things at a time. */
module Merge {
  import opened Lists
  import opened Threads

  /** At most one of two different things goes before the other, and one does. */
  ghost predicate Strict<T>(lt: (T, T) -> bool, p: T, q: T) {
    p != q ==> (lt(p, q) <==> !lt(q, p))
  }

  /** The pair in order. */
  function Pair<T>(lt: (T, T) -> bool, p: T, q: T): seq<T> {
    if lt(p, q) then [p, q] else [q, p]
  }

  /** What the merge takes from position i of a and j of b on. */
  function Taken<T>(lt: (T, T) -> bool, a: seq<T>, b: seq<T>, i: nat, j: nat): seq<T>
    requires |a| == 2 && |b| == 2 && i <= 2 && j <= 2
    decreases 4 - i - j
  {
    if i == 2 then b[j..]
    else if j == 2 then a[i..]
    else if lt(a[i], b[j]) then [a[i]] + Taken(lt, a, b, i + 1, j)
    else [b[j]] + Taken(lt, a, b, i, j + 1)
  }

  /** s, without what repeats its predecessor, after x. */
  function After<T(==)>(x: T, s: seq<T>): seq<T> {
    if s == [] then [] else if s[0] == x then After(x, s[1..]) else [s[0]] + After(s[0], s[1..])
  }

  function Squeeze<T(==)>(s: seq<T>): seq<T> {
    if s == [] then [] else [s[0]] + After(s[0], s[1..])
  }

  lemma TakenStep<T>(lt: (T, T) -> bool, a: seq<T>, b: seq<T>, i: nat, j: nat)
    requires |a| == 2 && |b| == 2 && i <= 2 && j <= 2 && i + j < 4
    ensures Taken(lt, a, b, i, j)
         == if i < 2 && (j == 2 || lt(a[i], b[j])) then [a[i]] + Taken(lt, a, b, i + 1, j)
            else [b[j]] + Taken(lt, a, b, i, j + 1)
  {
    if i == 2 {
      assert b[j..] == [b[j]] + b[j + 1..];
    } else if j == 2 {
      assert a[i..] == [a[i]] + a[i + 1..];
    }
  }

  /** The list once the rest has been added to l, skipping repeats. */
  function Added<T(==)>(l: seq<T>, rest: seq<T>): seq<T> {
    if l == [] then Squeeze(rest) else l + After(l[|l| - 1], rest)
  }

  lemma AddedStep<T>(l: seq<T>, tmp: T, rest: seq<T>)
    ensures Added(l, [tmp] + rest) == Added(if l != [] && l[|l| - 1] == tmp then l else l + [tmp], rest)
  {
    assert ([tmp] + rest)[1..] == rest;
    assert [] + [tmp] == [tmp];
    if l != [] && l[|l| - 1] != tmp {
      assert l + ([tmp] + After(tmp, rest)) == l + [tmp] + After(tmp, rest);
    }
  }

  lemma AddedNone<T>(l: seq<T>)
    ensures Added(l, []) == l
  {
  }

  /** Equal elements are next to each other. */
  ghost predicate Grouped<T>(s: seq<T>) {
    forall i, j, k | 0 <= i < j < k < |s| && s[i] == s[k] :: s[i] == s[j]
  }

  lemma GroupedTail<T>(x: T, s: seq<T>)
    requires Grouped([x] + s)
    ensures Grouped(s) && (s != [] && s[0] != x ==> x !in s)
  {
    var t := [x] + s;
    assert forall i | 0 <= i < |s| :: s[i] == t[i + 1];
    forall i, j, k | 0 <= i < j < k < |s| && s[i] == s[k]
      ensures s[i] == s[j]
    {
      assert t[i + 1] == t[k + 1] && t[i + 1] == t[j + 1];
    }
    forall k | 0 <= k < |s| && s[k] == x
      ensures s[0] == x
    {
      assert t[0] == t[k + 1] && t[0] == t[1];
    }
  }

  lemma {:induction false} AfterGrouped<T>(x: T, s: seq<T>)
    requires Grouped([x] + s)
    ensures NoDup([x] + After(x, s)) && forall p :: p in [x] + After(x, s) <==> p in [x] + s
  {
    if s != [] {
      GroupedTail(x, s);
      assert [s[0]] + s[1..] == s;
      AfterGrouped(s[0], s[1..]);
      if s[0] != x {
        var r := [s[0]] + After(s[0], s[1..]);
        assert forall j | 0 < j < |r| + 1 :: ([x] + r)[j] == r[j - 1] && r[j - 1] in r;
      }
    }
  }

  lemma SqueezeGrouped<T>(s: seq<T>)
    requires Grouped(s)
    ensures NoDup(Squeeze(s)) && forall p :: p in Squeeze(s) <==> p in s
  {
    if s != [] {
      assert [s[0]] + s[1..] == s;
      AfterGrouped(s[0], s[1..]);
    }
  }

  /** Equal ones of the four are next to each other. */
  ghost predicate Row<T>(w: T, x: T, y: T, z: T) {
    (w == y ==> w == x) && (x == z ==> x == y) && (w == z ==> w == x && w == y)
  }

  lemma RowGrouped<T>(s: seq<T>)
    requires |s| == 4 && Row(s[0], s[1], s[2], s[3])
    ensures Grouped(s)
  {
  }

  /** The merge takes each of the four, equal ones in a row, even where the order is not transitive. */
  lemma MergeOfPairs<T>(lt: (T, T) -> bool, a0: T, a1: T, b0: T, b1: T)
    requires (a0 == a1 || lt(a0, a1)) && (b0 == b1 || lt(b0, b1)) && !lt(a0, a0) && !lt(a1, a1)
    requires Strict(lt, a0, a1) && Strict(lt, b0, b1)
    requires Strict(lt, a0, b0) && Strict(lt, a0, b1) && Strict(lt, a1, b0) && Strict(lt, a1, b1)
    ensures var s := Taken(lt, [a0, a1], [b0, b1], 0, 0);
      |s| == 4 && s[0] in {a0, b0} && Row(s[0], s[1], s[2], s[3])
      && (s == [a0, a1, b0, b1] || s == [a0, b0, a1, b1] || s == [a0, b0, b1, a1]
          || s == [b0, b1, a0, a1] || s == [b0, a0, a1, b1] || s == [b0, a0, b1, a1])
  {
    var a, b := [a0, a1], [b0, b1];
    assert Taken(lt, a, b, 1, 1) == if lt(a1, b1) then [a1, b1] else [b1, a1];
    assert Taken(lt, a, b, 0, 1) == if lt(a0, b1) then [a0] + Taken(lt, a, b, 1, 1) else [b1, a0, a1];
    assert Taken(lt, a, b, 1, 0) == if lt(a1, b0) then [a1, b0, b1] else [b0] + Taken(lt, a, b, 1, 1);
  }

  // ----- under a strict total order the merge sorts

  ghost predicate Transitive<T>(lt: (T, T) -> bool, s: seq<T>) {
    forall p, q, r | p in s && q in s && r in s && lt(p, q) && lt(q, r) :: lt(p, r)
  }

  ghost predicate Ascending<T>(lt: (T, T) -> bool, s: seq<T>) {
    forall i, j | 0 <= i < j < |s| :: s[i] == s[j] || lt(s[i], s[j])
  }

  ghost predicate Sorted<T>(lt: (T, T) -> bool, s: seq<T>) {
    forall i, j | 0 <= i < j < |s| :: lt(s[i], s[j])
  }

  lemma SqueezeSorted<T>(lt: (T, T) -> bool, s: seq<T>)
    requires Ascending(lt, s) && Grouped(s)
    ensures Sorted(lt, Squeeze(s))
  {
    SqueezeGrouped(s);
    if s != [] {
      assert [s[0]] + s[1..] == s;
      AfterAscends(lt, s[0], s[1..]);
    }
  }

  lemma {:induction false} AfterAscends<T>(lt: (T, T) -> bool, x: T, s: seq<T>)
    requires Ascending(lt, [x] + s)
    ensures Ascending(lt, [x] + After(x, s)) && forall p | p in After(x, s) :: p in s
  {
    if s != [] {
      var t := [x] + s;
      assert t[1..] == [s[0]] + s[1..] && [s[0]] + s[1..] == s;
      AfterAscends(lt, s[0], s[1..]);
      if s[0] != x {
        var r := [s[0]] + After(s[0], s[1..]);
        forall j | 0 < j < |r| + 1
          ensures x == ([x] + r)[j] || lt(x, ([x] + r)[j])
        {
          assert r[j - 1] in r && r[j - 1] in s;
          var k :| 0 <= k < |s| && s[k] == r[j - 1];
          assert t[k + 1] == s[k] && (t[0] == t[k + 1] || lt(t[0], t[k + 1]));
        }
      }
    }
  }

  lemma RowAscends<T>(lt: (T, T) -> bool, s: seq<T>)
    requires |s| == 4 && Transitive(lt, s)
    requires forall i | 0 <= i < 3 :: s[i] == s[i + 1] || lt(s[i], s[i + 1])
    ensures Ascending(lt, s)
  {
    assert s[0] == s[1] || lt(s[0], s[1]);
    assert s[1] == s[2] || lt(s[1], s[2]);
    assert s[2] == s[3] || lt(s[2], s[3]);
    assert s[0] == s[2] || lt(s[0], s[2]);
    assert s[1] == s[3] || lt(s[1], s[3]);
    assert s[0] == s[3] || lt(s[0], s[3]);
  }

  lemma MergeAscends<T>(lt: (T, T) -> bool, a0: T, a1: T, b0: T, b1: T)
    requires (a0 == a1 || lt(a0, a1)) && (b0 == b1 || lt(b0, b1))
    requires Strict(lt, a0, b0) && Strict(lt, a0, b1) && Strict(lt, a1, b0) && Strict(lt, a1, b1)
    ensures var s := Taken(lt, [a0, a1], [b0, b1], 0, 0);
      |s| == 4 && forall i | 0 <= i < 3 :: s[i] == s[i + 1] || lt(s[i], s[i + 1])
  {
    var a, b := [a0, a1], [b0, b1];
    assert Taken(lt, a, b, 1, 1) == if lt(a1, b1) then [a1, b1] else [b1, a1];
    assert Taken(lt, a, b, 0, 1) == if lt(a0, b1) then [a0] + Taken(lt, a, b, 1, 1) else [b1, a0, a1];
    assert Taken(lt, a, b, 1, 0) == if lt(a1, b0) then [a1, b0, b1] else [b0] + Taken(lt, a, b, 1, 1);
  }

  // ----- four at a time

  function Four<T(==)>(lt: (T, T) -> bool, p1: T, p2: T, p3: T, p4: T): seq<T> {
    Squeeze(Taken(lt, Pair(lt, p1, p2), Pair(lt, p3, p4), 0, 0))
  }

  ghost predicate AllStrict<T>(lt: (T, T) -> bool, p1: T, p2: T, p3: T, p4: T) {
    && !lt(p1, p1) && !lt(p2, p2) && !lt(p3, p3) && !lt(p4, p4)
    && Strict(lt, p1, p2) && Strict(lt, p3, p4)
    && Strict(lt, p1, p3) && Strict(lt, p1, p4) && Strict(lt, p2, p3) && Strict(lt, p2, p4)
  }

  lemma FourTaken<T>(lt: (T, T) -> bool, p1: T, p2: T, p3: T, p4: T) returns (s: seq<T>)
    requires AllStrict(lt, p1, p2, p3, p4)
    ensures s == Taken(lt, Pair(lt, p1, p2), Pair(lt, p3, p4), 0, 0)
    ensures |s| == 4 && Row(s[0], s[1], s[2], s[3]) && forall p :: p in s <==> p == p1 || p == p2 || p == p3 || p == p4
    ensures forall i | 0 <= i < 3 :: s[i] == s[i + 1] || lt(s[i], s[i + 1])
  {
    var a0, a1 := if lt(p1, p2) then p1 else p2, if lt(p1, p2) then p2 else p1;
    var b0, b1 := if lt(p3, p4) then p3 else p4, if lt(p3, p4) then p4 else p3;
    MergeOfPairs(lt, a0, a1, b0, b1);
    MergeAscends(lt, a0, a1, b0, b1);
    s := Taken(lt, [a0, a1], [b0, b1], 0, 0);
  }

  /** Each of the four comes once. */
  lemma FourOnce<T>(lt: (T, T) -> bool, p1: T, p2: T, p3: T, p4: T)
    requires AllStrict(lt, p1, p2, p3, p4)
    ensures NoDup(Four(lt, p1, p2, p3, p4))
    ensures forall p :: p in Four(lt, p1, p2, p3, p4) <==> p == p1 || p == p2 || p == p3 || p == p4
  {
    var s := FourTaken(lt, p1, p2, p3, p4);
    RowGrouped(s);
    SqueezeGrouped(s);
  }

  /** Under a transitive order they come sorted. */
  lemma FourSorted<T>(lt: (T, T) -> bool, p1: T, p2: T, p3: T, p4: T)
    requires AllStrict(lt, p1, p2, p3, p4) && Transitive(lt, [p1, p2, p3, p4])
    ensures Sorted(lt, Four(lt, p1, p2, p3, p4))
  {
    var s := FourTaken(lt, p1, p2, p3, p4);
    assert forall p | p in s :: p in [p1, p2, p3, p4];
    RowGrouped(s);
    RowAscends(lt, s);
    SqueezeSorted(lt, s);
  }

  // ----- no wait cycles

  /** Locker u, who has the first got[u] of its list, waits for one that v has. */
  ghost predicate Waits<T>(lists: seq<seq<T>>, got: seq<nat>, u: nat, v: nat) {
    && u < |lists| == |got| && v < |lists| && got[u] < |lists[u]| && got[v] <= |lists[v]|
    && lists[u][got[u]] in lists[v][..got[v]]
  }

  ghost predicate WaitsAt<T>(lists: seq<seq<T>>, got: seq<nat>, cycle: seq<nat>, i: nat)
    requires i < |cycle|
  {
    Waits(lists, got, cycle[i], cycle[Succ(|cycle|, i)])
  }

  /** What is wanted grows along the cycle. */
  lemma WantedGrows<T>(lt: (T, T) -> bool, lists: seq<seq<T>>, got: seq<nat>, u: nat, v: nat)
    requires Waits(lists, got, u, v) && Sorted(lt, lists[v]) && got[v] < |lists[v]|
    ensures lt(lists[u][got[u]], lists[v][got[v]])
  {
    var p := lists[u][got[u]];
    var k :| 0 <= k < got[v] && lists[v][..got[v]][k] == p;
    assert lists[v][k] == p;
  }

  lemma {:induction false} WantedGrowsTo<T>(lt: (T, T) -> bool, all: seq<T>, lists: seq<seq<T>>, got: seq<nat>,
                                            cycle: seq<nat>, k: nat)
    requires Transitive(lt, all) && 0 < k < |cycle|
    requires forall u, i | 0 <= u < |lists| && 0 <= i < |lists[u]| :: lists[u][i] in all
    requires forall u | 0 <= u < |lists| :: Sorted(lt, lists[u])
    requires forall i | 0 <= i < |cycle| :: WaitsAt(lists, got, cycle, i)
    ensures var c, d := cycle[0], cycle[k];
      c < |lists| == |got| && d < |lists| && got[c] < |lists[c]| && got[d] < |lists[d]|
      && lt(lists[c][got[c]], lists[d][got[d]])
  {
    assert WaitsAt(lists, got, cycle, 0) && WaitsAt(lists, got, cycle, k - 1) && WaitsAt(lists, got, cycle, k);
    WantedGrows(lt, lists, got, cycle[k - 1], cycle[k]);
    if k > 1 {
      WantedGrowsTo(lt, all, lists, got, cycle, k - 1);
    }
  }

  /** Any number of lockers, each with a list sorted by one strict total order, never wait in a circle. */
  lemma SortedListsNoCycle<T>(lt: (T, T) -> bool, all: seq<T>, lists: seq<seq<T>>, got: seq<nat>, cycle: seq<nat>)
    requires Transitive(lt, all) && |cycle| > 0 && forall p | p in all :: !lt(p, p)
    requires forall u, i | 0 <= u < |lists| && 0 <= i < |lists[u]| :: lists[u][i] in all
    requires forall u | 0 <= u < |lists| :: Sorted(lt, lists[u])
    ensures exists i | 0 <= i < |cycle| :: !WaitsAt(lists, got, cycle, i)
  {
    if forall i | 0 <= i < |cycle| :: WaitsAt(lists, got, cycle, i) {
      var n := |cycle| - 1;
      assert WaitsAt(lists, got, cycle, n) && WaitsAt(lists, got, cycle, 0);
      WantedGrows(lt, lists, got, cycle[n], cycle[0]);
      if n > 0 {
        WantedGrowsTo(lt, all, lists, got, cycle, n);
      }
    }
  }
}
