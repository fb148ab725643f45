/** Lists of tickets, by number: those of sys/queue.h as far as they are needed here. */
module Lists {

  datatype Option<T> = None | Some(value: T)

  /** Nothing is on the list twice. */
  ghost predicate NoDup<T>(a: seq<T>) {
    forall i, j | 0 <= i < j < |a| :: a[i] != a[j]
  }

  /** The list without t. */
  function Minus(a: seq<nat>, t: nat): seq<nat> {
    if a == [] then [] else if a[0] == t then a[1..] else [a[0]] + Minus(a[1..], t)
  }

  lemma Appended(a: seq<nat>, t: nat)
    requires NoDup(a) && t !in a
    ensures NoDup(a + [t]) && forall x: nat :: x in a + [t] <==> x in a || x == t
  {
  }

  lemma Shifted(a: seq<nat>)
    requires NoDup(a) && a != []
    ensures a[0] in a && NoDup(a[1..]) && forall x: nat :: x in a[1..] <==> x in a && x != a[0]
  {
    assert a == [a[0]] + a[1..];
  }

  lemma {:induction false} MinusOne(a: seq<nat>, t: nat)
    requires NoDup(a) && t in a
    ensures NoDup(Minus(a, t)) && |Minus(a, t)| == |a| - 1
    ensures forall x: nat :: x in Minus(a, t) <==> x in a && x != t
  {
    Shifted(a);
    assert a == [a[0]] + a[1..];
    if a[0] != t {
      MinusOne(a[1..], t);
      var b := Minus(a[1..], t);
      assert forall i | 0 < i < |b| + 1 :: ([a[0]] + b)[i] == b[i - 1] && b[i - 1] in b;
    }
  }
}
