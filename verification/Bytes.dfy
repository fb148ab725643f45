/** Bytes and the numbers they spell, in host (little-endian) order; error numbers. */
module Bytes {

  newtype byte = x: int | 0 <= x < 256

  type pos = x: int | 0 < x witness 1

  /** An error number. What the daemon sends is negated but not checked, so it may have either sign. */
  type errno = x: int | x != 0 witness 1

  const ENOENT: int := 2
  const EINTR: int := 4
  const EIO: int := 5
  const ENXIO: int := 6
  const EINVAL: int := 22
  const ENOTCONN: int := 57
  const ESTALE: int := 70

  /** The n-byte number at position at. */
  function Word(b: seq<byte>, at: nat, n: nat): nat
    requires at + n <= |b|
    decreases |b| - at
  {
    if n == 0 then 0 else (b[at] as nat) + 256 * Word(b, at + 1, n - 1)
  }

  /** The numbers that n bytes can spell are those below this one. */
  function Bound(n: nat): pos {
    if n == 0 then 1 else 256 * Bound(n - 1)
  }

  lemma {:induction false} WordMoved(b: seq<byte>, i: nat, c: seq<byte>, j: nat, n: nat)
    requires i + n <= |b| && j + n <= |c| && b[i..i + n] == c[j..j + n]
    ensures Word(b, i, n) == Word(c, j, n)
    decreases n
  {
    if n > 0 {
      assert b[i..i + n][0] == b[i] && c[j..j + n][0] == c[j];
      assert b[i..i + n][1..] == b[i + 1..i + n] && c[j..j + n][1..] == c[j + 1..j + n];
      WordMoved(b, i + 1, c, j + 1, n - 1);
    }
  }

  /** w in n bytes, the lowest one first; what does not fit is cut off. */
  function Le(n: nat, w: nat): (b: seq<byte>)
    ensures |b| == n
  {
    if n == 0 then [] else [(w % 256) as byte] + Le(n - 1, w / 256)
  }

  lemma {:induction false} LeWord(n: nat, w: nat)
    ensures Word(Le(n, w), 0, n) == w % Bound(n)
  {
    if n > 0 {
      var b, c := Le(n, w), Le(n - 1, w / 256);
      WordMoved(b, 1, c, 0, n - 1);
      LeWord(n - 1, w / 256);
      LowByte(w, Bound(n - 1));
    }
  }

  lemma {:induction false} WordSame(b: seq<byte>, c: seq<byte>, at: nat, n: nat)
    requires at + n <= |b| && at + n <= |c| && forall i | at <= i < at + n :: b[i] == c[i]
    ensures Word(b, at, n) == Word(c, at, n)
    decreases n
  {
    if n > 0 {
      WordSame(b, c, at + 1, n - 1);
    }
  }

  /** A number of size bytes at position at of a structure. */
  datatype Field = Field(at: nat, size: nat) {
    predicate In(b: seq<byte>) {
      at + size <= |b|
    }

    predicate Apart(f: Field) {
      at + size <= f.at || f.at + f.size <= at
    }
  }

  function Get(b: seq<byte>, f: Field): nat
    requires f.In(b)
  {
    Word(b, f.at, f.size)
  }

  /** Numbers in other fields than f are the same. */
  ghost predicate Elsewhere(b: seq<byte>, c: seq<byte>, f: Field) {
    |b| == |c| && forall g: Field | g.In(b) && g.Apart(f) :: Get(c, g) == Get(b, g)
  }

  /** Numbers in the first n bytes depend on these only. */
  lemma SameFront(b: seq<byte>, c: seq<byte>, n: nat)
    requires n <= |b| && n <= |c| && b[..n] == c[..n]
    ensures forall f: Field | f.at + f.size <= n :: Get(c, f) == Get(b, f)
  {
    forall f: Field | f.at + f.size <= n
      ensures Get(c, f) == Get(b, f)
    {
      assert forall i | 0 <= i < n :: b[..n][i] == c[..n][i];
      WordSame(b, c, f.at, f.size);
    }
  }

  /** Writes a number into a field; what does not fit is cut off. */
  method Store(a: array<byte>, f: Field, w: nat)
    requires f.In(a[..])
    modifies a
    ensures Get(a[..], f) == w % Bound(f.size) && Elsewhere(old(a[..]), a[..], f)
  {
    ghost var was := a[..];
    StoreBytes(a, f.at, f.size, w);
    forall g: Field | g.In(was) && g.Apart(f)
      ensures Get(a[..], g) == Get(was, g)
    {
      WordSame(was, a[..], g.at, g.size);
    }
  }

  method StoreBytes(a: array<byte>, at: nat, n: nat, w: nat)
    requires at + n <= a.Length
    modifies a
    ensures Word(a[..], at, n) == w % Bound(n)
    ensures forall i | 0 <= i < a.Length && !(at <= i < at + n) :: a[i] == old(a[i])
    decreases n
  {
    if n > 0 {
      StoreBytes(a, at + 1, n - 1, w / 256);
      ghost var was := a[..];
      a[at] := (w % 256) as byte;
      WordSame(was, a[..], at + 1, n - 1);
      LowByte(w, Bound(n - 1));
    }
  }

  lemma LowByte(w: nat, m: nat)
    requires m > 0
    ensures w % (256 * m) == w % 256 + 256 * (w / 256 % m)
  {
    var q, r := w / 256 / m, w % 256 + 256 * (w / 256 % m);
    assert w == 256 * m * q + r;
    ModUnique(w, 256 * m, q, r);
  }

  lemma ModUnique(w: nat, m: nat, q: nat, r: nat)
    requires w == m * q + r && r < m
    ensures w % m == r
  {
    var d := w / m - q;
    assert m * d == r - w % m;
    NoMultiple(m, d);
  }

  lemma NoMultiple(m: nat, d: int)
    requires m * d < m && 0 < m + m * d
    ensures d == 0
  {
    Times(m, if d < 0 then -d else d);
  }

  lemma Times(m: nat, d: nat)
    ensures d >= 1 ==> m * d >= m
  {
    if d >= 1 {
      assert m * d == m + m * (d - 1);
    }
  }
}
