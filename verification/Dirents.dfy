/** Directory records: those that the daemon sends (struct fuse_dirent) and those that the caller gets (struct
    dirent), and how many of a reply's records a caller gets. */
module Dirents {

  import opened Bytes

  const NAME_OFFSET: nat := 24
  const MAXNAMLEN: nat := 255
  /** sizeof(struct dirent) - (FUSE_MAXNAMLEN + 1), with 32-bit inode numbers. */
  const DIRENT_HEAD: nat := 8
  const DT_WHT: nat := 14

  /** What a record says. */
  datatype Entry = Entry(ino: nat, off: nat, kind: nat, name: seq<byte>)

  /** FUSE_DIRENT_SIZE. */
  function RecordSize(namelen: nat): nat {
    (NAME_OFFSET + namelen + 7) / 8 * 8
  }

  /** b begins with a complete record. */
  predicate HasRecord(b: seq<byte>) {
    |b| >= NAME_OFFSET && |b| >= RecordSize(Word(b, 16, 4))
  }

  function FirstSize(b: seq<byte>): nat
    requires HasRecord(b)
  {
    RecordSize(Word(b, 16, 4))
  }

  function First(b: seq<byte>): Entry
    requires HasRecord(b)
  {
    Entry(Word(b, 0, 8), Word(b, 8, 8), Word(b, 20, 4), b[NAME_OFFSET..NAME_OFFSET + Word(b, 16, 4)])
  }

  /** The complete records at the front of a reply. */
  function Entries(b: seq<byte>): seq<Entry> {
    if HasRecord(b) then [First(b)] + Entries(b[FirstSize(b)..]) else []
  }

  /** What is left behind them. */
  function Rest(b: seq<byte>): seq<byte> {
    if HasRecord(b) then Rest(b[FirstSize(b)..]) else b
  }

  /** The caller's record; hidden: the name is one that fuse_skip_apple_double_mp filters out. */
  datatype Dirent = Dirent(ino: nat, reclen: nat, kind: nat, namlen: nat, name: seq<byte>)

  function Reclen(e: Entry): nat {
    DIRENT_HEAD + (|e.name| + 1 + 3) / 4 * 4
  }

  function Cook(e: Entry, hidden: seq<byte> -> bool): Dirent {
    if hidden(e.name) then Dirent(0, Reclen(e), DT_WHT, |e.name|, e.name)
    else Dirent(e.ino % 0x1_0000_0000, Reclen(e), e.kind % 256, |e.name|, e.name)
  }

  function CookAll(es: seq<Entry>, hidden: seq<byte> -> bool): seq<Dirent> {
    if es == [] then [] else CookAll(es[..|es| - 1], hidden) + [Cook(es[|es| - 1], hidden)]
  }

  predicate ValidName(e: Entry) {
    1 <= |e.name| <= MAXNAMLEN
  }

  /** The room that the records of es take. */
  function Total(es: seq<Entry>): nat {
    if es == [] then 0 else Total(es[..|es| - 1]) + Reclen(es[|es| - 1])
  }

  /** The first n records are valid and fit into room. */
  ghost predicate Fits(es: seq<Entry>, n: nat, room: nat) {
    n <= |es| && (forall i | 0 <= i < n :: ValidName(es[i])) && Total(es[..n]) <= room
  }

  /** n is the largest number of leading records that are valid and fit. */
  ghost predicate Longest(es: seq<Entry>, n: nat, room: nat) {
    Fits(es, n, room) && forall m: nat | Fits(es, m, room) :: m <= n
  }

  lemma {:induction false} TotalMono(es: seq<Entry>, m: nat, n: nat)
    requires m <= n <= |es|
    ensures Total(es[..m]) <= Total(es[..n])
  {
    if m < n {
      TotalMono(es, m, n - 1);
      assert es[..n][..n - 1] == es[..n - 1];
    }
  }

  /** Where one more record is invalid or does not fit, the prefix is the longest. */
  lemma StopsAtLongest(es: seq<Entry>, n: nat, room: nat)
    requires Fits(es, n, room)
    requires n < |es| ==> !ValidName(es[n]) || Total(es[..n]) + Reclen(es[n]) > room
    ensures Longest(es, n, room)
  {
    forall m: nat | Fits(es, m, room)
      ensures m <= n
    {
      if m > n {
        assert ValidName(es[n]);
        assert es[..n + 1][..n] == es[..n];
        TotalMono(es, n + 1, m);
      }
    }
  }

  /** One more record of the run. */
  lemma OneMore(es: seq<Entry>, n: nat, room: nat, hidden: seq<byte> -> bool)
    requires n < |es| && Fits(es, n, room) && ValidName(es[n]) && Total(es[..n]) + Reclen(es[n]) <= room
    ensures Fits(es, n + 1, room) && Total(es[..n + 1]) == Total(es[..n]) + Reclen(es[n])
    ensures CookAll(es[..n + 1], hidden) == CookAll(es[..n], hidden) + [Cook(es[n], hidden)]
  {
    assert es[..n + 1][..n] == es[..n];
  }

  lemma NextEntry(b: seq<byte>, es: seq<Entry>, n: nat)
    requires n <= |es| && Entries(b) == es[n..]
    ensures HasRecord(b) <==> n < |es|
    ensures n < |es| ==> es[n] == First(b) && Entries(b[FirstSize(b)..]) == es[n + 1..]
  {
    if n < |es| {
      assert es[n..][0] == es[n] && es[n..][1..] == es[n + 1..];
    }
  }

  // ----- batches

  lemma {:induction false} CookJoin(a: seq<Entry>, b: seq<Entry>, hidden: seq<byte> -> bool)
    ensures CookAll(a + b, hidden) == CookAll(a, hidden) + CookAll(b, hidden)
  {
    if b == [] {
      assert a + b == a;
    } else {
      var c := b[..|b| - 1];
      assert (a + b)[..|a + b| - 1] == a + c;
      CookJoin(a, c, hidden);
    }
  }

  lemma {:induction false} TotalJoin(a: seq<Entry>, b: seq<Entry>)
    ensures Total(a + b) == Total(a) + Total(b)
  {
    if b == [] {
      assert a + b == a;
    } else {
      var c := b[..|b| - 1];
      assert (a + b)[..|a + b| - 1] == a + c;
      TotalJoin(a, c);
    }
  }

  lemma SomeRoom(es: seq<Entry>, n: nat)
    requires 0 < n <= |es|
    ensures Total(es[..n]) > 0
  {
    assert es[..n][..n - 1] == es[..n - 1];
  }

  /** The offset at which a directory with these entries goes on after the first p of them. */
  function Cookie(dir: seq<Entry>, p: nat): nat
    requires p <= |dir|
  {
    if p == 0 then 0 else dir[p - 1].off
  }

  // ----- a reply that is cut off

  /** The bytes b are one record, saying e. */
  predicate IsRecord(b: seq<byte>, e: Entry) {
    HasRecord(b) && |b| == FirstSize(b) && First(b) == e
  }

  predicate AreRecords(rs: seq<seq<byte>>, es: seq<Entry>) {
    |rs| == |es| && (rs == [] || (IsRecord(rs[0], es[0]) && AreRecords(rs[1..], es[1..])))
  }

  /** The records rs, one after the other. */
  function Joined(rs: seq<seq<byte>>): seq<byte> {
    if rs == [] then [] else rs[0] + Joined(rs[1..])
  }

  /** Of a record r and more behind it, a cut-off part b shows r if it is long enough, and else nothing. */
  lemma CutFirst(r: seq<byte>, rest: seq<byte>, b: seq<byte>)
    requires HasRecord(r) && |r| == FirstSize(r) && b <= r + rest
    ensures HasRecord(b) <==> |r| <= |b|
    ensures HasRecord(b) ==> FirstSize(b) == |r| && First(b) == First(r) && b[|r|..] <= rest
    ensures HasRecord(b) && b == r + rest ==> b[|r|..] == rest
  {
    var all := r + rest;
    if |b| >= NAME_OFFSET {
      WordSame(b, all, 16, 4);
      WordSame(r, all, 16, 4);
      if HasRecord(b) {
        assert b[..|r|] == r;
        SameFirst(r, b);
      }
    }
  }

  lemma SameFirst(r: seq<byte>, b: seq<byte>)
    requires HasRecord(r) && |r| == FirstSize(r) && r <= b && HasRecord(b)
    ensures First(b) == First(r)
  {
    WordSame(r, b, 0, 8);
    WordSame(r, b, 8, 8);
    WordSame(r, b, 16, 4);
    WordSame(r, b, 20, 4);
    var k := Word(r, 16, 4);
    assert r[NAME_OFFSET..NAME_OFFSET + k] == b[NAME_OFFSET..NAME_OFFSET + k];
  }

  /** One record more at the front. */
  lemma CutMore(r: seq<byte>, e: Entry, more: seq<byte>, b: seq<byte>)
    requires IsRecord(r, e) && b <= r + more
    ensures |b| < |r| ==> Entries(b) == []
    ensures |r| <= |b| ==> b[|r|..] <= more && Entries(b) == [e] + Entries(b[|r|..]) && Rest(b) == Rest(b[|r|..])
    ensures |r| <= |b| && b == r + more ==> b[|r|..] == more
  {
    CutFirst(r, more, b);
  }

  lemma PrefixOf<T>(es: seq<T>, s: seq<T>)
    requires es != [] && s <= es[1..]
    ensures [es[0]] + s <= es && (s == es[1..] ==> [es[0]] + s == es)
  {
  }

  /** Cut off anywhere, even inside a record, a run of records parses to some of its first entries. */
  lemma {:induction false} CutParses(rs: seq<seq<byte>>, es: seq<Entry>, b: seq<byte>)
    requires AreRecords(rs, es) && b <= Joined(rs)
    ensures Entries(b) <= es
    decreases |rs|
  {
    if rs != [] {
      var r, more := rs[0], Joined(rs[1..]);
      CutMore(r, es[0], more, b);
      if |r| <= |b| {
        CutParses(rs[1..], es[1..], b[|r|..]);
        PrefixOf(es, Entries(b[|r|..]));
      }
    }
  }

  /** Not cut off, it parses to all of them. */
  lemma {:induction false} WholeParses(rs: seq<seq<byte>>, es: seq<Entry>)
    requires AreRecords(rs, es)
    ensures Entries(Joined(rs)) == es && Rest(Joined(rs)) == []
    decreases |rs|
  {
    if rs != [] {
      CutMore(rs[0], es[0], Joined(rs[1..]), Joined(rs));
      WholeParses(rs[1..], es[1..]);
      PrefixOf(es, es[1..]);
    }
  }
}
