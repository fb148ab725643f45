/** Directories as the daemon lays them out, struct fuse_dirent by struct fuse_dirent, and what a caller gets of
    them. */
module DirentCodec {
  import opened Bytes
  import opened Dirents
  import opened Messages
  import opened Readdir

  /** What its fields can hold. */
  predicate InRange(e: Entry) {
    && e.ino < 0x1_0000_0000_0000_0000 && e.off < 0x1_0000_0000_0000_0000
    && e.kind < 0x1_0000_0000 && |e.name| < 0x1_0000_0000
  }

  /** ino, off, namelen, type and name, and zeros up to a multiple of eight. */
  function Encode(e: Entry): seq<byte> {
    Le(8, e.ino) + Le(8, e.off) + Le(4, |e.name|) + Le(4, e.kind) + e.name + seq((8 - |e.name| % 8) % 8, _ => 0)
  }

  lemma Bounds()
    ensures Bound(4) == 0x1_0000_0000 && Bound(8) == 0x1_0000_0000_0000_0000
  {
    assert Bound(1) == 0x100 && Bound(2) == 0x1_0000 && Bound(3) == 0x100_0000;
    assert Bound(5) == 0x100_0000_0000 && Bound(6) == 0x1_0000_0000_0000 && Bound(7) == 0x100_0000_0000_0000;
  }

  lemma NumberWithin(b: seq<byte>, at: nat, n: nat, w: nat)
    requires at + n <= |b| && b[at..at + n] == Le(n, w) && w < Bound(n)
    ensures Word(b, at, n) == w
  {
    var c := Le(n, w);
    assert c[0..0 + n] == c;
    WordMoved(b, at, c, 0, n);
    LeWord(n, w);
    SmallMod(w, Bound(n));
  }

  lemma SmallMod(w: nat, m: nat)
    requires w < m
    ensures w % m == w
  {
  }

  /** Where the parts of a record lie. */
  lemma Parts(e: Entry)
    ensures var b, k := Encode(e), |e.name|;
      && 24 + k <= |b| == 24 + k + (8 - k % 8) % 8
      && b[0..8] == Le(8, e.ino) && b[8..16] == Le(8, e.off) && b[16..20] == Le(4, k) && b[20..24] == Le(4, e.kind)
      && b[24..24 + k] == e.name
  {
  }

  lemma Numbers(b: seq<byte>, e: Entry)
    requires InRange(e) && b == Encode(e)
    ensures Word(b, 0, 8) == e.ino && Word(b, 8, 8) == e.off && Word(b, 16, 4) == |e.name| && Word(b, 20, 4) == e.kind
  {
    Parts(e);
    Bounds();
    NumberWithin(b, 0, 8, e.ino);
    NumberWithin(b, 8, 8, e.off);
    NumberWithin(b, 16, 4, |e.name|);
    NumberWithin(b, 20, 4, e.kind);
  }

  lemma Padded(k: nat)
    ensures RecordSize(k) == 24 + k + (8 - k % 8) % 8
  {
  }

  /** The record of an entry says this entry. */
  lemma EncodeIsRecord(e: Entry)
    requires InRange(e)
    ensures IsRecord(Encode(e), e)
  {
    var b, k := Encode(e), |e.name|;
    Parts(e);
    Padded(k);
    Numbers(b, e);
    assert HasRecord(b);
  }

  /** The whole directory, record after record. */
  function EncodeAll(dir: seq<Entry>): seq<byte> {
    if dir == [] then [] else Encode(dir[0]) + EncodeAll(dir[1..])
  }

  function Records(dir: seq<Entry>): seq<seq<byte>> {
    if dir == [] then [] else [Encode(dir[0])] + Records(dir[1..])
  }

  lemma {:induction false} RecordsAre(dir: seq<Entry>)
    requires forall e | e in dir :: InRange(e)
    ensures AreRecords(Records(dir), dir)
  {
    if dir != [] {
      EncodeIsRecord(dir[0]);
      RecordsAre(dir[1..]);
    }
  }

  lemma {:induction false} RecordsBehind(dir: seq<Entry>, p: nat)
    requires p <= |dir|
    ensures |Records(dir)| == |dir| && Joined(Records(dir)[p..]) == EncodeAll(dir[p..])
    decreases |dir|
  {
    if dir != [] {
      if p > 0 {
        RecordsBehind(dir[1..], p - 1);
        assert dir[1..][p - 1..] == dir[p..] && Records(dir)[p..] == Records(dir[1..])[p - 1..];
      } else {
        RecordsBehind(dir[1..], 0);
        assert dir[0..] == dir && Records(dir)[0..] == Records(dir);
        assert Records(dir)[1..] == Records(dir[1..])[0..] && dir[1..][0..] == dir[1..];
      }
    }
  }

  /** An encoded directory is parsed back. */
  lemma DecodesBack(dir: seq<Entry>)
    requires forall e | e in dir :: InRange(e)
    ensures Entries(EncodeAll(dir)) == dir && Rest(EncodeAll(dir)) == []
  {
    RecordsAre(dir);
    RecordsBehind(dir, 0);
    assert dir[0..] == dir && Records(dir)[0..] == Records(dir);
    WholeParses(Records(dir), dir);
  }

  /** A daemon that sends the encoded directory, from the entry on that the offset stands for and cut off anywhere,
      honours its cookies: so, by NoneSkipped, any calls that follow one another list the entries in their order, none
      left out and none twice. */
  lemma EncodedHonours(daemon: (nat, nat, nat) -> Reply, dir: seq<Entry>)
    requires forall e | e in dir :: InRange(e)
    requires forall k: nat, p: nat, size: nat | p <= |dir| && daemon(k, Cookie(dir, p), size).Data? ::
      daemon(k, Cookie(dir, p), size).bytes <= EncodeAll(dir[p..])
    ensures Honours(daemon, dir)
  {
    RecordsAre(dir);
    forall p: nat | p <= |dir|
      ensures Joined(Records(dir)[p..]) == EncodeAll(dir[p..])
    {
      RecordsBehind(dir, p);
    }
    CutsHonour(daemon, Records(dir), dir);
  }

  /** What the caller gets of an entry: a name that is filtered out becomes a whiteout without an inode number. The
      record has room for the name and a final zero, and a length that is a multiple of four. */
  predicate Shows(d: Dirent, e: Entry, hidden: bool) {
    && d.name == e.name && d.namlen == |e.name|
    && d.ino == (if hidden then 0 else e.ino % 0x1_0000_0000) && d.kind == (if hidden then 14 else e.kind % 0x100)
    && d.reclen % 4 == 0 && 8 + |e.name| < d.reclen <= 8 + |e.name| + 4
  }

  lemma {:induction false} CookedAt(es: seq<Entry>, hidden: seq<byte> -> bool, i: nat)
    requires i < |es|
    ensures |CookAll(es, hidden)| == |es| && Shows(CookAll(es, hidden)[i], es[i], hidden(es[i].name))
    decreases |es|
  {
    var front := es[..|es| - 1];
    if i < |front| {
      CookedAt(front, hidden, i);
    } else if front != [] {
      CookedAt(front, hidden, 0);
    }
  }

  /** The caller gets the entries of dir from p on, in their order. */
  ghost predicate ShowsFrom(out: seq<Dirent>, dir: seq<Entry>, p: nat, hidden: seq<byte> -> bool)
    requires p <= |dir|
  {
    |out| == |dir| - p && forall i | 0 <= i < |out| :: Shows(out[i], dir[p + i], hidden(dir[p + i].name))
  }

  lemma CookedFrom(dir: seq<Entry>, p: nat, hidden: seq<byte> -> bool)
    requires p < |dir|
    ensures ShowsFrom(CookAll(dir[p..], hidden), dir, p, hidden)
  {
    var es := dir[p..];
    CookedAt(es, hidden, 0);
    forall i | 0 <= i < |es|
      ensures Shows(CookAll(es, hidden)[i], dir[p + i], hidden(dir[p + i].name))
    {
      CookedAt(es, hidden, i);
      assert es[i] == dir[p + i];
    }
  }

  /** A call with room for all that is left of a directory, of a daemon that sends all of it at once: the caller gets
      the entries, in their order, and the offset of the last one. */
  lemma CallerGets(bs: seq<Batch>, dir: seq<Entry>, p: nat, room: nat, iosize: nat,
                   daemon: (nat, nat, nat) -> Reply, hidden: seq<byte> -> bool)
    requires p < |dir| && forall e | e in dir :: InRange(e) && ValidName(e)
    requires Batches(bs, Cookie(dir, p), room, iosize, daemon) && bs != [] && Total(dir[p..]) <= room
    requires |EncodeAll(dir[p..])| <= Min(room, iosize)
    requires daemon(0, Cookie(dir, p), Min(room, iosize)) == Data(EncodeAll(dir[p..]))
    ensures ShowsFrom(CookAll(Moves(bs), hidden), dir, p, hidden)
    ensures Behind(Moves(bs), Cookie(dir, p)) == dir[|dir| - 1].off
  {
    RecordsAre(dir);
    RecordsBehind(dir, p);
    WholeListed(bs, Records(dir), dir, p, room, iosize, daemon);
    CookedFrom(dir, p, hidden);
  }
}
