/** fuse_internal_readdir and fuse_internal_readdir_processdata. */
module Readdir {
  import opened Bytes
  import opened Dirents
  import opened Messages

  /** The caller's uio: what is still wanted, the offset, and the records moved so far. */
  class Uio {
    var resid: nat
    var offset: nat
    var out: seq<Dirent>

    constructor (resid: nat, offset: nat)
      ensures this.resid == resid && this.offset == offset && out == []
    {
      this.resid, this.offset, out := resid, offset, [];
    }

    /** uiomove of a whole record. */
    method Move(d: Dirent)
      requires d.reclen <= resid
      modifies this
      ensures resid == old(resid) - d.reclen && offset == old(offset) + d.reclen && out == old(out) + [d]
    {
      resid, offset, out := resid - d.reclen, offset + d.reclen, out + [d];
    }
  }

  /** The error after n of the records es of a reply with this rest. */
  function Outcome(es: seq<Entry>, rest: seq<byte>, n: nat): int {
    if n < |es| then
      if |es[n].name| == 0 then EINVAL else if |es[n].name| > MAXNAMLEN then EIO else -1
    else if n == 0 || |rest| < NAME_OFFSET then -1
    else 0
  }

  /** The offset behind these records. */
  function Behind(es: seq<Entry>, offset: nat): nat {
    if es == [] then offset else es[|es| - 1].off
  }

  /** n of the records es have been moved since the caller's state was room, out and offset. */
  ghost predicate Moved(uio: Uio, es: seq<Entry>, n: nat, hidden: seq<byte> -> bool, room: nat, out: seq<Dirent>,
                        offset: nat)
    reads uio
  {
    && Fits(es, n, room) && uio.resid == room - Total(es[..n])
    && uio.out == out + CookAll(es[..n], hidden)
    && uio.offset == Behind(es[..n], offset)
  }

  /** One turn of the loop over the reply's records; cou counts the turns. */
  method ProcessOne(uio: Uio, buf: seq<byte>, cou: nat, hidden: seq<byte> -> bool,
                    ghost es: seq<Entry>, ghost room: nat, ghost out: seq<Dirent>, ghost offset: nat)
    returns (stop: bool, err: int, buf': seq<byte>)
    requires Moved(uio, es, cou, hidden, room, out, offset) && Entries(buf) == es[cou..]
    modifies uio
    ensures stop ==> err == Outcome(es, Rest(buf), cou) && Moved(uio, es, cou, hidden, room, out, offset)
    ensures stop && cou < |es| ==> !ValidName(es[cou]) || Total(es[..cou]) + Reclen(es[cou]) > room
    ensures !stop ==> cou < |es| && Moved(uio, es, cou + 1, hidden, room, out, offset)
    ensures !stop ==> Entries(buf') == es[cou + 1..] && Rest(buf') == Rest(buf) && |buf'| < |buf|
  {
    NextEntry(buf, es, cou);
    stop, err, buf' := true, 0, buf;
    if |buf| < NAME_OFFSET {
      err := -1;
      return;
    }
    var freclen := RecordSize(Word(buf, 16, 4));
    if |buf| < freclen {
      err := if cou + 1 == 1 then -1 else 0;
      return;
    }
    var fudge := First(buf);
    if |fudge.name| == 0 {
      err := EINVAL;
      return;
    }
    if |fudge.name| > MAXNAMLEN {
      err := EIO;
      return;
    }
    var bytesavail := Reclen(fudge);
    if bytesavail > uio.resid {
      err := -1;
      return;
    }
    OneMore(es, cou, room, hidden);
    uio.Move(Cook(fudge, hidden));
    stop, buf' := false, buf[freclen..];
    uio.offset := fudge.off;
  }

  /** Moves the longest run of records at the front of the reply that are complete, valid and fit. */
  method ProcessData(uio: Uio, reply: seq<byte>, hidden: seq<byte> -> bool, numdirent: nat)
    returns (err: int, numdirent': nat, ghost n: nat)
    modifies uio
    ensures Longest(Entries(reply), n, old(uio.resid)) && err == Outcome(Entries(reply), Rest(reply), n)
    ensures Moved(uio, Entries(reply), n, hidden, old(uio.resid), old(uio.out), old(uio.offset))
    ensures numdirent' == if err == 0 then n else numdirent
    ensures err == 22 <==> n < |Entries(reply)| && |Entries(reply)[n].name| == 0
    ensures err == 5 <==> n < |Entries(reply)| && |Entries(reply)[n].name| > 255
    ensures err == 0 <==> n == |Entries(reply)| > 0 && |Rest(reply)| >= 24
    ensures err in {22, 5, 0, -1}
  {
    var buf := reply;
    var cou := 0;
    ghost var es, room := Entries(reply), uio.resid;
    err := 0;
    numdirent' := numdirent;
    assert es[..0] == [] && es[0..] == es;
    if |buf| < NAME_OFFSET {
      StopsAtLongest(es, 0, room);
      return -1, numdirent, 0;
    }
    var stop := false;
    while !stop
      invariant cou <= |es|
      invariant !stop ==> Entries(buf) == es[cou..] && Rest(buf) == Rest(reply)
      invariant Moved(uio, es, cou, hidden, room, old(uio.out), old(uio.offset))
      invariant stop ==> err == Outcome(es, Rest(reply), cou)
      invariant stop && cou < |es| ==> !ValidName(es[cou]) || Total(es[..cou]) + Reclen(es[cou]) > room
      decreases !stop, |buf|
    {
      stop, err, buf := ProcessOne(uio, buf, cou, hidden, es, room, old(uio.out), old(uio.offset));
      if !stop {
        cou := cou + 1;
      }
    }
    StopsAtLongest(es, cou, room);
    n := cou;
    if err == 0 {
      numdirent' := cou;
    }
  }

  // ----- the whole call

  /** An audited reply, and how many of its records have been moved. */
  datatype Batch = Batch(reply: Reply, n: nat)

  function Taken(b: Batch): seq<Entry> {
    if b.reply.Error? then []
    else
      var es := Entries(b.reply.bytes);
      if b.n < |es| then es[..b.n] else es
  }

  /** All records that have been moved. */
  function Moves(bs: seq<Batch>): seq<Entry> {
    if bs == [] then [] else Moves(bs[..|bs| - 1]) + Taken(bs[|bs| - 1])
  }

  /** The error after a batch; with 0 the next request follows. */
  function Verdict(b: Batch): int {
    if b.reply.Error? then b.reply.err else Outcome(Entries(b.reply.bytes), Rest(b.reply.bytes), b.n)
  }

  /** The k-th batch, after the records es: the daemon is asked at the offset behind them, for as much as is still
      wanted, at most iosize; the longest run of its records is moved. */
  ghost predicate Asked(b: Batch, k: nat, es: seq<Entry>, offset: nat, room: nat, iosize: nat,
                        daemon: (nat, nat, nat) -> Reply) {
    Total(es) < room &&
    var size := Min(room - Total(es), iosize);
    && b.reply == Audit(FUSE_READDIR, size, daemon(k, Behind(es, offset), size))
    && if b.reply.Error? then b.n == 0 else Longest(Entries(b.reply.bytes), b.n, room - Total(es))
  }

  /** Each batch follows one without an error. */
  ghost predicate Batches(bs: seq<Batch>, offset: nat, room: nat, iosize: nat, daemon: (nat, nat, nat) -> Reply) {
    bs == [] ||
    var k := |bs| - 1;
    && Batches(bs[..k], offset, room, iosize, daemon) && (k > 0 ==> Verdict(bs[k - 1]) == 0)
    && Asked(bs[k], k, Moves(bs[..k]), offset, room, iosize, daemon)
  }

  /** What the last batch that was without an error leaves in the count. */
  function Count(bs: seq<Batch>, numdirent: nat): nat {
    if bs == [] then numdirent
    else
      var k := |bs| - 1;
      if Verdict(bs[k]) == 0 then bs[k].n else Count(bs[..k], numdirent)
  }

  lemma OneBatch(bs: seq<Batch>, b: Batch, offset: nat, room: nat, iosize: nat, daemon: (nat, nat, nat) -> Reply)
    requires Batches(bs, offset, room, iosize, daemon) && (bs != [] ==> Verdict(bs[|bs| - 1]) == 0)
    requires Asked(b, |bs|, Moves(bs), offset, room, iosize, daemon)
    ensures Batches(bs + [b], offset, room, iosize, daemon) && Moves(bs + [b]) == Moves(bs) + Taken(b)
    ensures forall n: nat :: Count(bs + [b], n) == if Verdict(b) == 0 then b.n else Count(bs, n)
  {
    assert (bs + [b])[..|bs|] == bs;
  }

  lemma MoreMoved(es: seq<Entry>, more: seq<Entry>, hidden: seq<byte> -> bool, out: seq<Dirent>)
    ensures Total(es + more) == Total(es) + Total(more)
    ensures out + CookAll(es, hidden) + CookAll(more, hidden) == out + CookAll(es + more, hidden)
    ensures forall offset: nat :: Behind(more, Behind(es, offset)) == Behind(es + more, offset)
  {
    TotalJoin(es, more);
    CookJoin(es, more, hidden);
    if more == [] {
      assert es + more == es;
    } else {
      assert (es + more)[|es + more| - 1] == more[|more| - 1];
    }
  }

  /** The caller's state after these records. */
  ghost predicate Stands(uio: Uio, es: seq<Entry>, hidden: seq<byte> -> bool, room: nat, out: seq<Dirent>,
                         offset: nat)
    reads uio
  {
    && Total(es) <= room && uio.resid == room - Total(es)
    && uio.out == out + CookAll(es, hidden) && uio.offset == Behind(es, offset)
  }

  /** One turn of the loop. */
  method TakeUp(uio: Uio, iosize: nat, daemon: (nat, nat, nat) -> Reply, k: nat, hidden: seq<byte> -> bool,
                numdirent: nat, ghost es: seq<Entry>, ghost room: nat, ghost out: seq<Dirent>, ghost offset: nat)
    returns (err: int, numdirent': nat, ghost b: Batch)
    requires Stands(uio, es, hidden, room, out, offset) && uio.resid > 0
    modifies uio
    ensures Asked(b, k, es, offset, room, iosize, daemon) && err == Verdict(b)
    ensures Stands(uio, es + Taken(b), hidden, room, out, offset)
    ensures uio.resid <= old(uio.resid) && (err == 0 ==> uio.resid < old(uio.resid))
    ensures numdirent' == if err == 0 then b.n else numdirent
  {
    var size := Min(uio.resid, iosize);
    var reply := Audit(FUSE_READDIR, size, daemon(k, uio.offset, size));
    if reply.Error? {
      assert es + [] == es;
      return reply.err, numdirent, Batch(reply, 0);
    }
    ghost var n;
    err, numdirent', n := ProcessData(uio, reply.bytes, hidden, numdirent);
    b := Batch(reply, n);
    ghost var more := Entries(reply.bytes)[..n];
    assert Taken(b) == more;
    MoreMoved(es, more, hidden, out);
    if n > 0 {
      SomeRoom(Entries(reply.bytes), n);
    }
  }

  /** The daemon's k-th reply may depend on k, the offset and the size asked for. The call ends for every daemon:
      when nothing more is wanted, or with the first batch that has an error. */
  method Readdir(uio: Uio, iosize: nat, daemon: (nat, nat, nat) -> Reply, hidden: seq<byte> -> bool, numdirent: nat)
    returns (err: int, numdirent': nat, ghost bs: seq<Batch>)
    modifies uio
    ensures Batches(bs, old(uio.offset), old(uio.resid), iosize, daemon)
    ensures Stands(uio, Moves(bs), hidden, old(uio.resid), old(uio.out), old(uio.offset))
    ensures uio.resid == 0 || (bs != [] && Verdict(bs[|bs| - 1]) != 0)
    ensures err == if bs == [] || Verdict(bs[|bs| - 1]) == -1 then 0 else Verdict(bs[|bs| - 1])
    ensures numdirent' == Count(bs, numdirent)
  {
    err, numdirent', bs := 0, numdirent, [];
    if uio.resid == 0 {
      return;
    }
    ghost var room, out, offset := uio.resid, uio.out, uio.offset;
    var k := 0;
    while uio.resid > 0 && err == 0
      invariant k == |bs| && Batches(bs, offset, room, iosize, daemon) && numdirent' == Count(bs, numdirent)
      invariant Stands(uio, Moves(bs), hidden, room, out, offset)
      invariant err == if bs == [] then 0 else Verdict(bs[|bs| - 1])
      decreases uio.resid, err == 0
    {
      ghost var b;
      err, numdirent', b := TakeUp(uio, iosize, daemon, k, hidden, numdirent', Moves(bs), room, out, offset);
      OneBatch(bs, b, offset, room, iosize, daemon);
      bs := bs + [b];
      k := k + 1;
    }
    err := if err == -1 then 0 else err;
  }

  // ----- a daemon that honours its cookies

  /** At the offset behind the first p entries, each reply's complete records are the next entries. */
  ghost predicate Honours(daemon: (nat, nat, nat) -> Reply, dir: seq<Entry>) {
    forall k: nat, p: nat, size: nat | p <= |dir| && daemon(k, Cookie(dir, p), size).Data? ::
      Entries(daemon(k, Cookie(dir, p), size).bytes) <= dir[p..]
  }

  lemma Onward(dir: seq<Entry>, p: nat, q: nat, es: seq<Entry>, n: nat)
    requires p <= q <= |dir| && n <= |es| && es <= dir[q..]
    ensures q + n <= |dir| && dir[p..q] + es[..n] == dir[p..q + n]
  {
    assert forall i | 0 <= i < n :: es[i] == dir[q..][i];
  }

  lemma BehindIsCookie(dir: seq<Entry>, p: nat, q: nat)
    requires p <= q <= |dir|
    ensures Behind(dir[p..q], Cookie(dir, p)) == Cookie(dir, q)
  {
  }

  /** The records that a call moves are the next entries of the directory, none left out and none twice, and the
      offset is the last one's cookie. */
  lemma {:induction false} NoneSkipped(bs: seq<Batch>, dir: seq<Entry>, p: nat, room: nat, iosize: nat,
                                       daemon: (nat, nat, nat) -> Reply) returns (q: nat)
    requires Honours(daemon, dir) && p <= |dir| && Batches(bs, Cookie(dir, p), room, iosize, daemon)
    ensures p <= q <= |dir| && Moves(bs) == dir[p..q] && Behind(Moves(bs), Cookie(dir, p)) == Cookie(dir, q)
    ensures forall i | p <= i < q :: ValidName(dir[i])
    decreases |bs|
  {
    q := p;
    if bs != [] {
      var k := |bs| - 1;
      var q0 := NoneSkipped(bs[..k], dir, p, room, iosize, daemon);
      var left := room - Total(Moves(bs[..k]));
      q := TakenNext(bs[k], k, dir, p, q0, left, Min(left, iosize), daemon);
    }
    BehindIsCookie(dir, p, q);
  }

  lemma TakenNext(b: Batch, k: nat, dir: seq<Entry>, p: nat, q0: nat, left: nat, size: nat,
                  daemon: (nat, nat, nat) -> Reply) returns (q: nat)
    requires Honours(daemon, dir) && p <= q0 <= |dir|
    requires b.reply == Audit(FUSE_READDIR, size, daemon(k, Cookie(dir, q0), size))
    requires b.reply.Data? ==> Longest(Entries(b.reply.bytes), b.n, left)
    ensures q0 <= q <= |dir| && dir[p..q0] + Taken(b) == dir[p..q]
    ensures forall i | q0 <= i < q :: ValidName(dir[i])
  {
    if b.reply.Error? {
      q := q0;
    } else {
      var es := Entries(b.reply.bytes);
      Onward(dir, p, q0, es, b.n);
      q := q0 + b.n;
      forall i | q0 <= i < q
        ensures ValidName(dir[i])
      {
        assert es[i - q0] == dir[q0..][i - q0] && ValidName(es[i - q0]);
      }
    }
  }

  lemma Adjacent(dir: seq<Entry>, p: nat, q1: nat, q: nat)
    requires p <= q1 <= q <= |dir|
    ensures dir[p..q1] + dir[q1..q] == dir[p..q]
  {
  }

  /** Two calls, the second one where the first one stopped, move a run of entries together. */
  lemma Resumed(bs1: seq<Batch>, bs2: seq<Batch>, dir: seq<Entry>, p: nat, room1: nat, room2: nat, iosize: nat,
                daemon1: (nat, nat, nat) -> Reply, daemon2: (nat, nat, nat) -> Reply) returns (q: nat)
    requires Honours(daemon1, dir) && Honours(daemon2, dir) && p <= |dir|
    requires Batches(bs1, Cookie(dir, p), room1, iosize, daemon1)
    requires Batches(bs2, Behind(Moves(bs1), Cookie(dir, p)), room2, iosize, daemon2)
    ensures p <= q <= |dir| && Moves(bs1) + Moves(bs2) == dir[p..q]
  {
    var q1 := NoneSkipped(bs1, dir, p, room1, iosize, daemon1);
    q := NoneSkipped(bs2, dir, q1, room2, iosize, daemon2);
    Adjacent(dir, p, q1, q);
  }

  lemma {:induction false} RecordsFrom(rs: seq<seq<byte>>, es: seq<Entry>, p: nat)
    requires AreRecords(rs, es) && p <= |es|
    ensures AreRecords(rs[p..], es[p..])
    decreases p
  {
    if p > 0 {
      RecordsFrom(rs[1..], es[1..], p - 1);
      assert rs[1..][p - 1..] == rs[p..] && es[1..][p - 1..] == es[p..];
    }
  }

  /** A daemon that sends the records of its entries, from the one that the offset stands for, cut off anywhere,
      honours its cookies. */
  lemma CutsHonour(daemon: (nat, nat, nat) -> Reply, rs: seq<seq<byte>>, dir: seq<Entry>)
    requires AreRecords(rs, dir)
    requires forall k: nat, p: nat, size: nat | p <= |dir| && daemon(k, Cookie(dir, p), size).Data? ::
      daemon(k, Cookie(dir, p), size).bytes <= Joined(rs[p..])
    ensures Honours(daemon, dir)
  {
    forall k: nat, p: nat, size: nat | p <= |dir| && daemon(k, Cookie(dir, p), size).Data?
      ensures Entries(daemon(k, Cookie(dir, p), size).bytes) <= dir[p..]
    {
      RecordsFrom(rs, dir, p);
      CutParses(rs[p..], dir[p..], daemon(k, Cookie(dir, p), size).bytes);
    }
  }

  lemma {:induction false} FirstBatch(bs: seq<Batch>, offset: nat, room: nat, iosize: nat,
                                      daemon: (nat, nat, nat) -> Reply)
    requires Batches(bs, offset, room, iosize, daemon) && bs != []
    ensures var size := Min(room, iosize); bs[0].reply == Audit(FUSE_READDIR, size, daemon(0, offset, size))
    ensures bs[0].reply.Data? ==> Longest(Entries(bs[0].reply.bytes), bs[0].n, room)
    ensures |bs| > 1 ==> Verdict(bs[0]) == 0
  {
    var k := |bs| - 1;
    if k > 0 {
      FirstBatch(bs[..k], offset, room, iosize, daemon);
    } else {
      assert bs[..0] == [];
    }
  }

  /** A call with room for all that is left, of a daemon that sends all of it at once, moves all of it. */
  lemma WholeListed(bs: seq<Batch>, rs: seq<seq<byte>>, dir: seq<Entry>, p: nat, room: nat, iosize: nat,
                    daemon: (nat, nat, nat) -> Reply)
    requires AreRecords(rs, dir) && p <= |dir| && forall i | p <= i < |dir| :: ValidName(dir[i])
    requires Batches(bs, Cookie(dir, p), room, iosize, daemon) && bs != [] && Total(dir[p..]) <= room
    requires |Joined(rs[p..])| <= Min(room, iosize)
    requires daemon(0, Cookie(dir, p), Min(room, iosize)) == Data(Joined(rs[p..]))
    ensures |bs| == 1 && Verdict(bs[0]) == -1 && Moves(bs) == dir[p..]
  {
    FirstBatch(bs, Cookie(dir, p), room, iosize, daemon);
    var b, more, all := bs[0], rs[p..], dir[p..];
    assert b.reply == Data(Joined(more));
    RecordsFrom(rs, dir, p);
    forall i | 0 <= i < |all|
      ensures ValidName(all[i])
    {
      assert all[i] == dir[p + i];
    }
    WholeBatch(b, more, all, room);
    OnlyBatch(bs);
  }

  lemma WholeBatch(b: Batch, rs: seq<seq<byte>>, all: seq<Entry>, room: nat)
    requires AreRecords(rs, all) && Total(all) <= room && forall i | 0 <= i < |all| :: ValidName(all[i])
    requires b.reply == Data(Joined(rs)) && Longest(Entries(Joined(rs)), b.n, room)
    ensures Taken(b) == all && Verdict(b) == -1
  {
    WholeParses(rs, all);
    assert all[..|all|] == all && Fits(all, |all|, room);
  }

  lemma OnlyBatch(bs: seq<Batch>)
    requires |bs| == 1
    ensures Moves(bs) == Taken(bs[0])
  {
    assert bs[..0] == [];
  }

  // ----- the caller's count

  /** The last batch's part. */
  lemma LastMoves(bs: seq<Batch>, offset: nat, room: nat, iosize: nat, daemon: (nat, nat, nat) -> Reply)
    requires Batches(bs, offset, room, iosize, daemon) && bs != []
    ensures var k := |bs| - 1;
      && Batches(bs[..k], offset, room, iosize, daemon) && (k > 0 ==> Verdict(bs[k - 1]) == 0)
      && |Moves(bs)| == |Moves(bs[..k])| + bs[k].n && (Verdict(bs[k]) == 0 ==> bs[k].n > 0)
  {
    TakenSize(bs[|bs| - 1]);
  }

  lemma TakenSize(b: Batch)
    requires if b.reply.Error? then b.n == 0 else b.n <= |Entries(b.reply.bytes)|
    ensures |Taken(b)| == b.n && (Verdict(b) == 0 ==> b.n > 0)
  {
  }

  lemma {:induction false} EachMoves(bs: seq<Batch>, offset: nat, room: nat, iosize: nat,
                                     daemon: (nat, nat, nat) -> Reply)
    requires Batches(bs, offset, room, iosize, daemon)
    ensures |Moves(bs)| + 1 >= |bs|
    ensures bs != [] && Verdict(bs[|bs| - 1]) == 0 ==> |Moves(bs)| >= |bs|
  {
    if bs != [] {
      LastMoves(bs, offset, room, iosize, daemon);
      EachMoves(bs[..|bs| - 1], offset, room, iosize, daemon);
    }
  }

  /** Two batches or more: what the last two have moved, and the count. */
  lemma LastTwo(bs: seq<Batch>, offset: nat, room: nat, iosize: nat, daemon: (nat, nat, nat) -> Reply,
                numdirent: nat)
    requires Batches(bs, offset, room, iosize, daemon) && |bs| >= 2
    ensures var k := |bs| - 1;
      && |Moves(bs)| >= bs[k].n + bs[k - 1].n + (k - 1) && (k == 1 ==> |Moves(bs)| == bs[k].n + bs[k - 1].n)
      && Count(bs, numdirent) == (if Verdict(bs[k]) == 0 then bs[k].n else bs[k - 1].n) && bs[k - 1].n > 0
  {
    var k := |bs| - 1;
    var front := bs[..k];
    LastMoves(bs, offset, room, iosize, daemon);
    LastMoves(front, offset, room, iosize, daemon);
    EachMoves(front[..k - 1], offset, room, iosize, daemon);
    assert front[k - 1] == bs[k - 1];
  }

  /** The count after a call is the number of records moved if and only if at most one batch has moved any, and that
      one has ended in a record cut off behind complete ones that all fit, or the caller had guessed right. */
  lemma CountIsRight(bs: seq<Batch>, offset: nat, room: nat, iosize: nat, daemon: (nat, nat, nat) -> Reply,
                     numdirent: nat)
    requires Batches(bs, offset, room, iosize, daemon)
    ensures Count(bs, numdirent) == |Moves(bs)| <==>
      || (bs == [] && numdirent == 0)
      || (|bs| == 1 && (Verdict(bs[0]) == 0 || bs[0].n == numdirent))
      || (|bs| == 2 && Verdict(bs[1]) != 0 && bs[1].n == 0)
  {
    if |bs| >= 2 {
      LastTwo(bs, offset, room, iosize, daemon, numdirent);
      if Verdict(bs[|bs| - 1]) == 0 {
        LastMoves(bs, offset, room, iosize, daemon);
      }
    } else if |bs| == 1 {
      LastMoves(bs, offset, room, iosize, daemon);
    }
  }

  /** A record of an entry whose name has one byte. */
  function ShortRecord(): seq<byte> {
    seq(16, _ => 0) + [1, 0, 0, 0, 0, 0, 0, 0] + [97] + seq(7, _ => 0)
  }

  lemma ShortEntry()
    ensures HasRecord(ShortRecord()) && |First(ShortRecord()).name| == 1 && FirstSize(ShortRecord()) == 32
    ensures Entries(ShortRecord()) == [First(ShortRecord())] && Rest(ShortRecord()) == []
  {
    var b := ShortRecord();
    assert |b| == 32 && b[16] == 1 && b[17] == 0 && b[18] == 0 && b[19] == 0;
    assert Word(b, 20, 0) == 0;
    assert Word(b, 19, 1) == 0;
    assert Word(b, 18, 2) == 0;
    assert Word(b, 17, 3) == 0;
    assert Word(b, 16, 4) == 1;
    assert b[32..] == [];
    assert Entries(b[32..]) == [] && Rest(b[32..]) == [];
  }

  /** A daemon that sends one whole record: it is moved, and the count stays 0. */
  lemma CountIsWrong() returns (bs: seq<Batch>, daemon: (nat, nat, nat) -> Reply)
    ensures Batches(bs, 0, 100, 100, daemon) && bs != [] && Verdict(bs[|bs| - 1]) == -1
    ensures |Moves(bs)| == 1 && Count(bs, 0) == 0
  {
    var r := ShortRecord();
    daemon := (k, offset, size) => Data(r);
    ShortEntry();
    var es, b := Entries(r), Batch(Data(r), 1);
    assert es[..1] == es && Total(es) == Total(es[..0]) + Reclen(es[0]);
    StopsAtLongest(es, 1, 100);
    OneBatch([], b, 0, 100, 100, daemon);
    bs := [] + [b];
    assert Taken(b) == es;
  }

  /** A batch without an error ends in a record cut off behind complete ones that all fit. */
  lemma GoesOn(b: Batch, room: nat)
    requires b.reply.Data? && Longest(Entries(b.reply.bytes), b.n, room)
    ensures Verdict(b) == 0 <==> 0 < b.n == |Entries(b.reply.bytes)| && |Rest(b.reply.bytes)| >= NAME_OFFSET
  {
  }
}
