/** What a read or a write brings about with a daemon that does its part: the content of the file in the buffer, or the
    whole buffer accepted. */
module StrategyContent {
  import opened Answers
  import opened Bytes
  import opened Messages
  import opened Strategy

  /** The fields of message i, by their places: its length, 15 for READ or 28 for READDIR, the ticket's number, the
      node and the handle; the offset behind the bytes that have come; the smaller of what is left and iosize. */
  lemma ReadFields(ts: seq<Turn>, i: nat, w: Setting, offset: nat, want: nat, daemon: (nat, seq<byte>) -> Reply)
    requires ReadTurns(ts, w, offset, want, daemon) && i < |ts|
    ensures var m, done := ts[i].m, |Body(ts[..i])|;
      && |m| >= 80 && Word(m, 0, 4) == |m| && Word(m, 4, 4) == (if w.file.dir then 28 else 15)
      && Word(m, 8, 8) == w.ticket.unique % 0x1_0000_0000_0000_0000
      && Word(m, 16, 8) == w.file.nid % 0x1_0000_0000_0000_0000
      && Word(m, 40, 8) == w.file.fh % 0x1_0000_0000_0000_0000
      && Word(m, 48, 8) == offset + done
      && Word(m, 56, 4) == if want - done < w.iosize then want - done else w.iosize
  {
    ReadTurnAt(ts, i, w, offset, want, daemon);
    BoundEight();
  }

  lemma BoundEight()
    ensures Bound(8) == 0x1_0000_0000_0000_0000
  {
    assert Bound(2) == 0x1_0000 && Bound(4) == 0x1_0000_0000 && Bound(6) == 0x1_0000_0000_0000;
  }

  /** The daemon answers each read with bytes of this content, from the offset in the message on: at least one, unless
      it is asked for none or the content ends there, and no more than it is asked for. */
  ghost predicate Serves(daemon: (nat, seq<byte>) -> Reply, content: seq<byte>) {
    forall k: nat, m: seq<byte> | |m| >= 80 :: Served(daemon(k, m), Word(m, 48, 8), Word(m, 56, 4), content)
  }

  predicate Served(r: Reply, at: nat, size: nat, content: seq<byte>) {
    r.Data? && var n := |r.bytes|;
    if at >= |content| || size == 0 then n == 0
    else 0 < n <= size && Part(r.bytes, at, content)
  }

  /** b is in the content at this place. */
  predicate Part(b: seq<byte>, at: nat, content: seq<byte>) {
    at + |b| <= |content| && b == content[at..at + |b|]
  }

  /** What comes are the bytes of the content from the offset on, without an error. */
  lemma {:induction false} ReadContent(ts: seq<Turn>, w: Setting, offset: nat, want: nat,
                                       daemon: (nat, seq<byte>) -> Reply, content: seq<byte>)
    requires ReadTurns(ts, w, offset, want, daemon) && Serves(daemon, content) && offset <= |content|
    ensures Part(Body(ts), offset, content)
    ensures ts != [] ==> var t := ts[|ts| - 1];
      t.reply.Data? && (t.reply == Data([]) && w.iosize > 0 ==> offset + |Body(ts)| >= |content|)
  {
    if ts != [] {
      var k := |ts| - 1;
      ReadContent(ts[..k], w, offset, want, daemon, content);
      LastServed(ts, w, offset, want, daemon, content);
    }
  }

  /** What the last turn adds. */
  lemma LastServed(ts: seq<Turn>, w: Setting, offset: nat, want: nat, daemon: (nat, seq<byte>) -> Reply,
                   content: seq<byte>)
    requires ReadTurns(ts, w, offset, want, daemon) && Serves(daemon, content) && ts != []
    requires Part(Body(ts[..|ts| - 1]), offset, content)
    ensures Part(Body(ts), offset, content)
    ensures var t := ts[|ts| - 1];
      t.reply.Data? && (t.reply == Data([]) && w.iosize > 0 ==> offset + |Body(ts)| >= |content|)
  {
    var k := |ts| - 1;
    ReadFields(ts, k, w, offset, want, daemon);
    ReplyServed(ts[k], w, offset + |Body(ts[..k])|, k, daemon, content);
    ContentMore(Body(ts[..k]), Sent(ts[k].reply), offset, content);
  }

  lemma ContentMore(body: seq<byte>, r: seq<byte>, offset: nat, content: seq<byte>)
    requires Part(body, offset, content) && Part(r, offset + |body|, content)
    ensures Part(body + r, offset, content)
  {
  }

  lemma ReplyServed(t: Turn, w: Setting, at: nat, k: nat, daemon: (nat, seq<byte>) -> Reply, content: seq<byte>)
    requires Serves(daemon, content) && |t.m| >= 80 && Word(t.m, 48, 8) == at && Word(t.m, 4, 4) != 16
    requires t.reply == Audited(t.m, daemon(k, t.m))
    ensures Served(t.reply, at, Word(t.m, 56, 4), content)
  {
    assert Served(daemon(k, t.m), Word(t.m, 48, 8), Word(t.m, 56, 4), content);
  }

  /** Read from such a daemon, the buffer holds the content from the offset on, as far as it goes, and then zeros. */
  lemma ReadsContent(bp: Buf, was: seq<byte>, ts: seq<Turn>, w: Setting, offset: nat, want: nat,
                     daemon: (nat, seq<byte>) -> Reply, err: int, error0: int, content: seq<byte>)
    requires ReadTurns(ts, w, offset, want, daemon) && ReadEnds(bp, was, ts, want, err, error0)
    requires Serves(daemon, content) && offset <= |content| && w.iosize > 0
    ensures var n := if want < |content| - offset then want else |content| - offset;
      && err == 0 && bp.error == error0 && bp.resid == 0 && n <= want <= |was|
      && bp.data[..] == content[offset..offset + n] + Zeros(want - n) + was[want..]
  {
    ReadContent(ts, w, offset, want, daemon, content);
    AsFarAsItGoes(Body(ts), offset, want, content);
  }

  lemma AsFarAsItGoes(body: seq<byte>, offset: nat, want: nat, content: seq<byte>)
    requires Part(body, offset, content) && |body| <= want && (|body| < want ==> offset + |body| >= |content|)
    ensures var n := if want < |content| - offset then want else |content| - offset;
      |body| == n && body == content[offset..offset + n]
  {
  }

  /** The fields of message i of a write, and the bytes it carries: the first of those that have not been accepted,
      and their place in the file. */
  lemma WriteFields(ts: seq<Turn>, i: nat, w: Setting, offset: nat, data: seq<byte>,
                    daemon: (nat, seq<byte>) -> Reply)
    requires WriteTurns(ts, w, offset, data, daemon) && i < |ts|
    ensures var m, left := ts[i].m, Left(|data|, w.iosize, AnswersOf(ts[..i]));
      var at, size := |data| - left, if left < w.iosize then left else w.iosize;
      && |m| == 80 + size && Word(m, 0, 4) == |m| && Word(m, 4, 4) == 16
      && Word(m, 8, 8) == w.ticket.unique % 0x1_0000_0000_0000_0000
      && Word(m, 16, 8) == w.file.nid % 0x1_0000_0000_0000_0000
      && Word(m, 40, 8) == w.file.fh % 0x1_0000_0000_0000_0000
      && Word(m, 48, 8) == offset + at && Word(m, 56, 4) == size && m[80..] == data[at..at + size]
  {
    WriteTurnAt(ts, i, w, offset, data, daemon);
    BoundEight();
  }

  /** What a reply of the daemon becomes: a WRITE must be answered with 8 bytes, another request with no more than it
      asked for; any other reply is error 5. An answer that more has been accepted than sent is error 22. */
  lemma Audits(op: nat, size: nat, r: Reply, a: Answer)
    ensures Audit(op, size, r) ==
      if r.Data? && (if op == 16 then |r.bytes| != 8 else |r.bytes| > size) then Error(5) else r
    ensures Fault(a) == if a.Failed? then a.err else 22
  {
  }

  /** The daemon answers each write with struct fuse_write_out, saying that it accepts at least one byte and no more
      than it has been sent. */
  ghost predicate Takes(daemon: (nat, seq<byte>) -> Reply) {
    forall k: nat, m: seq<byte> | |m| >= 80 :: Taken(daemon(k, m), Word(m, 56, 4))
  }

  predicate Taken(r: Reply, size: nat) {
    r.Data? && |r.bytes| == 8 && (size > 0 ==> 0 < Word(r.bytes, 0, 4) <= size)
  }

  lemma {:induction false} TakesFine(ts: seq<Turn>, w: Setting, offset: nat, data: seq<byte>,
                                     daemon: (nat, seq<byte>) -> Reply)
    requires WriteTurns(ts, w, offset, data, daemon) && Takes(daemon) && w.iosize > 0
    ensures AllFine(|data|, w.iosize, AnswersOf(ts)) && NonZero(AnswersOf(ts)) == AnswersOf(ts)
  {
    if ts != [] {
      var k := |ts| - 1;
      TakesFine(ts[..k], w, offset, data, daemon);
      assert AnswersOf(ts)[..k] == AnswersOf(ts[..k]);
      AnswerTaken(ts[k], k, Left(|data|, w.iosize, AnswersOf(ts[..k])), w, offset, data, daemon);
    }
  }

  lemma AnswerTaken(t: Turn, k: nat, left: nat, w: Setting, offset: nat, data: seq<byte>,
                    daemon: (nat, seq<byte>) -> Reply)
    requires Writes(t, k, left, w, offset, data, daemon) && Takes(daemon) && w.iosize > 0 && left > 0
    ensures AnswerOf(t.reply).Fine(left, w.iosize) && AnswerOf(t.reply) != Accepted(0)
  {
    assert Taken(daemon(k, t.m), Word(t.m, 56, 4));
  }

  /** Written to such a daemon, the whole buffer is accepted, in at most as many turns as there are bytes. */
  lemma WriteSucceeds(ts: seq<Turn>, w: Setting, offset: nat, data: seq<byte>, daemon: (nat, seq<byte>) -> Reply)
    requires WriteTurns(ts, w, offset, data, daemon) && Takes(daemon) && w.iosize > 0
    ensures AllFine(|data|, w.iosize, AnswersOf(ts)) && |ts| <= |data|
    ensures |ts| == |data| ==> Left(|data|, w.iosize, AnswersOf(ts)) == 0
  {
    TakesFine(ts, w, offset, data, daemon);
    NoZeros(AnswersOf(ts));
    FineTakes(|data|, w.iosize, AnswersOf(ts));
  }
}
