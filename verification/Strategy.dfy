/** The read and write loops of fuse_internal_strategy. */
module Strategy {
  import opened Answers
  import opened Bytes
  import opened Messages

  /** The open file (or directory) that is read or written. */
  datatype File = File(dir: bool, nid: nat, fh: nat)

  /** A message and the audited reply to it. */
  datatype Turn = Turn(m: seq<byte>, reply: Reply)

  /** The bytes of the replies, one reply behind the other. */
  function Body(ts: seq<Turn>): seq<byte> {
    if ts == [] then [] else Body(ts[..|ts| - 1]) + Sent(ts[|ts| - 1].reply)
  }

  function Sent(r: Reply): seq<byte> {
    if r.Data? then r.bytes else []
  }

  function Zeros(n: nat): seq<byte> {
    seq(n, _ => 0 as byte)
  }

  /** struct buf, mapped. */
  class Buf {
    var count: nat
    var resid: nat
    var error: int
    const data: array<byte>

    constructor (data: array<byte>)
      ensures this.data == data && count == data.Length && resid == 0 && error == 0
    {
      this.data, count, resid, error := data, data.Length, 0, 0;
    }
  }

  /** What a call works with: the ticket, the open file, the largest request, and the size of the daemon's buffer.
      The largest request must not overflow a message's len. */
  datatype Setting = Setting(ticket: Ticket, file: File, iosize: nat, room: nat) {
    ghost predicate Ready(bp: Buf)
      reads ticket, ticket.msFiov
    {
      && ticket.Valid() && bp.data != ticket.msFiov.base
      && IN_HEADER + ARGS + iosize < Bound(4) && IN_HEADER + ARGS + iosize <= room
    }
  }

  // ----- reading

  /** The read request when done bytes of the want bytes from offset on have come. */
  function ReadRequest(w: Setting, offset: nat, want: nat, done: nat): Request
    requires done <= want
  {
    Request(if w.file.dir then FUSE_READDIR else FUSE_READ, w.file.nid, w.file.fh, offset + done,
            Min(want - done, w.iosize))
  }

  /** The turn makes this request, and has what the audit makes of the daemon's k-th reply. */
  predicate Made(t: Turn, w: Setting, q: Request, k: nat, daemon: (nat, seq<byte>) -> Reply) {
    Says(t.m, w.ticket.unique, q) && t.reply == Audited(t.m, daemon(k, t.m))
  }

  /** Each turn asks for what is still wanted behind the replies before it, at most iosize; none follows an error
      or an empty reply. */
  ghost predicate ReadTurns(ts: seq<Turn>, w: Setting, offset: nat, want: nat, daemon: (nat, seq<byte>) -> Reply) {
    ts == [] ||
    var k := |ts| - 1;
    var done := |Body(ts[..k])|;
    && ReadTurns(ts[..k], w, offset, want, daemon) && done < want && (k > 0 ==> Sent(ts[k - 1].reply) != [])
    && Made(ts[k], w, ReadRequest(w, offset, want, done), k, daemon)
  }

  lemma OneTurn(ts: seq<Turn>, t: Turn, w: Setting, offset: nat, want: nat, daemon: (nat, seq<byte>) -> Reply)
    requires ReadTurns(ts, w, offset, want, daemon) && |Body(ts)| < want
    requires ts != [] ==> Sent(ts[|ts| - 1].reply) != []
    requires Made(t, w, ReadRequest(w, offset, want, |Body(ts)|), |ts|, daemon)
    ensures ReadTurns(ts + [t], w, offset, want, daemon) && Body(ts + [t]) == Body(ts) + Sent(t.reply)
  {
    assert (ts + [t])[..|ts|] == ts;
  }

  /** What the buffer holds after these turns. */
  ghost predicate Filled(bp: Buf, was: seq<byte>, body: seq<byte>, want: nat)
    reads bp, bp.data
  {
    && |body| <= want <= |was| == bp.data.Length && bp.resid == want - |body|
    && bp.data[..] == body + was[|body|..]
  }

  lemma Placed(front: seq<byte>, r: seq<byte>, was: seq<byte>, before: seq<byte>, after: seq<byte>)
    requires |front| + |r| <= |was| && before == front + was[|front|..]
    requires after == before[..|front|] + r + before[|front| + |r|..]
    ensures after == front + r + was[|front| + |r|..]
  {
    assert was[|front|..][|r|..] == was[|front| + |r|..];
  }

  /** Sends a read request and takes up the reply, at position at of the buffer. */
  method Ask(bp: Buf, w: Setting, q: Request, at: nat, k: nat, daemon: (nat, seq<byte>) -> Reply)
    returns (err: int, ghost t: Turn)
    requires w.Ready(bp) && q.InRange() && q.size <= w.iosize && q.op != FUSE_WRITE && at + q.size <= bp.data.Length
    modifies bp.data, w.ticket, w.ticket.msFiov, w.ticket.msFiov.base
    ensures w.Ready(bp) && (w.ticket.msFiov.base == old(w.ticket.msFiov.base) || fresh(w.ticket.msFiov.base))
    ensures Made(t, w, q, k, daemon) && err == if t.reply.Error? then t.reply.err else 0
    ensures if err != 0 then bp.data[..] == old(bp.data[..])
            else |t.reply.bytes| == w.ticket.awBufsize <= q.size
                 && bp.data[..] == old(bp.data[..at]) + t.reply.bytes + old(bp.data[at + |t.reply.bytes|..])
  {
    w.ticket.MakeRead(q, bp.data, at);
    ghost var m;
    var answer;
    err, answer, m := w.ticket.WaitAnswer(k, w.room, daemon);
    t := Turn(m, Audited(m, daemon(k, m)));
  }

  /** One turn of the read loop; at is where bufdat points. */
  method ReadOne(bp: Buf, w: Setting, offset: nat, at: nat, k: nat, daemon: (nat, seq<byte>) -> Reply,
                 ghost was: seq<byte>, ghost body: seq<byte>, ghost want: nat)
    returns (err: int, respsize: nat, ghost t: Turn)
    requires w.Ready(bp) && offset + want < Bound(8)
    requires Filled(bp, was, body, want) && at == |body| && bp.resid > 0
    modifies bp`resid, bp.data, w.ticket, w.ticket.msFiov, w.ticket.msFiov.base
    ensures w.Ready(bp) && (w.ticket.msFiov.base == old(w.ticket.msFiov.base) || fresh(w.ticket.msFiov.base))
    ensures Made(t, w, ReadRequest(w, offset, want, at), k, daemon)
    ensures Filled(bp, was, body + Sent(t.reply), want) && (t.reply.Error? ==> bp.data[..] == old(bp.data[..]))
    ensures err == if t.reply.Error? then t.reply.err else 0
    ensures err == 0 ==> respsize == |t.reply.bytes|
  {
    var op := if w.file.dir then FUSE_READDIR else FUSE_READ;
    var q := Request(op, w.file.nid, w.file.fh, offset + at, Min(bp.resid, w.iosize));
    err, t := Ask(bp, w, q, at, k, daemon);
    if err != 0 {
      assert body + [] == body;
      return err, 0, t;
    }
    respsize := w.ticket.awBufsize;
    bp.resid := bp.resid - respsize;
    Placed(body, t.reply.bytes, was, old(bp.data[..]), bp.data[..]);
  }

  /** Fills the rest of the buffer with zeros. */
  method ZeroPad(bp: Buf, at: nat, ghost was: seq<byte>, ghost body: seq<byte>, ghost want: nat)
    requires Filled(bp, was, body, want) && at == |body|
    modifies bp`resid, bp.data
    ensures bp.resid == 0 && bp.data[..] == body + Zeros(want - at) + was[want..]
  {
    Put(bp.data, at, Zeros(bp.resid));
    Placed(body, Zeros(bp.resid), was, old(bp.data[..]), bp.data[..]);
    bp.resid := 0;
  }

  /** How a read ends: at an error; or with the replies in the buffer, one behind the other, and behind them zeros
      if the last one was empty. */
  ghost predicate ReadEnds(bp: Buf, was: seq<byte>, ts: seq<Turn>, want: nat, err: int, error0: int)
    reads bp, bp.data
  {
    if ts != [] && ts[|ts| - 1].reply.Error? then
      err == bp.error == ts[|ts| - 1].reply.err && Filled(bp, was, Body(ts), want)
    else
      && err == 0 && bp.error == error0 && bp.resid == 0 && |Body(ts)| <= want <= |was|
      && bp.data[..] == Body(ts) + Zeros(want - |Body(ts)|) + was[want..]
      && (|Body(ts)| < want ==> ts != [] && ts[|ts| - 1].reply == Data([]))
  }

  /** Between two turns: so far each reply has had some bytes. */
  ghost predicate Reading(bp: Buf, was: seq<byte>, ts: seq<Turn>, w: Setting, offset: nat, want: nat,
                          daemon: (nat, seq<byte>) -> Reply, error0: int)
    reads bp, bp.data
  {
    && ReadTurns(ts, w, offset, want, daemon) && Filled(bp, was, Body(ts), want) && bp.error == error0
    && (ts != [] ==> ts[|ts| - 1].reply.Data? && (bp.resid > 0 ==> ts[|ts| - 1].reply.bytes != []))
  }

  /** A turn, and what follows an error or an empty reply; then the loop is left. */
  method ReadNext(bp: Buf, w: Setting, offset: nat, at: nat, k: nat, daemon: (nat, seq<byte>) -> Reply,
                  ghost was: seq<byte>, ghost ts: seq<Turn>, ghost want: nat)
    returns (err: int, stop: bool, respsize: nat, ghost ts': seq<Turn>)
    requires w.Ready(bp) && offset + want < Bound(8) && bp.resid > 0
    requires Reading(bp, was, ts, w, offset, want, daemon, bp.error) && at == |Body(ts)| && k == |ts|
    modifies bp`resid, bp`error, bp.data, w.ticket, w.ticket.msFiov, w.ticket.msFiov.base
    ensures w.Ready(bp) && (w.ticket.msFiov.base == old(w.ticket.msFiov.base) || fresh(w.ticket.msFiov.base))
    ensures stop ==> ReadTurns(ts', w, offset, want, daemon) && ReadEnds(bp, was, ts', want, err, old(bp.error))
    ensures !stop ==> err == 0 && Reading(bp, was, ts', w, offset, want, daemon, old(bp.error))
                      && at + respsize == |Body(ts')| && |ts'| == k + 1 && bp.resid < old(bp.resid)
  {
    ghost var t;
    err, respsize, t := ReadOne(bp, w, offset, at, k, daemon, was, Body(ts), want);
    OneTurn(ts, t, w, offset, want, daemon);
    ts' := ts + [t];
    stop := false;
    if err != 0 {
      bp.error := err;
      stop := true;
    } else if respsize == 0 && bp.resid > 0 {
      ZeroPad(bp, at, was, Body(ts'), want);
      stop := true;
    }
  }

  lemma ReadStarts(bp: Buf, w: Setting, offset: nat, daemon: (nat, seq<byte>) -> Reply)
    requires bp.resid <= bp.data.Length
    ensures Reading(bp, bp.data[..], [], w, offset, bp.resid, daemon, bp.error)
  {
    assert [] + bp.data[..][0..] == bp.data[..];
  }

  lemma ReadIsDone(bp: Buf, was: seq<byte>, ts: seq<Turn>, w: Setting, offset: nat, want: nat,
                   daemon: (nat, seq<byte>) -> Reply, error0: int)
    requires Reading(bp, was, ts, w, offset, want, daemon, error0) && bp.resid == 0
    ensures ReadEnds(bp, was, ts, want, 0, error0)
  {
    assert Body(ts) + Zeros(0) == Body(ts);
  }

  /** The loop of the read, for the bytes from offset on. It ends for every daemon. */
  method ReadLoop(bp: Buf, w: Setting, offset: nat, daemon: (nat, seq<byte>) -> Reply)
    returns (err: int, ghost ts: seq<Turn>)
    requires bp.resid <= bp.data.Length && w.Ready(bp) && offset + bp.resid < Bound(8)
    modifies bp`resid, bp`error, bp.data, w.ticket, w.ticket.msFiov, w.ticket.msFiov.base
    ensures ReadTurns(ts, w, offset, old(bp.resid), daemon)
    ensures ReadEnds(bp, old(bp.data[..]), ts, old(bp.resid), err, old(bp.error))
  {
    err, ts := 0, [];
    ghost var want, was := bp.resid, bp.data[..];
    var at, k, stop := 0, 0, false;
    ReadStarts(bp, w, offset, daemon);
    while !stop && bp.resid > 0
      invariant w.Ready(bp)
      invariant w.ticket.msFiov.base == old(w.ticket.msFiov.base) || fresh(w.ticket.msFiov.base)
      invariant !stop ==> err == 0 && Reading(bp, was, ts, w, offset, want, daemon, old(bp.error))
                          && at == |Body(ts)| && k == |ts|
      invariant stop ==> ReadTurns(ts, w, offset, want, daemon) && ReadEnds(bp, was, ts, want, err, old(bp.error))
      decreases !stop, bp.resid
    {
      var respsize;
      err, stop, respsize, ts := ReadNext(bp, w, offset, at, k, daemon, was, ts, want);
      at, k := at + respsize, k + 1;
    }
    if !stop {
      ReadIsDone(bp, was, ts, w, offset, want, daemon, old(bp.error));
    }
  }

  /** Reads what the buffer wants, from offset on. At and behind the end of the file it asks for nothing. Before
      it, the count is trimmed to the end of the file, but the loop still reads what was wanted. */
  method StrategyRead(bp: Buf, w: Setting, offset: nat, filesize: nat, daemon: (nat, seq<byte>) -> Reply)
    returns (err: int, ghost ts: seq<Turn>)
    requires bp.count <= bp.data.Length && w.Ready(bp) && offset + bp.count < Bound(8)
    modifies bp, bp.data, w.ticket, w.ticket.msFiov, w.ticket.msFiov.base
    ensures old(bp.count) == 0 || offset >= filesize ==>
      err == 0 && ts == [] && bp.data[..] == old(bp.data[..]) && bp.count == old(bp.count)
      && bp.resid == (if bp.count == 0 then old(bp.resid) else bp.count)
      && bp.error == if bp.count == 0 || offset == filesize then old(bp.error) else EINVAL
    ensures old(bp.count) > 0 && offset < filesize ==>
      && ReadTurns(ts, w, offset, old(bp.count), daemon)
      && ReadEnds(bp, old(bp.data[..]), ts, old(bp.count), err, old(bp.error))
      && bp.count == if offset + old(bp.count) > filesize then filesize - offset else old(bp.count)
  {
    if bp.count == 0 {
      return 0, [];
    }
    bp.resid := bp.count;
    if offset >= filesize {
      if offset != filesize {
        bp.error := EINVAL;
      }
      return 0, [];
    }
    if offset + bp.count > filesize {
      bp.count := filesize - offset;
    }
    err, ts := ReadLoop(bp, w, offset, daemon);
  }

  lemma {:induction false} BodyAt(ts: seq<Turn>, i: nat)
    requires i < |ts|
    ensures Body(ts[..i]) + Sent(ts[i].reply) <= Body(ts)
  {
    var k := |ts| - 1;
    if i < k {
      BodyAt(ts[..k], i);
      assert ts[..k][..i] == ts[..i];
    }
  }

  lemma {:induction false} ReadTurnAt(ts: seq<Turn>, i: nat, w: Setting, offset: nat, want: nat,
                                      daemon: (nat, seq<byte>) -> Reply)
    requires ReadTurns(ts, w, offset, want, daemon) && i < |ts|
    ensures |Body(ts[..i])| < want && Made(ts[i], w, ReadRequest(w, offset, want, |Body(ts[..i])|), i, daemon)
    ensures i + 1 < |ts| ==> Sent(ts[i].reply) != []
  {
    var k := |ts| - 1;
    if i < k {
      ReadTurnAt(ts[..k], i, w, offset, want, daemon);
      assert ts[..k][..i] == ts[..i];
    }
  }

  /** Each request starts where the reply before it ended, asks for what is left, and its reply's bytes are at that
      place in the buffer. */
  lemma ReadInPlace(bp: Buf, was: seq<byte>, ts: seq<Turn>, w: Setting, offset: nat, want: nat,
                    daemon: (nat, seq<byte>) -> Reply, err: int, error0: int, i: nat)
    requires ReadTurns(ts, w, offset, want, daemon) && ReadEnds(bp, was, ts, want, err, error0) && i < |ts|
    ensures var at, r := |Body(ts[..i])|, Sent(ts[i].reply);
      && at < want && Made(ts[i], w, ReadRequest(w, offset, want, at), i, daemon)
      && at + |r| <= bp.data.Length && bp.data[at..at + |r|] == r
  {
    ReadTurnAt(ts, i, w, offset, want, daemon);
    BodyAt(ts, i);
    InFront(Body(ts[..i]), Sent(ts[i].reply), Body(ts), bp.data[..]);
  }

  lemma InFront(a: seq<byte>, r: seq<byte>, body: seq<byte>, data: seq<byte>)
    requires a + r <= body <= data
    ensures data[|a|..|a| + |r|] == r
  {
    assert (a + r)[|a|..] == r;
  }

  // ----- writing

  function AnswerOf(r: Reply): Answer {
    if r.Error? then Failed(r.err) else Accepted(if |r.bytes| >= 4 then Word(r.bytes, 0, 4) else 0)
  }

  function AnswersOf(ts: seq<Turn>): (answers: seq<Answer>)
    ensures |answers| == |ts|
  {
    if ts == [] then [] else AnswersOf(ts[..|ts| - 1]) + [AnswerOf(ts[|ts| - 1].reply)]
  }

  /** Turn k, with left bytes to be written, sends the first of them, at most iosize, to their place in the file. */
  ghost predicate Writes(t: Turn, k: nat, left: nat, w: Setting, offset: nat, data: seq<byte>,
                         daemon: (nat, seq<byte>) -> Reply) {
    var size := Min(left, w.iosize);
    left <= |data| && var at := |data| - left;
    && Made(t, w, Request(FUSE_WRITE, w.file.nid, w.file.fh, offset + at, size), k, daemon)
    && t.m[IN_HEADER + ARGS..] == data[at..at + size]
  }

  /** Each turn goes on where the bytes accepted so far end; none follows the end of the write. */
  ghost predicate WriteTurns(ts: seq<Turn>, w: Setting, offset: nat, data: seq<byte>,
                             daemon: (nat, seq<byte>) -> Reply) {
    ts == [] ||
    var k := |ts| - 1;
    var answers := AnswersOf(ts[..k]);
    && WriteTurns(ts[..k], w, offset, data, daemon) && !Ends(|data|, w.iosize, answers)
    && Writes(ts[k], k, Left(|data|, w.iosize, answers), w, offset, data, daemon)
  }

  lemma OneAnswer(ts: seq<Turn>, t: Turn, w: Setting, offset: nat, data: seq<byte>,
                  daemon: (nat, seq<byte>) -> Reply)
    requires WriteTurns(ts, w, offset, data, daemon) && !Ends(|data|, w.iosize, AnswersOf(ts))
    requires Writes(t, |ts|, Left(|data|, w.iosize, AnswersOf(ts)), w, offset, data, daemon)
    ensures WriteTurns(ts + [t], w, offset, data, daemon)
  {
    assert (ts + [t])[..|ts|] == ts;
  }

  lemma AnswersOne(ts: seq<Turn>, t: Turn)
    ensures AnswersOf(ts + [t]) == AnswersOf(ts) + [AnswerOf(t.reply)]
  {
    assert (ts + [t])[..|ts|] == ts;
  }

  lemma {:induction false} AnswersAt(ts: seq<Turn>, i: nat)
    requires i < |ts|
    ensures AnswersOf(ts)[..i] == AnswersOf(ts[..i]) && AnswersOf(ts)[i] == AnswerOf(ts[i].reply)
  {
    var k := |ts| - 1;
    if i < k {
      AnswersAt(ts[..k], i);
      assert ts[..k][..i] == ts[..i];
      assert AnswersOf(ts)[..k] == AnswersOf(ts[..k]);
      assert AnswersOf(ts)[..k][..i] == AnswersOf(ts)[..i];
    }
  }

  /** One turn of the write loop; at is where bufdat points. size: the number of bytes accepted. */
  method WriteOne(bp: Buf, w: Setting, offset: nat, at: nat, left: nat, k: nat, daemon: (nat, seq<byte>) -> Reply)
    returns (err: int, size: nat, ghost t: Turn)
    requires w.Ready(bp) && offset + bp.count < Bound(8) && at + left == bp.count <= bp.data.Length
    modifies w.ticket, w.ticket.msFiov, w.ticket.msFiov.base
    ensures w.Ready(bp) && (w.ticket.msFiov.base == old(w.ticket.msFiov.base) || fresh(w.ticket.msFiov.base))
    ensures Writes(t, k, left, w, offset, bp.data[..bp.count], daemon)
    ensures var a := AnswerOf(t.reply);
      if a.Fine(left, w.iosize) then err == 0 && size == a.size else err == Fault(a)
  {
    var chunksize := Min(left, w.iosize);
    ghost var chunk, data := bp.data[at..at + chunksize], bp.data[..bp.count];
    assert data[at..at + chunksize] == chunk;
    w.ticket.MakeWrite(Request(FUSE_WRITE, w.file.nid, w.file.fh, offset + at, chunksize), bp.data, at);
    ghost var m;
    var answer;
    err, answer, m := w.ticket.WaitAnswer(k, w.room, daemon);
    t := Turn(m, Audited(m, daemon(k, m)));
    assert m[IN_HEADER + ARGS..] == chunk;
    size := 0;
    if err != 0 {
      return;
    }
    size := Word(answer, 0, 4);
    var diff := chunksize - size;
    if diff < 0 {
      err := EINVAL;
    }
  }

  /** After these turns left bytes are to be written, or err has ended the write. */
  ghost predicate Writing(ts: seq<Turn>, w: Setting, offset: nat, data: seq<byte>,
                          daemon: (nat, seq<byte>) -> Reply, left: nat, err: int) {
    && WriteTurns(ts, w, offset, data, daemon) && left == Left(|data|, w.iosize, AnswersOf(ts))
    && AllFine(|data|, w.iosize, AnswersOf(ts)) == (err == 0)
    && (err != 0 ==> ts != [] && err == Fault(AnswerOf(ts[|ts| - 1].reply)))
  }

  lemma OneWritten(ts: seq<Turn>, t: Turn, w: Setting, offset: nat, data: seq<byte>,
                   daemon: (nat, seq<byte>) -> Reply, left: nat, err: int, size: nat)
    requires Writing(ts, w, offset, data, daemon, left, 0) && left > 0
    requires Writes(t, |ts|, left, w, offset, data, daemon)
    requires var a := AnswerOf(t.reply);
      if a.Fine(left, w.iosize) then err == 0 && size == a.size else err == Fault(a) && size == 0
    ensures size <= left && Writing(ts + [t], w, offset, data, daemon, left - size, err)
  {
    OneAnswer(ts, t, w, offset, data, daemon);
    AnswersOne(ts, t);
    Append(|data|, w.iosize, AnswersOf(ts), AnswerOf(t.reply));
  }

  /** A turn, and where the loop stands after it. */
  method WriteNext(bp: Buf, w: Setting, offset: nat, at: nat, left: nat, k: nat,
                   daemon: (nat, seq<byte>) -> Reply, ghost ts: seq<Turn>)
    returns (err: int, size: nat, ghost ts': seq<Turn>)
    requires w.Ready(bp) && offset + bp.count < Bound(8) && at + left == bp.count <= bp.data.Length && k == |ts|
    requires Writing(ts, w, offset, bp.data[..bp.count], daemon, left, 0) && left > 0
    modifies w.ticket, w.ticket.msFiov, w.ticket.msFiov.base
    ensures w.Ready(bp) && (w.ticket.msFiov.base == old(w.ticket.msFiov.base) || fresh(w.ticket.msFiov.base))
    ensures size <= left && |ts'| == k + 1
    ensures Writing(ts', w, offset, bp.data[..bp.count], daemon, left - size, err)
  {
    ghost var t;
    err, size, t := WriteOne(bp, w, offset, at, left, k, daemon);
    if err != 0 {
      size := 0;
    }
    OneWritten(ts, t, w, offset, bp.data[..bp.count], daemon, left, err, size);
    ts' := ts + [t];
  }

  /** Whatever it has read, the daemon does not answer that it accepts nothing. */
  ghost predicate Progressing(daemon: (nat, seq<byte>) -> Reply) {
    forall k: nat, m: seq<byte> | |m| >= IN_HEADER + ARGS :: AnswerOf(Audited(m, daemon(k, m))) != Accepted(0)
  }

  lemma {:induction false} NoneIsZero(ts: seq<Turn>, w: Setting, offset: nat, data: seq<byte>,
                                      daemon: (nat, seq<byte>) -> Reply)
    requires WriteTurns(ts, w, offset, data, daemon) && Progressing(daemon)
    ensures NonZero(AnswersOf(ts)) == AnswersOf(ts)
  {
    if ts != [] {
      var k := |ts| - 1;
      NoneIsZero(ts[..k], w, offset, data, daemon);
      assert AnswerOf(ts[k].reply) != Accepted(0);
      assert AnswersOf(ts)[..k] == AnswersOf(ts[..k]);
    }
  }

  /** With such a daemon, as many turns as there are bytes end the write. */
  lemma WriteEnds(ts: seq<Turn>, w: Setting, offset: nat, data: seq<byte>, daemon: (nat, seq<byte>) -> Reply)
    requires WriteTurns(ts, w, offset, data, daemon) && Progressing(daemon) && |ts| >= |data|
    ensures Ends(|data|, w.iosize, AnswersOf(ts))
  {
    NoneIsZero(ts, w, offset, data, daemon);
    ProgressEnds(|data|, w.iosize, AnswersOf(ts));
  }

  /** Writes the buffer from offset on, if the daemon brings it to an end in this number of turns; done: the loop is
      over. What is accepted are always the first bytes of the buffer, in place; on success all of them. */
  method StrategyWrite(bp: Buf, w: Setting, offset: nat, daemon: (nat, seq<byte>) -> Reply, turns: nat)
    returns (err: int, done: bool, ghost ts: seq<Turn>)
    requires bp.count <= bp.data.Length && w.Ready(bp) && offset + bp.count < Bound(8)
    modifies bp`resid, bp`error, w.ticket, w.ticket.msFiov, w.ticket.msFiov.base
    ensures WriteTurns(ts, w, offset, bp.data[..bp.count], daemon) && bp.data[..] == old(bp.data[..])
    ensures done == Ends(bp.count, w.iosize, AnswersOf(ts)) && (done || |ts| == turns)
    ensures Progressing(daemon) && turns >= bp.count ==> done
    ensures bp.resid == if bp.count == 0 then old(bp.resid) else Left(bp.count, w.iosize, AnswersOf(ts))
    ensures if AllFine(bp.count, w.iosize, AnswersOf(ts)) then err == 0 && bp.error == old(bp.error)
            else ts != [] && err == bp.error == Fault(AnswerOf(ts[|ts| - 1].reply))
  {
    err, ts := 0, [];
    if bp.count == 0 {
      return 0, true, [];
    }
    bp.resid := bp.count;
    ghost var data := bp.data[..bp.count];
    var at, left, k := 0, bp.count, 0;
    while left > 0 && k < turns && err == 0
      invariant k <= turns && w.Ready(bp)
      invariant w.ticket.msFiov.base == old(w.ticket.msFiov.base) || fresh(w.ticket.msFiov.base)
      invariant at + left == bp.count && left == bp.resid && bp.error == old(bp.error) && k == |ts|
      invariant Writing(ts, w, offset, data, daemon, left, err)
      decreases turns - k
    {
      var size;
      err, size, ts := WriteNext(bp, w, offset, at, left, k, daemon, ts);
      left, at, k := left - size, at + size, k + 1;
      bp.resid := bp.resid - size;
    }
    done := err != 0 || left == 0;
    if turns >= bp.count && !done && Progressing(daemon) {
      WriteEnds(ts, w, offset, data, daemon);
    }
    if err != 0 {
      bp.error := err;
    }
  }

  // ----- what has been accepted

  lemma {:induction false} WritePrefix(ts: seq<Turn>, n: nat, w: Setting, offset: nat, data: seq<byte>,
                                       daemon: (nat, seq<byte>) -> Reply)
    requires WriteTurns(ts, w, offset, data, daemon) && n <= |ts|
    ensures WriteTurns(ts[..n], w, offset, data, daemon)
  {
    if n == |ts| {
      assert ts[..n] == ts;
    } else {
      WritePrefix(ts[..|ts| - 1], n, w, offset, data, daemon);
      assert ts[..|ts| - 1][..n] == ts[..n];
    }
  }

  lemma WriteTurnAt(ts: seq<Turn>, i: nat, w: Setting, offset: nat, data: seq<byte>,
                    daemon: (nat, seq<byte>) -> Reply)
    requires WriteTurns(ts, w, offset, data, daemon) && i < |ts|
    ensures Writes(ts[i], i, Left(|data|, w.iosize, AnswersOf(ts[..i])), w, offset, data, daemon)
  {
    WritePrefix(ts, i + 1, w, offset, data, daemon);
    assert ts[..i + 1][..i] == ts[..i];
  }

  /** Of each message of a write, on a ticket used again and again, len is the number of bytes copied out. */
  lemma LenIsCopied(ts: seq<Turn>, w: Setting, offset: nat, data: seq<byte>, daemon: (nat, seq<byte>) -> Reply)
    requires WriteTurns(ts, w, offset, data, daemon)
    ensures forall t | t in ts :: |t.m| >= IN_HEADER + ARGS && Get(t.m, LEN) == |t.m|
  {
    forall i | 0 <= i < |ts|
      ensures |ts[i].m| >= IN_HEADER + ARGS && Get(ts[i].m, LEN) == |ts[i].m|
    {
      WriteTurnAt(ts, i, w, offset, data, daemon);
    }
  }

  /** The message that byte x was accepted from has it at its place in the file. */
  lemma AcceptedInPlace(ts: seq<Turn>, w: Setting, offset: nat, data: seq<byte>,
                        daemon: (nat, seq<byte>) -> Reply, i: nat, x: nat)
    requires WriteTurns(ts, w, offset, data, daemon) && Accepts(|data|, w.iosize, AnswersOf(ts), i, x)
    ensures var at := |data| - Left(|data|, w.iosize, AnswersOf(ts[..i]));
      && at <= x < |data| && IN_HEADER + ARGS + (x - at) < |ts[i].m|
      && ts[i].m[IN_HEADER + ARGS + (x - at)] == data[x]
      && Get(ts[i].m, OFFSET) + (x - at) == offset + x
  {
    WriteTurnAt(ts, i, w, offset, data, daemon);
    AnswersAt(ts, i);
    AcceptsAt(|data|, w.iosize, AnswersOf(ts), i, x);
    var left := Left(|data|, w.iosize, AnswersOf(ts[..i]));
    CarriedAt(ts[i].m, IN_HEADER + ARGS, data, |data| - left, Min(left, w.iosize), x);
  }

  /** A message that ends in n bytes of the data. */
  lemma CarriedAt(m: seq<byte>, head: nat, data: seq<byte>, at: nat, n: nat, x: nat)
    requires head <= |m| && at + n <= |data| && m[head..] == data[at..at + n] && at <= x < at + n
    ensures head + (x - at) < |m| && m[head + (x - at)] == data[x]
  {
    assert m[head..][x - at] == data[at..at + n][x - at];
  }
}
