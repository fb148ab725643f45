/** The messages of requests: built in a ticket that is used again and again, copied out to the daemon, and
    answered. */
module Messages {
  import opened Bytes

  const FUSE_READ: nat := 15
  const FUSE_WRITE: nat := 16
  const FUSE_READDIR: nat := 28

  /** sizeof(struct fuse_in_header); sizeof(struct fuse_read_in) and of fuse_write_in; sizeof(struct fuse_write_out) */
  const IN_HEADER: nat := 40
  const ARGS: nat := 40
  const WRITE_OUT: nat := 8

  /** Fields of the header and of the arguments. */
  const LEN := Field(0, 4)
  const OPCODE := Field(4, 4)
  const UNIQUE := Field(8, 8)
  const NODEID := Field(16, 8)
  const FH := Field(40, 8)
  const OFFSET := Field(48, 8)
  const SIZE := Field(56, 4)

  /** What the daemon writes: an error or a body. */
  datatype Reply = Error(err: errno) | Data(bytes: seq<byte>)

  /** fuse_body_audit of a reply to this request, and what fuse_dispatcher_wait_answer makes of it. */
  function Audit(op: nat, size: nat, r: Reply): Reply {
    if r.Error? || (if op == FUSE_WRITE then |r.bytes| == WRITE_OUT else |r.bytes| <= size) then r else Error(EIO)
  }

  function Audited(m: seq<byte>, r: Reply): Reply
    requires |m| >= IN_HEADER + ARGS
  {
    Audit(Get(m, OPCODE), Get(m, SIZE), r)
  }

  /** A request for size bytes from offset on of an open file. */
  datatype Request = Request(op: nat, nid: nat, fh: nat, offset: nat, size: nat) {
    predicate InRange() {
      op < Bound(4) && offset < Bound(8) && IN_HEADER + ARGS + size < Bound(4)
    }
  }

  /** The message m makes this request, under this number, and its len counts all of its bytes. */
  predicate Says(m: seq<byte>, unique: nat, q: Request) {
    && |m| >= IN_HEADER + ARGS && Get(m, LEN) == |m| && Get(m, OPCODE) == q.op
    && Get(m, UNIQUE) == unique % Bound(8) && Get(m, NODEID) == q.nid % Bound(8)
    && Get(m, FH) == q.fh % Bound(8) && Get(m, OFFSET) == q.offset && Get(m, SIZE) == q.size
  }

  /** struct fuse_iov. Memory that is allocated anew holds anything. */
  class Fiov {
    var base: array<byte>
    var len: nat
    var credit: int
    const quota: int       // fuse_iov_credit
    const permanent: nat   // fuse_iov_permanent_bufsize

    ghost predicate Valid()
      reads this
    {
      len <= base.Length
    }

    constructor (size: nat, quota: int, permanent: nat)
      ensures Valid() && len == 0 && fresh(base)
    {
      this.quota, this.permanent := quota, permanent;
      base := new byte[AtLeast(size)];
      len, credit := 0, quota;
    }

    /** fiov_adjust. */
    method Adjust(size: nat)
      requires Valid()
      modifies this
      ensures Valid() && len == size && (base == old(base) || fresh(base))
      ensures var much := old(base.Length) > size + permanent;
        if old(base.Length) < size || (much && old(credit) <= 0)
        then fresh(base) && base.Length == (if size < 160 then 160 else size) && credit == quota
        else base == old(base) && credit == old(credit) - if much then 1 else 0
    {
      var renew := base.Length < size;
      if !renew && base.Length - size > permanent {
        credit := credit - 1;
        renew := credit < 0;
      }
      if renew {
        base := new byte[AtLeast(size)];
        credit := quota;
      }
      len := size;
    }

    /** fiov_refresh. */
    method Refresh()
      requires Valid()
      modifies this, base
      ensures Valid() && len == 0 && (base == old(base) || fresh(base))
      ensures base == old(base) ==>
        forall i | 0 <= i < base.Length :: base[i] == if i < old(len) then 0 else old(base[i])
    {
      forall i | 0 <= i < len {
        base[i] := 0;
      }
      Adjust(0);
    }
  }

  function Min(a: nat, b: nat): nat {
    if a < b then a else b
  }

  function AtLeast(size: nat): nat {
    if size < 160 then 160 else size
  }

  datatype MsType = FtMFiov | FtMBuf

  datatype AwType = FtAFiov | FtABuf

  /** The message and answer fields of struct fuse_ticket. A pointer into a buffer is the buffer and a position. */
  class Ticket {
    const unique: nat
    const msFiov: Fiov
    var msType: MsType
    var msBufdata: array?<byte>
    var msBufat: nat
    var msBufsize: nat
    var awType: AwType
    var awBufdata: array?<byte>
    var awBufat: nat
    var awBufsize: nat

    ghost predicate Valid()
      reads this, msFiov
    {
      && msFiov.Valid()
      && (msType.FtMBuf? ==> msBufdata != null && msBufat + msBufsize <= msBufdata.Length)
    }

    /** The bytes that the ticket sends. */
    ghost function Message(): seq<byte>
      requires Valid()
      reads this, msFiov, msFiov.base, msBufdata
    {
      msFiov.base[..msFiov.len] + if msType.FtMBuf? then msBufdata[msBufat..msBufat + msBufsize] else []
    }

    /** fuse_ticket_alloc. */
    constructor (unique: nat, quota: int, permanent: nat)
      ensures Valid() && fresh(msFiov) && fresh(msFiov.base)
    {
      this.unique := unique;
      msFiov := new Fiov(IN_HEADER, quota, permanent);
      msType, msBufdata, msBufat, msBufsize := FtMFiov, null, 0, 0;
      awType, awBufdata, awBufat, awBufsize := FtAFiov, null, 0, 0;
    }

    /** fuse_ticket_refresh. */
    method Refresh()
      requires Valid()
      modifies this, msFiov, msFiov.base
      ensures Valid() && (msFiov.base == old(msFiov.base) || fresh(msFiov.base))
      ensures msFiov.len == 0 && msType.FtMFiov? && awType.FtAFiov? && awBufdata == null && awBufsize == 0
    {
      msFiov.Refresh();
      msType, msBufdata, msBufat, msBufsize := FtMFiov, null, 0, 0;
      awType, awBufdata, awBufat, awBufsize := FtAFiov, null, 0, 0;
    }

    /** fuse_dispatcher_make of a ticket that is used again; of one just fetched, refreshing changes nothing. */
    method Make(op: nat, nid: nat, iosize: nat)
      requires Valid() && op < Bound(4) && IN_HEADER + iosize < Bound(4)
      modifies this, msFiov, msFiov.base
      ensures Valid() && (msFiov.base == old(msFiov.base) || fresh(msFiov.base))
      ensures msFiov.len == IN_HEADER + iosize && msType.FtMFiov?
      ensures awType.FtAFiov? && awBufdata == null && awBufsize == 0
      ensures var m := msFiov.base[..];
        Get(m, LEN) == IN_HEADER + iosize && Get(m, OPCODE) == op
        && Get(m, UNIQUE) == unique % Bound(8) && Get(m, NODEID) == nid % Bound(8)
    {
      Refresh();
      msFiov.Adjust(IN_HEADER + iosize);
      SetupHeader(msFiov.base, unique, nid, op, iosize);
    }

    /** A request to read into position at of the buffer. */
    method MakeRead(q: Request, bufdat: array<byte>, at: nat)
      requires Valid() && q.InRange()
      modifies this, msFiov, msFiov.base
      ensures Valid() && (msFiov.base == old(msFiov.base) || fresh(msFiov.base))
      ensures Says(Message(), unique, q) && |Message()| == IN_HEADER + ARGS
      ensures awType.FtABuf? && awBufdata == bufdat && awBufat == at && awBufsize == 0
    {
      Make(q.op, q.nid, ARGS);
      SetupArgs(msFiov.base, q);
      awType, awBufdata, awBufat := FtABuf, bufdat, at;
      SameFront(msFiov.base[..], Message(), msFiov.len);
    }

    /** A request to write what is at position at of the buffer. */
    method MakeWrite(q: Request, bufdat: array<byte>, at: nat)
      requires Valid() && q.InRange() && at + q.size <= bufdat.Length && bufdat != msFiov.base
      modifies this, msFiov, msFiov.base
      ensures Valid() && (msFiov.base == old(msFiov.base) || fresh(msFiov.base))
      ensures Says(Message(), unique, q) && awType.FtAFiov? && awBufdata == null
      ensures |Message()| == IN_HEADER + ARGS + q.size && Message()[IN_HEADER + ARGS..] == bufdat[at..at + q.size]
    {
      Make(q.op, q.nid, ARGS);
      Lengthen(msFiov.base, q.size);
      SetupArgs(msFiov.base, q);
      msType, msBufdata, msBufat, msBufsize := FtMBuf, bufdat, at, q.size;
      SameFront(msFiov.base[..], Message(), msFiov.len);
    }

    /** fuse_device_read of this ticket: copies the message out, or finds the reader's buffer too small, which
        kills the session. */
    method CopyOut(resid: nat) returns (dead: bool, out: seq<byte>)
      requires Valid()
      ensures dead <==> resid < |Message()|
      ensures !dead ==> out == Message()
    {
      var bufs := [msFiov.base[..msFiov.len]];
      if msType.FtMBuf? {
        bufs := bufs + [msBufdata[msBufat..msBufat + msBufsize]];
      }
      dead, out := false, [];
      for i := 0 to |bufs|
        invariant !dead && |out| <= resid
        invariant out == if i == 0 then [] else if i == 1 then bufs[0] else bufs[0] + bufs[1]
      {
        if resid - |out| < |bufs[i]| {
          return true, out;
        }
        out := out + bufs[i];
      }
    }

    /** fuse_ticket_pull: the audited reply goes into the buffer or becomes the answer. */
    method Pull(bytes: seq<byte>) returns (answer: seq<byte>)
      requires awType.FtABuf? ==> awBufdata != null && awBufat + |bytes| <= awBufdata.Length
      modifies this`awBufsize, awBufdata
      ensures awType.FtAFiov? ==> answer == bytes && awBufsize == old(awBufsize)
      ensures awType.FtAFiov? && awBufdata != null ==> awBufdata[..] == old(awBufdata[..])
      ensures awType.FtABuf? ==> awBufsize == if |bytes| > 0 then |bytes| else old(awBufsize)
      ensures awType.FtABuf? ==>
        awBufdata[..] == old(awBufdata[..awBufat]) + bytes + old(awBufdata[awBufat + |bytes|..])
    {
      answer := [];
      if |bytes| > 0 {
        match awType {
          case FtAFiov => answer := bytes;
          case FtABuf =>
            awBufsize := |bytes|;
            Put(awBufdata, awBufat, bytes);
        }
      }
    }

    /** fuse_dispatcher_wait_answer of a daemon whose k-th reply may depend on what it has read, and whose buffer
        takes room bytes. */
    method WaitAnswer(k: nat, room: nat, daemon: (nat, seq<byte>) -> Reply)
      returns (err: int, answer: seq<byte>, ghost m: seq<byte>)
      requires Valid() && IN_HEADER + ARGS <= |Message()| <= room
      requires awType.FtABuf? ==>
        && Get(Message(), OPCODE) != FUSE_WRITE && awBufdata != null
        && awBufat + Get(Message(), SIZE) <= awBufdata.Length
      modifies this`awBufsize, awBufdata
      ensures m == old(Message())
      ensures var r := Audited(m, daemon(k, m));
        if r.Error? then err == r.err && awBufsize == old(awBufsize)
        else err == 0 && (awType.FtAFiov? ==> answer == r.bytes)
             && (awType.FtABuf? ==> awBufsize == if |r.bytes| > 0 then |r.bytes| else old(awBufsize))
      ensures awType.FtAFiov? && awBufdata != null ==> awBufdata[..] == old(awBufdata[..])
      ensures awType.FtABuf? ==>
        var r := Audited(m, daemon(k, m));
        awBufdata[..] == if r.Error? then old(awBufdata[..])
                         else old(awBufdata[..awBufat]) + r.bytes + old(awBufdata[awBufat + |r.bytes|..])
    {
      var dead, out := CopyOut(room);
      m := out;
      var r := Audited(out, daemon(k, out));
      if r.Error? {
        return r.err, [], m;
      }
      err := 0;
      answer := Pull(r.bytes);
    }
  }

  /** Copies the bytes into the buffer at position at. */
  method Put(data: array<byte>, at: nat, bytes: seq<byte>)
    requires at + |bytes| <= data.Length
    modifies data
    ensures data[..] == old(data[..at]) + bytes + old(data[at + |bytes|..])
  {
    forall i | 0 <= i < |bytes| {
      data[at + i] := bytes[i];
    }
  }

  /** Takes the size of the write buffer into account. */
  method Lengthen(finh: array<byte>, size: nat)
    requires finh.Length >= IN_HEADER && Get(finh[..], LEN) + size < Bound(4)
    modifies finh
    ensures var m, m0 := finh[..], old(finh[..]);
      Get(m, LEN) == Get(m0, LEN) + size && Get(m, OPCODE) == Get(m0, OPCODE)
      && Get(m, UNIQUE) == Get(m0, UNIQUE) && Get(m, NODEID) == Get(m0, NODEID)
  {
    var len := Get(finh[..], LEN);
    Store(finh, LEN, len + size);
  }

  /** Fills in struct fuse_read_in or struct fuse_write_in. */
  method SetupArgs(finh: array<byte>, q: Request)
    requires finh.Length >= IN_HEADER + ARGS && q.InRange()
    modifies finh
    ensures var m, m0 := finh[..], old(finh[..]);
      Get(m, FH) == q.fh % Bound(8) && Get(m, OFFSET) == q.offset && Get(m, SIZE) == q.size
      && Get(m, LEN) == Get(m0, LEN) && Get(m, OPCODE) == Get(m0, OPCODE)
      && Get(m, UNIQUE) == Get(m0, UNIQUE) && Get(m, NODEID) == Get(m0, NODEID)
  {
    Store(finh, FH, q.fh);
    Store(finh, OFFSET, q.offset);
    Store(finh, SIZE, q.size);
  }

  /** fuse_setup_ihead. */
  method SetupHeader(finh: array<byte>, unique: nat, nid: nat, op: nat, blen: nat)
    requires finh.Length >= IN_HEADER && op < Bound(4) && IN_HEADER + blen < Bound(4)
    modifies finh
    ensures var m := finh[..];
      Get(m, LEN) == IN_HEADER + blen && Get(m, OPCODE) == op
      && Get(m, UNIQUE) == unique % Bound(8) && Get(m, NODEID) == nid % Bound(8)
  {
    Store(finh, LEN, IN_HEADER + blen);
    Store(finh, UNIQUE, unique);
    Store(finh, NODEID, nid);
    Store(finh, OPCODE, op);
  }
}
