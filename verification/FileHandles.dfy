/** Open file handles of vnodes: their counts, the daemon's OPEN and RELEASE, and the global count of handles. */
module FileHandles {
  import opened Bytes
  import opened HandleLedger

  /** All vnodes of a session: three slots each. */
  class Handles {
    var slots: seq<Handle>
    var fhCurrent: int        // fuse_fh_current
    var dead: bool
    var isDir: seq<bool>
    ghost var log: seq<Msg>   // what the daemon has opened, and the RELEASEs

    ghost function State(): Ledger
      reads this
    {
      Ledger(slots, isDir, dead, fhCurrent, log)
    }

    ghost predicate Valid()
      reads this
    {
      Sound(State())
    }

    ghost predicate Vnode(v: nat)
      reads this
    {
      v < |isDir| && 3 * v + 3 <= |slots|
    }

    constructor ()
      ensures Valid() && State() == EMPTY
    {
      slots, fhCurrent, dead, isDir, log := [], 0, false, [], [];
    }

    ghost predicate Same(slots: seq<Handle>, fhCurrent: int, log: seq<Msg>)
      reads this
    {
      this.slots == slots && this.fhCurrent == fhCurrent && this.log == log
    }

    /** A new vnode, with no handles. */
    method NewVnode(dir: bool) returns (vnode: nat)
      requires Valid()
      modifies this
      ensures Valid() && State() == Step(old(State()), Op.NewVnode(dir))
      ensures vnode == old(|isDir|) && forall kind: Kind :: !slots[Slot(vnode, kind)].Valid()
    {
      NewVnodeSound(State(), dir);
      vnode := |isDir|;
      var none := Handle(0, 0);
      slots := slots + [none, none, none];
      isDir := isDir + [dir];
    }

    /** fuse_filehandle_get. It must not be called on a valid slot. A dead session asks nobody. If the request is
        interrupted, the daemon may open a handle that is not taken up. */
    method Get(vnode: nat, kind: Kind, reply: OpenReply) returns (err: int)
      requires Valid() && Vnode(vnode) && !slots[Slot(vnode, kind)].Valid()
      modifies this
      ensures Valid() && State() == TryGet(old(State()), Slot(vnode, kind), reply)
      ensures err == 0 <==> slots[Slot(vnode, kind)].Valid()
      ensures err == if dead then 57 else if reply.Opened? then 0 else reply.err
    {
      TryGetSound(State(), Slot(vnode, kind), reply);
      if dead {
        return ENOTCONN;
      }
      match reply {
        case Refused(e) => err := e;
        case Abandoned(e, fh) =>
          log := log + [Stray(fh)];
          err := e;
        case Opened(fh) =>
          fhCurrent := fhCurrent + 1;
          slots := slots[Slot(vnode, kind) := Handle(fh, 1)];
          log := log + [Msg.Open(fh)];
          err := 0;
      }
    }

    /** fuse_filehandle_put. It must not be called on a valid slot. A dead daemon gets no RELEASE. */
    method Put(vnode: nat, kind: Kind)
      requires Vnode(vnode) && !slots[Slot(vnode, kind)].Valid()
      requires Kept(log, slots[Slot(vnode, kind)].fhId) > 0
      modifies this`fhCurrent, this`log
      ensures fhCurrent == old(fhCurrent) - 1
      ensures var fh := slots[Slot(vnode, kind)].fhId;
        if dead then log == old(log)
        else log == old(log) + [Release(fh)] && Outstanding(log, fh) == Outstanding(old(log), fh) - 1
    {
      var fh := slots[Slot(vnode, kind)].fhId;
      Logged(log, Release(fh));
      if !dead {
        log := log + [Release(fh)];
      }
      fhCurrent := fhCurrent - 1;
    }

    /** FUFH_USE_RESET and the RELEASE. */
    method GiveUp(vnode: nat, kind: Kind)
      requires Valid() && Vnode(vnode) && slots[Slot(vnode, kind)].Valid()
      modifies this
      ensures Valid() && State() == HandleLedger.GiveUp(old(State()), Slot(vnode, kind))
      ensures Kept(old(log), old(slots)[Slot(vnode, kind)].fhId) > 0
    {
      var i := Slot(vnode, kind);
      GiveUpSound(State(), i);
      slots := slots[i := slots[i].(openCount := 0)];
      Put(vnode, kind);
    }

    /** FUFH_USE_DEC; the last use ends with a RELEASE. */
    method Drop(vnode: nat, kind: Kind)
      requires Valid() && Vnode(vnode) && slots[Slot(vnode, kind)].Valid()
      modifies this
      ensures Valid() && State() == HandleLedger.Drop(old(State()), Slot(vnode, kind))
    {
      var i := Slot(vnode, kind);
      ghost var l := State();
      DropSound(l, i);
      slots := slots[i := slots[i].(openCount := slots[i].openCount - 1)];
      if !slots[i].Valid() {
        GiveUpSound(l, i);
        Put(vnode, kind);
      }
    }

    /** FUFH_USE_INC, or a get. */
    method Take(vnode: nat, kind: Kind, reply: OpenReply) returns (err: int)
      requires Valid() && Vnode(vnode)
      modifies this
      ensures Valid() && State() == HandleLedger.Take(old(State()), Slot(vnode, kind), reply)
      ensures err == 0 <==> slots[Slot(vnode, kind)].Valid()
      ensures !dead && err != 0 ==> !reply.Opened? && err == reply.err
    {
      var i := Slot(vnode, kind);
      if slots[i].Valid() {
        RecountSound(State(), i, slots[i].openCount + 1);
        slots := slots[i := slots[i].(openCount := slots[i].openCount + 1)];
        return 0;
      }
      err := Get(vnode, kind, reply);
    }

    // ----- vnode operations

    /** fuse_vnop_open. */
    method Open(vnode: nat, mode: Kind, reply: OpenReply) returns (err: int)
      requires Valid() && Vnode(vnode)
      modifies this
      ensures Valid() && State() == Step(old(State()), Op.Open(vnode, mode, reply))
      ensures dead == old(dead) && var i := Slot(vnode, if isDir[vnode] then RdOnly else mode);
        if dead then err == 6 && Same(old(slots), old(fhCurrent), old(log))
        else if old(slots)[i].Valid() then
          && err == 0 && slots == old(slots)[i := Handle(old(slots)[i].fhId, old(slots)[i].openCount + 1)]
          && fhCurrent == old(fhCurrent) && log == old(log)
        else if reply.Opened? then
          && err == 0 && slots == old(slots)[i := Handle(reply.fh, 1)]
          && fhCurrent == old(fhCurrent) + 1 && log == old(log) + [Msg.Open(reply.fh)]
        else err == reply.err && slots == old(slots) && fhCurrent == old(fhCurrent)
             && log == if reply.Abandoned? then old(log) + [Stray(reply.fh)] else old(log)
    {
      if dead {
        return ENXIO;
      }
      err := Take(vnode, if isDir[vnode] then RdOnly else mode, reply);
    }

    /** fuse_vnop_close. ndelay: the call comes from vclean. dies: the session dies during the FLUSH. */
    method Close(vnode: nat, fflag: Kind, ndelay: bool, dies: bool)
      requires Valid() && Vnode(vnode)
      modifies this
      ensures Valid() && State() == Step(old(State()), Op.Close(vnode, fflag, ndelay, dies))
      ensures var i := Slot(vnode, if isDir[vnode] then RdOnly else fflag);
        if old(dead) || ndelay || !old(slots)[i].Valid() then Same(old(slots), old(fhCurrent), old(log))
        else
          var h := old(slots)[i];
          && slots == old(slots)[i := Handle(h.fhId, h.openCount - 1)] && dead == dies
          && if h.openCount > 1 then fhCurrent == old(fhCurrent) && log == old(log)
             else fhCurrent == old(fhCurrent) - 1 && log == old(log) + if dies then [] else [Release(h.fhId)]
    {
      if dead {
        return;
      }
      if ndelay {
        return;
      }
      var kind := if isDir[vnode] then RdOnly else fflag;
      if !slots[Slot(vnode, kind)].Valid() {
        return;
      }
      dead := dies;
      Drop(vnode, kind);
    }

    /** The handle of fuse_vnop_readdir: borrowed for the call if the directory is open, else opened for it. dies: the
        session dies while the directory is read. */
    method Readdir(vnode: nat, reply: OpenReply, dies: bool) returns (err: int)
      requires Valid() && Vnode(vnode)
      modifies this
      ensures Valid() && State() == ReaddirStep(old(State()), vnode, reply, dies)
      ensures |slots| == |old(slots)| && forall i | 0 <= i < |slots| :: slots[i].Valid() == old(slots)[i].Valid()
      ensures fhCurrent == old(fhCurrent)
      ensures var valid := old(slots)[Slot(vnode, RdOnly)].Valid();
        && err == (if old(dead) then 6 else if valid || reply.Opened? then 0 else reply.err)
        && (old(dead) || valid || reply.Refused? ==> log == old(log))
        && (!old(dead) && !valid && reply.Opened? ==>
          log == old(log) + [Msg.Open(reply.fh)] + if dies then [] else [Release(reply.fh)])
    {
      if dead {
        return ENXIO;
      }
      ghost var l := State();
      err := Take(vnode, RdOnly, reply);
      dead := dies;
      if err == 0 {
        Drop(vnode, RdOnly);
      }
      NoneOpened(l, vnode, reply, dies);
    }

    /** What fuse_vnop_create puts into the slot for reading and writing, without looking at it. The ledger stays
        right if and only if the slot was free. */
    method Stash(vnode: nat, fh: nat)
      requires Valid() && Vnode(vnode)
      modifies this
      ensures State() == HandleLedger.Get(old(State()), Slot(vnode, RdWr), fh)
      ensures Valid() <==> !old(slots)[Slot(vnode, RdWr)].Valid()
    {
      GetSound(State(), Slot(vnode, RdWr), fh);
      slots := slots[Slot(vnode, RdWr) := Handle(fh, 1)];
      fhCurrent := fhCurrent + 1;
      log := log + [Msg.Open(fh)];
    }

    /** fuse_vnop_create, as far as handles go: if the entry that comes with the handle fails the check, nobody
        releases it; if there can be no vnode, it is released at once. vnode: the one that is made. */
    method Create(vnode: nat, answer: CreateReply) returns (err: int)
      requires Valid() && (answer.Created? ==> Vnode(vnode))
      modifies this
      ensures State() == CreateStep(old(State()), vnode, answer)
      ensures Valid() <==> old(dead) || !answer.Created? || !old(slots)[Slot(vnode, RdWr)].Valid()
      ensures err == if dead then 6 else match answer
        case BadEntry(_) => 22
        case Created(_) => 0
        case _ => answer.err
      ensures !dead ==> match answer
        case NotCreated(_) => Same(old(slots), old(fhCurrent), old(log))
        case Interrupted(_, fh) => Same(old(slots), old(fhCurrent), old(log) + [Stray(fh)])
        case BadEntry(fh) => Same(old(slots), old(fhCurrent), old(log) + [Stray(fh)])
        case NoVnode(_, fh) => Same(old(slots), old(fhCurrent), old(log) + [Msg.Open(fh)] + [Release(fh)])
        case Created(fh) =>
          Same(old(slots)[Slot(vnode, RdWr) := Handle(fh, 1)], old(fhCurrent) + 1, old(log) + [Msg.Open(fh)])
    {
      if dead {
        return ENXIO;
      }
      ghost var l := State();
      match answer {
        case NotCreated(e) => err := e;
        case Interrupted(e, fh) =>
          LoseSound(l, fh);
          log := log + [Stray(fh)];
          err := e;
        case BadEntry(fh) =>
          LoseSound(l, fh);
          log := log + [Stray(fh)];
          err := EINVAL;
        case NoVnode(e, fh) =>
          OpenAndReleaseSound(l, fh);
          log := log + [Msg.Open(fh)];
          log := log + [Release(fh)];
          err := e;
        case Created(fh) =>
          Stash(vnode, fh);
          err := 0;
      }
    }

    /** The handle that fuse_internal_strategy reads or writes with: one that is open for it, else a new one. */
    method Strategy(vnode: nat, read: bool, reply: OpenReply) returns (err: int, fh: nat)
      requires Valid() && Vnode(vnode)
      modifies this
      ensures Valid() && State() == Step(old(State()), Op.Strategy(vnode, read, reply))
      ensures var own, both := Slot(vnode, if read then RdOnly else WrOnly), Slot(vnode, RdWr);
        if old(slots)[own].Valid() || old(slots)[both].Valid() then
          && err == 0 && Same(old(slots), old(fhCurrent), old(log))
          && fh == slots[if slots[own].Valid() then own else both].fhId
        else if !dead && reply.Opened? then
          && err == 0 && fh == reply.fh && slots == old(slots)[if read then own else both := Handle(fh, 1)]
          && fhCurrent == old(fhCurrent) + 1 && log == old(log) + [Msg.Open(fh)]
        else err == 5 && slots == old(slots) && fhCurrent == old(fhCurrent)
    {
      var kind := if read then RdOnly else WrOnly;
      if !slots[Slot(vnode, kind)].Valid() {
        kind := RdWr;
      }
      if !slots[Slot(vnode, kind)].Valid() {
        kind := if read then RdOnly else RdWr;
        err := Get(vnode, kind, reply);
        if err != 0 {
          return EIO, 0;
        }
      }
      err, fh := 0, slots[Slot(vnode, kind)].fhId;
    }

    /** Gives up slot number k of the vnode, before which the session may die. */
    method GiveUpOne(vnode: nat, k: nat, dies: bool)
      requires Valid() && Vnode(vnode) && k < 3
      modifies this
      ensures Valid() && State() == Reset(old(State()), 3 * vnode + k, dies)
    {
      var kind := if k == 0 then RdOnly else if k == 1 then WrOnly else RdWr;
      if dies {
        dead := true;
      }
      if slots[Slot(vnode, kind)].Valid() {
        GiveUp(vnode, kind);
      }
    }

    method GiveUpEach(vnode: nat, lasts: nat) returns (ghost ls: seq<Ledger>)
      requires Valid() && Vnode(vnode)
      modifies this
      ensures Valid() && Resets(ls, vnode, lasts) && |ls| == 4 && ls[0] == old(State()) && ls[3] == State()
    {
      ls := [State()];
      for k := 0 to 3
        invariant Valid() && |ls| == k + 1 && ls[0] == old(State()) && ls[k] == State() && Resets(ls, vnode, lasts)
      {
        GiveUpOne(vnode, k, lasts == k);
        ResetsMore(ls, State(), vnode, lasts);
        ls := ls + [State()];
      }
    }

    /** fuse_vnop_inactive: all handles of the vnode are given up, on a dead session too. lasts: the session, if it is
        alive, dies before this slot is looked at. */
    method Inactive(vnode: nat, lasts: nat)
      requires Valid() && Vnode(vnode)
      modifies this
      ensures Valid() && State() == GiveUpAll(old(State()), vnode, 0, lasts)
      ensures forall kind: Kind :: !slots[Slot(vnode, kind)].Valid()
      ensures forall i | 0 <= i < |slots| && (i < 3 * vnode || 3 * vnode + 3 <= i) :: slots[i] == old(slots)[i]
    {
      ghost var ls := GiveUpEach(vnode, lasts);
      ResetsAll(ls, vnode, 0, lasts);
      AllGivenUp(ls[0], vnode, 0, lasts);
    }

    method Perform(op: Op)
      requires Valid() && Can(State(), op)
      modifies this
      ensures Valid() && State() == Step(old(State()), op) && (op.Die? ==> dead && slots == old(slots))
    {
      match op {
        case NewVnode(dir) => var _ := NewVnode(dir);
        case Die => dead := true;
        case Open(v, mode, reply) => var _ := Open(v, mode, reply);
        case Close(v, fflag, ndelay, dies) => Close(v, fflag, ndelay, dies);
        case Readdir(v, reply, dies) => var _ := Readdir(v, reply, dies);
        case Inactive(v, lasts) => Inactive(v, lasts);
        case Strategy(v, read, reply) => var _, _ := Strategy(v, read, reply);
        case Create(v, answer) => var _ := Create(v, answer);
      }
    }

    /** Any run of vnode operations, with the daemon dying at any time. */
    method Run(ops: seq<Op>)
      requires Valid() && Possible(State(), ops)
      modifies this
      ensures Valid() && State() == Steps(old(State()), ops)
    {
      assert ops[0..] == ops;
      for n := 0 to |ops|
        invariant Valid() && Possible(State(), ops[n..])
        invariant Steps(State(), ops[n..]) == Steps(old(State()), ops)
      {
        assert ops[n..][0] == ops[n] && ops[n..][1..] == ops[n + 1..];
        Perform(ops[n]);
      }
    }
  }

  /** The ledgers between the slots that are given up one after the other. */
  ghost predicate Resets(ls: seq<Ledger>, v: nat, lasts: nat) {
    && 0 < |ls| <= 4 && (forall i | 0 <= i < |ls| :: 3 * v + 3 <= |ls[i].slots| && v < |ls[i].isDir|)
    && forall i | 0 < i < |ls| :: ls[i] == Reset(ls[i - 1], 3 * v + (i - 1), lasts == i - 1)
  }

  lemma ResetsMore(ls: seq<Ledger>, l: Ledger, v: nat, lasts: nat)
    requires Resets(ls, v, lasts) && |ls| < 4 && l == Reset(ls[|ls| - 1], 3 * v + (|ls| - 1), lasts == |ls| - 1)
    ensures Resets(ls + [l], v, lasts)
  {
  }

  lemma {:induction false} ResetsAll(ls: seq<Ledger>, v: nat, k: nat, lasts: nat)
    requires Resets(ls, v, lasts) && |ls| == 4 && k <= 3
    ensures GiveUpAll(ls[k], v, k, lasts) == ls[3]
    decreases 3 - k
  {
    if k < 3 {
      assert ls[k + 1] == Reset(ls[k], 3 * v + k, lasts == k);
      ResetsAll(ls, v, k + 1, lasts);
    }
  }

  lemma {:induction false} AllGivenUp(l: Ledger, v: nat, k: nat, lasts: nat)
    requires 3 * v + 3 <= |l.slots| && k <= 3
    ensures var l' := GiveUpAll(l, v, k, lasts);
      forall i | 0 <= i < |l.slots| ::
        if 3 * v + k <= i < 3 * v + 3 then !l'.slots[i].Valid() else l'.slots[i] == l.slots[i]
    ensures forall kind: Kind :: 3 * v <= Slot(v, kind) < 3 * v + 3
    decreases 3 - k
  {
    if k < 3 {
      AllGivenUp(Reset(l, 3 * v + k, lasts == k), v, k + 1, lasts);
    }
  }

  lemma NoneOpened(l: Ledger, v: nat, reply: OpenReply, dies: bool)
    requires Sound(l) && 3 * v + 3 <= |l.slots|
    ensures var l' := ReaddirStep(l, v, reply, dies);
      && |l'.slots| == |l.slots| && l'.current == l.current
      && forall i | 0 <= i < |l.slots| :: l'.slots[i].Valid() == l.slots[i].Valid()
  {
  }
}
