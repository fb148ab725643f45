/** The ledger of open file handles: the slots of all vnodes, the messages to the daemon, and what each operation on
    a vnode makes of them. */
module HandleLedger {
  import opened Bytes

  /** struct fuse_filehandle; valid while openCount is positive. */
  datatype Handle = Handle(fhId: nat, openCount: int) {
    predicate Valid() {
      openCount > 0
    }
  }

  datatype Kind = RdOnly | WrOnly | RdWr

  /** How an OPEN or OPENDIR ends. Abandoned: its requester is interrupted, and the daemon opens the handle all the
      same, before or after; nobody takes it up. */
  datatype OpenReply = Refused(err: errno) | Abandoned(err: errno, fh: nat) | Opened(fh: nat)

  /** How a CREATE ends. BadEntry: the entry that comes with the handle fails the check. NoVnode: there can be no
      vnode for it, so the handle is released at once. NotCreated: also the way by MKNOD, which opens nothing. */
  datatype CreateReply =
    | NotCreated(err: errno) | Interrupted(err: errno, fh: nat)
    | BadEntry(fh: nat) | NoVnode(err: errno, fh: nat) | Created(fh: nat)

  /** The daemon has opened a handle that is taken up; it has opened one that nobody takes up; a RELEASE has been
      sent. */
  datatype Msg = Open(fh: nat) | Stray(fh: nat) | Release(fh: nat)

  /** slots: three a vnode; current: fuse_fh_current. */
  datatype Ledger = Ledger(slots: seq<Handle>, isDir: seq<bool>, dead: bool, current: int, log: seq<Msg>)

  function Slot(vnode: nat, kind: Kind): nat {
    3 * vnode + match kind
                case RdOnly => 0
                case WrOnly => 1
                case RdWr => 2
  }

  /** The operations. dies: the session dies before the handle is put; in Inactive, lasts: it dies before slot number
      lasts is looked at. The vnode of Create is the one that is made. */
  datatype Op =
    | NewVnode(dir: bool) | Die
    | Open(vnode: nat, mode: Kind, reply: OpenReply) | Close(vnode: nat, fflag: Kind, ndelay: bool, dies: bool)
    | Readdir(vnode: nat, reply: OpenReply, dies: bool) | Inactive(vnode: nat, lasts: nat)
    | Strategy(vnode: nat, read: bool, reply: OpenReply) | Create(vnode: nat, answer: CreateReply)

  // ----- counting

  function One(b: bool): nat {
    if b then 1 else 0
  }

  /** How many slots are valid. */
  function ValidSlots(slots: seq<Handle>): nat {
    if slots == [] then 0 else ValidSlots(slots[1..]) + One(slots[0].Valid())
  }

  predicate Has(h: Handle, fh: nat) {
    h.Valid() && h.fhId == fh
  }

  /** How many valid slots have this id. */
  function Holding(slots: seq<Handle>, fh: nat): nat {
    if slots == [] then 0 else Holding(slots[1..], fh) + One(Has(slots[0], fh))
  }

  function Weight(m: Msg): int {
    if m.Release? then -1 else 1
  }

  /** How many times more the daemon has opened this handle than it has been released. */
  function Outstanding(log: seq<Msg>, fh: nat): int {
    if log == [] then 0
    else
      var m := log[|log| - 1];
      Outstanding(log[..|log| - 1], fh) + if m.fh == fh then Weight(m) else 0
  }

  /** How many times it has opened this handle for nobody. */
  function Strays(log: seq<Msg>, fh: nat): nat {
    if log == [] then 0 else Strays(log[..|log| - 1], fh) + One(log[|log| - 1] == Stray(fh))
  }

  /** How many times it has been opened, taken up and not yet released. */
  function Kept(log: seq<Msg>, fh: nat): int {
    Outstanding(log, fh) - Strays(log, fh)
  }

  /** Each RELEASE names a handle that has been opened, taken up and not yet released. */
  predicate Proper(log: seq<Msg>) {
    log == [] ||
    var k := |log| - 1;
    Proper(log[..k]) && (log[k].Release? ==> Kept(log[..k], log[k].fh) > 0)
  }

  lemma {:induction false} SlotSet(slots: seq<Handle>, i: nat, h: Handle, fh: nat)
    requires i < |slots|
    ensures Holding(slots[i := h], fh) + One(Has(slots[i], fh)) == Holding(slots, fh) + One(Has(h, fh))
    ensures ValidSlots(slots[i := h]) + One(slots[i].Valid()) == ValidSlots(slots) + One(h.Valid())
  {
    if i == 0 {
      assert slots[i := h][1..] == slots[1..];
    } else {
      SlotSet(slots[1..], i - 1, h, fh);
      assert slots[i := h][1..] == slots[1..][i - 1 := h];
    }
  }

  lemma SetAll(slots: seq<Handle>, i: nat, h: Handle)
    requires i < |slots|
    ensures forall fh: nat ::
      Holding(slots[i := h], fh) + One(Has(slots[i], fh)) == Holding(slots, fh) + One(Has(h, fh))
    ensures ValidSlots(slots[i := h]) + One(slots[i].Valid()) == ValidSlots(slots) + One(h.Valid())
  {
    SlotSet(slots, i, h, 0);
    forall fh: nat
      ensures Holding(slots[i := h], fh) + One(Has(slots[i], fh)) == Holding(slots, fh) + One(Has(h, fh))
    {
      SlotSet(slots, i, h, fh);
    }
  }

  lemma {:induction false} SlotsAdd(slots: seq<Handle>, more: seq<Handle>, fh: nat)
    requires forall h | h in more :: !h.Valid()
    ensures Holding(slots + more, fh) == Holding(slots, fh) && ValidSlots(slots + more) == ValidSlots(slots)
  {
    if slots != [] {
      SlotsAdd(slots[1..], more, fh);
      assert (slots + more)[1..] == slots[1..] + more;
    } else {
      assert slots + more == more;
      if more != [] {
        SlotsAdd([], more[1..], fh);
        assert [] + more[1..] == more[1..] && more[0] in more;
      }
    }
  }

  lemma Logged(log: seq<Msg>, m: Msg)
    ensures forall fh: nat :: Strays(log + [m], fh) == Strays(log, fh) + One(m == Stray(fh))
    ensures forall fh: nat :: Outstanding(log + [m], fh) == Outstanding(log, fh) + if m.fh == fh then Weight(m) else 0
    ensures Proper(log + [m]) <==> Proper(log) && (m.Release? ==> Kept(log, m.fh) > 0)
  {
    assert (log + [m])[..|log|] == log;
  }

  // ----- what every operation keeps

  /** No slot is valid without an open handle of the daemon; while the daemon lives it has open exactly what they
      hold, and what it has opened for nobody. */
  ghost predicate Sound(l: Ledger) {
    && |l.slots| == 3 * |l.isDir| && (forall i | 0 <= i < |l.slots| :: l.slots[i].openCount >= 0)
    && Proper(l.log) && (forall fh: nat :: Holding(l.slots, fh) <= Kept(l.log, fh))
    && (!l.dead ==> forall fh: nat :: Outstanding(l.log, fh) == Holding(l.slots, fh) + Strays(l.log, fh))
    && l.current == ValidSlots(l.slots)
  }

  /** The daemon opens a handle for nobody. */
  function Lose(l: Ledger, fh: nat): Ledger {
    l.(log := l.log + [Stray(fh)])
  }

  lemma LoseSound(l: Ledger, fh: nat)
    requires Sound(l)
    ensures Sound(Lose(l, fh))
  {
    Logged(l.log, Stray(fh));
  }

  /** A handle is opened and released at once. */
  function OpenAndRelease(l: Ledger, fh: nat): Ledger {
    l.(log := l.log + [Msg.Open(fh)] + [Release(fh)])
  }

  lemma LoggedTwice(log: seq<Msg>, fh: nat)
    requires Kept(log, fh) >= 0
    ensures var log' := log + [Msg.Open(fh)] + [Release(fh)];
      && Proper(log') == Proper(log)
      && forall x: nat :: Outstanding(log', x) == Outstanding(log, x) && Strays(log', x) == Strays(log, x)
  {
    Logged(log, Msg.Open(fh));
    Logged(log + [Msg.Open(fh)], Release(fh));
  }

  lemma OpenAndReleaseSound(l: Ledger, fh: nat)
    requires Sound(l)
    ensures Sound(OpenAndRelease(l, fh))
  {
    assert Holding(l.slots, fh) <= Kept(l.log, fh);
    LoggedTwice(l.log, fh);
  }

  /** fuse_filehandle_get of slot i, when the daemon opens this handle. */
  function Get(l: Ledger, i: nat, fh: nat): Ledger
    requires i < |l.slots|
  {
    l.(slots := l.slots[i := Handle(fh, 1)], current := l.current + 1, log := l.log + [Msg.Open(fh)])
  }

  /** A get keeps the ledger if and only if the slot was free. */
  lemma GetSound(l: Ledger, i: nat, fh: nat)
    requires Sound(l) && i < |l.slots|
    ensures Sound(Get(l, i, fh)) <==> !l.slots[i].Valid()
  {
    SetAll(l.slots, i, Handle(fh, 1));
    Logged(l.log, Msg.Open(fh));
    var l' := Get(l, i, fh);
    if l.slots[i].Valid() {
      assert ValidSlots(l'.slots) == ValidSlots(l.slots) && l'.current == l.current + 1;
    } else {
      forall x: nat
        ensures Holding(l'.slots, x) <= Kept(l'.log, x)
        ensures !l.dead ==> Outstanding(l'.log, x) == Holding(l'.slots, x) + Strays(l'.log, x)
      {
        assert Holding(l.slots, x) <= Kept(l.log, x);
      }
    }
  }

  /** open_count of slot i changes, and stays positive. */
  function Recount(l: Ledger, i: nat, n: int): Ledger
    requires i < |l.slots|
  {
    l.(slots := l.slots[i := l.slots[i].(openCount := n)])
  }

  lemma RecountSound(l: Ledger, i: nat, n: int)
    requires Sound(l) && i < |l.slots| && l.slots[i].Valid() && n > 0
    ensures Sound(Recount(l, i, n))
  {
    SetAll(l.slots, i, l.slots[i].(openCount := n));
  }

  /** The last use of slot i ends: it is released, unless the daemon is dead. */
  function GiveUp(l: Ledger, i: nat): Ledger
    requires i < |l.slots|
  {
    Recount(l, i, 0).(current := l.current - 1,
                      log := if l.dead then l.log else l.log + [Release(l.slots[i].fhId)])
  }

  lemma GiveUpSound(l: Ledger, i: nat)
    requires Sound(l) && i < |l.slots| && l.slots[i].Valid()
    ensures Sound(GiveUp(l, i)) && Kept(l.log, l.slots[i].fhId) > 0
  {
    var h := l.slots[i];
    SetAll(l.slots, i, h.(openCount := 0));
    Logged(l.log, Release(h.fhId));
    assert Holding(l.slots, h.fhId) <= Kept(l.log, h.fhId);
  }

  /** A use of slot i ends. */
  function Drop(l: Ledger, i: nat): Ledger
    requires i < |l.slots|
  {
    if l.slots[i].openCount > 1 then Recount(l, i, l.slots[i].openCount - 1) else GiveUp(l, i)
  }

  lemma DropSound(l: Ledger, i: nat)
    requires Sound(l) && i < |l.slots| && l.slots[i].Valid()
    ensures Sound(Drop(l, i))
  {
    if l.slots[i].openCount > 1 {
      RecountSound(l, i, l.slots[i].openCount - 1);
    } else {
      GiveUpSound(l, i);
    }
  }

  /** fuse_filehandle_get of slot i. A dead session asks nobody. */
  function TryGet(l: Ledger, i: nat, reply: OpenReply): Ledger
    requires i < |l.slots|
  {
    if l.dead || reply.Refused? then l
    else if reply.Abandoned? then Lose(l, reply.fh)
    else Get(l, i, reply.fh)
  }

  lemma TryGetSound(l: Ledger, i: nat, reply: OpenReply)
    requires Sound(l) && i < |l.slots| && !l.slots[i].Valid()
    ensures Sound(TryGet(l, i, reply))
  {
    if reply.Abandoned? {
      LoseSound(l, reply.fh);
    } else if reply.Opened? {
      GetSound(l, i, reply.fh);
    }
  }

  /** One more use of slot i, for which a handle is got if it is not valid. */
  function Take(l: Ledger, i: nat, reply: OpenReply): Ledger
    requires i < |l.slots|
  {
    if l.slots[i].Valid() then Recount(l, i, l.slots[i].openCount + 1) else TryGet(l, i, reply)
  }

  lemma TakeSound(l: Ledger, i: nat, reply: OpenReply)
    requires Sound(l) && i < |l.slots|
    ensures Sound(Take(l, i, reply))
  {
    if l.slots[i].Valid() {
      RecountSound(l, i, l.slots[i].openCount + 1);
    } else {
      TryGetSound(l, i, reply);
    }
  }

  function ReleaseSlot(l: Ledger, i: nat): Ledger
    requires i < |l.slots|
  {
    if l.slots[i].Valid() then GiveUp(l, i) else l
  }

  function DieIf(l: Ledger, dies: bool): Ledger {
    l.(dead := l.dead || dies)
  }

  /** The session may die, and then slot i is given up. */
  function Reset(l: Ledger, i: nat, dies: bool): Ledger
    requires i < |l.slots|
  {
    ReleaseSlot(DieIf(l, dies), i)
  }

  /** The slots of a vnode are given up, from number k on. */
  function GiveUpAll(l: Ledger, vnode: nat, k: nat, lasts: nat): (l': Ledger)
    requires 3 * vnode + 3 <= |l.slots| && k <= 3
    ensures |l'.slots| == |l.slots| && l'.isDir == l.isDir
    decreases 3 - k
  {
    if k == 3 then l else GiveUpAll(Reset(l, 3 * vnode + k, lasts == k), vnode, k + 1, lasts)
  }

  /** The slot that fuse_internal_strategy uses, or gets. */
  function StrategySlot(l: Ledger, vnode: nat, read: bool): nat
    requires 3 * vnode + 3 <= |l.slots|
  {
    var i := Slot(vnode, if read then RdOnly else WrOnly);
    if l.slots[i].Valid() then i
    else if l.slots[Slot(vnode, RdWr)].Valid() then Slot(vnode, RdWr)
    else Slot(vnode, if read then RdOnly else RdWr)
  }

  function CreateStep(l: Ledger, vnode: nat, reply: CreateReply): Ledger
    requires reply.Created? ==> 3 * vnode + 3 <= |l.slots|
  {
    if l.dead then l
    else
      match reply
      case NotCreated(_) => l
      case Interrupted(_, fh) => Lose(l, fh)
      case BadEntry(fh) => Lose(l, fh)
      case NoVnode(_, fh) => OpenAndRelease(l, fh)
      case Created(fh) => Get(l, Slot(vnode, RdWr), fh)
  }

  /** The operation is on a vnode that exists, and a vnode made by a create has its slot free. */
  predicate Can(l: Ledger, op: Op) {
    op.NewVnode? || op.Die? || (op.Create? && !op.answer.Created?)
    || (3 * op.vnode + 3 <= |l.slots| && op.vnode < |l.isDir|
        && (op.Create? ==> !l.slots[Slot(op.vnode, RdWr)].Valid()))
  }

  function ReaddirStep(l: Ledger, v: nat, reply: OpenReply, dies: bool): Ledger
    requires 3 * v + 3 <= |l.slots|
  {
    var i := Slot(v, RdOnly);
    if l.dead then l
    else
      var l1 := DieIf(Take(l, i, reply), dies);
      if l1.slots[i].Valid() then Drop(l1, i) else l1
  }

  function Step(l: Ledger, op: Op): Ledger
    requires Can(l, op)
  {
    match op
    case NewVnode(dir) => l.(slots := l.slots + [Handle(0, 0), Handle(0, 0), Handle(0, 0)], isDir := l.isDir + [dir])
    case Die => l.(dead := true)
    case Open(v, mode, reply) => if l.dead then l else Take(l, Slot(v, if l.isDir[v] then RdOnly else mode), reply)
    case Close(v, fflag, ndelay, dies) =>
      var i := Slot(v, if l.isDir[v] then RdOnly else fflag);
      if l.dead || ndelay || !l.slots[i].Valid() then l else Drop(DieIf(l, dies), i)
    case Readdir(v, reply, dies) => ReaddirStep(l, v, reply, dies)
    case Inactive(v, lasts) => GiveUpAll(l, v, 0, lasts)
    case Strategy(v, read, reply) =>
      var i := StrategySlot(l, v, read);
      if l.slots[i].Valid() then l else TryGet(l, i, reply)
    case Create(v, reply) => CreateStep(l, v, reply)
  }

  /** The operations can be done one after the other. */
  predicate Possible(l: Ledger, ops: seq<Op>)
    decreases |ops|
  {
    ops == [] || (Can(l, ops[0]) && Possible(Step(l, ops[0]), ops[1..]))
  }

  function Steps(l: Ledger, ops: seq<Op>): Ledger
    requires Possible(l, ops)
    decreases |ops|
  {
    if ops == [] then l else Steps(Step(l, ops[0]), ops[1..])
  }

  lemma NewVnodeSound(l: Ledger, dir: bool)
    requires Sound(l)
    ensures Sound(Step(l, NewVnode(dir)))
  {
    var more := [Handle(0, 0), Handle(0, 0), Handle(0, 0)];
    forall fh: nat
      ensures Holding(l.slots + more, fh) == Holding(l.slots, fh)
    {
      SlotsAdd(l.slots, more, fh);
    }
    SlotsAdd(l.slots, more, 0);
  }

  lemma ReleaseSound(l: Ledger, i: nat)
    requires Sound(l) && i < |l.slots|
    ensures Sound(ReleaseSlot(l, i))
  {
    if l.slots[i].Valid() {
      GiveUpSound(l, i);
    }
  }

  lemma {:induction false} GiveUpAllSound(l: Ledger, v: nat, k: nat, lasts: nat)
    requires Sound(l) && 3 * v + 3 <= |l.slots| && k <= 3
    ensures Sound(GiveUpAll(l, v, k, lasts))
    decreases 3 - k
  {
    if k < 3 {
      ReleaseSound(DieIf(l, lasts == k), 3 * v + k);
      GiveUpAllSound(Reset(l, 3 * v + k, lasts == k), v, k + 1, lasts);
    }
  }

  lemma ReaddirSound(l: Ledger, v: nat, reply: OpenReply, dies: bool)
    requires Sound(l) && 3 * v + 3 <= |l.slots|
    ensures Sound(ReaddirStep(l, v, reply, dies))
  {
    var i := Slot(v, RdOnly);
    TakeSound(l, i, reply);
    if !l.dead {
      var l1 := DieIf(Take(l, i, reply), dies);
      if l1.slots[i].Valid() { DropSound(l1, i); }
    }
  }

  lemma CreateSound(l: Ledger, v: nat, reply: CreateReply)
    requires Sound(l) && Can(l, Create(v, reply))
    ensures Sound(CreateStep(l, v, reply))
  {
    match reply {
      case NotCreated(_) =>
      case Interrupted(_, fh) => LoseSound(l, fh);
      case BadEntry(fh) => LoseSound(l, fh);
      case NoVnode(_, fh) => OpenAndReleaseSound(l, fh);
      case Created(fh) => GetSound(l, Slot(v, RdWr), fh);
    }
  }

  lemma StepSound(l: Ledger, op: Op)
    requires Sound(l) && Can(l, op)
    ensures Sound(Step(l, op))
  {
    match op {
      case NewVnode(dir) => NewVnodeSound(l, dir);
      case Die =>
      case Open(v, mode, reply) => TakeSound(l, Slot(v, if l.isDir[v] then RdOnly else mode), reply);
      case Close(v, fflag, ndelay, dies) =>
        var i := Slot(v, if l.isDir[v] then RdOnly else fflag);
        if l.slots[i].Valid() { DropSound(DieIf(l, dies), i); }
      case Readdir(v, reply, dies) => ReaddirSound(l, v, reply, dies);
      case Inactive(v, lasts) => GiveUpAllSound(l, v, 0, lasts);
      case Strategy(v, read, reply) =>
        var i := StrategySlot(l, v, read);
        if !l.slots[i].Valid() { TryGetSound(l, i, reply); }
      case Create(v, reply) => CreateSound(l, v, reply);
    }
  }

  /** Over every run: fuse_fh_current is the number of valid slots, no count is negative, each RELEASE names a handle
      opened, taken up and not yet released, and while the daemon lives it has open exactly what the slots hold and
      what it has opened for nobody. */
  lemma {:induction false} StepsSound(l: Ledger, ops: seq<Op>)
    requires Sound(l) && Possible(l, ops)
    ensures Sound(Steps(l, ops))
    decreases |ops|
  {
    if ops != [] {
      StepSound(l, ops[0]);
      StepsSound(Step(l, ops[0]), ops[1..]);
    }
  }

  /** At first there are no vnodes. */
  const EMPTY: Ledger := Ledger([], [], false, 0, [])

  // ----- handles that nobody takes up

  /** The operation has the daemon open this handle for nobody: an OPEN, for a slot that is not valid, is interrupted,
      or a CREATE is interrupted or its entry fails the check. */
  predicate Loses(l: Ledger, op: Op, fh: nat)
    requires Can(l, op)
  {
    !l.dead &&
    match op
    case Open(v, mode, reply) =>
      reply.Abandoned? && reply.fh == fh && !l.slots[Slot(v, if l.isDir[v] then RdOnly else mode)].Valid()
    case Readdir(v, reply, _) => reply.Abandoned? && reply.fh == fh && !l.slots[Slot(v, RdOnly)].Valid()
    case Strategy(v, read, reply) =>
      reply.Abandoned? && reply.fh == fh && !l.slots[StrategySlot(l, v, read)].Valid()
    case Create(_, reply) => (reply.Interrupted? || reply.BadEntry?) && reply.fh == fh
    case _ => false
  }

  /** No operation of the run does. */
  predicate NeverLoses(l: Ledger, ops: seq<Op>, fh: nat)
    requires Possible(l, ops)
    decreases |ops|
  {
    ops == [] || (!Loses(l, ops[0], fh) && NeverLoses(Step(l, ops[0]), ops[1..], fh))
  }

  lemma ResetStrays(l: Ledger, i: nat, dies: bool, fh: nat)
    requires i < |l.slots|
    ensures |Reset(l, i, dies).slots| == |l.slots| && Strays(Reset(l, i, dies).log, fh) == Strays(l.log, fh)
  {
    Logged(l.log, Release(l.slots[i].fhId));
  }

  lemma ReleaseNowStrays(l: Ledger, x: nat, fh: nat)
    ensures Strays(OpenAndRelease(l, x).log, fh) == Strays(l.log, fh)
  {
    Logged(l.log, Msg.Open(x));
    Logged(l.log + [Msg.Open(x)], Release(x));
  }

  lemma DropStrays(l: Ledger, i: nat, fh: nat)
    requires i < |l.slots|
    ensures Strays(Drop(l, i).log, fh) == Strays(l.log, fh)
  {
    Logged(l.log, Release(l.slots[i].fhId));
  }

  lemma TakeStrays(l: Ledger, i: nat, reply: OpenReply, fh: nat)
    requires i < |l.slots|
    ensures Strays(TryGet(l, i, reply).log, fh) == Strays(l.log, fh)
         + One(!l.dead && reply.Abandoned? && reply.fh == fh)
    ensures Strays(Take(l, i, reply).log, fh) == Strays(l.log, fh)
         + One(!l.dead && reply.Abandoned? && reply.fh == fh && !l.slots[i].Valid())
  {
    if !reply.Refused? {
      Logged(l.log, Stray(reply.fh));
      Logged(l.log, Msg.Open(reply.fh));
    }
  }

  lemma CreateStrays(l: Ledger, v: nat, reply: CreateReply, fh: nat)
    requires Can(l, Create(v, reply))
    ensures Strays(CreateStep(l, v, reply).log, fh) == Strays(l.log, fh) + One(Loses(l, Create(v, reply), fh))
  {
    match reply {
      case NotCreated(_) =>
      case NoVnode(_, x) => ReleaseNowStrays(l, x, fh);
      case Created(x) => Logged(l.log, Msg.Open(x));
      case _ => Logged(l.log, Stray(reply.fh));
    }
  }

  lemma {:induction false} InactiveStrays(l: Ledger, v: nat, k: nat, lasts: nat, fh: nat)
    requires 3 * v + 3 <= |l.slots| && k <= 3
    ensures Strays(GiveUpAll(l, v, k, lasts).log, fh) == Strays(l.log, fh)
    decreases 3 - k
  {
    if k < 3 {
      ResetStrays(l, 3 * v + k, lasts == k, fh);
      InactiveStrays(Reset(l, 3 * v + k, lasts == k), v, k + 1, lasts, fh);
    }
  }

  lemma StepStrays(l: Ledger, op: Op, fh: nat)
    requires Can(l, op)
    ensures Strays(Step(l, op).log, fh) == Strays(l.log, fh) + One(Loses(l, op, fh))
  {
    match op {
      case Open(v, mode, reply) => TakeStrays(l, Slot(v, if l.isDir[v] then RdOnly else mode), reply, fh);
      case Close(v, fflag, ndelay, dies) =>
        DropStrays(DieIf(l, dies), Slot(v, if l.isDir[v] then RdOnly else fflag), fh);
      case Readdir(v, reply, dies) =>
        TakeStrays(l, Slot(v, RdOnly), reply, fh);
        DropStrays(DieIf(Take(l, Slot(v, RdOnly), reply), dies), Slot(v, RdOnly), fh);
      case Inactive(v, lasts) => InactiveStrays(l, v, 0, lasts, fh);
      case Strategy(v, read, reply) => TakeStrays(l, StrategySlot(l, v, read), reply, fh);
      case Create(v, reply) => CreateStrays(l, v, reply, fh);
      case _ =>
    }
  }

  lemma {:induction false} StepsStrays(l: Ledger, ops: seq<Op>, fh: nat)
    requires Possible(l, ops)
    ensures Strays(Steps(l, ops).log, fh) >= Strays(l.log, fh)
    ensures Strays(Steps(l, ops).log, fh) == Strays(l.log, fh) <==> NeverLoses(l, ops, fh)
    decreases |ops|
  {
    if ops != [] {
      StepStrays(l, ops[0], fh);
      StepsStrays(Step(l, ops[0]), ops[1..], fh);
    }
  }

  lemma {:induction false} NothingHeld(slots: seq<Handle>, fh: nat)
    requires forall h | h in slots :: !h.Valid()
    ensures Holding(slots, fh) == 0
  {
    if slots != [] {
      assert slots[0] in slots;
      NothingHeld(slots[1..], fh);
    }
  }

  /** When a live session has no valid slot, the daemon has a handle still open if and only if some operation of the
      run has lost it. */
  lemma ReleasedIffNeverLost(ops: seq<Op>, fh: nat)
    requires Possible(EMPTY, ops) && !Steps(EMPTY, ops).dead
    requires forall h | h in Steps(EMPTY, ops).slots :: !h.Valid()
    ensures Outstanding(Steps(EMPTY, ops).log, fh) == 0 <==> NeverLoses(EMPTY, ops, fh)
  {
    StepsSound(EMPTY, ops);
    StepsStrays(EMPTY, ops, fh);
    NothingHeld(Steps(EMPTY, ops).slots, fh);
  }

  lemma First(l: Ledger, op: Op, ops: seq<Op>)
    requires Can(l, op) && Possible(Step(l, op), ops)
    ensures Possible(l, [op] + ops) && Steps(l, [op] + ops) == Steps(Step(l, op), ops)
  {
    assert ([op] + ops)[1..] == ops;
  }

  /** Such losses happen: an interrupted OPEN and a CREATE whose entry fails the check leave a handle each. */
  lemma HandlesLeak() returns (ops: seq<Op>)
    ensures Possible(EMPTY, ops) && !Steps(EMPTY, ops).dead
    ensures forall h | h in Steps(EMPTY, ops).slots :: !h.Valid()
    ensures Outstanding(Steps(EMPTY, ops).log, 7) == 1 && Outstanding(Steps(EMPTY, ops).log, 8) == 1
  {
    var new1, open, create := NewVnode(false), Op.Open(0, RdOnly, Abandoned(EINTR, 7)), Create(0, BadEntry(8));
    var none := Handle(0, 0);
    var l1 := Ledger([none, none, none], [false], false, 0, []);
    assert Step(EMPTY, new1) == l1;
    assert Step(l1, open) == Lose(l1, 7);
    First(Lose(l1, 7), create, []);
    First(l1, open, [create] + []);
    First(EMPTY, new1, [open] + ([create] + []));
    ops := [new1] + ([open] + ([create] + []));
    TwoStrays();
  }

  lemma TwoStrays()
    ensures var log := [] + [Stray(7)] + [Stray(8)]; Outstanding(log, 7) == 1 && Outstanding(log, 8) == 1
  {
    Logged([], Stray(7));
    Logged([] + [Stray(7)], Stray(8));
  }
}
