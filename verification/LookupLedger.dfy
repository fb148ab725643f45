/** The ledger of lookups, by nodeid: what the daemon grants with its entry replies, what the vnodes hold
    (nlookup), what FORGET gives back and what a callback is going to give back; and what each operation makes of it. */
module LookupLedger {
  import opened Bytes
  import opened Counts

  const VNON: nat := 0
  const VREG: nat := 1
  const VBAD: nat := 8
  const NULL_ID: nat := 0
  const ROOT_ID: nat := 1

  /** struct fuse_entry_out. noFormat: the file type bits of the mode are zero. */
  datatype EntryOut = EntryOut(nodeid: nat, generation: nat, vtype: nat, noFormat: bool)

  datatype Reply = Failed(err: errno) | Entry(feo: EntryOut)

  /** The parts of struct fuse_vnode_data that matter here. */
  datatype Vnode = Vnode(nlookup: nat, generation: nat, vtype: nat)

  /** Lookups granted, given back, and to be given back by a callback. */
  datatype Books = Books(granted: map<nat, nat>, forgotten: map<nat, nat>, pending: map<nat, nat>)

  datatype Ledger = Ledger(vnodes: map<nat, Vnode>, dead: bool, books: Books)

  /** failed: the error of vnode_create, if it fails; byMknod: the daemon has no CREATE. Abandon: the daemon grants a
      lookup in the reply to a request whose requester has been interrupted. */
  datatype Op =
    | Die | Abandon(id: nat)
    | Lookup(reply: Reply, failed: int) | NewEntry(reply: Reply, vtype: nat, failed: int)
    | Create(reply: Reply, byMknod: bool, failed: int) | ForgetCallback(id: nat)
    | Link(id: nat, reply: Reply) | Reclaim(id: nat)

  /** fuse_internal_checkentry. */
  predicate CheckEntry(feo: EntryOut, vtype: nat) {
    vtype == feo.vtype && feo.nodeid != NULL_ID && feo.nodeid != ROOT_ID
  }

  function Held(l: Ledger, id: nat): nat {
    if id in l.vnodes then l.vnodes[id].nlookup else 0
  }

  /** Granted lookups that are neither given back nor to be given back nor held. */
  function Balance(l: Ledger, id: nat): int {
    N(l.books.granted, id) - N(l.books.forgotten, id) - N(l.books.pending, id) - Held(l, id)
  }

  /** For every nodeid, FORGETs sent and pending and lookups held never exceed the lookups granted. */
  ghost predicate Fair(l: Ledger) {
    forall id: nat :: Balance(l, id) >= 0
  }

  // ----- the parts of operations

  function Grant(l: Ledger, id: nat): Ledger {
    l.(books := l.books.(granted := Plus(l.books.granted, id, 1)))
  }

  /** fuse_internal_forget_send. A dead session sends nothing. */
  function Forget(l: Ledger, id: nat, k: nat): Ledger {
    if l.dead then l else l.(books := l.books.(forgotten := Plus(l.books.forgotten, id, k)))
  }

  function Await(l: Ledger, id: nat): Ledger {
    l.(books := l.books.(pending := Plus(l.books.pending, id, 1)))
  }

  /** The error of looking for the vnode of an entry, and of making it if there is none. */
  function VnodeError(l: Ledger, feo: EntryOut, failed: int): int {
    if feo.vtype >= VBAD || feo.vtype == VNON then EINVAL
    else if feo.nodeid !in l.vnodes then failed
    else
      var v := l.vnodes[feo.nodeid];
      if v.vtype != feo.vtype then EIO else if v.generation != feo.generation then ESTALE else 0
  }

  /** The vnodes afterwards. */
  function Appear(l: Ledger, feo: EntryOut, failed: int): Ledger {
    if feo.nodeid !in l.vnodes && VnodeError(l, feo, failed) == 0
    then l.(vnodes := l.vnodes[feo.nodeid := Vnode(0, feo.generation, feo.vtype)])
    else l
  }

  /** One more lookup on a vnode. */
  function Raise(l: Ledger, id: nat): Ledger
    requires id in l.vnodes
  {
    l.(vnodes := l.vnodes[id := l.vnodes[id].(nlookup := l.vnodes[id].nlookup + 1)])
  }

  /** The vnode of the entry takes the lookup, or it is given back. */
  function VgetOrForget(l: Ledger, feo: EntryOut, failed: int): Ledger {
    if VnodeError(l, feo, failed) == 0 then Raise(Appear(l, feo, failed), feo.nodeid) else Forget(l, feo.nodeid, 1)
  }

  // ----- operations

  predicate Can(l: Ledger, op: Op) {
    match op
    case ForgetCallback(id) => N(l.books.pending, id) > 0
    case Link(id, _) => id in l.vnodes
    case Reclaim(id) => id in l.vnodes
    case _ => true
  }

  function LookupStep(l: Ledger, reply: Reply, failed: int): Ledger {
    if l.dead || reply.Failed? || reply.feo.nodeid == NULL_ID then l
    else
      var feo, l1 := reply.feo, Grant(l, reply.feo.nodeid);
      if feo.nodeid == ROOT_ID then l1
      else if feo.noFormat then Forget(l1, feo.nodeid, 1)
      else VgetOrForget(l1, feo, failed)
  }

  function NewEntryStep(l: Ledger, reply: Reply, vtype: nat, failed: int): Ledger {
    if reply.Failed? then l
    else if !CheckEntry(reply.feo, vtype) then Grant(l, reply.feo.nodeid)
    else VgetOrForget(Grant(l, reply.feo.nodeid), reply.feo, failed)
  }

  function CreateStep(l: Ledger, reply: Reply, byMknod: bool, failed: int): Ledger {
    if l.dead || reply.Failed? then l
    else
      var feo, l1 := reply.feo, Grant(l, reply.feo.nodeid);
      if !CheckEntry(feo, VREG) then l1
      else if VnodeError(l1, feo, failed) == 0 then Appear(l1, feo, failed)
      else if byMknod then Forget(l1, feo.nodeid, 1)
      else Await(l1, feo.nodeid)
  }

  function LinkStep(l: Ledger, id: nat, reply: Reply): Ledger
    requires id in l.vnodes
  {
    if l.dead || reply.Failed? then l
    else if !CheckEntry(reply.feo, l.vnodes[id].vtype) then Grant(l, reply.feo.nodeid)
    else Raise(Grant(l, reply.feo.nodeid), id)
  }

  function CallbackStep(l: Ledger, id: nat): Ledger {
    Forget(l.(books := l.books.(pending := Less(l.books.pending, id))), id, 1)
  }

  function ReclaimStep(l: Ledger, id: nat): Ledger
    requires id in l.vnodes
  {
    var k := l.vnodes[id].nlookup;
    (if k > 0 then Forget(l, id, k) else l).(vnodes := l.vnodes - {id})
  }

  function Step(l: Ledger, op: Op): Ledger
    requires Can(l, op)
  {
    match op
    case Die => l.(dead := true)
    case Abandon(id) => Grant(l, id)
    case Lookup(reply, failed) => LookupStep(l, reply, failed)
    case NewEntry(reply, vtype, failed) => NewEntryStep(l, reply, vtype, failed)
    case Create(reply, byMknod, failed) => CreateStep(l, reply, byMknod, failed)
    case ForgetCallback(id) => CallbackStep(l, id)
    case Link(id, reply) => LinkStep(l, id, reply)
    case Reclaim(id) => ReclaimStep(l, id)
  }

  // ----- the balance

  function Unit(b: bool): int {
    if b then 1 else 0
  }

  /** What an operation adds to the balance of a nodeid: granted lookups that nothing accounts for. These are those
      of the root, of entries that fail the check, of files created, of interrupted requests, and all that a dead
      session does not give back.
      A LINK answer that names another node adds to that one's balance and takes from the linked node's. */
  function Unaccounted(l: Ledger, op: Op, id: nat): int
    requires Can(l, op)
  {
    match op
    case Die => 0
    case Abandon(x) => Unit(x == id)
    case Lookup(reply, _) => Unit(!l.dead && reply.Entry? && reply.feo.nodeid == id == ROOT_ID)
    case NewEntry(reply, vtype, failed) =>
      Unit(reply.Entry? && reply.feo.nodeid == id
           && (!CheckEntry(reply.feo, vtype) || (l.dead && VnodeError(l, reply.feo, failed) != 0)))
    case Create(reply, _, failed) =>
      Unit(!l.dead && reply.Entry? && reply.feo.nodeid == id
           && (!CheckEntry(reply.feo, VREG) || VnodeError(l, reply.feo, failed) == 0))
    case ForgetCallback(x) => Unit(l.dead && x == id)
    case Link(x, reply) =>
      if l.dead || reply.Failed? then 0
      else Unit(reply.feo.nodeid == id) - Unit(CheckEntry(reply.feo, l.vnodes[x].vtype) && x == id)
    case Reclaim(x) => if l.dead && x == id then l.vnodes[x].nlookup else 0
  }

  lemma ForgetBalance(l: Ledger, id: nat, k: nat, x: nat)
    ensures Balance(Forget(l, id, k), x) == Balance(l, x) - if x == id && !l.dead then k else 0
  {
  }

  lemma VgetBalance(l: Ledger, feo: EntryOut, failed: int, x: nat)
    ensures Balance(VgetOrForget(l, feo, failed), x)
         == Balance(l, x) - Unit(x == feo.nodeid && (VnodeError(l, feo, failed) == 0 || !l.dead))
  {
  }

  lemma GrantBalance(l: Ledger, id: nat, x: nat)
    ensures Balance(Grant(l, id), x) == Balance(l, x) + Unit(x == id)
  {
  }

  lemma LookupBalance(l: Ledger, reply: Reply, failed: int, x: nat)
    ensures Balance(LookupStep(l, reply, failed), x) == Balance(l, x) + Unaccounted(l, Lookup(reply, failed), x)
  {
    if !l.dead && reply.Entry? && reply.feo.nodeid != NULL_ID {
      var id, l1 := reply.feo.nodeid, Grant(l, reply.feo.nodeid);
      GrantBalance(l, id, x);
      VgetBalance(l1, reply.feo, failed, x);
      ForgetBalance(l1, id, 1, x);
    }
  }

  lemma NewEntryBalance(l: Ledger, reply: Reply, vtype: nat, failed: int, x: nat)
    ensures Balance(NewEntryStep(l, reply, vtype, failed), x)
         == Balance(l, x) + Unaccounted(l, NewEntry(reply, vtype, failed), x)
  {
    if reply.Entry? {
      GrantBalance(l, reply.feo.nodeid, x);
      VgetBalance(Grant(l, reply.feo.nodeid), reply.feo, failed, x);
    }
  }

  lemma CreateBalance(l: Ledger, reply: Reply, byMknod: bool, failed: int, x: nat)
    ensures Balance(CreateStep(l, reply, byMknod, failed), x)
         == Balance(l, x) + Unaccounted(l, Create(reply, byMknod, failed), x)
  {
    if reply.Entry? {
      var id, l1 := reply.feo.nodeid, Grant(l, reply.feo.nodeid);
      GrantBalance(l, id, x);
      ForgetBalance(l1, id, 1, x);
      assert Balance(Appear(l1, reply.feo, failed), x) == Balance(l1, x);
    }
  }

  /** The balance of every nodeid changes by just what is unaccounted for. */
  lemma StepBalance(l: Ledger, op: Op, x: nat)
    requires Can(l, op)
    ensures Balance(Step(l, op), x) == Balance(l, x) + Unaccounted(l, op, x)
  {
    match op {
      case Lookup(reply, failed) => LookupBalance(l, reply, failed, x);
      case NewEntry(reply, vtype, failed) => NewEntryBalance(l, reply, vtype, failed, x);
      case Create(reply, byMknod, failed) => CreateBalance(l, reply, byMknod, failed, x);
      case Abandon(id) => GrantBalance(l, id, x);
      case Link(id, reply) => if reply.Entry? { GrantBalance(l, reply.feo.nodeid, x); }
      case _ =>
    }
  }

  /** Answers to LINK name the linked node. */
  predicate Rightly(op: Op) {
    op.Link? && op.reply.Entry? ==> op.reply.feo.nodeid == op.id
  }

  lemma StepFair(l: Ledger, op: Op)
    requires Fair(l) && Can(l, op) && Rightly(op)
    ensures Fair(Step(l, op))
  {
    forall x: nat
      ensures Balance(Step(l, op), x) >= 0
    {
      StepBalance(l, op, x);
    }
  }

  /** A LINK keeps the ledger fair if and only if the answer names the linked node or fails the check, or the daemon
      had granted the linked node one lookup more than is accounted for. */
  lemma LinkFair(l: Ledger, id: nat, feo: EntryOut)
    requires Fair(l) && !l.dead && id in l.vnodes
    ensures Fair(Step(l, Link(id, Entry(feo))))
        <==> feo.nodeid == id || !CheckEntry(feo, l.vnodes[id].vtype) || Balance(l, id) > 0
  {
    forall x: nat
      ensures Balance(Step(l, Link(id, Entry(feo))), x) == Balance(l, x) + Unaccounted(l, Link(id, Entry(feo)), x)
    {
      StepBalance(l, Link(id, Entry(feo)), x);
    }
  }

  // ----- where the lookups of an operation go

  /** From l to l', the daemon grants lookups of this node; of them, and of those held, some are given back, some are
      to be given back, and the vnode holds so many more. All else is as it was. */
  ghost predicate Moves(l: Ledger, l': Ledger, id: nat, granted: nat, forgotten: nat, pending: int, held: int) {
    && l'.dead == l.dead
    && (forall x: nat ::
      && N(l'.books.granted, x) == N(l.books.granted, x) + (if x == id then granted else 0)
      && N(l'.books.forgotten, x) == N(l.books.forgotten, x) + (if x == id then forgotten else 0)
      && N(l'.books.pending, x) == N(l.books.pending, x) + (if x == id then pending else 0)
      && Held(l', x) == Held(l, x) + (if x == id then held else 0))
    && (forall x: nat | x != id :: x in l'.vnodes <==> x in l.vnodes)
    && (forall x: nat | x in l.vnodes && x in l'.vnodes ::
      l'.vnodes[x].generation == l.vnodes[x].generation && l'.vnodes[x].vtype == l.vnodes[x].vtype)
  }

  /** The vnode that an entry describes is in the index. */
  predicate Known(l: Ledger, feo: EntryOut) {
    feo.nodeid in l.vnodes
    && l.vnodes[feo.nodeid].generation == feo.generation && l.vnodes[feo.nodeid].vtype == feo.vtype
  }

  /** An entry is usable: of a file type, and in the index as it says, or not there and a vnode can be made. */
  predicate Usable(l: Ledger, feo: EntryOut, failed: int) {
    feo.vtype != 0 && feo.vtype < 8 && if feo.nodeid in l.vnodes then Known(l, feo) else failed == 0
  }

  /** The lookup that the daemon grants is held if the entry is usable, and given back if not; that of the root is
      neither. */
  lemma LookupMoves(l: Ledger, feo: EntryOut, failed: int)
    requires !l.dead && feo.nodeid != 0
    ensures var l', root, ok := Step(l, Lookup(Entry(feo), failed)), feo.nodeid == 1,
                                !feo.noFormat && Usable(l, feo, failed);
      && Moves(l, l', feo.nodeid, 1, if root || ok then 0 else 1, 0, if !root && ok then 1 else 0)
      && if !root && ok then Known(l', feo) else l'.vnodes == l.vnodes
  {
  }

  /** Likewise for a new entry, but that of a bad one is not given back. */
  lemma NewEntryMoves(l: Ledger, feo: EntryOut, vtype: nat, failed: int)
    ensures var l', good, ok := Step(l, NewEntry(Entry(feo), vtype, failed)),
                                feo.vtype == vtype && feo.nodeid > 1, Usable(l, feo, failed);
      && Moves(l, l', feo.nodeid, 1, if good && !ok && !l.dead then 1 else 0, 0, if good && ok then 1 else 0)
      && if good && ok then Known(l', feo) else l'.vnodes == l.vnodes
  {
  }

  /** That of a file created is not held; without a vnode it is given back, or is to be given back after a CREATE. */
  lemma CreateMoves(l: Ledger, feo: EntryOut, byMknod: bool, failed: int)
    requires !l.dead
    ensures var l', good, ok := Step(l, Create(Entry(feo), byMknod, failed)),
                                feo.vtype == 1 && feo.nodeid > 1, Usable(l, feo, failed);
      && Moves(l, l', feo.nodeid, 1, if good && !ok && byMknod then 1 else 0,
               if good && !ok && !byMknod then 1 else 0, 0)
      && if good && ok then Known(l', feo) else l'.vnodes == l.vnodes
  {
  }

  /** A vnode that is reclaimed gives back all it holds, and a callback one lookup, while the session lives. */
  lemma GivesBack(l: Ledger, id: nat)
    ensures N(l.books.pending, id) > 0 ==>
      Moves(l, Step(l, ForgetCallback(id)), id, 0, if l.dead then 0 else 1, -1, 0)
    ensures id in l.vnodes ==>
      var k: int, l' := l.vnodes[id].nlookup, Step(l, Reclaim(id));
      id !in l'.vnodes && Moves(l, l', id, 0, if l.dead then 0 else k, 0, -k)
  {
  }

  /** The lookup that a LINK grants is held by the linked vnode, if the answer is good and names it. */
  lemma LinkMoves(l: Ledger, feo: EntryOut)
    requires !l.dead && feo.nodeid in l.vnodes
    ensures var good := feo.vtype == l.vnodes[feo.nodeid].vtype && feo.nodeid > 1;
      Moves(l, Step(l, Link(feo.nodeid, Entry(feo))), feo.nodeid, 1, 0, 0, if good then 1 else 0)
  {
  }

  /** Errors change nothing, nor does a dead session, but for a new entry. */
  lemma NothingMoves(l: Ledger, op: Op)
    requires Can(l, op) && match op
      case Lookup(reply, _) => l.dead || reply.Failed? || reply.feo.nodeid == 0
      case NewEntry(reply, _, _) => reply.Failed?
      case Create(reply, _, _) => l.dead || reply.Failed?
      case Link(_, reply) => l.dead || reply.Failed?
      case _ => false
    ensures Step(l, op) == l
  {
  }

  // ----- runs

  predicate Possible(l: Ledger, ops: seq<Op>)
    decreases |ops|
  {
    ops == [] || (Can(l, ops[0]) && Possible(Step(l, ops[0]), ops[1..]))
  }

  function Steps(l: Ledger, ops: seq<Op>): Ledger
    requires Possible(l, ops)
    decreases |ops|
  {
    if ops == [] then l else Steps(Step(l, ops[0]), ops[1..])
  }

  function AllUnaccounted(l: Ledger, ops: seq<Op>, id: nat): int
    requires Possible(l, ops)
    decreases |ops|
  {
    if ops == [] then 0 else Unaccounted(l, ops[0], id) + AllUnaccounted(Step(l, ops[0]), ops[1..], id)
  }

  const EMPTY: Ledger := Ledger(map[], false, Books(map[], map[], map[]))

  /** Conservation, over every run: what is granted for a nodeid is given back, or to be given back, or held, or is
      one of the lookups that nothing accounts for. */
  lemma {:induction false} StepsBalance(l: Ledger, ops: seq<Op>, id: nat)
    requires Possible(l, ops)
    ensures Balance(Steps(l, ops), id) == Balance(l, id) + AllUnaccounted(l, ops, id)
    decreases |ops|
  {
    if ops != [] {
      StepBalance(l, ops[0], id);
      StepsBalance(Step(l, ops[0]), ops[1..], id);
    }
  }

  /** Over every run in which LINK answers name the linked node, the ledger is fair. */
  lemma {:induction false} StepsFair(l: Ledger, ops: seq<Op>)
    requires Fair(l) && Possible(l, ops) && forall op | op in ops :: Rightly(op)
    ensures Fair(Steps(l, ops))
    decreases |ops|
  {
    if ops != [] {
      StepFair(l, ops[0]);
      StepsFair(Step(l, ops[0]), ops[1..]);
    }
  }
}
