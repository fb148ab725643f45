/** The index of vnodes by nodeid over the red-black tree, and the operations that grant, hold and give back
    lookups. Operations on one session are serialised, and finding or creating a vnode is one step. */
module VnodeTable {
  import opened Bytes
  import opened Counts
  import opened Elements
  import opened LookupLedger
  import opened RbTree

  /** vnodes is info, by nodeid. */
  ghost predicate Matches(info: map<Node, Vnode>, vnodes: map<nat, Vnode>) {
    && (forall n | n in info :: n.nodeid in vnodes && vnodes[n.nodeid] == info[n])
    && (forall id | id in vnodes :: exists n | n in info :: n.nodeid == id)
    && (forall n, m | n in info && m in info && n.nodeid == m.nodeid :: n == m)
  }

  lemma MatchesSet(info: map<Node, Vnode>, vnodes: map<nat, Vnode>, n: Node, v: Vnode)
    requires Matches(info, vnodes) && (n in info || n.nodeid !in vnodes)
    ensures Matches(info[n := v], vnodes[n.nodeid := v])
  {
    var info', vnodes' := info[n := v], vnodes[n.nodeid := v];
    forall id | id in vnodes'
      ensures exists m | m in info' :: m.nodeid == id
    {
      if id == n.nodeid {
        assert n in info';
      } else {
        var m :| m in info && m.nodeid == id;
        assert m in info';
      }
    }
  }

  lemma MatchesLess(info: map<Node, Vnode>, vnodes: map<nat, Vnode>, n: Node)
    requires Matches(info, vnodes) && n in info
    ensures Matches(info - {n}, vnodes - {n.nodeid})
  {
    forall id | id in vnodes - {n.nodeid}
      ensures exists m | m in info - {n} :: m.nodeid == id
    {
      var m :| m in info && m.nodeid == id;
      assert m in info - {n};
    }
  }

  /** The error of finding the vnode of an entry, or of making it: a bad type, another type or generation than the
      vnode with this nodeid has, or what vnode_create says if there is none. */
  predicate EntryError(err: int, vnodes: map<nat, Vnode>, feo: EntryOut, failed: int) {
    if feo.vtype == 0 || feo.vtype >= 8 then err == 22
    else if feo.nodeid !in vnodes then err == failed
    else if vnodes[feo.nodeid].vtype != feo.vtype then err == 5
    else if vnodes[feo.nodeid].generation != feo.generation then err == 70
    else err == 0
  }

  class Table {
    const head: Head             // nodes_head
    var info: map<Node, Vnode>
    var dead: bool
    var books: Books
    ghost var vnodes: map<nat, Vnode>   // info, by nodeid

    /** The index, what the vnodes hold, and the books, as the ledger has them. */
    ghost function State(): Ledger
      reads this
    {
      Ledger(vnodes, dead, books)
    }

    ghost predicate Valid()
      reads this`info, this`vnodes, head, head.repr
    {
      head.Valid() && info.Keys == head.repr && Matches(info, vnodes)
    }

    constructor ()
      ensures Valid() && fresh(head) && fresh(head.repr) && State() == EMPTY
    {
      head := new Head();
      info, dead, books, vnodes := map[], false, Books(map[], map[], map[]), map[];
    }

    /** The vnode with this nodeid, if there is one. */
    method Find(id: nat) returns (n: Node?)
      requires Valid()
      ensures n == null <==> id !in vnodes
      ensures n != null ==> n in info && n.nodeid == id && info[n] == vnodes[id]
    {
      n := head.Find(id);
    }

    /** A new vnode, without lookups. */
    method Insert(feo: EntryOut) returns (n: Node)
      requires Valid() && feo.nodeid !in vnodes
      modifies this`info, this`vnodes, head, head.repr
      ensures Valid() && fresh(head.repr - old(head.repr))
      ensures n in info && n.nodeid == feo.nodeid
      ensures vnodes == old(vnodes)[feo.nodeid := Vnode(0, feo.generation, feo.vtype)]
    {
      n := new Node(feo.nodeid);
      var v := Vnode(0, feo.generation, feo.vtype);
      MatchesSet(info, vnodes, n, v);
      assert info[n := v].Keys == info.Keys + {n};
      var _ := head.Insert(n);
      info := info[n := v];
      vnodes := vnodes[feo.nodeid := v];
    }

    /** A vnode leaves the index. */
    method Remove(n: Node)
      requires Valid() && n in info
      modifies this`info, this`vnodes, head, head.repr
      ensures Valid() && vnodes == old(vnodes) - {n.nodeid}
      ensures info == old(info) - {n} && head.repr == old(head.repr) - {n}
    {
      MatchesLess(info, vnodes, n);
      assert (info - {n}).Keys == info.Keys - {n};
      var _ := head.Remove(n);
      info := info - {n};
      vnodes := vnodes - {n.nodeid};
    }

    /** FSNodeGetOrCreateFileVNodeByID, taken as one step. failed: the error of vnode_create, if it fails. */
    method GetOrCreate(feo: EntryOut, failed: int) returns (err: int, n: Node?)
      requires Valid()
      modifies this`info, this`vnodes, head, head.repr
      ensures Valid() && fresh(head.repr - old(head.repr))
      ensures err == VnodeError(old(State()), feo, failed) && State() == Appear(old(State()), feo, failed)
      ensures EntryError(err, old(vnodes), feo, failed)
      ensures err == 0 ==> n != null && n in info && n.nodeid == feo.nodeid
                           && info[n].generation == feo.generation && info[n].vtype == feo.vtype
    {
      if feo.vtype >= VBAD || feo.vtype == VNON {
        return EINVAL, null;
      }
      n := Find(feo.nodeid);
      if n == null {
        if failed != 0 {
          return failed, null;
        }
        n := Insert(feo);
        return 0, n;
      }
      err := 0;
      if info[n].vtype != feo.vtype {
        err := EIO;
      } else if info[n].generation != feo.generation {
        err := ESTALE;
      }
    }

    /** nlookup++ */
    method Increment(n: Node)
      requires Valid() && n in info
      modifies this`info, this`vnodes
      ensures Valid() && n.nodeid in old(vnodes) && State() == Raise(old(State()), n.nodeid)
    {
      var v := info[n].(nlookup := info[n].nlookup + 1);
      MatchesSet(info, vnodes, n, v);
      info := info[n := v];
      vnodes := vnodes[n.nodeid := v];
    }

    /** fuse_vget_i: one more lookup on the vnode. */
    method Vget(feo: EntryOut, failed: int) returns (err: int, n: Node?)
      requires Valid()
      modifies this`info, this`vnodes, head, head.repr
      ensures Valid() && fresh(head.repr - old(head.repr)) && err == VnodeError(old(State()), feo, failed)
      ensures err != 0 ==> State() == old(State())
      ensures err == 0 ==>
        && n != null && n in info && n.nodeid == feo.nodeid
        && feo.nodeid in Appear(old(State()), feo, failed).vnodes
        && State() == Raise(Appear(old(State()), feo, failed), feo.nodeid)
        && info[n].nlookup == Held(old(State()), feo.nodeid) + 1
    {
      err, n := GetOrCreate(feo, failed);
      if err == 0 {
        Increment(n);
      }
    }

    /** fuse_internal_forget_send. A dead session sends nothing. */
    method ForgetSend(id: nat, k: nat)
      modifies this`books
      ensures State() == Forget(old(State()), id, k)
    {
      if !dead {
        books := books.(forgotten := Plus(books.forgotten, id, k));
      }
    }

    /** The daemon grants a lookup. */
    method Receive(id: nat)
      modifies this`books
      ensures State() == Grant(old(State()), id)
    {
      books := books.(granted := Plus(books.granted, id, 1));
    }

    /** Looks up or creates the vnode of a granted entry; if that fails, the lookup is given back. */
    method Take(feo: EntryOut, failed: int) returns (err: int, n: Node?)
      requires Valid()
      modifies this`info, this`vnodes, this`books, head, head.repr
      ensures Valid() && fresh(head.repr - old(head.repr)) && err == VnodeError(old(State()), feo, failed)
      ensures State() == VgetOrForget(old(State()), feo, failed)
      ensures err == 0 ==> n != null && n in info && n.nodeid == feo.nodeid
                           && info[n].nlookup == Held(old(State()), feo.nodeid) + 1
    {
      err, n := Vget(feo, failed);
      if err != 0 {
        ForgetSend(feo.nodeid, 1);
      }
    }

    /** fuse_vnop_lookup of a name that is neither dot nor dot-dot and not in the name cache. */
    method Lookup(reply: Reply, failed: int) returns (err: int, n: Node?)
      requires Valid()
      modifies this`info, this`vnodes, this`books, head, head.repr
      ensures Valid() && fresh(head.repr - old(head.repr))
      ensures State() == LookupStep(old(State()), reply, failed)
      ensures if old(dead) then err == 6 else if reply.Failed? then err == reply.err
              else if reply.feo.nodeid == 0 then err == 2 else if reply.feo.nodeid == 1 then err == 22
              else if reply.feo.noFormat then err == 5 else EntryError(err, old(vnodes), reply.feo, failed)
      ensures err == 0 ==> reply.Entry? && n != null && n in info && n.nodeid == reply.feo.nodeid
                           && info[n].nlookup == Held(old(State()), reply.feo.nodeid) + 1
    {
      if dead {
        return ENXIO, null;
      }
      if reply.Failed? {
        return reply.err, null;
      }
      var feo := reply.feo;
      if feo.nodeid == NULL_ID {
        return ENOENT, null;
      }
      Receive(feo.nodeid);
      if feo.nodeid == ROOT_ID {
        return EINVAL, null;
      }
      if feo.noFormat {
        ForgetSend(feo.nodeid, 1);
        return EIO, null;
      }
      err, n := Take(feo, failed);
    }

    /** fuse_internal_newentry_core, for MKNOD, MKDIR and SYMLINK. A bad entry is not given back. */
    method NewEntry(reply: Reply, vtype: nat, failed: int) returns (err: int, n: Node?)
      requires Valid()
      modifies this`info, this`vnodes, this`books, head, head.repr
      ensures Valid() && fresh(head.repr - old(head.repr))
      ensures State() == NewEntryStep(old(State()), reply, vtype, failed)
      ensures if reply.Failed? then err == reply.err
              else if reply.feo.vtype != vtype || reply.feo.nodeid <= 1 then err == 22
              else EntryError(err, old(vnodes), reply.feo, failed)
      ensures err == 0 ==> reply.Entry? && n != null && n in info && n.nodeid == reply.feo.nodeid
                           && info[n].nlookup == Held(old(State()), reply.feo.nodeid) + 1
    {
      if reply.Failed? {
        return reply.err, null;
      }
      Receive(reply.feo.nodeid);
      if !CheckEntry(reply.feo, vtype) {
        return EINVAL, null;
      }
      err, n := Take(reply.feo, failed);
    }

    /** fuse_vnop_create; byMknod: the daemon has no CREATE. The vnode is not told of the lookup. If there is no
        vnode, a FORGET follows, after CREATE only when the RELEASE has been answered. */
    method Create(reply: Reply, byMknod: bool, failed: int) returns (err: int, n: Node?)
      requires Valid()
      modifies this`info, this`vnodes, this`books, head, head.repr
      ensures Valid() && fresh(head.repr - old(head.repr))
      ensures State() == CreateStep(old(State()), reply, byMknod, failed)
      ensures if old(dead) then err == 6 else if reply.Failed? then err == reply.err
              else if reply.feo.vtype != 1 || reply.feo.nodeid <= 1 then err == 22
              else EntryError(err, old(vnodes), reply.feo, failed)
      ensures err == 0 ==> reply.Entry? && n != null && n in info && n.nodeid == reply.feo.nodeid
                           && info[n].nlookup == Held(old(State()), reply.feo.nodeid)
    {
      if dead {
        return ENXIO, null;
      }
      if reply.Failed? {
        return reply.err, null;
      }
      var feo := reply.feo;
      Receive(feo.nodeid);
      if !CheckEntry(feo, VREG) {
        return EINVAL, null;
      }
      err, n := GetOrCreate(feo, failed);
      if err != 0 {
        if byMknod {
          ForgetSend(feo.nodeid, 1);
        } else {
          books := books.(pending := Plus(books.pending, feo.nodeid, 1));
        }
      }
    }

    /** fuse_internal_forget_callback: the RELEASE of a failed create has been answered. */
    method ForgetCallback(id: nat)
      requires Valid() && N(books.pending, id) > 0
      modifies this`books
      ensures Valid() && State() == CallbackStep(old(State()), id)
    {
      books := books.(pending := Less(books.pending, id));
      ForgetSend(id, 1);
    }

    /** fuse_vnop_link. The vnode takes the lookup that the daemon grants, whatever node the answer names. */
    method Link(vp: Node, reply: Reply) returns (err: int)
      requires Valid() && vp in info
      modifies this`info, this`vnodes, this`books
      ensures Valid() && vp.nodeid in old(vnodes) && State() == LinkStep(old(State()), vp.nodeid, reply)
      ensures if dead then err == 6 else if reply.Failed? then err == reply.err
              else err == if reply.feo.vtype != old(info)[vp].vtype || reply.feo.nodeid <= 1 then 22 else 0
    {
      if dead {
        return ENXIO;
      }
      if reply.Failed? {
        return reply.err;
      }
      Receive(reply.feo.nodeid);
      if !CheckEntry(reply.feo, info[vp].vtype) {
        return EINVAL;
      }
      Increment(vp);
      err := 0;
    }

    /** fuse_vnop_reclaim: the vnode gives back all it holds, unless the session is dead, and leaves the index. */
    method Reclaim(n: Node)
      requires Valid() && n in info
      modifies this`info, this`vnodes, this`books, head, head.repr
      ensures Valid() && n.nodeid in old(vnodes) && State() == ReclaimStep(old(State()), n.nodeid)
      ensures info == old(info) - {n} && head.repr == old(head.repr) - {n}
    {
      if info[n].nlookup > 0 {
        ForgetSend(n.nodeid, info[n].nlookup);
      }
      Remove(n);
    }

    method Perform(op: Op)
      requires Valid() && Can(State(), op)
      modifies this`info, this`vnodes, this`books, this`dead, head, head.repr
      ensures Valid() && fresh(head.repr - old(head.repr)) && State() == Step(old(State()), op)
      ensures op.Die? ==> dead && books == old(books) && info == old(info)
    {
      match op {
        case Die => dead := true;
        case Abandon(id) => Receive(id);
        case Lookup(reply, failed) => var _, _ := Lookup(reply, failed);
        case NewEntry(reply, vtype, failed) => var _, _ := NewEntry(reply, vtype, failed);
        case Create(reply, byMknod, failed) => var _, _ := Create(reply, byMknod, failed);
        case ForgetCallback(id) => ForgetCallback(id);
        case Link(id, reply) =>
          var n := Find(id);
          var _ := Link(n, reply);
        case Reclaim(id) =>
          var n := Find(id);
          Reclaim(n);
      }
    }

    /** Any run of these operations, on vnodes named by nodeid. If all answers to LINK name the linked node, then for
        every nodeid what is given back, to be given back and held never exceeds what was granted. */
    method Run(ops: seq<Op>)
      requires Valid() && Possible(State(), ops)
      modifies this`info, this`vnodes, this`books, this`dead, head, head.repr
      ensures Valid() && State() == Steps(old(State()), ops)
      ensures old(Fair(State())) && (forall op | op in ops :: Rightly(op)) ==> Fair(State())
    {
      assert ops[0..] == ops;
      for k := 0 to |ops|
        invariant Valid() && fresh(head.repr - old(head.repr)) && Possible(State(), ops[k..])
        invariant Steps(State(), ops[k..]) == Steps(old(State()), ops)
      {
        assert ops[k..][0] == ops[k] && ops[k..][1..] == ops[k + 1..];
        Perform(ops[k]);
      }
      if old(Fair(State())) && forall op | op in ops :: Rightly(op) {
        StepsFair(old(State()), ops);
      }
    }
  }
}
