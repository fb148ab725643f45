/** What every run of the ticket protocol keeps while the session is live and the daemon is honest. */
module TicketSafety {
  import opened Lists
  import opened TicketProtocol

  predicate Clean(k: Ticket) {
    !k.answered && !k.invalid && !k.dirty && k.msg.NotSent? && k.names.None?
  }

  ghost predicate ThreadAt(s: State, who: Option<nat>, p: Pc) {
    who.Some? && who.value < |s.threads| && s.threads[who.value] == p
  }

  /** Nobody has the ticket. */
  predicate InPool(k: Ticket) {
    !k.pool.Out? && k.fetches == k.drops && Clean(k) && k.head == 0 && !k.awaiting && k.req.None? && k.wr.None?
  }

  /** In the hands of the requester alone. */
  ghost predicate Private(s: State, t: nat, k: Ticket) {
    Clean(k) && !k.awaiting && k.wr.None? && ThreadAt(s, k.req, Fresh(t))
  }

  /** On aw_head, the message not yet sent, or answered already where that does no harm. */
  ghost predicate Announced(s: State, t: nat, k: Ticket) {
    && Clean(k) && ThreadAt(s, k.req, CbIn(t))
    && if k.awaiting then k.wr.None?
       else k.callback.Forget? && (k.wr.Some? ==> ThreadAt(s, k.wr, Found(t)))
  }

  /** Wants no reply: its message and the duty to drop it go to the reader. */
  ghost predicate OneWay(s: State, t: nat, k: Ticket) {
    k.invalid && k.dirty && !k.awaiting && k.req.None? && k.wr.None?
    && (k.msg.Queued? || (k.msg.BeingRead? && k.msg.reader < |s.threads|
                          && (s.threads[k.msg.reader] == Reading(t) || s.threads[k.msg.reader] == ReadDrop(t))))
  }

  /** The message has been sent and a reply is wanted. */
  ghost predicate Sent(s: State, t: nat, k: Ticket) {
    && !k.invalid && k.dirty && !k.msg.NotSent? && k.names.None?
    && (k.msg.BeingRead? ==> k.msg.reader < |s.threads| && s.threads[k.msg.reader] == Reading(t))
    && (k.awaiting ==> k.wr.None?) && (!k.awaiting ==> !Early(k))
  }

  /** A requester waits for the reply, or has given up: then, and only then, is the ticket left to the writer. */
  ghost predicate Waited(s: State, t: nat, k: Ticket) {
    && (k.req.Some? ==> k.req.value < |s.threads| && Waits(s.threads[k.req.value], t, k))
    && (k.wr.Some? ==> k.wr.value < |s.threads|)
    && if k.awaiting then k.answered <==> k.req.None?
       else if k.wr.None? then k.answered && k.req.Some?
       else if s.threads[k.wr.value] == Found(t) then k.answered <==> k.req.None?
       else if s.threads[k.wr.value] == Set(t) then k.answered && k.req.Some? && !s.threads[k.req.value].IntrSend?
       else s.threads[k.wr.value] == LateDrop(t) && k.answered && k.req.None?
  }

  /** The requester at p of a sent ticket; with the lock taken again, the writer is through with the ticket. */
  predicate Waits(p: Pc, t: nat, k: Ticket) {
    || p == MsgIn(t) || p == Caught(t) || p == IntrSend(t) || p == Interrupted(t)
    || (p == Asleep(t) && !k.answered)
    || (p == Signalled(t) && k.answered)
    || (p == Woken(t) && k.answered && k.wr.None?)
    || (p == Done(t) && k.answered && k.wr.None?)
  }

  /** Nobody waits: the callback will drop the ticket, or (fuse_internal_forget_callback) has left it for good. */
  ghost predicate Unwaited(s: State, t: nat, k: Ticket) {
    && k.req.None? && !k.answered
    && (!k.awaiting && k.wr.None? ==> k.callback.Forget?)
    && (k.wr.Some? ==>
      k.wr.value < |s.threads|
      && (s.threads[k.wr.value] == Found(t) || (s.threads[k.wr.value] == LateDrop(t) && k.callback.Init?)))
  }

  ghost predicate Good(s: State, t: nat)
    requires t < |s.tickets|
  {
    var k := s.tickets[t];
    if !k.pool.Out? then InPool(k)
    else k.fetches == k.drops + 1 && k.head == k.unique
         && (Private(s, t, k) || Announced(s, t, k) || OneWay(s, t, k)
             || (Sent(s, t, k) && if k.callback.Standard? then Waited(s, t, k) else Unwaited(s, t, k)))
  }

  /** A thread's pc and the ticket it names agree. */
  ghost predicate Tied(s: State, u: nat)
    requires u < |s.threads|
  {
    var p := s.threads[u];
    p.Idle? || (p.t < |s.tickets| && Holds(u, p, s.tickets[p.t]))
  }

  predicate Holds(u: nat, p: Pc, k: Ticket) {
    k.pool.Out? && (Requester(p) ==> k.req == Some(u)) && (Reader(p) ==> k.msg == BeingRead(u))
    && (Writer(p) ==> k.wr == Some(u))
  }

  /** The lists hold the tickets that say so, each once; numbers are distinct; ms_head is a queue. */
  ghost predicate Linked(s: State) {
    && NoDup(s.free) && NoDup(s.ms) && NoDup(s.aw)
    && (forall t: nat :: t in s.free <==> t < |s.tickets| && s.tickets[t].pool.Free?)
    && (forall t: nat :: t in s.ms <==> t < |s.tickets| && s.tickets[t].msg.Queued?)
    && (forall t: nat :: t in s.aw <==> t < |s.tickets| && s.tickets[t].awaiting)
    && s.ticketer == |s.tickets| && (forall t | 0 <= t < |s.tickets| :: s.tickets[t].unique == t)
    && s.sent == s.got + s.ms
  }

  ghost predicate Inv(s: State) {
    Linked(s) && (forall t | 0 <= t < |s.tickets| :: Good(s, t)) && (forall u | 0 <= u < |s.threads| :: Tied(s, u))
  }

  predicate Start(s: State) {
    s.tickets == [] && s.free == [] && s.ms == [] && s.aw == [] && s.ticketer == 0 && s.sent == [] && s.got == []
    && s.told == []
    && forall v | 0 <= v < |s.threads| :: s.threads[v].Idle?
  }

  lemma StartInv(s: State)
    requires Start(s)
    ensures Inv(s)
  {
    assert Linked(s);
    forall u | 0 <= u < |s.threads|
      ensures Tied(s, u)
    {
    }
  }

  // ----- a step touches one ticket and the threads that name it

  predicate Names(p: Pc, t: nat) {
    !p.Idle? && p.t == t
  }

  lemma Others(s: State, s': State, x: nat)
    requires x < |s.tickets| && x < |s'.tickets| && s'.tickets[x] == s.tickets[x] && Good(s, x)
    requires |s'.threads| == |s.threads|
    requires forall v | 0 <= v < |s.threads| && Names(s.threads[v], x) :: s'.threads[v] == s.threads[v]
    ensures Good(s', x)
  {
  }

  /** s' differs from s in ticket t, in thread u, which named t or nothing, and in waking who slept on t. */
  ghost predicate Touches(s: State, s': State, t: nat, u: nat) {
    && t < |s'.tickets| && (|s'.tickets| == |s.tickets| || (t == |s.tickets| && |s'.tickets| == t + 1))
    && (forall x | 0 <= x < |s.tickets| && x != t :: s'.tickets[x] == s.tickets[x])
    && |s'.threads| == |s.threads| && u < |s.threads|
    && (s'.threads[u] == s.threads[u]
        || ((s.threads[u].Idle? || s.threads[u].t == t) && (s'.threads[u].Idle? || s'.threads[u].t == t)))
    && (forall v | 0 <= v < |s.threads| && v != u ::
      s'.threads[v] == s.threads[v] || (s.threads[v] == Asleep(t) && s'.threads[v] == Signalled(t)))
  }

  /** The other parties keep their part in the ticket. */
  predicate Leaves(k: Ticket, k': Ticket, u: nat) {
    && (k.req.None? || k.req.value == u || k'.req == k.req)
    && (k.wr.None? || k.wr.value == u || k'.wr == k.wr)
    && (!k.msg.BeingRead? || k.msg.reader == u || k'.msg == k.msg)
    && (k'.pool.Out? || ((k.req.None? || k.req.value == u) && (k.wr.None? || k.wr.value == u)
                         && (!k.msg.BeingRead? || k.msg.reader == u)))
  }

  lemma Local(s: State, s': State, t: nat, u: nat)
    requires Inv(s) && Touches(s, s', t, u) && Linked(s') && Good(s', t) && Tied(s', u)
    requires t < |s.tickets| ==> Leaves(s.tickets[t], s'.tickets[t], u)
    ensures Inv(s')
  {
    forall x | 0 <= x < |s'.tickets|
      ensures Good(s', x)
    {
      if x != t {
        Others(s, s', x);
      }
    }
    forall v | 0 <= v < |s'.threads|
      ensures Tied(s', v)
    {
      assert Tied(s, v);
    }
  }

  // ----- one lemma a step

  lemma StepFetch(s: State, u: nat)
    requires Inv(s) && Can(s, u, Fetch)
    ensures Inv(Do(s, u, Fetch))
  {
    var t, s' := Fetched(s), Do(s, u, Fetch);
    if s.free != [] { Shifted(s.free); }
    if s.free != [] { assert s.free[0] in s.free && Good(s, t); }
    assert s'.threads[u] == Fresh(t);
    Local(s, s', t, u);
  }

  lemma StepInsertCallback(s: State, u: nat, cb: Callback)
    requires Inv(s) && Can(s, u, InsertCallback(cb))
    ensures Inv(Do(s, u, InsertCallback(cb)))
  {
    var t, s' := s.threads[u].t, Do(s, u, InsertCallback(cb));
    assert Tied(s, u) && Good(s, t);
    Appended(s.aw, t);
    Local(s, s', t, u);
  }

  lemma StepInsertMessage(s: State, u: nat)
    requires Inv(s) && Can(s, u, InsertMessage)
    ensures Inv(Do(s, u, InsertMessage))
  {
    var t, s' := s.threads[u].t, Do(s, u, InsertMessage);
    assert Tied(s, u) && Good(s, t);
    Appended(s.ms, t);
    Local(s, s', t, u);
  }

  lemma StepSendOneWay(s: State, u: nat)
    requires Inv(s) && Can(s, u, SendOneWay)
    ensures Inv(Do(s, u, SendOneWay))
  {
    var t, s' := s.threads[u].t, Do(s, u, SendOneWay);
    assert Tied(s, u) && Good(s, t);
    Appended(s.ms, t);
    Local(s, s', t, u);
  }

  lemma StepWaitCheck(s: State, u: nat)
    requires Inv(s) && Can(s, u, WaitCheck)
    ensures Inv(Do(s, u, WaitCheck))
  {
    var t, s' := s.threads[u].t, Do(s, u, WaitCheck);
    assert Tied(s, u) && Good(s, t);
    Local(s, s', t, u);
  }

  lemma StepSignal(s: State, u: nat)
    requires Inv(s) && Can(s, u, Signal)
    ensures Inv(Do(s, u, Signal))
  {
    var t, s' := s.threads[u].t, Do(s, u, Signal);
    assert Tied(s, u) && Good(s, t);
    Local(s, s', t, u);
  }

  lemma StepCatch(s: State, u: nat)
    requires Inv(s) && Can(s, u, Catch)
    ensures Inv(Do(s, u, Catch))
  {
    var t, s' := s.threads[u].t, Do(s, u, Catch);
    assert Tied(s, u) && Good(s, t);
    Local(s, s', t, u);
  }

  lemma InterruptLinks(s: State, u: nat)
    requires Inv(s) && Can(s, u, Interrupt)
    ensures Linked(DoInterrupt(s, s.threads[u].t))
    ensures Fetched(s) < |s.tickets| ==> InPool(s.tickets[Fetched(s)])
  {
    if s.free != [] {
      Shifted(s.free);
      assert s.free[0] in s.free && Good(s, Fetched(s));
    }
    Appended(s.ms, Fetched(s));
  }

  lemma InterruptSent(s: State, u: nat)
    requires Inv(s) && Can(s, u, Interrupt)
    ensures var s1 := DoInterrupt(s, s.threads[u].t);
      Inv(s1) && s1.threads == s.threads && s1.tickets[s.threads[u].t] == s.tickets[s.threads[u].t]
  {
    var t, t', s1 := s.threads[u].t, Fetched(s), DoInterrupt(s, s.threads[u].t);
    assert Tied(s, u) && Good(s, t);
    InterruptLinks(s, u);
    assert Tied(s1, u);
    Local(s, s1, t', u);
  }

  lemma StepInterrupt(s: State, u: nat)
    requires Inv(s) && Can(s, u, Interrupt)
    ensures Inv(Do(s, u, Interrupt))
  {
    InterruptSent(s, u);
    var t, s1 := s.threads[u].t, DoInterrupt(s, s.threads[u].t);
    assert Tied(s1, u) && Good(s1, t);
    Local(s1, At(s1, u, Interrupted(t)), t, u);
  }

  lemma StepRelock(s: State, u: nat)
    requires Inv(s) && Can(s, u, Relock)
    ensures Inv(Do(s, u, Relock))
  {
    var t, s' := s.threads[u].t, Do(s, u, Relock);
    assert Tied(s, u) && Good(s, t);
    Local(s, s', t, u);
  }

  lemma StepAfterWait(s: State, u: nat)
    requires Inv(s) && Can(s, u, AfterWait)
    ensures Inv(Do(s, u, AfterWait))
  {
    var t, s' := s.threads[u].t, Do(s, u, AfterWait);
    assert Tied(s, u) && Good(s, t);
    Local(s, s', t, u);
  }

  lemma StepTestAndSet(s: State, u: nat)
    requires Inv(s) && Can(s, u, TestAndSet)
    ensures Inv(Do(s, u, TestAndSet))
  {
    var t, s' := s.threads[u].t, Do(s, u, TestAndSet);
    assert Tied(s, u) && Good(s, t);
    Local(s, s', t, u);
  }

  lemma StepDrop(s: State, u: nat, keep: bool)
    requires Inv(s) && Can(s, u, Drop(keep))
    ensures Inv(Do(s, u, Drop(keep)))
  {
    var t, s' := s.threads[u].t, Do(s, u, Drop(keep));
    assert Tied(s, u) && Good(s, t);
    Appended(s.free, t);
    Local(s, s', t, u);
  }

  lemma StepRemake(s: State, u: nat)
    requires Inv(s) && Can(s, u, Remake)
    ensures Inv(Do(s, u, Remake))
  {
    var t, s' := s.threads[u].t, Do(s, u, Remake);
    assert Tied(s, u) && Good(s, t);
    Local(s, s', t, u);
  }

  /** A ticket on ms_head. */
  lemma QueuedIs(s: State, t: nat)
    requires t < |s.tickets| && s.tickets[t].msg.Queued? && Good(s, t)
    ensures var k := s.tickets[t];
      k.pool.Out? && k.fetches == k.drops + 1 && k.head == k.unique
      && (OneWay(s, t, k) || (Sent(s, t, k) && if k.callback.Standard? then Waited(s, t, k) else Unwaited(s, t, k)))
  {
  }

  lemma ReadPopLinks(s: State, u: nat)
    requires Inv(s) && Can(s, u, ReadPop)
    ensures Linked(Do(s, u, ReadPop))
  {
    assert s.ms[0] in s.ms;
    Shifted(s.ms);
  }

  lemma StepReadPop(s: State, u: nat)
    requires Inv(s) && Can(s, u, ReadPop)
    ensures Inv(Do(s, u, ReadPop))
  {
    var t, s' := s.ms[0], Do(s, u, ReadPop);
    assert t in s.ms && Good(s, t);
    QueuedIs(s, t);
    ReadPopLinks(s, u);
    Local(s, s', t, u);
  }

  lemma ReadEndInvalid(s: State, u: nat, ok: bool)
    requires Inv(s) && Can(s, u, ReadEnd(ok)) && s.tickets[s.threads[u].t].invalid
    ensures Inv(Do(s, u, ReadEnd(ok)))
  {
    var t, s' := s.threads[u].t, Do(s, u, ReadEnd(ok));
    assert Tied(s, u) && Good(s, t);
    Local(s, s', t, u);
  }

  lemma StepReadEnd(s: State, u: nat, ok: bool)
    requires Inv(s) && Can(s, u, ReadEnd(ok))
    ensures Inv(Do(s, u, ReadEnd(ok)))
  {
    var t, s' := s.threads[u].t, Do(s, u, ReadEnd(ok));
    if s.tickets[t].invalid {
      ReadEndInvalid(s, u, ok);
    } else {
      assert Tied(s, u) && Good(s, t);
      Local(s, s', t, u);
    }
  }

  lemma TakeKeeps(s: State, u: nat, t: nat)
    requires Inv(s) && u < |s.threads| && s.threads[u].Idle? && t in s.aw && t < |s.tickets| && !Early(s.tickets[t])
    ensures Inv(Take(s, u, t))
  {
    var s' := Take(s, u, t);
    assert Good(s, t);
    MinusOne(s.aw, t);
    Local(s, s', t, u);
  }

  lemma StepWriteFind(s: State, u: nat, number: nat)
    requires Inv(s) && Can(s, u, WriteFind(number)) && Honest(s, WriteFind(number))
    ensures Inv(Do(s, u, WriteFind(number)))
  {
    var t := WithNumber(s, s.aw, number);
    if t.Some? {
      TakeKeeps(s, u, t.value);
    }
  }

  lemma CallAnswers(s: State, u: nat)
    requires Inv(s) && Can(s, u, Call)
    requires s.tickets[s.threads[u].t].callback.Standard? && !s.tickets[s.threads[u].t].answered
    ensures Inv(Do(s, u, Call))
  {
    var t, s' := s.threads[u].t, Do(s, u, Call);
    assert Tied(s, u) && Good(s, t);
    Local(s, s', t, u);
  }

  lemma CallDrops(s: State, u: nat)
    requires Inv(s) && Can(s, u, Call)
    requires var k := s.tickets[s.threads[u].t]; k.callback.Init? || (k.callback.Standard? && k.answered)
    ensures Inv(Do(s, u, Call))
  {
    var t, s' := s.threads[u].t, Do(s, u, Call);
    assert Tied(s, u) && Good(s, t);
    Local(s, s', t, u);
  }

  lemma CallForgets(s: State, u: nat)
    requires Inv(s) && Can(s, u, Call) && s.tickets[s.threads[u].t].callback.Forget?
    ensures Inv(Do(s, u, Call))
  {
    var t, s' := s.threads[u].t, Do(s, u, Call);
    assert Tied(s, u) && Good(s, t);
    Local(s, s', t, u);
  }

  lemma StepCall(s: State, u: nat)
    requires Inv(s) && Can(s, u, Call)
    ensures Inv(Do(s, u, Call))
  {
    var k := s.tickets[s.threads[u].t];
    if k.callback.Forget? {
      CallForgets(s, u);
    } else if k.callback.Standard? && !k.answered {
      CallAnswers(s, u);
    } else {
      CallDrops(s, u);
    }
  }

  lemma StepUnlock(s: State, u: nat)
    requires Inv(s) && Can(s, u, Unlock)
    ensures Inv(Do(s, u, Unlock))
  {
    var t, s' := s.threads[u].t, Do(s, u, Unlock);
    assert Tied(s, u) && Good(s, t);
    Local(s, s', t, u);
  }

  /** Every step of every thread keeps the invariant. */
  lemma Preserved(s: State, u: nat, step: Step)
    requires Inv(s) && Can(s, u, step) && Honest(s, step)
    ensures Inv(Do(s, u, step))
  {
    match step {
      case Fetch => StepFetch(s, u);
      case InsertCallback(cb) => StepInsertCallback(s, u, cb);
      case InsertMessage => StepInsertMessage(s, u);
      case SendOneWay => StepSendOneWay(s, u);
      case WaitCheck => StepWaitCheck(s, u);
      case Signal => StepSignal(s, u);
      case Catch => StepCatch(s, u);
      case Interrupt => StepInterrupt(s, u);
      case Relock => StepRelock(s, u);
      case AfterWait => StepAfterWait(s, u);
      case TestAndSet => StepTestAndSet(s, u);
      case Drop(keep) => StepDrop(s, u, keep);
      case Remake => StepRemake(s, u);
      case ReadPop => StepReadPop(s, u);
      case ReadEnd(ok) => StepReadEnd(s, u, ok);
      case WriteFind(number) => StepWriteFind(s, u, number);
      case Call => StepCall(s, u);
      case Unlock => StepUnlock(s, u);
    }
  }
}
