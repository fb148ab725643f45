/** A reply that comes too early, and only such a reply, can have a ticket dropped while its message is unread. */
module TicketEarly {
  import opened Lists
  import opened Threads
  import opened TicketProtocol
  import opened TicketSafety
  import opened TicketTheorems

  /** The message of t is still on ms_head or with a reader. */
  ghost predicate Unread(s: State, t: nat) {
    t in s.ms || exists r | 0 <= r < |s.threads| :: s.threads[r] == Reading(t)
  }

  /** Some run drops the ticket while its message is unread. */
  ghost predicate DropsUnread(s: State, t: nat) {
    exists trace, s' :: Runs(s, trace, s') && t < |s'.tickets| && !s'.tickets[t].pool.Out? && Unread(s', t)
  }

  lemma Before(s: State, u: nat, step: Step, t: nat)
    requires Can(s, u, step) && !step.WriteFind? && DropsUnread(Do(s, u, step), t)
    ensures DropsUnread(s, t)
  {
    var trace, s' :|
      Runs(Do(s, u, step), trace, s') && t < |s'.tickets| && !s'.tickets[t].pool.Out? && Unread(s', t);
    var longer := [Event(u, step)] + trace;
    assert longer[1..] == trace;
    assert Runs(s, longer, s');
  }

  /** t is in use, and unread. */
  ghost predicate Loose(s: State, t: nat) {
    && t < |s.tickets| && s.tickets[t].pool.Out? && (forall x | x in s.free :: x < |s.tickets| && x != t)
    && Unread(s, t)
  }

  /** Only v may have aw_mtx of t. */
  predicate Locker(s: State, t: nat, v: nat) {
    forall w | 0 <= w < |s.threads| && w != v :: s.threads[w] != Set(t) && s.threads[w] != IntrSend(t)
  }

  ghost predicate On(s: State, v: nat, p: Pc) {
    v < |s.threads| && s.threads[v] == p
  }

  /** Steps of threads that are not reading t leave it unread. */
  lemma StaysUnread(s: State, s': State, t: nat, u: nat)
    requires Unread(s, t) && |s'.threads| == |s.threads| && u < |s.threads| && s.threads[u] != Reading(t)
    requires t in s.ms ==> t in s'.ms
    requires forall w | 0 <= w < |s.threads| && w != u && s.threads[w] == Reading(t) :: s'.threads[w] == Reading(t)
    ensures Unread(s', t)
  {
    if t !in s.ms {
      var r :| 0 <= r < |s.threads| && s.threads[r] == Reading(t);
      assert s'.threads[r] == Reading(t);
    }
  }

  lemma AtDrop(s: State, v: nat, t: nat)
    requires Loose(s, t) && (On(s, v, Done(t)) || On(s, v, LateDrop(t)))
    ensures DropsUnread(s, t)
  {
    assert s.free != [] ==> s.free[0] in s.free;
    var s' := Do(s, v, Drop(true));
    StaysUnread(s, s', t, v);
    assert Runs(s', [], s');
    Before(s, v, Drop(true), t);
  }

  // ----- the requester of an answered ticket goes on to drop it

  lemma AtWoken(s: State, v: nat, t: nat)
    requires Loose(s, t) && On(s, v, Woken(t)) && s.tickets[t].answered
    ensures DropsUnread(s, t)
  {
    assert s.free != [] ==> s.free[0] in s.free;
    var s' := Do(s, v, AfterWait);
    StaysUnread(s, s', t, v);
    AtDrop(s', v, t);
    Before(s, v, AfterWait, t);
  }

  lemma AtInterrupted(s: State, v: nat, t: nat)
    requires Loose(s, t) && On(s, v, Interrupted(t)) && s.tickets[t].answered && Locker(s, t, v)
    ensures DropsUnread(s, t)
  {
    assert s.free != [] ==> s.free[0] in s.free;
    var s' := Do(s, v, TestAndSet);
    StaysUnread(s, s', t, v);
    AtDrop(s', v, t);
    Before(s, v, TestAndSet, t);
  }

  lemma AtMsgIn(s: State, v: nat, t: nat)
    requires Loose(s, t) && On(s, v, MsgIn(t)) && s.tickets[t].answered && Locker(s, t, v)
    ensures DropsUnread(s, t)
  {
    assert s.free != [] ==> s.free[0] in s.free;
    var s' := Do(s, v, WaitCheck);
    StaysUnread(s, s', t, v);
    AtWoken(s', v, t);
    Before(s, v, WaitCheck, t);
  }

  lemma AtSignalled(s: State, v: nat, t: nat)
    requires Loose(s, t) && On(s, v, Signalled(t)) && s.tickets[t].answered && Locker(s, t, v)
    ensures DropsUnread(s, t)
  {
    assert s.free != [] ==> s.free[0] in s.free;
    var s' := Do(s, v, Relock);
    StaysUnread(s, s', t, v);
    AtWoken(s', v, t);
    Before(s, v, Relock, t);
  }

  /** Sending an INTERRUPT leaves a ticket in use as it is. */
  lemma InterruptLoose(s: State, v: nat, t: nat)
    requires Loose(s, t) && On(s, v, IntrSend(t)) && Locker(s, t, v)
    ensures Can(s, v, Interrupt)
    ensures var s' := Do(s, v, Interrupt);
      && Loose(s', t) && s'.tickets[t] == s.tickets[t] && Locker(s', t, v)
      && s'.threads == s.threads[v := Interrupted(t)]
  {
    assert s.free != [] ==> s.free[0] in s.free;
    var s' := Do(s, v, Interrupt);
    assert forall x | x in s'.free :: x in s.free;
    StaysUnread(s, s', t, v);
  }

  lemma AtIntrSend(s: State, v: nat, t: nat)
    requires Loose(s, t) && On(s, v, IntrSend(t)) && s.tickets[t].answered && Locker(s, t, v)
    ensures DropsUnread(s, t)
  {
    InterruptLoose(s, v, t);
    AtInterrupted(Do(s, v, Interrupt), v, t);
    Before(s, v, Interrupt, t);
  }

  lemma AtCaught(s: State, v: nat, t: nat)
    requires Loose(s, t) && On(s, v, Caught(t)) && s.tickets[t].answered && Locker(s, t, v)
    ensures DropsUnread(s, t)
  {
    assert s.free != [] ==> s.free[0] in s.free;
    var s' := Do(s, v, Catch);
    StaysUnread(s, s', t, v);
    AtIntrSend(s', v, t);
    Before(s, v, Catch, t);
  }

  predicate AnsweredPc(p: Pc, t: nat) {
    p == MsgIn(t) || p == Signalled(t) || p == Caught(t) || p == Interrupted(t)
  }

  lemma AtAnswered(s: State, v: nat, t: nat)
    requires Loose(s, t) && v < |s.threads| && AnsweredPc(s.threads[v], t) && s.tickets[t].answered && Locker(s, t, v)
    ensures DropsUnread(s, t)
  {
    match s.threads[v] {
      case MsgIn(_) => AtMsgIn(s, v, t);
      case Signalled(_) => AtSignalled(s, v, t);
      case Caught(_) => AtCaught(s, v, t);
      case Interrupted(_) => AtInterrupted(s, v, t);
    }
  }

  // ----- the writer

  lemma AtSet(s: State, u: nat, v: nat, t: nat)
    requires Loose(s, t) && On(s, u, Set(t)) && v < |s.threads| && AnsweredPc(s.threads[v], t)
    requires s.tickets[t].answered && Locker(s, t, u)
    ensures DropsUnread(s, t)
  {
    assert s.free != [] ==> s.free[0] in s.free;
    var s' := Do(s, u, Unlock);
    StaysUnread(s, s', t, u);
    AtAnswered(s', v, t);
    Before(s, u, Unlock, t);
  }

  /** The callback's caller at work on a ticket that v waits for; nobody has its lock. */
  lemma AtFound(s: State, u: nat, v: nat, t: nat)
    requires Loose(s, t) && On(s, u, Found(t)) && v < |s.threads| && Locker(s, t, u)
    requires s.tickets[t].callback.Standard? && !s.tickets[t].answered
    requires AnsweredPc(s.threads[v], t) || s.threads[v] == Asleep(t)
    ensures DropsUnread(s, t)
  {
    assert s.free != [] ==> s.free[0] in s.free;
    var s' := Do(s, u, Call);
    StaysUnread(s, s', t, u);
    AtSet(s', u, v, t);
    Before(s, u, Call, t);
  }

  lemma AtFoundIntr(s: State, u: nat, v: nat, t: nat)
    requires Loose(s, t) && On(s, u, Found(t)) && On(s, v, IntrSend(t)) && Locker(s, t, v)
    requires s.tickets[t].callback.Standard? && !s.tickets[t].answered
    ensures DropsUnread(s, t)
  {
    InterruptLoose(s, v, t);
    AtFound(Do(s, v, Interrupt), u, v, t);
    Before(s, v, Interrupt, t);
  }

  /** Nobody waits for the ticket: the callback drops it. */
  lemma AtFoundAlone(s: State, u: nat, t: nat)
    requires Loose(s, t) && On(s, u, Found(t)) && Locker(s, t, u)
    requires s.tickets[t].callback.Init? || (s.tickets[t].callback.Standard? && s.tickets[t].answered)
    ensures DropsUnread(s, t)
  {
    assert s.free != [] ==> s.free[0] in s.free;
    var s' := Do(s, u, Call);
    StaysUnread(s, s', t, u);
    AtDrop(s', u, t);
    Before(s, u, Call, t);
  }

  // ----- the ticket that such a reply finds

  /** After the reply, of a ticket whose message has been sent. */
  lemma TakenSent(s: State, u: nat, t: nat)
    requires Inv(s) && u < |s.threads| && s.threads[u].Idle? && t in s.aw && t < |s.tickets| && Early(s.tickets[t])
    requires !s.tickets[t].msg.NotSent?
    ensures DropsUnread(Take(s, u, t), t)
  {
    var k, s' := s.tickets[t], Take(s, u, t);
    assert Good(s, t);
    assert k.awaiting && Sent(s, t, k);
    assert Unread(s, t) by {
      if k.msg.BeingRead? {
        assert s.threads[k.msg.reader] == Reading(t);
      }
    }
    StaysUnread(s, s', t, u);
    forall w | 0 <= w < |s.threads| && (s.threads[w] == Set(t) || s.threads[w] == IntrSend(t))
      ensures k.req == Some(w) && s.threads[w] == IntrSend(t)
    {
      assert Tied(s, w);
    }
    if k.callback.Init? || k.answered {
      AtFoundAlone(s', u, t);
    } else if s.threads[k.req.value] == IntrSend(t) {
      AtFoundIntr(s', u, k.req.value, t);
    } else {
      AtFound(s', u, k.req.value, t);
    }
  }

  /** After the reply, of a ticket whose message has not been sent. */
  lemma TakenUnsent(s: State, u: nat, t: nat)
    requires Inv(s) && u < |s.threads| && s.threads[u].Idle? && t in s.aw && t < |s.tickets| && Early(s.tickets[t])
    requires s.tickets[t].msg.NotSent?
    ensures DropsUnread(Take(s, u, t), t)
  {
    assert Good(s, t);
    var v, s1 := s.tickets[t].req.value, Take(s, u, t);
    assert s.threads[v] == CbIn(t);
    assert s.free != [] ==> s.free[0] in s.free;
    var s2 := Do(s1, v, InsertMessage);
    assert s2.ms == s.ms + [t];
    forall w | 0 <= w < |s.threads|
      ensures s.threads[w] != Set(t) && s.threads[w] != IntrSend(t)
    {
      assert Tied(s, w);
    }
    if s.tickets[t].callback.Init? {
      AtFoundAlone(s2, u, t);
    } else {
      AtFound(s2, u, v, t);
    }
    Before(s1, v, InsertMessage, t);
  }

  lemma NotDroppedUnread(s: State, t: nat)
    requires Inv(s) && t < |s.tickets| && !s.tickets[t].pool.Out?
    ensures !Unread(s, t)
  {
    assert Good(s, t);
    forall r | 0 <= r < |s.threads|
      ensures s.threads[r] != Reading(t)
    {
      assert Tied(s, r);
    }
  }

  lemma HonestNeverDrops(s: State, t: nat)
    requires Inv(s)
    ensures !DropsUnread(s, t)
  {
    if DropsUnread(s, t) {
      var trace, s' :| Runs(s, trace, s') && t < |s'.tickets| && !s'.tickets[t].pool.Out? && Unread(s', t);
      RunsKeep(s, trace, s');
      NotDroppedUnread(s', t);
    }
  }

  /** A reply may be followed by a run that drops its ticket while the message is still in ms_head or with a reader
      if and only if it comes before the message has been read (or lost), and is not one that a FORGET waits for. */
  lemma HonestyIsExact(s: State, start: State, trace: seq<Event<Step>>, u: nat, number: nat)
    requires Reachable(s, start, trace) && Can(s, u, WriteFind(number)) && WithNumber(s, s.aw, number).Some?
    ensures DropsUnread(Do(s, u, WriteFind(number)), WithNumber(s, s.aw, number).value)
        <==> !Honest(s, WriteFind(number))
  {
    ReachableInv(s, start, trace);
    var t := WithNumber(s, s.aw, number).value;
    if Honest(s, WriteFind(number)) {
      Preserved(s, u, WriteFind(number));
      HonestNeverDrops(Do(s, u, WriteFind(number)), t);
    } else if s.tickets[t].msg.NotSent? {
      TakenUnsent(s, u, t);
    } else {
      TakenSent(s, u, t);
    }
  }

  /** Such a reply is possible. */
  lemma AnswerBeforeReading(s0: State) returns (s: State, trace: seq<Event<Step>>)
    requires Start(s0) && s0.threads == [Idle, Idle]
    ensures Reachable(s, s0, trace) && Can(s, 1, WriteFind(0)) && WithNumber(s, s.aw, 0) == Some(0)
    ensures DropsUnread(Do(s, 1, WriteFind(0)), 0)
  {
    var e1, e2 := Event(0, Fetch), Event(0, InsertCallback(Standard));
    var s1 := Do(s0, 0, Fetch);
    s := Do(s1, 0, InsertCallback(Standard));
    trace := [e1, e2];
    assert trace[1..] == [e2] && [e2][1..] == [];
    assert Runs(s1, [e2], s);
    assert s.aw == [0] && s.tickets[0].unique == 0 && Early(s.tickets[0]);
    HonestyIsExact(s, s0, trace, 1, 0);
  }
}
