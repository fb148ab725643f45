/** The promises of the ticket protocol, over whole runs. */
module TicketTheorems {
  import opened Lists
  import opened Threads
  import opened TicketProtocol
  import opened TicketSafety

  /** s' is what the trace makes of s, every step possible and the daemon honest. */
  ghost predicate Runs(s: State, trace: seq<Event<Step>>, s': State)
    decreases |trace|
  {
    if trace == [] then s' == s
    else var e := trace[0];
      Can(s, e.u, e.step) && Honest(s, e.step) && Runs(Do(s, e.u, e.step), trace[1..], s')
  }

  lemma {:induction false} RunsKeep(s: State, trace: seq<Event<Step>>, s': State)
    requires Inv(s) && Runs(s, trace, s')
    ensures Inv(s')
    decreases |trace|
  {
    if trace != [] {
      Preserved(s, trace[0].u, trace[0].step);
      RunsKeep(Do(s, trace[0].u, trace[0].step), trace[1..], s');
    }
  }

  /** The states of a live session. */
  ghost predicate Reachable(s: State, start: State, trace: seq<Event<Step>>) {
    Start(start) && Runs(start, trace, s)
  }

  lemma ReachableInv(s: State, start: State, trace: seq<Event<Step>>)
    requires Reachable(s, start, trace)
    ensures Inv(s)
  {
    StartInv(start);
    RunsKeep(start, trace, s);
  }

  /** Nobody but u can reach t. */
  ghost predicate Alone(s: State, u: nat, t: nat) {
    && t < |s.tickets| && t !in s.aw && t !in s.ms && t !in s.free
    && forall v | 0 <= v < |s.threads| && v != u :: !Names(s.threads[v], t)
  }

  /** u is to drop t, or is the writer that has found t given up by its requester. */
  predicate Owns(s: State, u: nat, t: nat) {
    u < |s.threads| && t < |s.tickets| && Names(s.threads[u], t)
    && (Dropper(s.threads[u]) || (s.threads[u].Found? && s.tickets[t].callback.Standard? && s.tickets[t].answered))
  }

  lemma OwnerAlone(s: State, u: nat, t: nat)
    requires Inv(s) && Owns(s, u, t)
    ensures Alone(s, u, t) && s.tickets[t].fetches == s.tickets[t].drops + 1
  {
    assert Tied(s, u) && Good(s, t);
    forall v | 0 <= v < |s.threads| && v != u
      ensures !Names(s.threads[v], t)
    {
      assert Tied(s, v);
    }
  }

  /** Who is about to drop a ticket has it alone: it is on no list, and no other thread names it. Since every
      fetch is followed by at most one drop, none is dropped twice. */
  lemma DropsAreSafe(s: State, start: State, trace: seq<Event<Step>>, u: nat)
    requires Reachable(s, start, trace) && u < |s.threads| && Dropper(s.threads[u])
    ensures var t := s.threads[u].t; Alone(s, u, t) && s.tickets[t].fetches == s.tickets[t].drops + 1
  {
    ReachableInv(s, start, trace);
    assert Tied(s, u);
    OwnerAlone(s, u, s.threads[u].t);
  }

  lemma FetchesAndDrops(s: State, start: State, trace: seq<Event<Step>>, t: nat)
    requires Reachable(s, start, trace) && t < |s.tickets|
    ensures s.tickets[t].drops <= s.tickets[t].fetches <= s.tickets[t].drops + 1
    ensures s.tickets[t].fetches == s.tickets[t].drops <==> !s.tickets[t].pool.Out?
  {
    ReachableInv(s, start, trace);
    assert Good(s, t);
  }

  /** Thread w does not name t, which is on no list; or a step later. */
  ghost predicate Apart(s: State, w: nat, t: nat) {
    t < |s.tickets| && t !in s.ms && t !in s.free && t !in s.aw && w < |s.threads| && !Names(s.threads[w], t)
  }

  /** Ticket t and the threads that name it are the same. */
  ghost predicate SameAt(s: State, s': State, t: nat) {
    && t < |s.tickets| <= |s'.tickets| && s'.tickets[t] == s.tickets[t] && |s'.threads| == |s.threads|
    && forall v | 0 <= v < |s.threads| && (Names(s.threads[v], t) || Names(s'.threads[v], t)) ::
      s'.threads[v] == s.threads[v]
  }

  lemma ApartFetch(s: State, w: nat, t: nat)
    requires Apart(s, w, t) && Can(s, w, Fetch)
    ensures SameAt(s, Do(s, w, Fetch), t)
  {
    assert s.free != [] ==> s.free[0] in s.free;
  }

  lemma ApartInterrupt(s: State, w: nat, t: nat)
    requires Apart(s, w, t) && Can(s, w, Interrupt)
    ensures SameAt(s, Do(s, w, Interrupt), t)
  {
    assert s.free != [] ==> s.free[0] in s.free;
  }

  lemma ApartCall(s: State, w: nat, t: nat)
    requires Apart(s, w, t) && Can(s, w, Call)
    ensures SameAt(s, Do(s, w, Call), t)
  {
  }

  lemma ApartOther(s: State, w: nat, step: Step, t: nat)
    requires Apart(s, w, t) && Can(s, w, step) && !step.Fetch? && !step.Interrupt? && !step.Call?
    ensures SameAt(s, Do(s, w, step), t)
  {
    assert s.ms != [] ==> s.ms[0] in s.ms;
  }

  lemma ApartStep(s: State, w: nat, step: Step, t: nat)
    requires Apart(s, w, t) && Can(s, w, step)
    ensures SameAt(s, Do(s, w, step), t)
  {
    match step {
      case Fetch => ApartFetch(s, w, t);
      case Interrupt => ApartInterrupt(s, w, t);
      case Call => ApartCall(s, w, t);
      case _ => ApartOther(s, w, step, t);
    }
  }

  lemma OthersLeaveIt(s: State, u: nat, t: nat, e: Event<Step>)
    requires Owns(s, u, t) && Alone(s, u, t) && e.u != u && Can(s, e.u, e.step)
    ensures var s' := Do(s, e.u, e.step);
      Owns(s', u, t) && s'.tickets[t] == s.tickets[t] && s'.threads[u] == s.threads[u]
  {
    ApartStep(s, e.u, e.step, t);
  }

  /** Nobody else's steps touch a ticket that u is left with. */
  lemma {:induction false} OwnerStays(s: State, trace: seq<Event<Step>>, s': State, u: nat, t: nat)
    requires Inv(s) && Runs(s, trace, s') && Owns(s, u, t) && forall e | e in trace :: e.u != u
    ensures Owns(s', u, t) && s'.tickets[t] == s.tickets[t] && s'.threads[u] == s.threads[u]
    decreases |trace|
  {
    if trace != [] {
      var e := trace[0];
      OwnerAlone(s, u, t);
      OthersLeaveIt(s, u, t, e);
      Preserved(s, e.u, e.step);
      OwnerStays(Do(s, e.u, e.step), trace[1..], s', u, t);
    }
  }

  lemma OwnerDrops(s: State, trace: seq<Event<Step>>, s': State, u: nat, t: nat, keep: bool)
    requires Inv(s) && Runs(s, trace, s') && Owns(s, u, t) && forall e | e in trace :: e.u != u
    requires Dropper(s.threads[u])
    ensures Can(s', u, Drop(keep)) && t < |s'.tickets|
    ensures var k := Do(s', u, Drop(keep)).tickets[t];
      k.drops == s.tickets[t].drops + 1 && k.drops == k.fetches && k.unique == s.tickets[t].unique
  {
    OwnerStays(s, trace, s', u, t);
    RunsKeep(s, trace, s');
    OwnerAlone(s, u, t);
    assert s'.free != [] ==> s'.free[0] in s'.free;
  }

  /** When the daemon's reply to a request is taken up, just one party is left to drop its ticket: the callback
      if the requester has given up, the requester if it has not. */
  lemma ReplyLeavesOneOwner(s: State, start: State, trace: seq<Event<Step>>, u: nat)
    requires Reachable(s, start, trace) && Can(s, u, Call) && s.tickets[s.threads[u].t].callback.Standard?
    ensures var t, s' := s.threads[u].t, Do(s, u, Call);
      if s.tickets[t].answered then Owns(s, u, t) && s'.threads[u] == LateDrop(t)
      else s'.tickets[t].answered && s'.threads[u] == Set(t) && s'.tickets[t].req.Some?
           && s'.tickets[t].req.value < |s'.threads|
           && s'.threads[s'.tickets[t].req.value] in {MsgIn(t), Signalled(t), Caught(t), Interrupted(t)}
  {
    ReachableInv(s, start, trace);
    assert Tied(s, u) && Good(s, s.threads[u].t);
  }

  /** From there each of the requester's steps brings it nearer to dropping the ticket, in Done. */
  lemma AnsweredRequesterIsDone(s: State, start: State, trace: seq<Event<Step>>, u: nat, step: Step)
    requires Reachable(s, start, trace) && Can(s, u, step)
    requires var p := s.threads[u]; Requester(p) && !p.Fresh? && !p.CbIn? && !p.Done? && s.tickets[p.t].answered
    ensures var p, p' := s.threads[u], Do(s, u, step).threads[u];
      p' == if p.MsgIn? || p.Signalled? then Woken(p.t)
            else if p.Caught? then IntrSend(p.t)
            else if p.IntrSend? then Interrupted(p.t)
            else Done(p.t)
  {
    ReachableInv(s, start, trace);
    assert Tied(s, u) && Good(s, s.threads[u].t);
  }

  /** The panic of fuse_insert_message on a used ticket cannot happen, nor can a requester wake unanswered. */
  lemma NoPanic(s: State, start: State, trace: seq<Event<Step>>, u: nat)
    requires Reachable(s, start, trace) && u < |s.threads|
    ensures s.threads[u].Fresh? || s.threads[u].CbIn? ==>
      s.threads[u].t < |s.tickets| && Clean(s.tickets[s.threads[u].t])
    ensures s.threads[u].Woken? ==> s.threads[u].t < |s.tickets| && s.tickets[s.threads[u].t].answered
    ensures s.free != [] ==> s.free[0] < |s.tickets| && Clean(s.tickets[s.free[0]])
  {
    ReachableInv(s, start, trace);
    assert Tied(s, u);
    if !s.threads[u].Idle? {
      assert Good(s, s.threads[u].t);
    }
    if s.free != [] {
      assert s.free[0] in s.free && Good(s, s.free[0]);
    }
  }

  /** Messages are read in the order in which they were sent, each at most once. */
  lemma {:induction false} ReadInOrder(s: State, trace: seq<Event<Step>>, s': State)
    requires Inv(s) && Runs(s, trace, s')
    ensures s.sent <= s'.sent && s.got <= s'.got <= s'.sent
    decreases |trace|
  {
    if trace != [] {
      var s1 := Do(s, trace[0].u, trace[0].step);
      Preserved(s, trace[0].u, trace[0].step);
      assert s.sent <= s1.sent && s.got <= s1.got;
      ReadInOrder(s1, trace[1..], s');
    }
  }
}
