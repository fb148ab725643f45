/** Once a reply has been taken up, its ticket is dropped, or used for the next request, after a few more steps of
    the threads that have it; and it is dropped once. */
module TicketProgress {
  import opened Lists
  import opened Threads
  import opened TicketProtocol
  import opened TicketSafety
  import opened TicketTheorems

  /** A reply to the request of t has been taken off the list of awaited ones. */
  ghost predicate Settling(s: State, t: nat) {
    t < |s.tickets| && var k := s.tickets[t];
    k.pool.Out? && k.callback.Standard? && k.dirty && !k.invalid && !k.awaiting
  }

  /** How many steps the requester and the writer may still take before the ticket is dropped or made anew. */
  function ReqRank(p: Pc): nat {
    match p
    case MsgIn(_) => 6
    case Asleep(_) => 5
    case Caught(_) => 4
    case IntrSend(_) => 3
    case Signalled(_) => 3
    case Interrupted(_) => 2
    case Woken(_) => 2
    case Done(_) => 1
    case _ => 0
  }

  function WrRank(p: Pc): nat {
    match p
    case Found(_) => 2
    case Set(_) => 1
    case LateDrop(_) => 1
    case _ => 0
  }

  function PcOf(s: State, who: Option<nat>): Pc {
    if who.Some? && who.value < |s.threads| then s.threads[who.value] else Idle
  }

  function Rank(s: State, t: nat): nat
    requires t < |s.tickets|
  {
    ReqRank(PcOf(s, s.tickets[t].req)) + WrRank(PcOf(s, s.tickets[t].wr))
  }

  /** Who has the ticket, and where. */
  lemma SettlingIs(s: State, t: nat)
    requires Inv(s) && Settling(s, t)
    ensures var k := s.tickets[t]; Sent(s, t, k) && Waited(s, t, k) && !k.msg.BeingRead? && !k.msg.Queued?
    ensures forall w | 0 <= w < |s.threads| && Names(s.threads[w], t) ::
      (Requester(s.threads[w]) && s.tickets[t].req == Some(w)) || (Writer(s.threads[w]) && s.tickets[t].wr == Some(w))
  {
    assert Good(s, t);
    forall w | 0 <= w < |s.threads| && Names(s.threads[w], t)
      ensures (Requester(s.threads[w]) && s.tickets[t].req == Some(w))
              || (Writer(s.threads[w]) && s.tickets[t].wr == Some(w))
    {
      assert Tied(s, w);
    }
  }

  predicate Ends(step: Step) {
    step.Drop? || step.Remake?
  }

  lemma InterruptSteps(s: State, w: nat, t: nat)
    requires Inv(s) && Settling(s, t) && Can(s, w, Interrupt) && Names(s.threads[w], t)
    ensures Settling(Do(s, w, Interrupt), t) && Rank(Do(s, w, Interrupt), t) < Rank(s, t)
    ensures Do(s, w, Interrupt).tickets[t] == s.tickets[t]
  {
    SettlingIs(s, t);
    assert s.free != [] ==> s.free[0] in s.free;
  }

  lemma RequesterSteps(s: State, w: nat, step: Step, t: nat)
    requires Inv(s) && Settling(s, t) && Can(s, w, step) && Names(s.threads[w], t) && !Ends(step)
    requires Requester(s.threads[w])
    ensures Settling(Do(s, w, step), t) && Rank(Do(s, w, step), t) < Rank(s, t)
    ensures Do(s, w, step).tickets[t].drops == s.tickets[t].drops
  {
    SettlingIs(s, t);
    if step == Interrupt {
      InterruptSteps(s, w, t);
    }
  }

  lemma WriterSteps(s: State, w: nat, step: Step, t: nat)
    requires Inv(s) && Settling(s, t) && Can(s, w, step) && Names(s.threads[w], t) && !Ends(step)
    requires Writer(s.threads[w])
    ensures Settling(Do(s, w, step), t) && Rank(Do(s, w, step), t) < Rank(s, t)
    ensures Do(s, w, step).tickets[t].drops == s.tickets[t].drops
  {
    SettlingIs(s, t);
  }

  /** A step of the requester or the writer brings the ticket nearer to its drop. */
  lemma PartySteps(s: State, w: nat, step: Step, t: nat)
    requires Inv(s) && Settling(s, t) && Can(s, w, step) && Names(s.threads[w], t) && !Ends(step)
    ensures Settling(Do(s, w, step), t) && Rank(Do(s, w, step), t) < Rank(s, t)
    ensures Do(s, w, step).tickets[t].drops == s.tickets[t].drops
  {
    SettlingIs(s, t);
    if Requester(s.threads[w]) {
      RequesterSteps(s, w, step, t);
    } else {
      WriterSteps(s, w, step, t);
    }
  }

  /** A step of any other thread changes nothing about it. */
  lemma OtherSteps(s: State, w: nat, step: Step, t: nat)
    requires Inv(s) && Settling(s, t) && Can(s, w, step) && !Names(s.threads[w], t)
    ensures Settling(Do(s, w, step), t) && Rank(Do(s, w, step), t) == Rank(s, t)
    ensures Do(s, w, step).tickets[t] == s.tickets[t]
  {
    SettlingIs(s, t);
    ApartStep(s, w, step, t);
  }

  /** Requester or writer can always take a step. */
  lemma PartyCan(s: State, t: nat) returns (w: nat, step: Step)
    requires Inv(s) && Settling(s, t)
    ensures Can(s, w, step) && Honest(s, step) && Names(s.threads[w], t) && !step.Remake?
  {
    SettlingIs(s, t);
    assert s.free != [] ==> s.free[0] in s.free;
    var k := s.tickets[t];
    var locked := !LockFree(s, t);
    if k.wr.Some? && s.threads[k.wr.value].Found? && locked {
      w, step := k.req.value, Interrupt;
    } else if k.wr.Some? {
      w := k.wr.value;
      step := match s.threads[w] case Found(_) => Call case Set(_) => Unlock case _ => Drop(true);
    } else {
      w := k.req.value;
      step := match s.threads[w]
        case MsgIn(_) => WaitCheck
        case Caught(_) => Catch
        case IntrSend(_) => Interrupt
        case Signalled(_) => Relock
        case Interrupted(_) => TestAndSet
        case Woken(_) => AfterWait
        case _ => Drop(true);
    }
  }

  /** Steps of the run that are taken by threads that have t. */
  function Moves(s: State, trace: seq<Event<Step>>, t: nat): nat
    decreases |trace|
  {
    if trace == [] || !Can(s, trace[0].u, trace[0].step) then 0
    else
      (if Names(s.threads[trace[0].u], t) then 1 else 0) + Moves(Do(s, trace[0].u, trace[0].step), trace[1..], t)
  }

  /** The run neither drops t nor makes a new request with it. */
  predicate Undecided(s: State, trace: seq<Event<Step>>, t: nat)
    decreases |trace|
  {
    trace == [] || !Can(s, trace[0].u, trace[0].step)
    || (!(Names(s.threads[trace[0].u], t) && Ends(trace[0].step))
        && Undecided(Do(s, trace[0].u, trace[0].step), trace[1..], t))
  }

  /** Whatever the other threads do meanwhile, the threads that have a ticket whose reply has been taken up take at
      most eight steps before it is dropped or made anew. */
  lemma {:induction false} AtMostEight(s: State, trace: seq<Event<Step>>, s': State, t: nat)
    requires Inv(s) && Settling(s, t) && Runs(s, trace, s') && Undecided(s, trace, t)
    ensures Settling(s', t) && Moves(s, trace, t) + Rank(s', t) <= Rank(s, t) <= 8
    ensures s'.tickets[t].drops == s.tickets[t].drops
    decreases |trace|
  {
    if trace != [] {
      var e := trace[0];
      if Names(s.threads[e.u], t) {
        PartySteps(s, e.u, e.step, t);
      } else {
        OtherSteps(s, e.u, e.step, t);
      }
      Preserved(s, e.u, e.step);
      AtMostEight(Do(s, e.u, e.step), trace[1..], s', t);
    }
  }

  /** And until then one of them can take a step: so a fair run drops the ticket once, or its requester goes on with
      it. Here is such a run, of these threads alone. */
  lemma {:induction false} EndsInOneDrop(s: State, t: nat) returns (trace: seq<Event<Step>>, s': State)
    requires Inv(s) && Settling(s, t)
    ensures Runs(s, trace, s') && t < |s'.tickets|
    ensures s'.tickets[t].drops == s.tickets[t].drops + 1 == s'.tickets[t].fetches && !s'.tickets[t].pool.Out?
    decreases Rank(s, t)
  {
    var w, step := PartyCan(s, t);
    var s1 := Do(s, w, step);
    if Ends(step) {
      assert Good(s, t);
      assert Runs(s1, [], s1);
      trace, s' := [], s1;
    } else {
      PartySteps(s, w, step, t);
      Preserved(s, w, step);
      trace, s' := EndsInOneDrop(s1, t);
    }
    RunsMore(s, Event(w, step), trace, s');
    trace := [Event(w, step)] + trace;
  }

  lemma RunsMore(s: State, e: Event<Step>, trace: seq<Event<Step>>, s': State)
    requires Can(s, e.u, e.step) && Honest(s, e.step) && Runs(Do(s, e.u, e.step), trace, s')
    ensures Runs(s, [e] + trace, s')
  {
    assert ([e] + trace)[1..] == trace;
  }

  /** Exactly one drop once the daemon answers. From the reply on, in every run that has not yet dropped the ticket
      or made a new request with it: the threads that have it have taken at most eight steps, one of them can take
      another, and the one drop that is due has not been done. */
  lemma OneDropIsDue(s: State, start: State, trace0: seq<Event<Step>>, u: nat, number: nat,
                     trace: seq<Event<Step>>, s': State)
    returns (w: nat, step: Step)
    requires Reachable(s, start, trace0) && Can(s, u, WriteFind(number)) && Honest(s, WriteFind(number))
    requires var t := WithNumber(s, s.aw, number); t.Some? && s.tickets[t.value].callback.Standard?
    requires var s1, t := Do(s, u, WriteFind(number)), WithNumber(s, s.aw, number).value;
      Runs(s1, trace, s') && Undecided(s1, trace, t)
    ensures var s1, t := Do(s, u, WriteFind(number)), WithNumber(s, s.aw, number).value;
      && Moves(s1, trace, t) <= 8 && t < |s'.tickets|
      && Can(s', w, step) && Honest(s', step) && Names(s'.threads[w], t)
      && s'.tickets[t].drops == s.tickets[t].drops && s'.tickets[t].fetches == s.tickets[t].drops + 1
  {
    ReachableInv(s, start, trace0);
    var s1, t := Do(s, u, WriteFind(number)), WithNumber(s, s.aw, number).value;
    Preserved(s, u, WriteFind(number));
    assert Good(s, t);
    AtMostEight(s1, trace, s', t);
    RunsKeep(s1, trace, s');
    assert Good(s', t);
    w, step := PartyCan(s', t);
  }
}
