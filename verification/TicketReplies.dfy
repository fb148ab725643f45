/** Which ticket a reply finds. */
module TicketReplies {
  import opened Lists
  import opened Threads
  import opened TicketProtocol
  import opened TicketSafety
  import opened TicketTheorems

  /** What the daemon has read carried the number of its ticket; and of each ticket whose message has been read in
      this round, it has read the number. */
  ghost predicate ToldRight(s: State) {
    && (forall e | e in s.told :: e.t < |s.tickets| && e.number == s.tickets[e.t].unique)
    && (forall t | 0 <= t < |s.tickets| && s.tickets[t].msg.Read? :: Told(s.tickets[t].unique, t, None) in s.told)
  }

  lemma ReadTells(s: State, u: nat, ok: bool)
    requires Inv(s) && ToldRight(s) && Can(s, u, ReadEnd(ok))
    ensures ToldRight(Do(s, u, ReadEnd(ok)))
  {
    var t := s.threads[u].t;
    assert Tied(s, u) && Good(s, t);
    var s' := Do(s, u, ReadEnd(ok));
    var e := Told(s.tickets[t].unique, t, s.tickets[t].names);
    assert s'.told == if ok then s.told + [e] else s.told;
    assert forall x | 0 <= x < |s.tickets| && x != t :: s'.tickets[x] == s.tickets[x];
  }

  /** No message is read by what leads from s to s', and tickets keep their numbers. */
  ghost predicate Untold(s: State, s': State) {
    && s'.told == s.told && |s.tickets| <= |s'.tickets|
    && (forall t | 0 <= t < |s.tickets| :: s'.tickets[t].unique == s.tickets[t].unique)
    && (forall t | 0 <= t < |s'.tickets| && s'.tickets[t].msg.Read? :: t < |s.tickets| && s.tickets[t].msg.Read?)
  }

  lemma FetchUntold(s: State, u: nat)
    requires Inv(s) && Can(s, u, Fetch)
    ensures Untold(s, Do(s, u, Fetch))
  {
    FetchesClean(s);
  }

  lemma FetchesClean(s: State)
    requires Inv(s)
    ensures s.free != [] ==> s.free[0] < |s.tickets| && Clean(s.tickets[s.free[0]])
  {
    if s.free != [] {
      assert s.free[0] in s.free && Good(s, s.free[0]);
    }
  }

  lemma InterruptUntold(s: State, u: nat)
    requires Inv(s) && Can(s, u, Interrupt)
    ensures Untold(s, Do(s, u, Interrupt))
  {
    FetchesClean(s);
  }

  predicate OfDaemon(step: Step) {
    step.ReadPop? || step.WriteFind? || step.Call? || step.Unlock?
  }

  lemma DaemonUntold(s: State, u: nat, step: Step)
    requires Can(s, u, step) && OfDaemon(step)
    ensures Untold(s, Do(s, u, step))
  {
  }

  lemma OthersUntold(s: State, u: nat, step: Step)
    requires Can(s, u, step) && !step.ReadEnd? && !step.Fetch? && !step.Interrupt? && !OfDaemon(step)
    ensures Untold(s, Do(s, u, step))
  {
  }

  lemma OthersTell(s: State, u: nat, step: Step)
    requires Inv(s) && ToldRight(s) && Can(s, u, step) && !step.ReadEnd?
    ensures ToldRight(Do(s, u, step))
  {
    match step {
      case Fetch => FetchUntold(s, u);
      case Interrupt => InterruptUntold(s, u);
      case _ => if OfDaemon(step) { DaemonUntold(s, u, step); } else { OthersUntold(s, u, step); }
    }
    UntoldRight(s, Do(s, u, step));
  }

  lemma UntoldRight(s: State, s': State)
    requires ToldRight(s) && Untold(s, s')
    ensures ToldRight(s')
  {
  }

  lemma {:induction false} RunsTell(s: State, trace: seq<Event<Step>>, s': State)
    requires Inv(s) && ToldRight(s) && Runs(s, trace, s')
    ensures ToldRight(s')
    decreases |trace|
  {
    if trace != [] {
      var u, step := trace[0].u, trace[0].step;
      if step.ReadEnd? {
        ReadTells(s, u, step.ok);
      } else {
        OthersTell(s, u, step);
      }
      Preserved(s, u, step);
      RunsTell(Do(s, u, step), trace[1..], s');
    }
  }

  lemma {:induction false} NotListed(s: State, aw: seq<nat>, number: nat)
    requires WithNumber(s, aw, number).None?
    ensures forall t | t in aw && t < |s.tickets| :: s.tickets[t].unique != number
  {
    if aw != [] {
      NotListed(s, aw[1..], number);
      assert aw == [aw[0]] + aw[1..];
    }
  }

  /** A reply reaches the ticket that issued its number, and no other: the ticket it finds is the one whose message
      the daemon has read with this number, and if it finds none, no awaited ticket has the number. */
  lemma ReplyFindsItsTicket(s: State, start: State, trace: seq<Event<Step>>, number: nat)
    requires Reachable(s, start, trace)
    ensures var t := WithNumber(s, s.aw, number);
      if t.None? then forall x | x in s.aw :: x < |s.tickets| && s.tickets[x].unique != number
      else
        && t.value in s.aw && (forall x | 0 <= x < |s.tickets| :: s.tickets[x].unique == number <==> x == t.value)
        && (forall e | e in s.told && e.number == number :: e.t == t.value)
        && (s.tickets[t.value].msg.Read? ==> Told(number, t.value, None) in s.told)
  {
    ReachableInv(s, start, trace);
    StartInv(start);
    RunsTell(start, trace, s);
    if WithNumber(s, s.aw, number).None? {
      NotListed(s, s.aw, number);
    }
  }
}
