/** What the steps do to the lists of tickets, and what a signal sends. */
module TicketEffects {
  import opened Lists
  import opened TicketProtocol
  import opened TicketReplies
  import opened TicketSafety

  /** A requester that a signal has woken sends the daemon one more message. Its ticket, not the requester's, is
      fetched for it, wants no reply, and names the number of the request that is to be interrupted. */
  lemma SendsInterrupt(s: State, u: nat) returns (x: nat)
    requires Inv(s) && Can(s, u, Interrupt)
    ensures var t, s' := s.threads[u].t, Do(s, u, Interrupt);
      && x != t && s'.sent == s.sent + [x] && s'.ms == s.ms + [x] && s'.threads == s.threads[u := Interrupted(t)]
      && s'.got == s.got && s'.told == s.told && s'.aw == s.aw
      && t < |s'.tickets| && s'.tickets[t] == s.tickets[t] && x < |s'.tickets| && var k := s'.tickets[x];
      && k.pool.Out? && k.invalid && k.msg.Queued? && k.head == k.unique && k.names == Some(s.tickets[t].unique)
      && if s.free == [] then x == |s.tickets| && k.fetches == 1 && s'.free == []
         else s.free == [x] + s'.free && x < |s.tickets| && k.fetches == s.tickets[x].fetches + 1
  {
    assert Tied(s, u) && Good(s, s.threads[u].t);
    x := if s.free == [] then |s.tickets| else s.free[0];
    if s.free != [] {
      assert s.free[0] in s.free && Good(s, x);
    }
  }

  /** Of the lists of messages: which steps send the ticket of their thread, and which take the first one sent. */
  lemma MessagesMove(s: State, u: nat, step: Step)
    requires Can(s, u, step) && !step.Interrupt?
    ensures var s' := Do(s, u, step);
      && s'.sent == s.sent + (if step.InsertMessage? || step.SendOneWay? then [s.threads[u].t] else [])
      && s'.got == s.got + (if step.ReadPop? then [s.ms[0]] else [])
      && s'.ms == (if step.ReadPop? then s.ms[1..] else s.ms)
                  + (if step.InsertMessage? || step.SendOneWay? then [s.threads[u].t] else [])
  {
  }

  /** Of the free list: a fetch takes the first ticket, or makes a new one if there is none; a drop that keeps the
      ticket puts it behind the others. */
  lemma FreeMoves(s: State, u: nat, step: Step)
    requires Can(s, u, step)
    ensures var s' := Do(s, u, step);
      && s'.free == (if (step.Fetch? || step.Interrupt?) && s.free != [] then s.free[1..] else s.free)
                    + (if step.Drop? && step.keep then [s.threads[u].t] else [])
      && |s'.tickets| == |s.tickets| + if (step.Fetch? || step.Interrupt?) && s.free == [] then 1 else 0
  {
  }

  /** Of the list of awaited tickets. */
  lemma AwaitedMove(s: State, u: nat, step: Step)
    requires Inv(s) && Can(s, u, step)
    ensures var s' := Do(s, u, step);
      forall t: nat :: t in s'.aw <==>
        || (t in s.aw && !(step.WriteFind? && s.tickets[t].unique == step.number))
        || (step.InsertCallback? && t == s.threads[u].t)
    ensures step.InsertCallback? ==>
      var k' := Do(s, u, step).tickets[s.threads[u].t]; k'.callback == step.cb && k'.awaiting
  {
    if step.WriteFind? {
      var t := WithNumber(s, s.aw, step.number);
      if t.Some? {
        MinusOne(s.aw, t.value);
      } else {
        NotListed(s, s.aw, step.number);
      }
    }
  }
}
