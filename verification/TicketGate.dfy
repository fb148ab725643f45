/** What the pool calls of one thread bring about when no other thread comes in between: a message queued, the INIT
    answer taken up, a sleeper woken by a signal. */
module TicketGate {
  import opened Lists
  import opened Threads
  import opened TicketPool
  import opened TicketPoolSafety
  import opened TicketSession
  import opened TicketSleepers

  /** u has taken one step. */
  lemma First(s: Pool, u: nat, step: Step, rest: seq<Event<Step>>, s': Pool) returns (trace: seq<Event<Step>>)
    requires Can(s, u, step) && Runs(Do(s, u, step), rest, s') && By(rest, u)
    ensures Runs(s, trace, s') && By(trace, u)
  {
    RunsMore(s, Event(u, step), rest, s');
    trace := [Event(u, step)] + rest;
  }

  predicate By(trace: seq<Event<Step>>, u: nat) {
    forall e | e in trace :: e.u == u
  }

  /** A message is queued if and only if the session is alive when fuse_insert_message looks at it. */
  lemma QueueAlone(s: Pool, u: nat, t: nat) returns (trace: seq<Event<Step>>, s': Pool)
    requires u < |s.threads| && s.threads[u].Idle? && t < |s.where| && s.where[t].Held?
    ensures Runs(s, trace, s') && By(trace, u) && trace != [] && trace[0].step == EnqCheck(t)
    ensures s' == s.(log := if s.dead then s.log else s.log + [t])
  {
    var s1 := Do(s, u, EnqCheck(t));
    if s.dead {
      s', trace := s1, [];
    } else {
      s' := Do(s1, u, EnqPut);
      trace := First(s1, u, EnqPut, [], s');
      assert s.threads[u := Enq(t)][u := Idle] == s.threads && s.where[t := With(u)][t := Held] == s.where;
    }
    RunsMore(s, Event(u, EnqCheck(t)), trace, s');
    trace := [Event(u, EnqCheck(t))] + trace;
  }

  /** Every sleeper but u is awake. */
  ghost predicate Roused(s: Pool, s': Pool, u: nat) {
    |s'.threads| == |s.threads| && forall v | 0 <= v < |s.threads| && v != u ::
      s'.threads[v] == if s.threads[v].Sleeping? then Awake(s.threads[v].t) else s.threads[v]
  }

  /** Once the answer to INIT has been taken up, every sleeper is awake. The ticket is in the pool again or destroyed,
      and an error in the answer has killed the session. */
  lemma InitAlone(s: Pool, u: nat, killed: bool, err: bool) returns (trace: seq<Event<Step>>, s': Pool)
    requires Inv(s) && Can(s, u, InitAnswer)
    ensures Runs(s, trace, s') && By(trace, u) && s'.inited && s'.initAnswered && s'.dead == (s.dead || err)
    ensures Roused(s, s', u) && u < |s'.threads| && s'.threads[u].Idle?
    ensures 0 < |s'.where| && (if s.maxFree <= s.freeCounter || killed then s'.where[0].Gone? else s'.where[0].InFree?)
  {
    var s1 := Do(s, u, InitAnswer);
    var s2 := Do(s1, u, InitDrop(killed));
    if s2.threads[u].Refresh? {
      var s3 := Do(s2, u, DropPush);
      trace, s' := InitEnds(s3, u, err);
      trace := First(s2, u, DropPush, trace, s');
    } else {
      trace, s' := InitEnds(s2, u, err);
    }
    trace := First(s1, u, InitDrop(killed), trace, s');
    trace := First(s, u, InitAnswer, trace, s');
  }

  /** The end of the INIT callback, behind its drop. */
  lemma InitEnds(s: Pool, u: nat, err: bool) returns (trace: seq<Event<Step>>, s': Pool)
    requires u < |s.threads| && s.threads[u].InitTail?
    ensures Runs(s, trace, s') && By(trace, u) && s'.inited && s'.dead == (s.dead || err)
    ensures s'.initAnswered == s.initAnswered && s'.where == s.where
    ensures Roused(s, s', u) && u < |s'.threads| && s'.threads[u].Idle?
  {
    var s1 := Do(s, u, InitEnd(err));
    var s2 := if err then Do(s1, u, KillSet) else s1;
    var s3 := if err && !s1.dead then Do(s2, u, KillWake) else s2;
    s' := Do(s3, u, InitDone);
    trace := First(s3, u, InitDone, [], s');
    if err {
      if !s1.dead {
        trace := First(s2, u, KillWake, trace, s');
      }
      trace := First(s1, u, KillSet, trace, s');
    }
    trace := First(s, u, InitEnd(err), trace, s');
  }

  /** A signal to a sleeper kills the session, which wakes the other sleepers; this one returns with its ticket. */
  lemma SignalAlone(s: Pool, u: nat) returns (trace: seq<Event<Step>>, s': Pool)
    requires u < |s.threads| && s.threads[u].Sleeping? && s.threads[u].t < |s.where|
    ensures Runs(s, trace, s') && By(trace, u) && s'.dead && u < |s'.threads| && s'.threads[u].Idle?
    ensures s'.where == s.where[s.threads[u].t := Held] && (!s.dead ==> Roused(s, s', u))
  {
    var s1 := Do(s, u, Signal);
    var s2 := Do(s1, u, KillSet);
    if s.dead {
      s', trace := s2, [];
    } else {
      s' := Do(s2, u, KillWake);
      trace := First(s2, u, KillWake, [], s');
    }
    trace := First(s1, u, KillSet, trace, s');
    trace := First(s, u, Signal, trace, s');
  }

  /** A sleeper that has been woken returns with its ticket. */
  lemma AwakeReturns(s: Pool, u: nat)
    requires Can(s, u, Resume)
    ensures var t := s.threads[u].t;
      Do(s, u, Resume) == s.(threads := s.threads[u := Idle], where := s.where[t := Held])
  {
  }
}
