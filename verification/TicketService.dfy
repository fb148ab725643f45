/** A request is served, from the fetch of its ticket to the drop, and so is one that its requester gives up: runs of
    the requester and of one thread of the daemon from any reachable state. */
module TicketService {
  import opened Lists
  import opened Threads
  import opened TicketEffects
  import opened TicketProgress
  import opened TicketProtocol
  import opened TicketReplies
  import opened TicketSafety
  import opened TicketTheorems

  // ----- runs of one or two threads

  lemma {:induction false} RunsJoin(s: State, a: seq<Event<Step>>, s1: State, b: seq<Event<Step>>, s2: State)
    requires Runs(s, a, s1) && Runs(s1, b, s2)
    ensures Runs(s, a + b, s2)
    decreases |a|
  {
    if a == [] {
      assert a + b == b;
    } else {
      RunsJoin(Do(s, a[0].u, a[0].step), a[1..], s1, b, s2);
      RunsMore(s, a[0], a[1..] + b, s2);
      Regrouped(a, b);
    }
  }

  lemma Regrouped<T>(a: seq<T>, b: seq<T>)
    requires a != []
    ensures [a[0]] + (a[1..] + b) == a + b
  {
  }

  /** The run is of these threads. */
  predicate Of(trace: seq<Event<Step>>, u: nat, v: nat) {
    forall e | e in trace :: e.u == u || e.u == v
  }

  /** One step more. */
  lemma Then(s: State, trace: seq<Event<Step>>, s1: State, u: nat, step: Step)
    returns (longer: seq<Event<Step>>, s': State)
    requires Runs(s, trace, s1) && Inv(s1) && Can(s1, u, step) && Honest(s1, step)
    ensures s' == Do(s1, u, step) && longer == trace + [Event(u, step)] && Runs(s, longer, s') && Inv(s')
    ensures s'.free != [] ==> s'.free[0] < |s'.tickets|
  {
    longer, s' := trace + [Event(u, step)], Do(s1, u, step);
    Preserved(s1, u, step);
    assert Runs(s', [], s');
    RunsMore(s1, Event(u, step), [], s');
    assert [Event(u, step)] + [] == [Event(u, step)];
    RunsJoin(s, trace, s1, [Event(u, step)], s');
    assert s'.free != [] ==> s'.free[0] in s'.free;
  }

  /** The ticket's reply is expected by u, which sleeps. */
  ghost predicate Sleeping(s: State, u: nat, t: nat) {
    && u < |s.threads| && s.threads[u] == Asleep(t) && t < |s.tickets| && s.tickets[t].awaiting
    && s.tickets[t].callback.Standard?
  }

  /** What asking does with ticket t: its message is the last one sent, its reply awaited, u asleep on it. */
  ghost predicate Asked(s: State, s': State, u: nat, t: nat) {
    && u < |s.threads| && s'.threads == s.threads[u := Asleep(t)] && Sleeping(s', u, t) && s'.tickets[t].msg.Queued?
    && !s'.tickets[t].invalid && s'.tickets[t].names.None?
    && s'.sent == s.sent + [t] && s'.got == s.got && s'.told == s.told && s'.aw == s.aw + [t]
    && s'.tickets[t].fetches == (if s.free == [] then 1 else if t < |s.tickets| then s.tickets[t].fetches + 1 else 0)
    && if s.free == [] then t == |s.tickets| && s'.free == [] else s.free == [t] + s'.free
  }

  /** Fetched for u, with its callback inserted. */
  ghost predicate Prepared(s: State, s': State, u: nat, t: nat) {
    && u < |s.threads| && s'.threads == s.threads[u := CbIn(t)] && t < |s'.tickets|
    && s'.tickets[t].callback.Standard? && s'.tickets[t].awaiting && !s'.tickets[t].answered && s'.tickets[t].wr.None?
    && !s'.tickets[t].invalid && s'.tickets[t].names.None?
    && s'.sent == s.sent && s'.got == s.got && s'.told == s.told && s'.aw == s.aw + [t]
    && s'.tickets[t].fetches == (if s.free == [] then 1 else if t < |s.tickets| then s.tickets[t].fetches + 1 else 0)
    && if s.free == [] then t == |s.tickets| && s'.free == [] else s.free == [t] + s'.free
  }

  lemma Prepares(s: State, u: nat) returns (t: nat, trace: seq<Event<Step>>, s': State)
    requires Inv(s) && u < |s.threads| && s.threads[u].Idle?
    ensures Runs(s, trace, s') && Inv(s') && Of(trace, u, u) && Prepared(s, s', u, t)
    ensures s'.free != [] ==> s'.free[0] < |s'.tickets|
  {
    assert s.free != [] ==> s.free[0] in s.free;
    t := Fetched(s);
    assert Runs(s, [], s);
    trace, s' := Then(s, [], s, u, Fetch);
    FreshAlone(s', u, t);
    trace, s' := Then(s, trace, s', u, InsertCallback(Standard));
  }

  lemma Asks(s: State, u: nat) returns (t: nat, trace: seq<Event<Step>>, s': State)
    requires Inv(s) && u < |s.threads| && s.threads[u].Idle?
    ensures Runs(s, trace, s') && Inv(s') && Of(trace, u, u) && Asked(s, s', u, t)
  {
    t, trace, s' := Prepares(s, u);
    trace, s' := Then(s, trace, s', u, InsertMessage);
    NobodyLocks(s', u, t);
    trace, s' := Then(s, trace, s', u, WaitCheck);
  }

  /** Only the requester or the writer can have the lock of a ticket. */
  lemma NobodyLocks(s: State, u: nat, t: nat)
    requires Inv(s) && u < |s.threads| && Names(s.threads[u], t) && Requester(s.threads[u])
    requires !s.threads[u].IntrSend? && t < |s.tickets| && s.tickets[t].wr.None?
    ensures LockFree(s, t)
  {
    assert Tied(s, u);
    forall v | 0 <= v < |s.threads|
      ensures s.threads[v] != Set(t) && s.threads[v] != IntrSend(t)
    {
      assert Tied(s, v);
    }
  }

  lemma FreshAlone(s: State, u: nat, t: nat)
    requires Inv(s) && u < |s.threads| && s.threads[u] == Fresh(t)
    ensures t < |s.tickets| && Clean(s.tickets[t]) && s.tickets[t].wr.None? && LockFree(s, t)
  {
    assert Tied(s, u) && Good(s, t);
    forall v | 0 <= v < |s.threads|
      ensures s.threads[v] != Set(t) && s.threads[v] != IntrSend(t)
    {
      assert Tied(s, v);
    }
  }

  // ----- device reads

  /** What reading its message does with a ticket: one that wants no reply is dropped. */
  predicate ReadFrom(k: Ticket, k': Ticket) {
    if k.invalid then !k'.pool.Out? && k'.drops == k.drops + 1 == k'.fetches && k'.unique == k.unique
    else k' == k.(msg := Read)
  }

  /** What the daemon is told by it. */
  function Tells(s: State, t: nat): Told
    requires t < |s.tickets|
  {
    Told(s.tickets[t].unique, t, s.tickets[t].names)
  }

  /** The same but for the messages on their way and who is told. */
  ghost predicate OnlyRead(s: State, s': State) {
    && s'.threads == s.threads && s'.aw == s.aw && s'.sent == s.sent && |s'.tickets| == |s.tickets|
    && forall t | 0 <= t < |s.tickets| :: if t in s.ms && t !in s'.ms then ReadFrom(s.tickets[t], s'.tickets[t])
                                          else s'.tickets[t] == s.tickets[t]
  }

  lemma ReadsFirst(s: State, v: nat) returns (trace: seq<Event<Step>>, s': State)
    requires Inv(s) && v < |s.threads| && s.threads[v].Idle? && s.ms != []
    ensures s.ms[0] in s.ms && s.ms[0] < |s.tickets|
    ensures Runs(s, trace, s') && Inv(s') && Of(trace, v, v) && OnlyRead(s, s')
    ensures s'.ms == s.ms[1..] && s'.told == s.told + [Tells(s, s.ms[0])]
  {
    var t := s.ms[0];
    trace, s' := TakesFirst(s, v);
    if s.tickets[t].invalid {
      trace, s' := EndsUnwanted(s, trace, s', v, t);
    } else {
      trace, s' := Then(s, trace, s', v, ReadEnd(true));
    }
  }

  lemma EndsUnwanted(s: State, trace: seq<Event<Step>>, s1: State, v: nat, t: nat)
    returns (longer: seq<Event<Step>>, s': State)
    requires Runs(s, trace, s1) && Inv(s1) && v < |s1.threads| && s1.threads[v] == Reading(t) && Of(trace, v, v)
    requires t < |s1.tickets| && s1.tickets[t].invalid && (s1.free != [] ==> s1.free[0] < |s1.tickets|)
    ensures Runs(s, longer, s') && Inv(s') && Of(longer, v, v) && s'.threads == s1.threads[v := Idle]
    ensures s'.ms == s1.ms && s'.aw == s1.aw && s'.sent == s1.sent && t < |s'.tickets| == |s1.tickets|
    ensures forall x | 0 <= x < |s1.tickets| && x != t :: s'.tickets[x] == s1.tickets[x]
    ensures var k, k' := s1.tickets[t], s'.tickets[t];
      && !k'.pool.Out? && k'.drops == k.drops + 1 && k'.fetches == k.fetches && k'.unique == k.unique
      && s'.told == s1.told + [Told(k.head, t, k.names)]
  {
    longer, s' := Then(s, trace, s1, v, ReadEnd(true));
    longer, s' := Then(s, longer, s', v, Drop(true));
  }

  lemma TakesFirst(s: State, v: nat) returns (trace: seq<Event<Step>>, s': State)
    requires Inv(s) && v < |s.threads| && s.threads[v].Idle? && s.ms != []
    ensures s.ms[0] in s.ms && s.ms[0] < |s.tickets| && s.ms[0] !in s.ms[1..]
    ensures Runs(s, trace, s') && Inv(s') && Of(trace, v, v) && s'.threads == s.threads[v := Reading(s.ms[0])]
    ensures s'.ms == s.ms[1..] && s'.aw == s.aw && s'.sent == s.sent && s'.told == s.told
    ensures s'.free != [] ==> s'.free[0] < |s'.tickets|
    ensures var t := s.ms[0];
      && s'.tickets == s.tickets[t := s.tickets[t].(msg := BeingRead(v))]
      && s.tickets[t].fetches == s.tickets[t].drops + 1 && s.tickets[t].head == s.tickets[t].unique
  {
    var t := s.ms[0];
    assert t in s.ms && Good(s, t);
    assert s.free != [] ==> s.free[0] in s.free;
    Shifted(s.ms);
    assert Runs(s, [], s);
    trace, s' := Then(s, [], s, v, ReadPop);
  }

  /** A reader reads all that has been sent, in this order, and tells the daemon the number in each message. */
  lemma {:induction false} ReadsAll(s: State, v: nat) returns (trace: seq<Event<Step>>, s': State)
    requires Inv(s) && v < |s.threads| && s.threads[v].Idle?
    ensures Runs(s, trace, s') && Inv(s') && Of(trace, v, v) && OnlyRead(s, s')
    ensures s'.ms == [] && s'.got == s.sent && |s'.told| == |s.told| + |s.ms| && s.told <= s'.told
    ensures forall i | 0 <= i < |s.ms| :: s.ms[i] in s.ms && s'.told[|s.told| + i] == Tells(s, s.ms[i])
    decreases |s.ms|
  {
    if s.ms == [] {
      trace, s' := [], s;
    } else {
      var tr1, s1 := ReadsFirst(s, v);
      trace, s' := ReadsAll(s1, v);
      ReadTwice(s, s1, s');
      RunsJoin(s, tr1, s1, trace, s');
      trace := tr1 + trace;
    }
  }

  lemma ReadTwice(s: State, s1: State, s': State)
    requires s.ms != [] && Linked(s) && Linked(s1) && s.ms[0] in s.ms
    requires OnlyRead(s, s1) && s1.ms == s.ms[1..] && OnlyRead(s1, s') && s'.ms == []
    requires s1.told == s.told + [Tells(s, s.ms[0])] && |s'.told| == |s1.told| + |s1.ms| && s1.told <= s'.told
    requires forall i | 0 <= i < |s1.ms| :: s1.ms[i] in s1.ms && s'.told[|s1.told| + i] == Tells(s1, s1.ms[i])
    ensures OnlyRead(s, s')
    ensures forall i | 0 <= i < |s.ms| :: s.ms[i] in s.ms && s'.told[|s.told| + i] == Tells(s, s.ms[i])
  {
    Shifted(s.ms);
    forall i | 0 <= i < |s.ms|
      ensures s.ms[i] in s.ms && s'.told[|s.told| + i] == Tells(s, s.ms[i])
    {
      if i > 0 {
        assert s1.ms[i - 1] == s.ms[i];
      }
    }
  }

  // ----- replies

  /** v takes up the reply to t, which the daemon has read. */
  lemma TakesReply(s: State, v: nat, t: nat) returns (trace: seq<Event<Step>>, s': State)
    requires Inv(s) && v < |s.threads| && s.threads[v].Idle? && t < |s.tickets|
    requires s.tickets[t].awaiting && !Early(s.tickets[t])
    ensures Runs(s, trace, s') && Inv(s') && Of(trace, v, v) && s' == Take(s, v, t)
    ensures s'.free != [] ==> s'.free[0] < |s'.tickets|
    ensures forall x: nat :: x in s'.aw <==> x in s.aw && x != t
  {
    var number := s.tickets[t].unique;
    if WithNumber(s, s.aw, number).None? {
      NotListed(s, s.aw, number);
    }
    MinusOne(s.aw, t);
    assert s.free != [] ==> s.free[0] in s.free;
    assert Runs(s, [], s);
    trace, s' := Then(s, [], s, v, WriteFind(number));
  }

  /** The daemon has answered: u is awake, and has its answer. */
  ghost predicate Answered(s: State, s': State, u: nat, t: nat) {
    && u < |s.threads| && t < |s.tickets| && s.tickets[t].wr.None?
    && s' == s.(threads := s.threads[u := Signalled(t)], aw := s'.aw,
                tickets := s.tickets[t := s.tickets[t].(awaiting := false, answered := true)])
    && forall x: nat :: x in s'.aw <==> x in s.aw && x != t
  }

  lemma Answers(s: State, u: nat, v: nat, t: nat) returns (trace: seq<Event<Step>>, s': State)
    requires Inv(s) && v < |s.threads| && s.threads[v].Idle? && Sleeping(s, u, t) && s.tickets[t].msg.Read?
    ensures Runs(s, trace, s') && Inv(s') && Of(trace, v, v) && Answered(s, s', u, t)
  {
    SleeperIs(s, u, t);
    trace, s' := TakesReply(s, v, t);
    trace, s' := CallsBack(s, u, v, t, trace);
  }

  lemma CallsBack(s: State, u: nat, v: nat, t: nat, trace: seq<Event<Step>>)
    returns (longer: seq<Event<Step>>, s': State)
    requires u < |s.threads| && v < |s.threads| && s.threads[u] == Asleep(t) && s.threads[v].Idle?
    requires forall w | 0 <= w < |s.threads| && w != u :: s.threads[w] != Asleep(t)
    requires t < |s.tickets| && s.tickets[t].callback.Standard? && !s.tickets[t].answered && s.tickets[t].wr.None?
    requires LockFree(s, t) && (s.free != [] ==> s.free[0] < |s.tickets|)
    requires Runs(s, trace, Take(s, v, t)) && Inv(Take(s, v, t)) && Of(trace, v, v)
    ensures Runs(s, longer, s') && Inv(s') && Of(longer, v, v)
    ensures s' == s.(threads := s.threads[u := Signalled(t)], aw := Minus(s.aw, t),
                     tickets := s.tickets[t := s.tickets[t].(awaiting := false, answered := true)])
  {
    CallWakes(s, u, v, t);
    longer, s' := Then(s, trace, Take(s, v, t), v, Call);
    longer, s' := Then(s, longer, s', v, Unlock);
  }

  lemma CallWakes(s: State, u: nat, v: nat, t: nat)
    requires u < |s.threads| && v < |s.threads| && s.threads[u] == Asleep(t) && s.threads[v].Idle?
    requires forall w | 0 <= w < |s.threads| && w != u :: s.threads[w] != Asleep(t)
    requires t < |s.tickets| && s.tickets[t].callback.Standard? && !s.tickets[t].answered && s.tickets[t].wr.None?
    requires LockFree(s, t) && (s.free != [] ==> s.free[0] < |s.tickets|)
    ensures var s1 := Take(s, v, t);
      && Can(s1, v, Call) && var s2 := Do(s1, v, Call);
      && Can(s2, v, Unlock)
      && Do(s2, v, Unlock) == s.(threads := s.threads[u := Signalled(t)], aw := s1.aw,
               tickets := s.tickets[t := s.tickets[t].(awaiting := false, answered := true)])
  {
  }

  lemma SleeperIs(s: State, u: nat, t: nat)
    requires Inv(s) && Sleeping(s, u, t)
    ensures LockFree(s, t) && !s.tickets[t].answered && s.tickets[t].wr.None?
    ensures s.free != [] ==> s.free[0] < |s.tickets|
    ensures forall w | 0 <= w < |s.threads| && w != u :: s.threads[w] != Asleep(t)
  {
    assert Tied(s, u) && Good(s, t);
    NobodyLocks(s, u, t);
    OneSleeps(s, u, t);
    assert s.free != [] ==> s.free[0] in s.free;
  }

  lemma OneSleeps(s: State, u: nat, t: nat)
    requires Inv(s) && u < |s.threads| && s.threads[u] == Asleep(t)
    ensures forall w | 0 <= w < |s.threads| && w != u :: s.threads[w] != Asleep(t)
  {
    assert Tied(s, u);
    forall w | 0 <= w < |s.threads| && w != u
      ensures s.threads[w] != Asleep(t)
    {
      assert Tied(s, w);
    }
  }

  // ----- the whole

  /** u sleeps on its request, which v has read. */
  ghost predicate Heard(s: State, s': State, u: nat, t: nat) {
    && u < |s.threads| && s'.threads == s.threads[u := Asleep(t)] && Sleeping(s', u, t) && s'.tickets[t].msg.Read?
    && s'.sent == s'.got == s.sent + [t] && s'.ms == [] && s'.aw == s.aw + [t]
    && s'.told != [] && s'.told[|s'.told| - 1] == Told(s'.tickets[t].unique, t, None)
    && s'.tickets[t].fetches == (if s.free == [] then 1 else if t < |s.tickets| then s.tickets[t].fetches + 1 else 0)
    && if s.free == [] then t == |s.tickets| else t == s.free[0]
  }

  lemma LastSent(s: State, t: nat)
    requires Linked(s) && t < |s.tickets| && s.tickets[t].msg.Queued? && s.sent != [] && s.sent[|s.sent| - 1] == t
    ensures s.ms != [] && s.ms[|s.ms| - 1] == t && t in s.ms
  {
    assert t in s.ms;
  }

  lemma AskedAndRead(s: State, s1: State, s': State, u: nat, t: nat)
    requires Asked(s, s1, u, t) && OnlyRead(s1, s') && s'.ms == [] && s'.got == s1.sent
    requires s1.ms != [] && s1.ms[|s1.ms| - 1] == t && t in s1.ms && |s'.told| == |s1.told| + |s1.ms|
    requires s'.told[|s1.told| + (|s1.ms| - 1)] == Tells(s1, t)
    ensures Heard(s, s', u, t)
  {
  }

  lemma IsHeard(s: State, u: nat, v: nat) returns (t: nat, trace: seq<Event<Step>>, s': State)
    requires Inv(s) && u < |s.threads| && v < |s.threads| && u != v && s.threads[u].Idle? && s.threads[v].Idle?
    ensures Runs(s, trace, s') && Inv(s') && Of(trace, u, v) && Heard(s, s', u, t)
  {
    var s1, tr1, tr2;
    t, tr1, s1 := Asks(s, u);
    LastSent(s1, t);
    tr2, s' := ReadsAll(s1, v);
    AskedAndRead(s, s1, s', u, t);
    RunsJoin(s, tr1, s1, tr2, s');
    trace := tr1 + tr2;
  }

  /** u, which has been woken by the reply, drops the ticket. */
  lemma Finishes(s: State, u: nat, t: nat, keep: bool) returns (trace: seq<Event<Step>>, s': State)
    requires Inv(s) && u < |s.threads| && s.threads[u] == Signalled(t) && t < |s.tickets| && s.tickets[t].wr.None?
    ensures Runs(s, trace, s') && Of(trace, u, u) && s'.threads == s.threads[u := Idle]
    ensures s'.sent == s.sent && s'.got == s.got && s'.told == s.told && s'.ms == s.ms && s'.aw == s.aw
    ensures |s'.tickets| == |s.tickets| && s'.tickets[t].unique == s.tickets[t].unique
    ensures s'.tickets[t].drops == s'.tickets[t].fetches == s.tickets[t].fetches
    ensures if keep then s'.tickets[t].pool.Free? && s'.free == s.free + [t]
            else s'.tickets[t].pool.Gone? && s'.free == s.free
  {
    trace, s' := Wakes(s, u, t);
    trace, s' := Then(s, trace, s', u, Drop(keep));
  }

  lemma Wakes(s: State, u: nat, t: nat) returns (trace: seq<Event<Step>>, s': State)
    requires Inv(s) && u < |s.threads| && s.threads[u] == Signalled(t) && t < |s.tickets| && s.tickets[t].wr.None?
    ensures Runs(s, trace, s') && Inv(s') && Of(trace, u, u) && s' == s.(threads := s.threads[u := Done(t)])
    ensures s.tickets[t].fetches == s.tickets[t].drops + 1 && (s.free != [] ==> s.free[0] < |s.tickets|)
  {
    assert Tied(s, u) && Good(s, t);
    NobodyLocks(s, u, t);
    assert s.free != [] ==> s.free[0] in s.free;
    assert Runs(s, [], s);
    trace, s' := Then(s, [], s, u, Relock);
    trace, s' := Then(s, trace, s', u, AfterWait);
  }

  /** u has its answer, and the ticket is dropped. */
  ghost predicate Over(s: State, s': State, u: nat, t: nat, keep: bool) {
    && u < |s.threads| && s'.threads == s.threads[u := Idle] && t < |s.tickets| && t < |s'.tickets|
    && s'.sent == s.sent && s'.got == s.got && s'.told == s.told && s'.ms == s.ms
    && (forall x: nat :: x in s'.aw <==> x in s.aw && x != t)
    && s'.tickets[t].unique == s.tickets[t].unique
    && s'.tickets[t].drops == s'.tickets[t].fetches == s.tickets[t].fetches
    && if keep then s'.tickets[t].pool.Free? && s'.free == s.free + [t] else s'.tickets[t].pool.Gone?
  }

  /** v takes up the reply to u's request, and u drops the ticket. */
  lemma Ends(s: State, u: nat, v: nat, t: nat, keep: bool) returns (trace: seq<Event<Step>>, s': State)
    requires Inv(s) && v < |s.threads| && s.threads[v].Idle? && Sleeping(s, u, t) && s.tickets[t].msg.Read?
    ensures Runs(s, trace, s') && Of(trace, u, v) && Over(s, s', u, t, keep)
  {
    var s1, tr1, tr2;
    tr1, s1 := Answers(s, u, v, t);
    tr2, s' := Finishes(s1, u, t, keep);
    RunsJoin(s, tr1, s1, tr2, s');
    trace := tr1 + tr2;
  }

  /** A request for which t was fetched in s has been served. */
  ghost predicate IsServed(s: State, s': State, t: nat, keep: bool) {
    && s'.threads == s.threads && (if s.free == [] then t == |s.tickets| else t == s.free[0])
    && s'.sent == s'.got == s.sent + [t] && s'.ms == [] && (forall x: nat :: x in s'.aw <==> x in s.aw)
    && t < |s'.tickets| && s'.told != [] && s'.told[|s'.told| - 1] == Told(s'.tickets[t].unique, t, None)
    && s'.tickets[t].drops == s'.tickets[t].fetches == (if t < |s.tickets| then s.tickets[t].fetches else 0) + 1
    && if keep then s'.tickets[t].pool.Free? && s'.free != [] && s'.free[|s'.free| - 1] == t
       else s'.tickets[t].pool.Gone?
  }

  lemma HeardAndOver(s: State, s1: State, s': State, u: nat, t: nat, keep: bool)
    requires u < |s.threads| && s.threads[u].Idle? && Heard(s, s1, u, t) && Over(s1, s', u, t, keep)
    requires t !in s.aw && (s.free != [] ==> t < |s.tickets|)
    ensures IsServed(s, s', t, keep)
  {
  }

  /** From any state that a session can be in, two idle threads can serve a request to its end: it is sent last, all
      that was sent is read, the daemon is told its number, and answers; then its ticket is dropped once, to the end of
      the free list if it is kept. No other list keeps it, and both threads are idle again. */
  lemma Served(s: State, u: nat, v: nat, keep: bool) returns (t: nat, trace: seq<Event<Step>>, s': State)
    requires Inv(s) && u < |s.threads| && v < |s.threads| && u != v && s.threads[u].Idle? && s.threads[v].Idle?
    ensures Runs(s, trace, s') && Of(trace, u, v) && IsServed(s, s', t, keep)
  {
    NotYetAwaited(s, Fetched(s));
    var s1, tr1, tr2;
    t, tr1, s1 := IsHeard(s, u, v);
    tr2, s' := Ends(s1, u, v, t, keep);
    HeardAndOver(s, s1, s', u, t, keep);
    RunsJoin(s, tr1, s1, tr2, s');
    trace := tr1 + tr2;
  }

  lemma NotYetAwaited(s: State, t: nat)
    requires Inv(s) && if s.free == [] then t == |s.tickets| else t == s.free[0]
    ensures t !in s.aw && (s.free != [] ==> t < |s.tickets|)
  {
    if s.free != [] {
      assert s.free[0] in s.free && Good(s, t);
    }
  }

  // ----- a request given up

  /** u has returned without an answer. The last message sent names the number of its request, and its ticket is left
      to whoever takes up the reply. */
  ghost predicate GivenUp(s: State, s': State, u: nat, t: nat, x: nat) {
    && u < |s.threads| && s'.threads == s.threads[u := Idle] && t < |s.tickets| && t < |s'.tickets|
    && s'.tickets[t] == s.tickets[t].(answered := true, req := None)
    && s'.sent == s.sent + [x] && s'.ms == s.ms + [x] && s'.aw == s.aw && s'.got == s.got && s'.told == s.told
    && x != t && x < |s'.tickets| && s'.tickets[x].names == Some(s.tickets[t].unique) && s'.tickets[x].invalid
  }

  /** A signal finds u asleep. */
  lemma GivesUp(s: State, u: nat, t: nat) returns (x: nat, trace: seq<Event<Step>>, s': State)
    requires Inv(s) && Sleeping(s, u, t)
    ensures Runs(s, trace, s') && Inv(s') && Of(trace, u, u) && GivenUp(s, s', u, t, x)
  {
    var s1;
    x, trace, s1 := Warns(s, u, t);
    LeavesIt(s, s1, u, t, x);
    trace, s' := Then(s, trace, s1, u, TestAndSet);
  }

  /** u has sent the INTERRUPT, with ticket x, and still has t. */
  ghost predicate Warned(s: State, s': State, u: nat, t: nat, x: nat) {
    && u < |s.threads| && s'.threads == s.threads[u := Interrupted(t)] && t < |s.tickets| && t < |s'.tickets|
    && s'.tickets[t] == s.tickets[t] && LockFree(s, t) && !s.tickets[t].answered
    && s'.sent == s.sent + [x] && s'.ms == s.ms + [x] && s'.aw == s.aw && s'.got == s.got && s'.told == s.told
    && x != t && x < |s'.tickets| && s'.tickets[x].names == Some(s.tickets[t].unique) && s'.tickets[x].invalid
    && (s'.free != [] ==> s'.free[0] < |s'.tickets|)
  }

  lemma LeavesIt(s: State, s1: State, u: nat, t: nat, x: nat)
    requires Warned(s, s1, u, t, x)
    ensures Can(s1, u, TestAndSet) && GivenUp(s, Do(s1, u, TestAndSet), u, t, x)
  {
  }

  lemma Warns(s: State, u: nat, t: nat) returns (x: nat, trace: seq<Event<Step>>, s': State)
    requires Inv(s) && Sleeping(s, u, t)
    ensures Runs(s, trace, s') && Inv(s') && Of(trace, u, u) && Warned(s, s', u, t, x)
  {
    var s1;
    trace, s1 := Catches(s, u, t);
    x := SendsInterrupt(s1, u);
    trace, s' := Then(s, trace, s1, u, Interrupt);
  }

  lemma Catches(s: State, u: nat, t: nat) returns (trace: seq<Event<Step>>, s': State)
    requires Inv(s) && Sleeping(s, u, t)
    ensures Runs(s, trace, s') && Inv(s') && Of(trace, u, u)
    ensures s' == s.(threads := s.threads[u := IntrSend(t)]) && (s.free != [] ==> s.free[0] < |s.tickets|)
    ensures LockFree(s, t) && !s.tickets[t].answered
  {
    SleeperIs(s, u, t);
    assert Runs(s, [], s);
    trace, s' := Then(s, [], s, u, Signal);
    trace, s' := Then(s, trace, s', u, Catch);
  }

  /** The reply to a request that has been given up: who takes it up drops the ticket. */
  lemma DropsGivenUp(s: State, v: nat, t: nat, keep: bool) returns (trace: seq<Event<Step>>, s': State)
    requires Inv(s) && v < |s.threads| && s.threads[v].Idle? && t < |s.tickets| && s.tickets[t].awaiting
    requires s.tickets[t].callback.Standard? && s.tickets[t].answered && s.tickets[t].msg.Read?
    ensures Runs(s, trace, s') && Of(trace, v, v) && s'.threads == s.threads
    ensures s'.sent == s.sent && s'.ms == s.ms && forall x: nat :: x in s'.aw <==> x in s.aw && x != t
    ensures t < |s'.tickets| && s'.tickets[t].drops == s'.tickets[t].fetches == s.tickets[t].fetches
    ensures if keep then s'.tickets[t].pool.Free? && s'.free == s.free + [t] else s'.tickets[t].pool.Gone?
  {
    Unlocked(s, t);
    trace, s' := TakesReply(s, v, t);
    trace, s' := Then(s, trace, s', v, Call);
    trace, s' := Then(s, trace, s', v, Drop(keep));
  }

  /** Of a request given up, nobody has the lock. */
  lemma Unlocked(s: State, t: nat)
    requires Inv(s) && t < |s.tickets| && s.tickets[t].awaiting
    requires s.tickets[t].callback.Standard? && s.tickets[t].answered && s.tickets[t].msg.Read?
    ensures LockFree(s, t) && s.tickets[t].fetches == s.tickets[t].drops + 1
  {
    assert Good(s, t);
    forall w | 0 <= w < |s.threads|
      ensures s.threads[w] != Set(t) && s.threads[w] != IntrSend(t)
    {
      assert Tied(s, w);
    }
  }

  // ----- the other ways

  /** The reply to a RELEASE that a FORGET waits for: its ticket is left alone, and no list has it any more. */
  lemma ForgetFollows(s: State, v: nat, t: nat) returns (trace: seq<Event<Step>>, s': State)
    requires Inv(s) && v < |s.threads| && s.threads[v].Idle? && t < |s.tickets| && s.tickets[t].awaiting
    requires s.tickets[t].callback.Forget?
    ensures Runs(s, trace, s') && Of(trace, v, v) && s'.threads == s.threads
    ensures s'.tickets == s.tickets[t := s.tickets[t].(awaiting := false)] && s'.free == s.free
    ensures forall x: nat :: x in s'.aw <==> x in s.aw && x != t
  {
    assert Good(s, t);
    trace, s' := TakesReply(s, v, t);
    trace, s' := Then(s, trace, s', v, Call);
  }

  /** A requester that has its answer may make its next request with the same ticket. Nothing is left of the last
      one but the number. */
  lemma AsksAgain(s: State, u: nat)
    requires Inv(s) && Can(s, u, Remake)
    ensures var t, s' := s.threads[u].t, Do(s, u, Remake);
      && s'.threads == s.threads[u := Fresh(t)] && t < |s.tickets| == |s'.tickets| && Clean(s'.tickets[t])
      && s'.tickets[t].unique == s'.tickets[t].head == s.tickets[t].unique
      && s'.tickets[t].fetches == s.tickets[t].fetches && s'.tickets[t].drops == s.tickets[t].drops
      && t !in s'.ms && t !in s'.aw && t !in s'.free
  {
    assert Tied(s, u) && Good(s, s.threads[u].t);
  }
}
