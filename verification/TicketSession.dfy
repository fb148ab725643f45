/** The promises of the ticket pool over whole runs, and its mutex sections as they update the session. */
module TicketSession {
  import opened Lists
  import opened Threads
  import opened TicketPool
  import opened TicketPoolSafety

  ghost predicate Runs(s: Pool, trace: seq<Event<Step>>, s': Pool)
    decreases |trace|
  {
    if trace == [] then s' == s
    else Can(s, trace[0].u, trace[0].step) && Runs(Do(s, trace[0].u, trace[0].step), trace[1..], s')
  }

  lemma Fixed(s: Pool, u: nat, step: Step)
    requires Can(s, u, step)
    ensures |Do(s, u, step).threads| == |s.threads| && Do(s, u, step).maxFree == s.maxFree
  {
    match step
    case FetchEnter =>
    case AllocList =>
    case KillSet =>
    case KillWake =>
    case DropEnter(_, _) =>
    case InitDrop(_) =>
    case _ =>
  }

  lemma {:induction false} RunsKeep(s: Pool, trace: seq<Event<Step>>, s': Pool)
    requires Inv(s) && Runs(s, trace, s')
    ensures Inv(s') && |s'.threads| == |s.threads| && s'.maxFree == s.maxFree
    decreases |trace|
  {
    if trace != [] {
      Preserved(s, trace[0].u, trace[0].step);
      Fixed(s, trace[0].u, trace[0].step);
      RunsKeep(Do(s, trace[0].u, trace[0].step), trace[1..], s');
    }
  }

  /** Neither panic on a ticket count can happen: a nonzero counter means a free ticket, and after the last one
      is taken the counter is zero. */
  lemma CountersAgree(s: Pool, trace: seq<Event<Step>>, s': Pool)
    requires Start(s) && Runs(s, trace, s')
    ensures s'.freeCounter == |s'.free|
    ensures s'.ticketer - s'.deadCounter == |s'.all| + Count(s'.threads, true)
    ensures forall u | 0 <= u < |s'.threads| && s'.threads[u].Idle? :: Can(s', u, FetchEnter)
  {
    StartInv(s);
    RunsKeep(s, trace, s');
    if s'.free != [] {
      assert s'.free[0] in s'.free;
    }
  }

  /** With N threads the free list is never longer than the limit M - 1 plus N, though it is not locked while a
      dropped ticket is refreshed. */
  lemma FreeListBound(s: Pool, trace: seq<Event<Step>>, s': Pool)
    requires Start(s) && Runs(s, trace, s')
    ensures |s'.free| <= if s.maxFree == 0 then 0 else s.maxFree - 1 + |s.threads|
  {
    StartInv(s);
    RunsKeep(s, trace, s');
  }

  /** Before INIT is answered, no other ticket's message is sent, unless the session is dead; and whoever is
      woken in fuse_ticket_fetch finds INIT done or the session dead. */
  lemma InitComesFirst(s: Pool, trace: seq<Event<Step>>, s': Pool)
    requires Start(s) && Runs(s, trace, s')
    ensures s'.initAnswered || s'.dead || forall t | t in s'.log :: t == 0
    ensures forall u | 0 <= u < |s'.threads| && s'.threads[u].Awake? :: s'.inited || s'.dead
  {
    StartInv(s);
    RunsKeep(s, trace, s');
    assert forall u | 0 <= u < |s'.threads| :: Allowed(s', s'.threads[u]);
  }

  /** A kill that finds the session alive wakes every sleeper; another one changes nothing. */
  lemma KillAlone(s: Pool, u: nat)
    requires u < |s.threads| && s.threads[u].Idle?
    ensures Can(s, u, KillStart) && var s1 := Do(s, u, KillStart);
      && Can(s1, u, KillSet) && var s2 := Do(s1, u, KillSet);
      if s.dead then s2 == s
      else
        && Can(s2, u, KillWake) && var s3 := Do(s2, u, KillWake);
        && s3 == s.(dead := true, threads := s3.threads) && |s3.threads| == |s.threads|
        && forall v | 0 <= v < |s.threads| ::
          s3.threads[v] == if s.threads[v].Sleeping? then Awake(s.threads[v].t) else s.threads[v]
  {
    assert s.threads[u := Killing(Nothing)][u := Idle] == s.threads;
  }

  // ----- the sections

  /** The ticket fields of struct fuse_data. pool adds where each ticket and each thread is. */
  class Session {
    var free: seq<nat>
    var freeCounter: nat
    var all: seq<nat>
    var deadCounter: nat
    var ticketer: nat
    var inited: bool
    var dead: bool
    const maxFree: nat
    const maxTickets: nat
    ghost var pool: Pool

    ghost predicate Valid()
      reads this
    {
      && Inv(pool) && free == pool.free && freeCounter == pool.freeCounter && all == pool.all
      && deadCounter == pool.deadCounter && ticketer == pool.ticketer && inited == pool.inited && dead == pool.dead
      && maxFree == pool.maxFree && maxTickets == pool.maxTickets
    }

    constructor (maxFree: nat, maxTickets: nat, ghost threads: nat)
      ensures Valid() && Start(pool) && |pool.threads| == threads
    {
      this.maxFree, this.maxTickets := maxFree, maxTickets;
      free, freeCounter, all, deadCounter, ticketer, inited, dead := [], 0, [], 0, 0, false, false;
      pool := Pool([], 0, [], 0, 0, [], false, false, false, [], seq(threads, _ => Idle), maxFree, maxTickets);
      new;
      StartInv(pool);
    }

    /** The end of fuse_ticket_fetch: whether it sleeps, and whether it kills the session. */
    method Gate() returns (sleep: bool, err: bool)
      requires deadCounter <= ticketer
      ensures sleep == (!inited && ticketer > 1)
      ensures err == (!sleep && maxTickets != 0 && ticketer - deadCounter > maxTickets)
    {
      sleep, err := false, false;
      if !inited && ticketer > 1 {
        sleep := true;
      } else if maxTickets != 0 && ticketer - deadCounter > maxTickets {
        err := true;
      }
    }

    /** With a ticket, a fetch sleeps if the session has not been initialized and this is not the first ticket; if it
        does not sleep, and there are more tickets than allowed, it kills the session. */
    ghost predicate Gated(fetched: bool, sleep: bool, err: bool)
      reads this
    {
      && (sleep <==> fetched && !inited && ticketer > 1)
      && (err <==> fetched && !sleep && maxTickets > 0 && ticketer > deadCounter + maxTickets)
    }

    /** fuse_ticket_fetch up to its first unlock: a free ticket, if there is one. */
    method TakeFree(ghost u: nat) returns (ticket: Option<nat>, sleep: bool, err: bool)
      requires Valid() && u < |pool.threads| && pool.threads[u].Idle?
      modifies this
      ensures Valid() && Can(old(pool), u, FetchEnter) && pool == Do(old(pool), u, FetchEnter)
      ensures ticket == if old(free) == [] then None else Some(old(free)[0])
      ensures free == (if old(free) == [] then [] else old(free)[1..]) && all == old(all) && ticketer == old(ticketer)
      ensures Gated(ticket.Some?, sleep, err)
      ensures pool.threads[u] == match ticket
        case None => Alloc0
        case Some(t) => if sleep then Sleeping(t) else if err then Killing(Return(t)) else Idle
    {
      ghost var s := pool;
      ticket, sleep, err := None, false, false;
      if s.free != [] { assert s.free[0] in s.free; }
      StepFetchEnter(s, u);
      if freeCounter != 0 {
        if free != [] {
          ticket := Some(free[0]);
          free := free[1..];
          freeCounter := freeCounter - 1;
        }
        // The panics "ticket count mismatch" and "no free ticket despite the counter's value".
        assert !(free == [] && freeCounter != 0) && ticket.Some?;
        sleep, err := Gate();
      }
      pool := Do(s, u, FetchEnter);
    }

    /** The section of fuse_ticket_alloc. */
    method TakeNumber(ghost u: nat) returns (unique: nat)
      requires Valid() && Can(pool, u, AllocNumber)
      modifies this
      ensures Valid() && pool == Do(old(pool), u, AllocNumber)
      ensures unique !in old(all) && unique !in old(free) && pool.threads[u] == Alloc1(unique)
      ensures unique == old(ticketer) && ticketer == unique + 1 && free == old(free) && all == old(all)
    {
      StepAllocNumber(pool, u);
      unique := ticketer;
      ticketer := ticketer + 1;
      pool := Do(pool, u, AllocNumber);
    }

    /** The last section of fuse_ticket_fetch for a ticket that fuse_ticket_alloc has made. */
    method PushAll(ticket: nat, ghost u: nat) returns (sleep: bool, err: bool)
      requires Valid() && Can(pool, u, AllocList) && pool.threads[u] == Alloc1(ticket)
      modifies this
      ensures Valid() && pool == Do(old(pool), u, AllocList) && all == old(all) + [ticket] && free == old(free)
      ensures Gated(true, sleep, err)
      ensures pool.threads[u] == if sleep then Sleeping(ticket) else if err then Killing(Return(ticket)) else Idle
    {
      StepAllocList(pool, u);
      all := all + [ticket];
      sleep, err := Gate();
      pool := Do(pool, u, AllocList);
    }

    /** The first section of fuse_ticket_drop: whether the ticket is to be destroyed. */
    method BeginDrop(ticket: nat, killed: bool, ghost u: nat) returns (destroy: bool)
      requires Valid() && Can(pool, u, DropEnter(ticket, killed))
      modifies this
      ensures Valid() && pool == Do(old(pool), u, DropEnter(ticket, killed))
      ensures destroy <==> maxFree <= old(freeCounter) || killed
      ensures free == old(free) && freeCounter == old(freeCounter) && ticket !in free && ticket in old(all)
      ensures forall t: nat :: t in all <==> t in old(all) && !(destroy && t == ticket)
      ensures deadCounter == old(deadCounter) + if destroy then 1 else 0
      ensures pool.threads[u] == if destroy then Idle else Refresh(ticket, false)
    {
      Preserved(pool, u, DropEnter(ticket, killed));
      destroy := maxFree <= freeCounter || killed;
      if destroy {
        deadCounter := deadCounter + 1;
        all := Minus(all, ticket);
      }
      pool := Do(pool, u, DropEnter(ticket, killed));
      assert ticket < |pool.where| && (!destroy ==> Listed(pool, ticket)) && (destroy ==> !Listed(pool, ticket));
    }

    /** The last section of fuse_ticket_drop. */
    method PushFree(ticket: nat, ghost u: nat)
      requires Valid() && Can(pool, u, DropPush) && pool.threads[u].t == ticket
      modifies this
      ensures Valid() && pool == Do(old(pool), u, DropPush)
      ensures free == old(free) + [ticket] && ticket !in old(free) && freeCounter == old(freeCounter) + 1
      ensures all == old(all) && deadCounter == old(deadCounter)
    {
      assert Has(pool, u);
      StepDropPush(pool, u);
      free := free + [ticket];
      freeCounter := freeCounter + 1;
      pool := Do(pool, u, DropPush);
    }

    /** The last section of fuse_internal_init_callback. */
    method FinishInit(ghost u: nat)
      requires Valid() && Can(pool, u, InitDone)
      modifies this
      ensures Valid() && inited && pool == Do(old(pool), u, InitDone)
      ensures forall v | 0 <= v < |pool.threads| && v != u ::
        pool.threads[v] == var p := old(pool).threads[v]; if p.Sleeping? then Awake(p.t) else p
    {
      StepInitDone(pool, u);
      inited := true;
      pool := Do(pool, u, InitDone);
    }
  }
}
