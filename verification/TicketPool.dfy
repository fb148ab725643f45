/** The recycled tickets of a session and the gate in front of the INIT answer, for any number of threads.

    A step is one section under ticket_mtx or ms_mtx, or a read of a flag outside them. What threads may do
    with a ticket they have is the discipline proved in TicketTheorems: only who has a ticket drops it. */
module TicketPool {
  import opened Lists

  /** What follows a call of fuse_data_kill. */
  datatype After = Return(t: nat) | SetInited | Nothing

  datatype Pc =
    | Idle
    | Alloc0                // fuse_ticket_fetch found no free ticket and has unlocked
    | Alloc1(t: nat)        // fuse_ticket_alloc has its number, the ticket is not yet in alltickets_head
    | Sleeping(t: nat)      // fuse_ticket_fetch sleeps on ticketer
    | Awake(t: nat)         // woken by fuse_wakeup
    | Killing(next: After)  // in fuse_data_kill
    | Waking(next: After)   // fuse_data_kill has set dead, and has not yet woken the sleepers
    | Enq(t: nat)           // fuse_insert_message has seen the session alive
    | Refresh(t: nat, init: bool)  // fuse_ticket_drop has unlocked to refresh the ticket
    | InitCb                // fuse_internal_init_callback, before its drop
    | InitTail              // after its drop
    | InitSet               // about to set inited

  /** Where ticket number t is: in the free list, with whoever uses it, with a thread in a pool call, destroyed. */
  datatype Where = InFree | Held | With(u: nat) | Gone

  datatype Pool = Pool(
    free: seq<nat>, freeCounter: nat, all: seq<nat>, deadCounter: nat, ticketer: nat, where: seq<Where>,
    inited: bool, dead: bool, initAnswered: bool, log: seq<nat>, threads: seq<Pc>, maxFree: nat, maxTickets: nat)

  datatype Step =
    | FetchEnter | AllocNumber | AllocList | Signal | Resume
    | KillStart | KillSet | KillWake
    | EnqCheck(t: nat) | EnqPut
    | DropEnter(t: nat, killed: bool) | DropPush
    | InitAnswer | InitDrop(killed: bool) | InitEnd(err: bool) | InitDone

  function At(s: Pool, u: nat, p: Pc): Pool
    requires u < |s.threads|
  {
    s.(threads := s.threads[u := p])
  }

  function Put(s: Pool, t: nat, w: Where): Pool
    requires t < |s.where|
  {
    s.(where := s.where[t := w])
  }

  /** The end of fuse_ticket_fetch, still under ticket_mtx: sleep before INIT, die on too many tickets. */
  function Gate(s: Pool, u: nat, t: nat): Pool
    requires u < |s.threads| && t < |s.where|
  {
    if !s.inited && s.ticketer > 1 then At(Put(s, t, With(u)), u, Sleeping(t))
    else if s.maxTickets != 0 && s.ticketer - s.deadCounter > s.maxTickets
    then At(Put(s, t, With(u)), u, Killing(Return(t)))
    else At(Put(s, t, Held), u, Idle)
  }

  function Continue(s: Pool, u: nat, next: After): Pool
    requires u < |s.threads|
  {
    match next
    case Return(t) => if t < |s.where| then At(Put(s, t, Held), u, Idle) else s
    case SetInited => At(s, u, InitSet)
    case Nothing => At(s, u, Idle)
  }

  function WakeAll(s: Pool): Pool {
    s.(threads := seq(|s.threads|, v requires 0 <= v < |s.threads| =>
      if s.threads[v].Sleeping? then Awake(s.threads[v].t) else s.threads[v]))
  }

  /** The first section of fuse_ticket_drop. */
  function DropBegin(s: Pool, u: nat, t: nat, killed: bool, init: bool): Pool
    requires u < |s.threads| && t < |s.where|
  {
    if s.maxFree <= s.freeCounter || killed then
      At(Put(s, t, Gone), u, if init then InitTail else Idle).(all := Minus(s.all, t), deadCounter := s.deadCounter + 1)
    else At(Put(s, t, With(u)), u, Refresh(t, init))
  }

  predicate Can(s: Pool, u: nat, step: Step) {
    u < |s.threads| && var p := s.threads[u];
    match step
    case FetchEnter => p.Idle? && (s.freeCounter != 0 ==> s.free != [] && s.free[0] < |s.where|)
    case AllocNumber => p.Alloc0?
    case AllocList => p.Alloc1? && p.t < |s.where|
    case Signal => p.Sleeping?
    case Resume => p.Awake? && p.t < |s.where|
    case KillStart => p.Idle?
    case KillSet => p.Killing?
    case KillWake => p.Waking?
    case EnqCheck(t) => p.Idle? && t < |s.where| && s.where[t].Held?
    case EnqPut => p.Enq? && p.t < |s.where|
    case DropEnter(t, _) => p.Idle? && t < |s.where| && s.where[t].Held? && (t == 0 ==> s.initAnswered)
    case DropPush => p.Refresh? && p.t < |s.where|
    case InitAnswer => p.Idle? && !s.initAnswered && 0 in s.log && 0 < |s.where| && s.where[0].Held?
    case InitDrop(_) => p.InitCb? && 0 < |s.where|
    case InitEnd(_) => p.InitTail?
    case InitDone => p.InitSet?
  }

  function Do(s: Pool, u: nat, step: Step): Pool
    requires Can(s, u, step)
  {
    var p := s.threads[u];
    match step
    case FetchEnter =>
      if s.freeCounter == 0 then At(s, u, Alloc0)
      else Gate(s.(free := s.free[1..], freeCounter := s.freeCounter - 1), u, s.free[0])
    case AllocNumber => At(s.(ticketer := s.ticketer + 1, where := s.where + [With(u)]), u, Alloc1(|s.where|))
    case AllocList => Gate(s.(all := s.all + [p.t]), u, p.t)
    case Signal => At(s, u, Killing(Return(p.t)))
    case Resume => At(Put(s, p.t, Held), u, Idle)
    case KillStart => At(s, u, Killing(Nothing))
    case KillSet => if s.dead then Continue(s, u, p.next) else At(s.(dead := true), u, Waking(p.next))
    case KillWake => Continue(WakeAll(s), u, p.next)
    case EnqCheck(t) => if s.dead then s else At(Put(s, t, With(u)), u, Enq(t))
    case EnqPut => At(Put(s, p.t, Held), u, Idle).(log := s.log + [p.t])
    case DropEnter(t, killed) => DropBegin(s, u, t, killed, false)
    case DropPush =>
      At(Put(s, p.t, InFree), u, if p.init then InitTail else Idle)
        .(free := s.free + [p.t], freeCounter := s.freeCounter + 1)
    case InitAnswer => At(Put(s, 0, With(u)), u, InitCb).(initAnswered := true)
    case InitDrop(killed) => DropBegin(s, u, 0, killed, true)
    case InitEnd(err) => At(s, u, if err then Killing(SetInited) else InitSet)
    case InitDone => At(WakeAll(s.(inited := true)), u, Idle)
  }

  // ----- what every step keeps

  /** The ticket that a thread in a pool call has. */
  function TicketOf(p: Pc): Option<nat> {
    match p
    case Alloc1(t) => Some(t)
    case Sleeping(t) => Some(t)
    case Awake(t) => Some(t)
    case Killing(Return(t)) => Some(t)
    case Waking(Return(t)) => Some(t)
    case Enq(t) => Some(t)
    case Refresh(t, _) => Some(t)
    case InitCb => Some(0)
    case _ => None
  }

  function Count(threads: seq<Pc>, alloc: bool): nat {
    if threads == [] then 0
    else Count(threads[1..], alloc) + if (if alloc then threads[0].Alloc1? else threads[0].Refresh?) then 1 else 0
  }

  predicate Has(s: Pool, u: nat)
    requires u < |s.threads|
  {
    var t := TicketOf(s.threads[u]);
    t.Some? ==> t.value < |s.where| && s.where[t.value] == With(u)
  }

  predicate Listed(s: Pool, t: nat) {
    t < |s.where| && match s.where[t]
    case Gone => false
    case With(u) => u < |s.threads| ==> !s.threads[u].Alloc1?
    case _ => true
  }

  ghost predicate Places(s: Pool) {
    && |s.where| == s.ticketer && NoDup(s.free) && NoDup(s.all)
    && (forall t: nat :: t in s.free <==> t < |s.where| && s.where[t].InFree?)
    && (forall t: nat :: t in s.all <==> Listed(s, t))
    && (forall t | 0 <= t < |s.where| && s.where[t].With? ::
      s.where[t].u < |s.threads| && TicketOf(s.threads[s.where[t].u]) == Some(t))
    && (forall u | 0 <= u < |s.threads| :: Has(s, u))
  }

  /** Counters and lists agree; the free list may be too long only by drops that were under way together. */
  ghost predicate Counters(s: Pool) {
    && s.freeCounter == |s.free|
    && s.ticketer == s.deadCounter + |s.all| + Count(s.threads, true)
    && (s.maxFree >= 1 ==> |s.free| + Count(s.threads, false) <= s.maxFree - 1 + |s.threads|)
    && (s.maxFree == 0 ==> s.free == [] && Count(s.threads, false) == 0)
  }

  predicate Allowed(s: Pool, p: Pc) {
    match p
    case Awake(_) => s.inited || s.dead
    case Waking(next) => s.dead && (next.SetInited? ==> s.initAnswered)
    case InitCb => s.initAnswered
    case InitTail => s.initAnswered
    case InitSet => s.initAnswered
    case Killing(next) => next.SetInited? ==> s.initAnswered
    case Refresh(_, init) => s.initAnswered || (s.dead && !init)
    case Enq(t) => t == 0 || s.initAnswered || s.dead
    case _ => true
  }

  /** Until INIT is answered, only ticket 0 gets past the gate of a live session. */
  ghost predicate Gated(s: Pool) {
    && (s.inited ==> s.initAnswered)
    && (forall u | 0 <= u < |s.threads| :: Allowed(s, s.threads[u]))
    && (!s.initAnswered && !s.dead ==>
      && s.free == []
      && (forall t | 0 < t < |s.where| :: s.where[t].With?)
      && (forall t | t in s.log :: t == 0))
  }

  ghost predicate Inv(s: Pool) {
    Places(s) && Counters(s) && Gated(s)
  }
}
