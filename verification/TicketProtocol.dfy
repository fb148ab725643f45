/** How requesters, device readers and device writers share tickets while the session is live.

    One step is what a thread does inside one mutex section, or between two of them on a ticket nobody else
    can reach. Any number of threads take steps in any order. The fields from pool on record where a ticket
    is; the source keeps them as list links and as pointers in the threads' stacks. */
module TicketProtocol {
  import opened Lists

  /** aw_callback: fuse_standard_callback, fuse_internal_init_callback, fuse_internal_forget_callback. */
  datatype Callback = Standard | Init | Forget

  datatype Pool = Out | Free | Gone

  /** The message of the ticket: not sent, in ms_head, in the hands of a reader, read, or lost in a failed read. */
  datatype Msg = NotSent | Queued | BeingRead(reader: nat) | Read | Lost

  /** head: the number in the header of its message; names: the number that its message, an INTERRUPT, names. */
  datatype Ticket = Ticket(
    unique: nat, head: nat, names: Option<nat>, answered: bool, invalid: bool, dirty: bool, callback: Callback,
    pool: Pool, msg: Msg, awaiting: bool, req: Option<nat>, wr: Option<nat>, fetches: nat, drops: nat)

  /** Where a thread is. Requesters: Fresh to Done; readers: Reading, ReadDrop; writers: Found, Set, LateDrop. */
  datatype Pc =
    | Idle
    | Fresh(t: nat)        // has a clean ticket from fuse_dispatcher_make
    | CbIn(t: nat)         // fuse_insert_callback done
    | MsgIn(t: nat)        // fuse_insert_message done, fuse_ticket_wait_answer not yet locked
    | Asleep(t: nat)       // in fuse_msleep
    | Signalled(t: nat)    // woken by fuse_wakeup, aw_mtx not yet taken again
    | Caught(t: nat)       // woken by a signal, aw_mtx not yet taken again
    | Woken(t: nat)        // fuse_ticket_wait_answer has unlocked, with no error
    | IntrSend(t: nat)     // EINTR: in fuse_internal_interrupt_send, holding aw_mtx
    | Interrupted(t: nat)  // fuse_ticket_wait_answer has returned an error
    | Done(t: nat)         // has the answer, or only the duty to drop the ticket
    | Reading(t: nat)      // fuse_device_read has taken the ticket off ms_head
    | ReadDrop(t: nat)     // fuse_ticket_drop_invalid is going to drop it
    | Found(t: nat)        // fuse_device_write has taken the ticket off aw_head
    | Set(t: nat)          // the callback has set answered and holds aw_mtx
    | LateDrop(t: nat)     // the callback is going to drop the ticket

  /** The daemon has read a message with this number, sent with ticket t; names as there. */
  datatype Told = Told(number: nat, t: nat, names: Option<nat>)

  /** sent and got: all tickets ever put into and taken from ms_head, in order; told: what the daemon has read. */
  datatype State = State(
    tickets: seq<Ticket>, threads: seq<Pc>, free: seq<nat>, ms: seq<nat>, aw: seq<nat>, ticketer: nat,
    sent: seq<nat>, got: seq<nat>, told: seq<Told>)

  datatype Step =
    | Fetch | InsertCallback(cb: Callback) | InsertMessage | SendOneWay
    | WaitCheck | Signal | Catch | Interrupt | Relock | AfterWait | TestAndSet | Drop(keep: bool) | Remake
    | ReadPop | ReadEnd(ok: bool) | WriteFind(number: nat) | Call | Unlock

  predicate Requester(p: Pc) {
    || p.Fresh? || p.CbIn? || p.MsgIn? || p.Asleep? || p.Signalled? || p.Caught? || p.Woken? || p.IntrSend?
    || p.Interrupted? || p.Done?
  }

  predicate Reader(p: Pc) {
    p.Reading? || p.ReadDrop?
  }

  predicate Writer(p: Pc) {
    p.Found? || p.Set? || p.LateDrop?
  }

  /** Is about to call fuse_ticket_drop. */
  predicate Dropper(p: Pc) {
    p.Done? || p.ReadDrop? || p.LateDrop?
  }

  /** aw_mtx of t is free. */
  predicate LockFree(s: State, t: nat) {
    forall v | 0 <= v < |s.threads| :: s.threads[v] != Set(t) && s.threads[v] != IntrSend(t)
  }

  function NewTicket(unique: nat): Ticket {
    Ticket(unique, 0, None, false, false, false, Standard, Free, NotSent, false, None, None, 0, 0)
  }

  /** fuse_ticket_refresh leaves unique and aw_callback. */
  function Refresh(k: Ticket): Ticket {
    k.(head := 0, names := None, answered := false, invalid := false, dirty := false, msg := NotSent)
  }

  /** fuse_setup_ihead. */
  function Make(k: Ticket): Ticket {
    k.(head := k.unique)
  }

  /** The ticket that fuse_ticket_fetch returns: the first free one, else a new one. */
  function Fetched(s: State): nat {
    if s.free == [] then |s.tickets| else s.free[0]
  }

  /** fuse_ticket_fetch. */
  function DoFetch(s: State): State
    requires s.free != [] ==> s.free[0] < |s.tickets|
  {
    if s.free == [] then
      var k := NewTicket(s.ticketer).(pool := Out, fetches := 1);
      s.(tickets := s.tickets + [k], ticketer := s.ticketer + 1)
    else
      var t := s.free[0];
      var k := s.tickets[t];
      s.(tickets := s.tickets[t := k.(pool := Out, fetches := k.fetches + 1)], free := s.free[1..])
  }

  /** fuse_ticket_fetch and fuse_dispatcher_make. */
  function DoMake(s: State): State
    requires s.free != [] ==> s.free[0] < |s.tickets|
  {
    var s1 := DoFetch(s);
    With(s1, Fetched(s), Make(s1.tickets[Fetched(s)]))
  }

  /** fuse_ticket_drop: back to the free list, or destroyed. */
  function DoDrop(s: State, t: nat, keep: bool): State
    requires t < |s.tickets|
  {
    var k := s.tickets[t];
    var k' := Refresh(k).(pool := if keep then Free else Gone, req := None, wr := None, drops := k.drops + 1);
    s.(tickets := s.tickets[t := k'], free := if keep then s.free + [t] else s.free)
  }

  /** Marks t as wanting no reply and puts its message into ms_head; its requester lets go of it. */
  function DoOneWay(s: State, t: nat): State
    requires t < |s.tickets|
  {
    var k := s.tickets[t].(invalid := true, dirty := true, msg := Queued, req := None);
    s.(tickets := s.tickets[t := k], ms := s.ms + [t], sent := s.sent + [t])
  }

  /** fuse_internal_interrupt_send for the request of t. */
  function DoInterrupt(s: State, t: nat): State
    requires t < |s.tickets| && (s.free != [] ==> s.free[0] < |s.tickets|)
  {
    var x, s1 := Fetched(s), DoMake(s);
    DoOneWay(With(s1, x, s1.tickets[x].(names := Some(s.tickets[t].unique))), x)
  }

  function At(s: State, u: nat, p: Pc): State
    requires u < |s.threads|
  {
    s.(threads := s.threads[u := p])
  }

  function With(s: State, t: nat, k: Ticket): State
    requires t < |s.tickets|
  {
    s.(tickets := s.tickets[t := k])
  }

  /** The first ticket on aw_head with this number. */
  function WithNumber(s: State, aw: seq<nat>, number: nat): (t: Option<nat>)
    ensures t.Some? ==> t.value in aw && t.value < |s.tickets| && s.tickets[t.value].unique == number
  {
    if aw == [] then None
    else if aw[0] < |s.tickets| && s.tickets[aw[0]].unique == number then Some(aw[0])
    else WithNumber(s, aw[1..], number)
  }

  /** Whether thread u can take the step; the pcs other than Idle carry a ticket number. */
  predicate Can(s: State, u: nat, step: Step) {
    u < |s.threads| && (s.free != [] ==> s.free[0] < |s.tickets|) && var p := s.threads[u];
    (p.Idle? || p.t < |s.tickets|) &&
    match step
    case Fetch => p.Idle?
    case InsertCallback(_) => p.Fresh?
    case InsertMessage => p.CbIn?
    case SendOneWay => p.Fresh?
    case WaitCheck => p.MsgIn? && LockFree(s, p.t)
    case Signal => p.Asleep?
    case Catch => p.Caught? && LockFree(s, p.t)
    case Interrupt => p.IntrSend?
    case Relock => p.Signalled? && LockFree(s, p.t)
    case AfterWait => p.Woken?
    case TestAndSet => p.Interrupted? && LockFree(s, p.t)
    case Drop(_) => Dropper(p)
    case Remake => p.Done?
    case ReadPop => p.Idle? && s.ms != [] && s.ms[0] < |s.tickets|
    case ReadEnd(_) => p.Reading?
    case WriteFind(_) => p.Idle?
    case Call => p.Found? && (s.tickets[p.t].callback.Standard? ==> LockFree(s, p.t))
    case Unlock => p.Set?
  }

  /** The daemon answers a request only when it has read it, or it has been lost on the way. The reply to a RELEASE
      that a FORGET waits for may come at any time. */
  predicate Honest(s: State, step: Step) {
    step.WriteFind? ==>
      var t := WithNumber(s, s.aw, step.number);
      t.Some? ==> !Early(s.tickets[t.value])
  }

  /** A reply to k would come too early. */
  predicate Early(k: Ticket) {
    !k.msg.Read? && !k.msg.Lost? && !k.callback.Forget?
  }

  function Do(s: State, u: nat, step: Step): State
    requires Can(s, u, step)
  {
    var p := s.threads[u];
    match step
    case Fetch =>
      var t := Fetched(s);
      var s1 := DoMake(s);
      At(With(s1, t, s1.tickets[t].(req := Some(u))), u, Fresh(t))
    case InsertCallback(cb) =>
      At(With(s, p.t, s.tickets[p.t].(callback := cb, awaiting := true)).(aw := s.aw + [p.t]), u, CbIn(p.t))
    case InsertMessage =>
      var k := s.tickets[p.t].(dirty := true, msg := Queued);
      var s1 := s.(ms := s.ms + [p.t], sent := s.sent + [p.t]);
      if k.callback.Standard? then At(With(s1, p.t, k), u, MsgIn(p.t))
      else At(With(s1, p.t, k.(req := None)), u, Idle)
    case SendOneWay => At(DoOneWay(s, p.t), u, Idle)
    case WaitCheck => At(s, u, if s.tickets[p.t].answered then Woken(p.t) else Asleep(p.t))
    case Signal => At(s, u, Caught(p.t))
    case Catch => At(s, u, IntrSend(p.t))
    case Interrupt => At(DoInterrupt(s, p.t), u, Interrupted(p.t))
    case Relock => At(s, u, Woken(p.t))
    case AfterWait => At(s, u, if s.tickets[p.t].answered then Done(p.t) else Interrupted(p.t))
    case TestAndSet =>
      if s.tickets[p.t].answered then At(s, u, Done(p.t))
      else At(With(s, p.t, s.tickets[p.t].(answered := true, req := None)), u, Idle)
    case Drop(keep) => At(DoDrop(s, p.t, keep), u, Idle)
    case Remake => At(With(s, p.t, Make(Refresh(s.tickets[p.t]))), u, Fresh(p.t))
    case ReadPop =>
      var t := s.ms[0];
      At(With(s, t, s.tickets[t].(msg := BeingRead(u))).(ms := s.ms[1..], got := s.got + [t]), u, Reading(t))
    case ReadEnd(ok) =>
      var k := s.tickets[p.t];
      var s1 := if ok then s.(told := s.told + [Told(k.head, p.t, k.names)]) else s;
      if k.invalid then At(s1, u, ReadDrop(p.t))
      else At(With(s1, p.t, k.(msg := if ok then Read else Lost)), u, Idle)
    case WriteFind(number) =>
      match WithNumber(s, s.aw, number) {
        case Some(t) => Take(s, u, t)
        case None => s
      }
    case Call =>
      var k := s.tickets[p.t];
      match k.callback {
        case Standard =>
          if k.answered then At(s, u, LateDrop(p.t))
          else Wake(At(With(s, p.t, k.(answered := true)), u, Set(p.t)), p.t)
        case Init => At(s, u, LateDrop(p.t))
        case Forget => At(With(s, p.t, k.(wr := None)), u, Idle)
      }
    case Unlock => At(With(s, p.t, s.tickets[p.t].(wr := None)), u, Idle)
  }

  /** fuse_device_write has found t. */
  function Take(s: State, u: nat, t: nat): State
    requires u < |s.threads| && t < |s.tickets|
  {
    At(With(s, t, s.tickets[t].(awaiting := false, wr := Some(u))).(aw := Minus(s.aw, t)), u, Found(t))
  }

  /** fuse_wakeup(t). */
  function Wake(s: State, t: nat): State {
    s.(threads := seq(|s.threads|, u requires 0 <= u < |s.threads| =>
      if s.threads[u] == Asleep(t) then Signalled(t) else s.threads[u]))
  }
}
