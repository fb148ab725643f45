/** Who wakes a thread that sleeps in fuse_ticket_fetch: the end of the INIT callback, or the death of the session;
    and when nothing does but a signal. */
module TicketSleepers {
  import opened Lists
  import opened Threads
  import opened TicketPool
  import opened TicketPoolSafety
  import opened TicketSession

  /** No signal comes to u, and no answer to INIT. */
  predicate Quiet(trace: seq<Event<Step>>, u: nat) {
    forall e | e in trace :: !e.step.InitAnswer? && e != Event(u, Signal)
  }

  /** The session died without an answer to INIT, and all wake-ups have been sent. */
  ghost predicate Silent(s: Pool) {
    s.dead && !s.inited && !s.initAnswered && forall v | 0 <= v < |s.threads| :: !s.threads[v].Waking?
  }

  /** fuse_ticket_fetch does not look at dead: in a session that died before INIT was answered, whoever goes to
      sleep there (or slept through the wake-ups) sleeps on, whatever others do, until a signal comes. */
  lemma {:induction false} SleepsOn(s: Pool, trace: seq<Event<Step>>, s': Pool, u: nat)
    requires Inv(s) && Silent(s) && Runs(s, trace, s') && u < |s.threads| && s.threads[u].Sleeping?
    requires Quiet(trace, u)
    ensures Silent(s') && u < |s'.threads| && s'.threads[u] == s.threads[u]
    decreases |trace|
  {
    if trace != [] {
      var e := trace[0];
      var s1 := Do(s, e.u, e.step);
      Preserved(s, e.u, e.step);
      StaysSilent(s, e.u, e.step, u);
      SleepsOn(s1, trace[1..], s', u);
    }
  }

  lemma StaysSilent(s: Pool, v: nat, step: Step, u: nat)
    requires Inv(s) && Silent(s) && Can(s, v, step) && !step.InitAnswer? && (step == Signal ==> v != u)
    requires u < |s.threads| && s.threads[u].Sleeping?
    ensures Silent(Do(s, v, step)) && Do(s, v, step).threads[u] == s.threads[u]
  {
    assert Allowed(s, s.threads[v]) && Has(s, v);
  }

  // ----- what every run keeps besides

  /** In the INIT callback. */
  predicate InInit(p: Pc) {
    || p.InitCb? || p.InitTail? || p.InitSet? || (p.Refresh? && p.init)
    || (p.Killing? && p.next.SetInited?) || (p.Waking? && p.next.SetInited?)
  }

  /** Nobody sleeps once INIT is done; once it is answered, somebody is doing it. */
  ghost predicate Attended(s: Pool) {
    && (s.inited ==> forall v | 0 <= v < |s.threads| :: !s.threads[v].Sleeping?)
    && (s.initAnswered && !s.inited ==> exists v | 0 <= v < |s.threads| :: InInit(s.threads[v]))
  }

  predicate Wakes(step: Step) {
    step.KillWake? || step.InitDone?
  }

  lemma OthersStay(s: Pool, u: nat, step: Step, v: nat)
    requires Can(s, u, step) && v < |s.threads| && v != u && !Wakes(step)
    ensures |Do(s, u, step).threads| == |s.threads| && Do(s, u, step).threads[v] == s.threads[v]
  {
    match step
    case FetchEnter =>
    case AllocList =>
    case KillSet =>
    case DropEnter(_, _) =>
    case InitDrop(_) =>
    case _ =>
  }

  /** Other threads are at most woken. */
  lemma OthersAtMostWake(s: Pool, u: nat, step: Step, v: nat)
    requires Can(s, u, step) && v < |s.threads| && v != u
    ensures |Do(s, u, step).threads| == |s.threads|
    ensures var p, p' := s.threads[v], Do(s, u, step).threads[v]; p' == p || (p.Sleeping? && p'.Awake?)
  {
    if !Wakes(step) {
      OthersStay(s, u, step, v);
    }
  }

  lemma OnlyInitDone(s: Pool, u: nat, step: Step)
    requires Can(s, u, step)
    ensures Do(s, u, step).inited == (s.inited || step.InitDone?)
  {
  }

  lemma InitDoneWakes(s: Pool, u: nat)
    requires Can(s, u, InitDone)
    ensures forall v | 0 <= v < |s.threads| :: !Do(s, u, InitDone).threads[v].Sleeping?
  {
  }

  lemma NoNewSleeper(s: Pool, u: nat, step: Step)
    requires Inv(s) && Can(s, u, step) && s.inited && !s.threads[u].Sleeping?
    ensures |Do(s, u, step).threads| == |s.threads| && !Do(s, u, step).threads[u].Sleeping?
  {
    Fixed(s, u, step);
  }

  lemma AwakeStay(s: Pool, u: nat, step: Step)
    requires Inv(s) && Can(s, u, step)
    requires s.inited ==> forall v | 0 <= v < |s.threads| :: !s.threads[v].Sleeping?
    ensures var s' := Do(s, u, step); s'.inited ==> forall v | 0 <= v < |s'.threads| :: !s'.threads[v].Sleeping?
  {
    Fixed(s, u, step);
    OnlyInitDone(s, u, step);
    if step.InitDone? {
      InitDoneWakes(s, u);
    } else if s.inited {
      NoNewSleeper(s, u, step);
      forall v | 0 <= v < |s.threads|
        ensures !Do(s, u, step).threads[v].Sleeping?
      {
        if v != u { OthersAtMostWake(s, u, step, v); }
      }
    }
  }

  lemma DoerGoesOn(s: Pool, u: nat, step: Step)
    requires Inv(s) && Can(s, u, step) && InInit(s.threads[u]) && !step.InitDone?
    ensures |Do(s, u, step).threads| == |s.threads| && InInit(Do(s, u, step).threads[u])
  {
    Fixed(s, u, step);
  }

  lemma DoerStays(s: Pool, u: nat, step: Step, v: nat)
    requires Inv(s) && Can(s, u, step) && v < |s.threads| && InInit(s.threads[v]) && !step.InitDone?
    ensures v < |Do(s, u, step).threads| && InInit(Do(s, u, step).threads[v])
  {
    if v == u {
      DoerGoesOn(s, u, step);
    } else {
      OthersAtMostWake(s, u, step, v);
    }
  }

  lemma AnswersOnce(s: Pool, u: nat, step: Step)
    requires Can(s, u, step) && !s.initAnswered && Do(s, u, step).initAnswered
    ensures step.InitAnswer? && Do(s, u, step).threads[u].InitCb?
  {
  }

  lemma AttendedKept(s: Pool, u: nat, step: Step)
    requires Inv(s) && Attended(s) && Can(s, u, step)
    ensures Attended(Do(s, u, step))
  {
    var s' := Do(s, u, step);
    AwakeStay(s, u, step);
    OnlyInitDone(s, u, step);
    if s'.initAnswered && !s'.inited {
      if !s.initAnswered {
        AnswersOnce(s, u, step);
        Fixed(s, u, step);
        assert InInit(s'.threads[u]);
      } else {
        var v :| 0 <= v < |s.threads| && InInit(s.threads[v]);
        DoerStays(s, u, step, v);
      }
    }
  }

  lemma {:induction false} RunsAttend(s: Pool, trace: seq<Event<Step>>, s': Pool)
    requires Inv(s) && Attended(s) && Runs(s, trace, s')
    ensures Attended(s')
    decreases |trace|
  {
    if trace != [] {
      AttendedKept(s, trace[0].u, trace[0].step);
      Preserved(s, trace[0].u, trace[0].step);
      RunsAttend(Do(s, trace[0].u, trace[0].step), trace[1..], s');
    }
  }

  // ----- who can be woken

  /** Without a signal to u and without an answer to INIT, some run wakes u. */
  ghost predicate Wakeable(s: Pool, u: nat) {
    exists trace, s' :: Runs(s, trace, s') && Quiet(trace, u) && u < |s'.threads| && s'.threads[u].Awake?
  }

  lemma RunsMore(s: Pool, e: Event<Step>, trace: seq<Event<Step>>, s': Pool)
    requires Can(s, e.u, e.step) && Runs(Do(s, e.u, e.step), trace, s')
    ensures Runs(s, [e] + trace, s')
  {
    assert ([e] + trace)[1..] == trace;
  }

  lemma Before(s: Pool, v: nat, step: Step, u: nat)
    requires Can(s, v, step) && !step.InitAnswer? && Event(v, step) != Event(u, Signal) && Wakeable(Do(s, v, step), u)
    ensures Wakeable(s, u)
  {
    var trace, s' :|
      Runs(Do(s, v, step), trace, s') && Quiet(trace, u) && u < |s'.threads| && s'.threads[u].Awake?;
    RunsMore(s, Event(v, step), trace, s');
    assert Quiet([Event(v, step)] + trace, u);
  }

  ghost predicate Asleep(s: Pool, u: nat, v: nat) {
    u < |s.threads| && v < |s.threads| && u != v && s.threads[u].Sleeping?
  }

  lemma AtOnce(s: Pool, u: nat)
    requires u < |s.threads| && s.threads[u].Awake?
    ensures Wakeable(s, u)
  {
    assert Runs(s, [], s) && Quiet([], u);
  }

  lemma FromWaking(s: Pool, v: nat, u: nat)
    requires Asleep(s, u, v) && s.threads[v].Waking?
    ensures Wakeable(s, u)
  {
    AtOnce(Do(s, v, KillWake), u);
    Before(s, v, KillWake, u);
  }

  lemma FromIdle(s: Pool, v: nat, u: nat)
    requires Asleep(s, u, v) && s.threads[v].Idle? && !s.dead
    ensures Wakeable(s, u)
  {
    var s1 := Do(s, v, KillStart);
    FromWaking(Do(s1, v, KillSet), v, u);
    Before(s1, v, KillSet, u);
    Before(s, v, KillStart, u);
  }

  lemma FromInitSet(s: Pool, v: nat, u: nat)
    requires Asleep(s, u, v) && s.threads[v].InitSet?
    ensures Wakeable(s, u)
  {
    AtOnce(Do(s, v, InitDone), u);
    Before(s, v, InitDone, u);
  }

  lemma FromInitTail(s: Pool, v: nat, u: nat)
    requires Asleep(s, u, v) && s.threads[v].InitTail?
    ensures Wakeable(s, u)
  {
    FromInitSet(Do(s, v, InitEnd(false)), v, u);
    Before(s, v, InitEnd(false), u);
  }

  lemma FromInit(s: Pool, v: nat, u: nat)
    requires Inv(s) && Asleep(s, u, v) && InInit(s.threads[v])
    ensures Wakeable(s, u)
  {
    assert Has(s, v);
    match s.threads[v] {
      case InitSet => FromInitSet(s, v, u);
      case InitTail => FromInitTail(s, v, u);
      case Waking(_) => FromWaking(s, v, u);
      case Killing(_) =>
        var s' := Do(s, v, KillSet);
        if s.dead { FromInitSet(s', v, u); } else { FromWaking(s', v, u); }
        Before(s, v, KillSet, u);
      case Refresh(_, _) =>
        FromInitTail(Do(s, v, DropPush), v, u);
        Before(s, v, DropPush, u);
      case InitCb =>
        FromInitTail(Do(s, v, InitDrop(true)), v, u);
        Before(s, v, InitDrop(true), u);
    }
  }

  /** While another thread is idle, a sleeper can be woken by something else than a signal or an answer to INIT that
      is still to come, if and only if the session is not silent: that is, not dead without such an answer and with
      all wake-ups sent. */
  lemma WakeableIffNotSilent(s0: Pool, trace: seq<Event<Step>>, s: Pool, u: nat, v: nat)
    requires Start(s0) && Runs(s0, trace, s) && Asleep(s, u, v) && s.threads[v].Idle?
    ensures Wakeable(s, u) <==> !Silent(s)
  {
    StartInv(s0);
    RunsKeep(s0, trace, s);
    RunsAttend(s0, trace, s);
    if Silent(s) {
      NeverWoken(s, u);
    } else if w :| 0 <= w < |s.threads| && s.threads[w].Waking? {
      FromWaking(s, w, u);
    } else if s.initAnswered {
      var w :| 0 <= w < |s.threads| && InInit(s.threads[w]);
      FromInit(s, w, u);
    } else {
      FromIdle(s, v, u);
    }
  }

  lemma NeverWoken(s: Pool, u: nat)
    requires Inv(s) && Silent(s) && u < |s.threads| && s.threads[u].Sleeping?
    ensures !Wakeable(s, u)
  {
    if Wakeable(s, u) {
      var trace, s' :| Runs(s, trace, s') && Quiet(trace, u) && u < |s'.threads| && s'.threads[u].Awake?;
      SleepsOn(s, trace, s', u);
    }
  }

  /** Such a sleeper exists: a session dies before INIT is answered, and then another thread fetches a ticket. */
  lemma SleeperReached(s0: Pool) returns (trace: seq<Event<Step>>, s: Pool)
    requires Start(s0) && s0.threads == [Idle, Idle]
    ensures Runs(s0, trace, s) && Silent(s) && Asleep(s, 1, 0) && s.threads[0].Idle?
  {
    var s1 := Do(Do(Do(s0, 0, FetchEnter), 0, AllocNumber), 0, AllocList);
    var s2 := Do(Do(Do(s1, 0, KillStart), 0, KillSet), 0, KillWake);
    s := Do(Do(Do(s2, 1, FetchEnter), 1, AllocNumber), 1, AllocList);
    var t3 := Three(s2, 1, FetchEnter, AllocNumber, AllocList, [], s);
    var t2 := Three(s1, 0, KillStart, KillSet, KillWake, t3, s);
    trace := Three(s0, 0, FetchEnter, AllocNumber, AllocList, t2, s);
  }

  lemma Three(s: Pool, u: nat, a: Step, b: Step, c: Step, rest: seq<Event<Step>>, s': Pool)
    returns (trace: seq<Event<Step>>)
    requires Can(s, u, a) && Can(Do(s, u, a), u, b) && Can(Do(Do(s, u, a), u, b), u, c)
    requires Runs(Do(Do(Do(s, u, a), u, b), u, c), rest, s')
    ensures Runs(s, trace, s')
  {
    var s1 := Do(s, u, a);
    var s2 := Do(s1, u, b);
    RunsMore(s2, Event(u, c), rest, s');
    RunsMore(s1, Event(u, b), [Event(u, c)] + rest, s');
    trace := [Event(u, a)] + ([Event(u, b)] + ([Event(u, c)] + rest));
    RunsMore(s, Event(u, a), [Event(u, b)] + ([Event(u, c)] + rest), s');
  }
}
