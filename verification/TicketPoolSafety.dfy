/** The ticket pool's counters, lists and gate, in every run. */
module TicketPoolSafety {
  import opened Lists
  import opened TicketPool

  predicate Start(s: Pool) {
    && s.free == [] && s.freeCounter == 0 && s.all == [] && s.deadCounter == 0 && s.ticketer == 0 && s.where == []
    && !s.inited && !s.dead && !s.initAnswered && s.log == []
    && forall u | 0 <= u < |s.threads| :: s.threads[u].Idle?
  }

  lemma {:induction false} IdleCount(threads: seq<Pc>, alloc: bool)
    requires forall u | 0 <= u < |threads| :: threads[u].Idle?
    ensures Count(threads, alloc) == 0
  {
    if threads != [] {
      IdleCount(threads[1..], alloc);
    }
  }

  lemma StartInv(s: Pool)
    requires Start(s)
    ensures Inv(s)
  {
    IdleCount(s.threads, true);
    IdleCount(s.threads, false);
  }

  // ----- counting

  function One(p: Pc, alloc: bool): nat {
    if (if alloc then p.Alloc1? else p.Refresh?) then 1 else 0
  }

  lemma {:induction false} CountSet(threads: seq<Pc>, u: nat, p: Pc, alloc: bool)
    requires u < |threads|
    ensures Count(threads[u := p], alloc) + One(threads[u], alloc) == Count(threads, alloc) + One(p, alloc)
  {
    if u == 0 {
      assert threads[u := p][1..] == threads[1..];
    } else {
      CountSet(threads[1..], u - 1, p, alloc);
      assert threads[u := p][1..] == threads[1..][u - 1 := p];
    }
  }

  lemma {:induction false} CountSame(a: seq<Pc>, b: seq<Pc>, alloc: bool)
    requires |a| == |b| && forall v | 0 <= v < |a| :: One(a[v], alloc) == One(b[v], alloc)
    ensures Count(a, alloc) == Count(b, alloc)
  {
    if a != [] {
      CountSame(a[1..], b[1..], alloc);
    }
  }

  lemma {:induction false} CountAtMost(threads: seq<Pc>, alloc: bool)
    ensures Count(threads, alloc) <= |threads|
  {
    if threads != [] {
      CountAtMost(threads[1..], alloc);
    }
  }

  lemma CountMove(s: Pool, u: nat, p: Pc)
    requires u < |s.threads|
    ensures Count(s.threads[u := p], true) + One(s.threads[u], true) == Count(s.threads, true) + One(p, true)
    ensures Count(s.threads[u := p], false) + One(s.threads[u], false) == Count(s.threads, false) + One(p, false)
    ensures Count(s.threads[u := p], false) <= |s.threads|
  {
    CountSet(s.threads, u, p, true);
    CountSet(s.threads, u, p, false);
    CountAtMost(s.threads[u := p], false);
  }

  // ----- a step touches one thread and one ticket

  /** a' is a, but for the place of t. */
  ghost predicate ListStep(a: seq<nat>, a': seq<nat>, t: nat, present: bool) {
    NoDup(a') && (forall x: nat | x != t :: x in a' <==> x in a) && (t in a' <==> present)
  }

  ghost predicate Touches(s: Pool, s': Pool, u: nat, t: nat) {
    && u < |s.threads| && |s'.threads| == |s.threads| && t < |s'.where| == s'.ticketer
    && (|s'.where| == |s.where| || (t == |s.where| && |s'.where| == t + 1))
    && (forall x | 0 <= x < |s.where| && x != t :: s'.where[x] == s.where[x])
    && (forall v | 0 <= v < |s.threads| && v != u ::
      TicketOf(s'.threads[v]) == TicketOf(s.threads[v]) && s'.threads[v].Alloc1? == s.threads[v].Alloc1?)
    && (TicketOf(s.threads[u]).None? || TicketOf(s.threads[u]) == Some(t))
    && (TicketOf(s'.threads[u]).None? || TicketOf(s'.threads[u]) == Some(t))
    && (t < |s.where| && s.where[t].With? ==> s.where[t].u == u)
    && (s'.where[t].With? ==> s'.where[t].u == u) && (s'.where[t].With? <==> TicketOf(s'.threads[u]) == Some(t))
  }

  lemma Local(s: Pool, s': Pool, u: nat, t: nat)
    requires Places(s) && Touches(s, s', u, t)
    requires ListStep(s.free, s'.free, t, s'.where[t].InFree?) && ListStep(s.all, s'.all, t, Listed(s', t))
    ensures Places(s')
  {
    forall x: nat
      ensures x in s'.free <==> x < |s'.where| && s'.where[x].InFree?
      ensures x in s'.all <==> Listed(s', x)
    {
    }
    forall v | 0 <= v < |s'.threads|
      ensures Has(s', v)
    {
      assert Has(s, v);
    }
  }

  /** The flags only rise; the rest of Gated concerns thread u and ticket t. */
  lemma LocalGated(s: Pool, s': Pool, u: nat, t: nat)
    requires Gated(s) && Touches(s, s', u, t)
    requires forall v | 0 <= v < |s.threads| && v != u :: s'.threads[v] == s.threads[v]
    requires (s.inited ==> s'.inited) && (s.dead ==> s'.dead) && (s.initAnswered ==> s'.initAnswered)
    requires (s'.inited ==> s'.initAnswered) && Allowed(s', s'.threads[u])
    requires
      s'.initAnswered || s'.dead
      || (s'.free == [] && (t == 0 || s'.where[t].With?) && (s'.log == s.log || s'.log == s.log + [0]))
    ensures Gated(s')
  {
    forall v | 0 <= v < |s'.threads|
      ensures Allowed(s', s'.threads[v])
    {
      assert Allowed(s, s.threads[v]);
    }
  }

  // ----- one lemma a step

  lemma GateOutcome(s: Pool, u: nat, t: nat) returns (w: Where, p: Pc)
    requires u < |s.threads| && t < |s.where|
    ensures Gate(s, u, t) == At(Put(s, t, w), u, p)
    ensures (w == With(u) && (p == Sleeping(t) || p == Killing(Return(t)))) || (w == Held && p == Idle)
    ensures w.Held? ==> s.inited || s.ticketer <= 1
  {
    var s' := Gate(s, u, t);
    w, p := s'.where[t], s'.threads[u];
  }

  lemma Pops(s: Pool, u: nat, w: Where, p: Pc)
    requires Inv(s) && Can(s, u, FetchEnter) && s.freeCounter != 0
    requires (w == With(u) && (p == Sleeping(s.free[0]) || p == Killing(Return(s.free[0])))) || (w == Held && p == Idle)
    ensures Inv(At(Put(s.(free := s.free[1..], freeCounter := s.freeCounter - 1), s.free[0], w), u, p))
  {
    var t, s' := s.free[0], At(Put(s.(free := s.free[1..], freeCounter := s.freeCounter - 1), s.free[0], w), u, p);
    Shifted(s.free);
    Local(s, s', u, t);
    LocalGated(s, s', u, t);
    CountMove(s, u, p);
  }

  lemma StepFetchEnter(s: Pool, u: nat)
    requires Inv(s) && Can(s, u, FetchEnter)
    ensures Inv(Do(s, u, FetchEnter))
  {
    if s.freeCounter == 0 {
      CountMove(s, u, Alloc0);
      Unticketed(s, Do(s, u, FetchEnter), u);
    } else {
      var w, p := GateOutcome(s.(free := s.free[1..], freeCounter := s.freeCounter - 1), u, s.free[0]);
      Pops(s, u, w, p);
    }
  }

  lemma StepAllocNumber(s: Pool, u: nat)
    requires Inv(s) && Can(s, u, AllocNumber)
    ensures Inv(Do(s, u, AllocNumber))
  {
    var t, s' := |s.where|, Do(s, u, AllocNumber);
    assert !Listed(s, t);
    Local(s, s', u, t);
    LocalGated(s, s', u, t);
    CountMove(s, u, s'.threads[u]);
  }

  lemma StepAllocList(s: Pool, u: nat)
    requires Inv(s) && Can(s, u, AllocList)
    ensures Inv(Do(s, u, AllocList))
  {
    var t := s.threads[u].t;
    var w, p := GateOutcome(s.(all := s.all + [t]), u, t);
    var s' := At(Put(s.(all := s.all + [t]), t, w), u, p);
    assert Has(s, u) && !Listed(s, t);
    Appended(s.all, t);
    Local(s, s', u, t);
    LocalGated(s, s', u, t);
    CountMove(s, u, p);
  }

  /** A step of thread u that has no ticket before or after. */
  lemma Unticketed(s: Pool, s': Pool, u: nat)
    requires Places(s) && Gated(s) && u < |s.threads| == |s'.threads| && s'.threads == s.threads[u := s'.threads[u]]
    requires TicketOf(s.threads[u]).None? && TicketOf(s'.threads[u]).None? && !s'.threads[u].Alloc1?
    requires s'.where == s.where && s'.free == s.free && s'.all == s.all && s'.ticketer == s.ticketer && s'.log == s.log
    requires (s.inited ==> s'.inited) && (s.dead ==> s'.dead) && s'.initAnswered == s.initAnswered
    requires (s'.inited ==> s'.initAnswered) && Allowed(s', s'.threads[u])
    ensures Places(s') && Gated(s')
  {
    forall v | 0 <= v < |s'.threads|
      ensures Has(s', v) && Allowed(s', s'.threads[v])
    {
      assert Has(s, v) && Allowed(s, s.threads[v]);
    }
    forall x: nat
      ensures Listed(s', x) == Listed(s, x)
    {
    }
  }

  lemma StepSignal(s: Pool, u: nat)
    requires Inv(s) && Can(s, u, Signal)
    ensures Inv(Do(s, u, Signal))
  {
    var t, s' := s.threads[u].t, Do(s, u, Signal);
    assert Has(s, u) && Allowed(s, s.threads[u]);
    Local(s, s', u, t);
    LocalGated(s, s', u, t);
    CountMove(s, u, s'.threads[u]);
  }

  lemma StepResume(s: Pool, u: nat)
    requires Inv(s) && Can(s, u, Resume)
    ensures Inv(Do(s, u, Resume))
  {
    var t, s' := s.threads[u].t, Do(s, u, Resume);
    assert Has(s, u) && Allowed(s, s.threads[u]);
    Local(s, s', u, t);
    LocalGated(s, s', u, t);
    CountMove(s, u, s'.threads[u]);
  }

  lemma StepKillStart(s: Pool, u: nat)
    requires Inv(s) && Can(s, u, KillStart)
    ensures Inv(Do(s, u, KillStart))
  {
    var s' := Do(s, u, KillStart);
    assert Has(s, u) && Allowed(s, s.threads[u]);
    Unticketed(s, s', u);
    CountMove(s, u, s'.threads[u]);
  }

  lemma WakeKeeps(s: Pool)
    requires Inv(s) && (s.inited || s.dead)
    ensures Inv(WakeAll(s))
  {
    var s' := WakeAll(s);
    CountSame(s.threads, s'.threads, true);
    CountSame(s.threads, s'.threads, false);
    forall v | 0 <= v < |s'.threads|
      ensures Has(s', v) && Allowed(s', s'.threads[v])
    {
      assert Has(s, v) && Allowed(s, s.threads[v]);
    }
    forall x: nat
      ensures Listed(s', x) == Listed(s, x)
    {
    }
  }

  lemma ContinueKeeps(s: Pool, u: nat, next: After)
    requires Inv(s) && s.dead && u < |s.threads|
    requires s.threads[u] == Killing(next) || s.threads[u] == Waking(next)
    ensures Inv(Continue(s, u, next))
  {
    var s' := Continue(s, u, next);
    assert Has(s, u) && Allowed(s, s.threads[u]);
    CountMove(s, u, s'.threads[u]);
    if next.Return? {
      Local(s, s', u, next.t);
      LocalGated(s, s', u, next.t);
    } else {
      Unticketed(s, s', u);
    }
  }

  lemma StepKillSet(s: Pool, u: nat)
    requires Inv(s) && Can(s, u, KillSet)
    ensures Inv(Do(s, u, KillSet))
  {
    var next := s.threads[u].next;
    if s.dead {
      ContinueKeeps(s, u, next);
    } else {
      var s' := Do(s, u, KillSet);
      assert Has(s, u) && Allowed(s, s.threads[u]);
      CountMove(s, u, s'.threads[u]);
      if next.Return? {
        Local(s, s', u, next.t);
        LocalGated(s, s', u, next.t);
      } else {
        Unticketed(s, s', u);
      }
    }
  }

  lemma StepKillWake(s: Pool, u: nat)
    requires Inv(s) && Can(s, u, KillWake)
    ensures Inv(Do(s, u, KillWake))
  {
    assert Allowed(s, s.threads[u]);
    WakeKeeps(s);
    ContinueKeeps(WakeAll(s), u, s.threads[u].next);
  }

  lemma StepEnqCheck(s: Pool, u: nat, t: nat)
    requires Inv(s) && Can(s, u, EnqCheck(t))
    ensures Inv(Do(s, u, EnqCheck(t)))
  {
    if !s.dead {
      var s' := Do(s, u, EnqCheck(t));
      assert Has(s, u) && Listed(s, t);
      Local(s, s', u, t);
      LocalGated(s, s', u, t);
      CountMove(s, u, s'.threads[u]);
    }
  }

  lemma StepEnqPut(s: Pool, u: nat)
    requires Inv(s) && Can(s, u, EnqPut)
    ensures Inv(Do(s, u, EnqPut))
  {
    var t, s' := s.threads[u].t, Do(s, u, EnqPut);
    assert Has(s, u) && Allowed(s, s.threads[u]);
    Local(s, s', u, t);
    LocalGated(s, s', u, t);
    CountMove(s, u, s'.threads[u]);
  }

  ghost predicate MayDrop(s: Pool, u: nat, t: nat, init: bool) {
    u < |s.threads| && t < |s.where| && (s.initAnswered || (s.dead && !init))
    && if init then s.threads[u] == InitCb && t == 0 else s.threads[u] == Idle && s.where[t] == Held
  }

  lemma Destroys(s: Pool, u: nat, t: nat, init: bool)
    requires Inv(s) && MayDrop(s, u, t, init)
    ensures Inv(DropBegin(s, u, t, true, init))
  {
    var s' := DropBegin(s, u, t, true, init);
    assert Has(s, u) && Listed(s, t);
    MinusOne(s.all, t);
    Local(s, s', u, t);
    LocalGated(s, s', u, t);
    CountMove(s, u, s'.threads[u]);
  }

  lemma DropBegins(s: Pool, u: nat, t: nat, killed: bool, init: bool)
    requires Inv(s) && MayDrop(s, u, t, init)
    ensures Inv(DropBegin(s, u, t, killed, init))
  {
    if s.maxFree <= s.freeCounter || killed {
      Destroys(s, u, t, init);
    } else {
      var s' := DropBegin(s, u, t, killed, init);
      assert Has(s, u) && Listed(s, t);
      Local(s, s', u, t);
      LocalGated(s, s', u, t);
      CountMove(s, u, s'.threads[u]);
    }
  }

  lemma StepDropPush(s: Pool, u: nat)
    requires Inv(s) && Can(s, u, DropPush)
    ensures Inv(Do(s, u, DropPush))
  {
    var t, s' := s.threads[u].t, Do(s, u, DropPush);
    assert Has(s, u) && Allowed(s, s.threads[u]);
    Appended(s.free, t);
    Local(s, s', u, t);
    LocalGated(s, s', u, t);
    CountMove(s, u, s'.threads[u]);
  }

  lemma StepInitAnswer(s: Pool, u: nat)
    requires Inv(s) && Can(s, u, InitAnswer)
    ensures Inv(Do(s, u, InitAnswer))
  {
    var s' := Do(s, u, InitAnswer);
    assert Has(s, u) && Listed(s, 0);
    Local(s, s', u, 0);
    LocalGated(s, s', u, 0);
    CountMove(s, u, s'.threads[u]);
  }

  lemma StepInitEnd(s: Pool, u: nat, err: bool)
    requires Inv(s) && Can(s, u, InitEnd(err))
    ensures Inv(Do(s, u, InitEnd(err)))
  {
    var s' := Do(s, u, InitEnd(err));
    assert Has(s, u) && Allowed(s, s.threads[u]);
    Unticketed(s, s', u);
    CountMove(s, u, s'.threads[u]);
  }

  lemma StepInitDone(s: Pool, u: nat)
    requires Inv(s) && Can(s, u, InitDone)
    ensures Inv(Do(s, u, InitDone))
  {
    assert Allowed(s, s.threads[u]);
    var s1 := At(s.(inited := true), u, Idle);
    Unticketed(s, s1, u);
    CountMove(s, u, Idle);
    WakeKeeps(s1);
    assert WakeAll(s1).threads == Do(s, u, InitDone).threads;
  }

  /** Every step of every thread keeps the invariant. */
  lemma Preserved(s: Pool, u: nat, step: Step)
    requires Inv(s) && Can(s, u, step)
    ensures Inv(Do(s, u, step))
  {
    match step {
      case FetchEnter => StepFetchEnter(s, u);
      case AllocNumber => StepAllocNumber(s, u);
      case AllocList => StepAllocList(s, u);
      case Signal => StepSignal(s, u);
      case Resume => StepResume(s, u);
      case KillStart => StepKillStart(s, u);
      case KillSet => StepKillSet(s, u);
      case KillWake => StepKillWake(s, u);
      case EnqCheck(t) => StepEnqCheck(s, u, t);
      case EnqPut => StepEnqPut(s, u);
      case DropEnter(t, killed) => DropBegins(s, u, t, killed, false);
      case DropPush => StepDropPush(s, u);
      case InitAnswer => StepInitAnswer(s, u);
      case InitDrop(killed) =>
        assert Allowed(s, s.threads[u]);
        DropBegins(s, u, 0, killed, true);
      case InitEnd(err) => StepInitEnd(s, u, err);
      case InitDone => StepInitDone(s, u);
    }
  }
}
