/** What becomes of the operations on a device: what each brings about when nothing is in its way, and, over every
    interleaving, which opens make a session. */
module DeviceOutcomes {
  import opened DeviceLifecycle
  import opened DeviceSafety
  import opened DeviceTheorems
  import opened Lists
  import opened Threads

  /** u takes these steps, one after the other and nobody in between. */
  ghost predicate Takes(s: State, u: nat, steps: seq<Step>, s': State)
    decreases |steps|
  {
    if steps == [] then s' == s else Can(s, u, steps[0]) && Takes(Do(s, u, steps[0]), u, steps[1..], s')
  }

  lemma TakesMore(s: State, u: nat, step: Step, rest: seq<Step>, s': State) returns (steps: seq<Step>)
    requires Can(s, u, step) && Takes(Do(s, u, step), u, rest, s')
    ensures steps == [step] + rest && Takes(s, u, steps, s')
  {
    steps := [step] + rest;
    assert steps[1..] == rest;
  }

  /** Such steps are a run. */
  lemma {:induction false} TakesRuns(s: State, u: nat, steps: seq<Step>, s': State) returns (trace: seq<Event<Step>>)
    requires Takes(s, u, steps, s')
    ensures Runs(s, trace, s') && forall e | e in trace :: e.u == u
    decreases |steps|
  {
    if steps == [] {
      trace := [];
    } else {
      var rest := TakesRuns(Do(s, u, steps[0]), u, steps[1..], s');
      trace := [Event(u, steps[0])] + rest;
      assert trace[1..] == rest;
    }
  }

  /** Thread u can begin, and finds the table and device d unlocked. */
  predicate Clear(s: State, u: nat, d: nat) {
    !s.stopped && u < |s.threads| && s.threads[u].Idle? && s.mutex.None? && d < |s.devices| && s.devices[d].mtx.None?
  }

  /** An open of a device that is not in use, with no mount lingering, makes a session that is open, not mounted and
      alive; any other open changes nothing. */
  lemma OpenAlone(s: State, u: nat, d: nat) returns (steps: seq<Step>, s': State)
    requires Inv(s) && Clear(s, u, d) && s.available
    ensures steps != [] && steps[0] == OpenBegin(d) && Takes(s, u, steps, s')
    ensures s'.threads == s.threads && s'.mutex.None? && s'.mountCount == s.mountCount
    ensures if s.devices[d].usecount == 0 && s.devices[d].data.None?
            then s'.sessions == s.sessions + [Session(d, true, false, false, 0, NotMounted)]
                 && s'.devices == s.devices[d := Device(1, Some(|s.sessions|), None, Opener)]
            else s'.sessions == s.sessions && s'.devices == s.devices
  {
    assert DeviceOk(s, d);
    var s1 := Do(s, u, OpenBegin(d));
    var s2 := Do(s1, u, OpenLock);
    if s.devices[d].usecount != 0 {
      s', steps := s2, [];
    } else {
      steps, s' := OpenGoesOn(s2, u, d);
    }
    steps := TakesMore(s1, u, OpenLock, steps, s');
    steps := TakesMore(s, u, OpenBegin(d), steps, s');
  }

  /** The rest of an open that has passed the first check. */
  lemma OpenGoesOn(s: State, u: nat, d: nat) returns (steps: seq<Step>, s': State)
    requires !s.stopped && u < |s.threads| && s.threads[u] == OpenNest(d) && s.mutex == Some(u)
    requires d < |s.devices| && s.devices[d].mtx.None? && s.devices[d].usecount == 1
    ensures Takes(s, u, steps, s') && s'.threads == s.threads[u := Idle] && s'.mutex.None?
    ensures s'.mountCount == s.mountCount
    ensures if s.devices[d].data.None?
            then s'.sessions == s.sessions + [Session(d, true, false, false, 0, NotMounted)]
                 && s'.devices == s.devices[d := Device(1, Some(|s.sessions|), None, Opener)]
            else s'.sessions == s.sessions
                 && s'.devices == s.devices[d := s.devices[d].(usecount := 0, user := Nobody)]
  {
    var s1 := Do(s, u, OpenNestLock);
    var s2 := Do(s1, u, OpenCheck);
    if s.devices[d].data.None? {
      s', steps := s2, [];
    } else {
      s' := Do(s2, u, OpenBusyLock);
      steps := TakesMore(s2, u, OpenBusyLock, [], s');
    }
    steps := TakesMore(s1, u, OpenCheck, steps, s');
    steps := TakesMore(s, u, OpenNestLock, steps, s');
  }

  /** The close of an opened device ends its use. The session is dead and not opened; it lingers if it is mounted, and
      is destroyed otherwise. */
  lemma CloseAlone(s: State, u: nat, d: nat) returns (steps: seq<Step>, s': State)
    requires Inv(s) && Clear(s, u, d) && s.devices[d].user.Opener?
    ensures steps != [] && steps[0] == CloseBegin(d) && Takes(s, u, steps, s')
    ensures s'.threads == s.threads && s'.mutex.None? && s'.mountCount == s.mountCount
    ensures s.devices[d].usecount == 1 && s.devices[d].data.Some? && s.devices[d].data.value < |s.sessions|
    ensures var x := s.devices[d].data.value;
      && |s'.sessions| == |s.sessions| && s'.sessions == s.sessions[x := s'.sessions[x]]
      && s'.sessions[x].mounted == s.sessions[x].mounted
      && s'.sessions[x].dead && !s'.sessions[x].isOpen && s.sessions[x].freed == 0
      && s'.sessions[x].freed == (if s.sessions[x].mounted then 0 else 1)
      && s'.devices == s.devices[d := Device(0, if s.sessions[x].mounted then Some(x) else None, None, Nobody)]
  {
    assert DeviceOk(s, d);
    var x := s.devices[d].data.value;
    assert SessionOk(s, x);
    var s1 := Do(s, u, CloseBegin(d));
    steps, s' := CloseGoesOn(s1, u, d, x);
    steps := TakesMore(s, u, CloseBegin(d), steps, s');
  }

  /** The rest of a close. */
  lemma CloseGoesOn(s: State, u: nat, d: nat, x: nat) returns (steps: seq<Step>, s': State)
    requires !s.stopped && u < |s.threads| && s.threads[u] == CloseWant(d, x) && s.mutex.None?
    requires d < |s.devices| && s.devices[d].mtx.None? && s.devices[d].data == Some(x) && s.devices[d].usecount == 1
    requires x < |s.sessions| && s.sessions[x].freed == 0
    ensures Takes(s, u, steps, s') && s'.threads == s.threads[u := Idle] && s'.mutex.None?
    ensures s'.mountCount == s.mountCount
    ensures var k := s.sessions[x];
      && s'.sessions == s.sessions[x := k.(isOpen := false, freed := if k.mounted then 0 else 1)]
      && s'.devices == s.devices[d := Device(0, if k.mounted then Some(x) else None, None, Nobody)]
  {
    var s1 := Do(s, u, CloseLock);
    var s2 := Do(s1, u, CloseDo);
    s' := Do(s2, u, CloseDone);
    steps := TakesMore(s2, u, CloseDone, [], s');
    steps := TakesMore(s1, u, CloseDo, steps, s');
    steps := TakesMore(s, u, CloseLock, steps, s');
  }

  /** A mount succeeds if and only if the device has a session that is not mounted, and alive, the mount is not denied,
      and the daemon sees it through; otherwise it leaves everything as it was. */
  lemma MountAlone(s: State, u: nat, d: nat, denied: bool, ok: bool) returns (steps: seq<Step>, s': State)
    requires Inv(s) && Clear(s, u, d)
    ensures steps != [] && steps[0] == MountBegin(d) && Takes(s, u, steps, s')
    ensures s'.threads == s.threads && s'.devices == s.devices && s'.mutex.None?
    ensures s.devices[d].data.Some? ==> s.devices[d].data.value < |s.sessions|
    ensures
      if s.devices[d].data.Some? && !s.sessions[s.devices[d].data.value].mounted
         && !s.sessions[s.devices[d].data.value].dead && !denied && ok
      then var x := s.devices[d].data.value;
        && s'.sessions == s.sessions[x := s.sessions[x].(mounted := true, mounter := Volume)]
        && s'.mountCount == s.mountCount + 1
      else s'.sessions == s.sessions && s'.mountCount == s.mountCount
  {
    assert DeviceOk(s, d);
    if s.devices[d].data.Some? { assert SessionOk(s, s.devices[d].data.value); }
    var s1 := Do(s, u, MountBegin(d));
    var s2 := Do(s1, u, MountLock);
    steps, s' := MountGoesOn(s2, u, d, denied, ok);
    steps := TakesMore(s1, u, MountLock, steps, s');
    steps := TakesMore(s, u, MountBegin(d), steps, s');
  }

  /** The rest of a mount that has the lock of its device. */
  lemma MountGoesOn(s: State, u: nat, d: nat, denied: bool, ok: bool) returns (steps: seq<Step>, s': State)
    requires !s.stopped && u < |s.threads| && s.threads[u] == MountIn(d) && d < |s.devices|
    requires s.devices[d].data.Some? ==>
      s.devices[d].data.value < |s.sessions|
      && var k := s.sessions[s.devices[d].data.value]; k.mounted || (k.isOpen && k.mounter.NotMounted?)
    ensures Takes(s, u, steps, s') && s'.threads == s.threads[u := Idle] && s'.mutex == s.mutex
    ensures s'.devices == s.devices[d := s.devices[d].(mtx := None)]
    ensures
      if s.devices[d].data.Some? && !s.sessions[s.devices[d].data.value].mounted
         && !s.sessions[s.devices[d].data.value].dead && !denied && ok
      then var x := s.devices[d].data.value;
        && s'.sessions == s.sessions[x := s.sessions[x].(mounted := true, mounter := Volume)]
        && s'.mountCount == s.mountCount + 1
      else s'.sessions == s.sessions && s'.mountCount == s.mountCount
  {
    var s1 := Do(s, u, MountDo(denied));
    if s.devices[d].data.None? || s.sessions[s.devices[d].data.value].mounted {
      s', steps := s1, [];
    } else if s.sessions[s.devices[d].data.value].dead || denied {
      steps, s' := FailAlone(s1, u, d);
    } else {
      var s2 := Do(s1, u, MountEnd(ok));
      if ok {
        s', steps := s2, [];
      } else {
        steps, s' := FailAlone(s2, u, d);
      }
      steps := TakesMore(s1, u, MountEnd(ok), steps, s');
    }
    steps := TakesMore(s, u, MountDo(denied), steps, s');
  }

  /** A mount of an opened session that failed is taken back. */
  lemma FailAlone(s: State, u: nat, d: nat) returns (steps: seq<Step>, s': State)
    requires !s.stopped && u < |s.threads| && s.threads[u].FailWant? && s.threads[u].d == d && s.threads[u].counted
    requires d < |s.devices| && s.devices[d].mtx.None? && s.devices[d].data.Some?
    requires s.devices[d].data.value < |s.sessions| && s.sessions[s.devices[d].data.value].isOpen
    ensures Takes(s, u, steps, s') && s'.mutex == s.mutex && s'.threads == s.threads[u := Idle]
    ensures s'.devices == s.devices && s'.mountCount == s.mountCount - 1
    ensures var x := s.devices[d].data.value;
      s'.sessions == s.sessions[x := s.sessions[x].(mounted := false, mounter := NotMounted)]
  {
    var s1 := Do(s, u, FailLock);
    s' := Do(s1, u, FailDo);
    steps := TakesMore(s1, u, FailDo, [], s');
    steps := TakesMore(s, u, FailLock, steps, s');
  }

  /** An unmount ends the mount; the session is dead. It is destroyed unless it is still opened. */
  lemma UnmountAlone(s: State, u: nat, x: nat) returns (steps: seq<Step>, s': State)
    requires Inv(s) && x < |s.sessions| && Clear(s, u, s.sessions[x].dev) && s.sessions[x].mounter.Volume?
    ensures steps != [] && steps[0] == UnmountBegin(x) && Takes(s, u, steps, s')
    ensures s'.threads == s.threads && s'.mutex.None? && s'.mountCount == s.mountCount - 1
    ensures |s'.sessions| == |s.sessions| && s'.sessions == s.sessions[x := s'.sessions[x]]
    ensures s'.sessions[x].dead && !s'.sessions[x].mounted && s'.sessions[x].isOpen == s.sessions[x].isOpen
    ensures s.sessions[x].freed == 0 && s'.sessions[x].freed == (if s.sessions[x].isOpen then 0 else 1)
    ensures var d := s.sessions[x].dev;
      s'.devices == s.devices[d := s.devices[d].(data := if s.sessions[x].isOpen then Some(x) else None)]
  {
    assert SessionOk(s, x);
    var s1 := Do(s, u, UnmountBegin(x));
    var s2 := Do(s1, u, UnmountLock);
    s' := Do(s2, u, UnmountDo);
    steps := TakesMore(s2, u, UnmountDo, [], s');
    steps := TakesMore(s1, u, UnmountLock, steps, s');
    steps := TakesMore(s, u, UnmountBegin(x), steps, s');
  }

  /** The session of a daemon that has gone is dead, and nothing else changes. */
  lemma DieAlone(s: State, u: nat, x: nat)
    requires Can(s, u, Die(x))
    ensures Do(s, u, Die(x)) == s.(sessions := s.sessions[x := s.sessions[x].(dead := true)])
  {
  }

  /** No device is in use, and no mount lingers. */
  predicate Unused(s: State, i: nat) {
    forall d | i <= d < |s.devices| :: s.devices[d].usecount == 0 && s.devices[d].data.None?
  }

  /** Stopping the interface succeeds if and only if no device is in use; otherwise it is available again. */
  lemma StopAlone(s: State, u: nat) returns (steps: seq<Step>, s': State)
    requires !s.stopped && u < |s.threads| && s.threads[u].Idle? && s.mutex.None?
    ensures steps != [] && steps[0] == StopBegin && Takes(s, u, steps, s')
    ensures s' == s.(stopped := Unused(s, 0), available := !Unused(s, 0))
  {
    var s1 := Do(s, u, StopBegin);
    var s2 := Do(s1, u, StopLock);
    steps, s' := ChecksAll(s2, u);
    steps := TakesMore(s1, u, StopLock, steps, s');
    steps := TakesMore(s, u, StopBegin, steps, s');
    assert s.threads[u := StopWant][u := StopIn(0)][u := Idle] == s.threads;
  }

  lemma {:induction false} ChecksAll(s: State, u: nat) returns (steps: seq<Step>, s': State)
    requires !s.stopped && u < |s.threads| && s.threads[u].StopIn? && !s.available
    ensures Takes(s, u, steps, s')
    ensures var unused := Unused(s, s.threads[u].i);
      s' == s.(stopped := unused, available := !unused, mutex := None, threads := s.threads[u := Idle])
    decreases |s.devices| - s.threads[u].i
  {
    var i, s1 := s.threads[u].i, Do(s, u, StopCheck);
    if s1.threads[u].Idle? {
      s', steps := s1, [];
    } else {
      steps, s' := ChecksAll(s1, u);
      assert s.threads[u := StopIn(i + 1)][u := Idle] == s.threads[u := Idle];
      assert Unused(s, i) <==> Unused(s, i + 1);
    }
    steps := TakesMore(s, u, StopCheck, steps, s');
  }

  // ----- opens, over every interleaving

  /** Of the opens of one thread in a run: those begun, the sessions made, and those refused. */
  datatype Tally = Tally(begun: nat, made: nat, refused: nat)

  /** u locks the table while the device is in use, or locks the device while it has a session. */
  predicate Refused(s: State, u: nat, step: Step)
    requires Can(s, u, step)
  {
    (step.OpenLock? && s.devices[s.threads[u].d].usecount != 0)
    || (step.OpenNestLock? && s.devices[s.threads[u].d].data.Some?)
  }

  /** What the step of v adds for u. */
  function Counted(s: State, v: nat, step: Step, u: nat): Tally
    requires Can(s, v, step)
  {
    if v != u then Tally(0, 0, 0)
    else Tally(if step.OpenBegin? then 1 else 0, if |Do(s, u, step).sessions| > |s.sessions| then 1 else 0,
               if Refused(s, u, step) then 1 else 0)
  }

  function Tallied(s: State, trace: seq<Event<Step>>, u: nat): Tally
    decreases |trace|
  {
    if trace == [] || !Can(s, trace[0].u, trace[0].step) then Tally(0, 0, 0)
    else
      var n := Counted(s, trace[0].u, trace[0].step, u);
      var m := Tallied(Do(s, trace[0].u, trace[0].step), trace[1..], u);
      Tally(n.begun + m.begun, n.made + m.made, n.refused + m.refused)
  }

  /** u is in an open that is not settled yet. */
  function Pending(s: State, u: nat): nat
    requires u < |s.threads|
  {
    match s.threads[u]
    case OpenWant(_) => 1
    case OpenNest(_) => 1
    case OpenIn(d) => if d < |s.devices| && s.devices[d].data.None? then 1 else 0
    case _ => 0
  }

  predicate Settled(s: State, n: Tally, s': State, u: nat)
    requires u < |s.threads| && u < |s'.threads|
  {
    Pending(s, u) + n.begun == n.made + n.refused + Pending(s', u)
  }

  lemma OwnStep(s: State, u: nat, step: Step)
    requires Can(s, u, step)
    ensures Settled(s, Counted(s, u, step, u), Do(s, u, step), u)
  {
  }

  predicate SetsData(step: Step) {
    step.OpenCheck? || step.CloseDo? || step.FailDo? || step.UnmountDo?
  }

  /** While u has the lock of its device, no other thread gives it a session or takes its session away. */
  lemma DataStays(s: State, v: nat, step: Step, u: nat)
    requires Can(s, v, step) && SetsData(step) && ThreadOk(s, v) && v != u && u < |s.threads|
    requires s.threads[u].OpenIn? ==> s.threads[u].d < |s.devices| && s.devices[s.threads[u].d].mtx == Some(u)
    ensures Pending(Do(s, v, step), u) == Pending(s, u)
  {
  }

  lemma OthersStep(s: State, v: nat, step: Step, u: nat)
    requires Can(s, v, step) && !SetsData(step) && v != u && u < |s.threads|
    ensures Pending(Do(s, v, step), u) == Pending(s, u)
  {
  }

  lemma StepSettled(s: State, v: nat, step: Step, u: nat)
    requires Inv(s) && Can(s, v, step) && u < |s.threads|
    ensures u < |Do(s, v, step).threads| && Settled(s, Counted(s, v, step, u), Do(s, v, step), u)
  {
    if v == u {
      OwnStep(s, u, step);
    } else if SetsData(step) {
      assert ThreadOk(s, u) && ThreadOk(s, v);
      DataStays(s, v, step, u);
    } else {
      OthersStep(s, v, step, u);
    }
  }

  /** Every open is settled once, in every run of any number of threads: it makes a session, or is refused because
      the device was in use when the table was locked, or had a session when the device was locked. */
  lemma {:induction false} OpensSettled(s: State, trace: seq<Event<Step>>, s': State, u: nat)
    requires Inv(s) && Runs(s, trace, s') && u < |s.threads|
    ensures u < |s'.threads| && Settled(s, Tallied(s, trace, u), s', u)
    decreases |trace|
  {
    if trace != [] {
      var v, step := trace[0].u, trace[0].step;
      StepSettled(s, v, step, u);
      Preserved(s, v, step);
      OpensSettled(Do(s, v, step), trace[1..], s', u);
    }
  }

  /** A session is made by the check of an open, for its device, open and not mounted. */
  lemma MadeIs(s: State, u: nat, step: Step)
    requires Inv(s) && Can(s, u, step)
    requires |Do(s, u, step).sessions| > |s.sessions|
    ensures var s1, d := Do(s, u, step), s.threads[u].d;
      && step.OpenCheck? && s.devices[d].data.None? && s1.devices[d].data == Some(|s.sessions|) && s1.threads[u].Idle?
      && s1.sessions == s.sessions + [Session(d, true, false, false, 0, NotMounted)] && s1.devices[d].usecount == 1
  {
    assert ThreadOk(s, u) && DeviceOk(s, s.threads[u].d);
  }
}
