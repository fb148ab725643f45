/** The promises of the device table over every interleaving of open, close, mount, unmount and stop. */
module DeviceTheorems {
  import opened DeviceLifecycle
  import opened DeviceSafety
  import opened Lists
  import opened Threads

  ghost predicate Runs(s: State, trace: seq<Event<Step>>, s': State)
    decreases |trace|
  {
    if trace == [] then s' == s
    else Can(s, trace[0].u, trace[0].step) && Runs(Do(s, trace[0].u, trace[0].step), trace[1..], s')
  }

  lemma {:induction false} RunsKeep(s: State, trace: seq<Event<Step>>, s': State)
    requires Inv(s) && Runs(s, trace, s')
    ensures Inv(s')
    decreases |trace|
  {
    if trace != [] {
      Preserved(s, trace[0].u, trace[0].step);
      RunsKeep(Do(s, trace[0].u, trace[0].step), trace[1..], s');
    }
  }

  /** s' can be reached from a fresh device table. */
  ghost predicate Reachable(s: State, trace: seq<Event<Step>>, s': State) {
    Start(s) && Runs(s, trace, s')
  }

  lemma ReachableInv(s: State, trace: seq<Event<Step>>, s': State)
    requires Reachable(s, trace, s')
    ensures Inv(s')
  {
    StartInv(s);
    RunsKeep(s, trace, s');
  }

  lemma UseCounts(s: State, trace: seq<Event<Step>>, s': State, d: nat)
    requires Reachable(s, trace, s') && d < |s'.devices|
    ensures s'.devices[d].usecount == 0 || s'.devices[d].usecount == 1
    ensures s'.devices[d].data.Some? ==>
      s'.devices[d].data.value < |s'.sessions| && var k := s'.sessions[s'.devices[d].data.value]; k.isOpen || k.mounted
  {
    ReachableInv(s, trace, s');
    assert DeviceOk(s', d);
  }

  /** A session lives, on its own device, while it is opened or mounted, and has been destroyed just once when
      it is neither. */
  lemma FreedOnce(s: State, trace: seq<Event<Step>>, s': State, x: nat)
    requires Reachable(s, trace, s') && x < |s'.sessions|
    ensures var k := s'.sessions[x];
      && k.dev < |s'.devices|
      && k.freed == (if k.isOpen || k.mounted then 0 else 1)
      && (k.freed == 0 <==> s'.devices[k.dev].data == Some(x))
  {
    ReachableInv(s, trace, s');
    assert SessionOk(s', x) && DeviceOk(s', s'.sessions[x].dev);
  }

  /** The panic of fuse_device_close on a device without data cannot happen. */
  lemma NoPanic(s: State, trace: seq<Event<Step>>, s': State, u: nat)
    requires Reachable(s, trace, s') && u < |s'.threads|
    ensures !s'.threads[u].Panic?
    ensures forall d | 0 <= d < |s'.devices| && s'.devices[d].user.Opener? :: s'.devices[d].data.Some?
  {
    ReachableInv(s, trace, s');
    assert ThreadOk(s', u);
    forall d | 0 <= d < |s'.devices| && s'.devices[d].user.Opener?
      ensures s'.devices[d].data.Some?
    {
      assert DeviceOk(s', d);
    }
  }

  lemma MountCount(s: State, trace: seq<Event<Step>>, s': State)
    requires Reachable(s, trace, s')
    ensures s'.mountCount == Mounted(s'.sessions)
  {
    ReachableInv(s, trace, s');
  }

  /** fuse_devices_stop succeeds only when no device is in use and no session is left. */
  lemma StopFindsNothing(s: State, trace: seq<Event<Step>>, s': State, u: nat)
    requires Reachable(s, trace, s') && Can(s', u, StopCheck) && Do(s', u, StopCheck).stopped
    ensures forall d | 0 <= d < |s'.devices| :: s'.devices[d].usecount == 0 && s'.devices[d].data.None?
    ensures forall x | 0 <= x < |s'.sessions| :: s'.sessions[x].freed == 1
  {
    ReachableInv(s, trace, s');
    assert ThreadOk(s', u);
    forall d | 0 <= d < |s'.devices|
      ensures s'.devices[d].usecount == 0 && s'.devices[d].data.None?
    {
      assert DeviceOk(s', d);
    }
    forall x | 0 <= x < |s'.sessions|
      ensures s'.sessions[x].freed == 1
    {
      assert SessionOk(s', x);
    }
  }

  // ----- waiting

  predicate WantsAll(p: Pc) {
    p.OpenWant? || p.OpenBusy? || p.CloseEnd? || p.StopWant?
  }

  predicate WantsOne(p: Pc) {
    p.OpenNest? || p.CloseWant? || p.MountWant? || p.FailWant? || p.UnmountWant?
  }

  /** Thread u waits for a mutex that thread v has. */
  predicate Waits(s: State, u: nat, v: nat) {
    && u < |s.threads| && v < |s.threads|
    && var p := s.threads[u];
    (WantsAll(p) && s.mutex == Some(v)) || (WantsOne(p) && p.d < |s.devices| && s.devices[p.d].mtx == Some(v))
  }

  /** Only an open can wait while it has a mutex. The usecount keeps two of them from one device. */
  lemma ChainEnds(s: State, a: nat, b: nat, c: nat, d: nat, e: nat)
    requires Inv(s) && Waits(s, a, b) && Waits(s, b, c) && Waits(s, c, d)
    ensures !Waits(s, d, e)
  {
    assert ThreadOk(s, a) && ThreadOk(s, b) && ThreadOk(s, c) && ThreadOk(s, d);
    forall x | x in {a, b, c} && DeviceOf(s.threads[x]).Some?
      ensures DeviceOk(s, s.threads[x].d)
    {
    }
  }

  /** Entry i of the cycle waits for the next one. */
  predicate WaitsAt(s: State, cycle: seq<nat>, i: nat)
    requires i < |cycle|
  {
    Waits(s, cycle[i], cycle[Succ(|cycle|, i)])
  }

  /** However many threads and devices: no cycle of threads, each waiting for a mutex that the next one has. */
  lemma NoWaitCycle(s: State, trace: seq<Event<Step>>, s': State, cycle: seq<nat>)
    requires Reachable(s, trace, s') && |cycle| > 0
    ensures exists i | 0 <= i < |cycle| :: !WaitsAt(s', cycle, i)
  {
    ReachableInv(s, trace, s');
    var n := |cycle|;
    var b := Succ(n, 0);
    var c := Succ(n, b);
    var d := Succ(n, c);
    if WaitsAt(s', cycle, 0) && WaitsAt(s', cycle, b) && WaitsAt(s', cycle, c) {
      ChainEnds(s', cycle[0], cycle[b], cycle[c], cycle[d], cycle[Succ(n, d)]);
      assert !WaitsAt(s', cycle, d);
    }
  }

  /** The step that a thread takes next unless it waits. */
  function Next(p: Pc): Step
    requires !p.Idle? && !p.Panic?
  {
    match p
    case OpenWant(_) => OpenLock
    case OpenNest(_) => OpenNestLock
    case OpenIn(_) => OpenCheck
    case OpenBusy(_) => OpenBusyLock
    case CloseWant(_, _) => CloseLock
    case CloseIn(_, _) => CloseDo
    case CloseEnd(_) => CloseDone
    case MountWant(_) => MountLock
    case MountIn(_) => MountDo(false)
    case Mounting(_, _) => MountEnd(true)
    case FailWant(_, _, _) => FailLock
    case FailIn(_, _, _) => FailDo
    case UnmountWant(_, _) => UnmountLock
    case UnmountIn(_, _) => UnmountDo
    case StopWant => StopLock
    case StopIn(_) => StopCheck
  }

  lemma MovesOrWaits(s: State, u: nat) returns (v: nat)
    requires Inv(s) && !s.stopped && u < |s.threads| && !s.threads[u].Idle?
    ensures !s.threads[u].Panic? && (Can(s, u, Next(s.threads[u])) || (Waits(s, u, v) && !s.threads[v].Idle?))
  {
    assert ThreadOk(s, u);
    var p := s.threads[u];
    if DeviceOf(p).Some? { assert DeviceOk(s, p.d); }
    v := if WantsAll(p) && s.mutex.Some? then s.mutex.value
         else if WantsOne(p) && s.devices[p.d].mtx.Some? then s.devices[p.d].mtx.value else 0;
  }

  /** While any operation is under way, some thread that is under way can take a step. */
  lemma SomeoneMoves(s: State, trace: seq<Event<Step>>, s': State, u: nat) returns (v: nat)
    requires Reachable(s, trace, s') && !s'.stopped && u < |s'.threads| && !s'.threads[u].Idle?
    ensures v < |s'.threads| && !s'.threads[v].Idle? && !s'.threads[v].Panic? && Can(s', v, Next(s'.threads[v]))
  {
    ReachableInv(s, trace, s');
    var b := MovesOrWaits(s', u);
    if Can(s', u, Next(s'.threads[u])) { return u; }
    var c := MovesOrWaits(s', b);
    if Can(s', b, Next(s'.threads[b])) { return b; }
    var d := MovesOrWaits(s', c);
    if Can(s', c, Next(s'.threads[c])) { return c; }
    var e := MovesOrWaits(s', d);
    ChainEnds(s', u, b, c, d, e);
    return d;
  }
}
