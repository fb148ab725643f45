/** What every step on the device table keeps. */
module DeviceSafety {
  import opened DeviceLifecycle
  import opened Lists

  /** The thread accounts for the usecount of its device. */
  predicate Uses(p: Pc) {
    p.OpenNest? || p.OpenIn? || p.OpenBusy? || p.CloseWant? || p.CloseIn? || p.CloseEnd?
  }

  /** The thread has locked the mtx of its device. */
  predicate Locks(p: Pc) {
    p.OpenIn? || p.OpenBusy? || p.CloseIn? || p.MountIn? || p.FailIn? || p.UnmountIn?
  }

  /** The thread has locked fuse_device_mutex. */
  predicate LocksAll(p: Pc) {
    p.OpenNest? || p.StopIn?
  }

  /** The thread will clear mounted. */
  predicate Mounts(p: Pc) {
    p.Mounting? || p.FailWant? || p.FailIn? || p.UnmountWant? || p.UnmountIn?
  }

  predicate Closes(p: Pc) {
    p.CloseWant? || p.CloseIn?
  }

  ghost predicate DeviceOk(s: State, d: nat)
    requires d < |s.devices|
  {
    var v := s.devices[d];
    && v.usecount == (if v.user.Nobody? then 0 else 1)
    && (v.user.Thread? ==> v.user.u < |s.threads| && Uses(s.threads[v.user.u]) && s.threads[v.user.u].d == d)
    && (v.mtx.Some? ==> v.mtx.value < |s.threads| && Locks(s.threads[v.mtx.value]) && s.threads[v.mtx.value].d == d)
    && (v.data.Some? ==> v.data.value < |s.sessions| && Published(s, d, v.data.value))
    && (v.user.Opener? ==> v.data.Some? && s.sessions[v.data.value].isOpen)
  }

  /** The session of a device is alive, opened or mounted; opened until the close of the file has begun. */
  ghost predicate Published(s: State, d: nat, x: nat)
    requires d < |s.devices| && x < |s.sessions|
  {
    var v, k := s.devices[d], s.sessions[x];
    && k.dev == d && k.freed == 0 && (k.isOpen || k.mounted)
    && (k.isOpen ==> v.user.Opener? || (v.user.Thread? && v.user.u < |s.threads|
                                        && Closes(s.threads[v.user.u]) && s.threads[v.user.u].x == x))
  }

  ghost predicate SessionOk(s: State, x: nat)
    requires x < |s.sessions|
  {
    var k := s.sessions[x];
    && k.dev < |s.devices| && (k.freed == 0 || (k.freed == 1 && !k.isOpen && !k.mounted))
    && (k.freed == 0 <==> s.devices[k.dev].data == Some(x))
    && (k.mounted <==> !k.mounter.NotMounted?)
    && (k.mounter.By? ==> k.mounter.u < |s.threads| && Mounts(s.threads[k.mounter.u]) && s.threads[k.mounter.u].x == x)
  }

  ghost predicate ThreadOk(s: State, u: nat)
    requires u < |s.threads|
  {
    var p := s.threads[u];
    && !p.Panic?
    && (DeviceOf(p).Some? ==> p.d < |s.devices|)
    && (Uses(p) ==> s.devices[p.d].user == Thread(u))
    && (Locks(p) ==> s.devices[p.d].mtx == Some(u))
    && (LocksAll(p) ==> s.mutex == Some(u))
    && (Closes(p) ==> s.devices[p.d].data == Some(p.x) && p.x < |s.sessions| && s.sessions[p.x].isOpen)
    && (Mounts(p) ==> p.x < |s.sessions| && s.sessions[p.x].dev == p.d && s.sessions[p.x].mounter == By(u))
    && (p.FailWant? || p.FailIn? ==> p.counted)
    && (p.StopIn? ==>
      forall j | 0 <= j < p.i && j < |s.devices| :: s.devices[j].user.Nobody? && s.devices[j].data.None?)
  }

  function Mounted(a: seq<Session>): nat {
    if a == [] then 0 else Mounted(a[1..]) + if a[0].mounted then 1 else 0
  }

  ghost predicate Inv(s: State) {
    && (forall d | 0 <= d < |s.devices| :: DeviceOk(s, d))
    && (forall x | 0 <= x < |s.sessions| :: SessionOk(s, x))
    && (forall u | 0 <= u < |s.threads| :: ThreadOk(s, u))
    && (s.mutex.Some? ==> s.mutex.value < |s.threads| && LocksAll(s.threads[s.mutex.value]))
    && s.mountCount == Mounted(s.sessions)
  }

  predicate Start(s: State) {
    && s.sessions == [] && s.mutex.None? && s.mountCount == 0 && s.available && !s.stopped
    && (forall d | 0 <= d < |s.devices| :: s.devices[d] == Device(0, None, None, Nobody))
    && (forall u | 0 <= u < |s.threads| :: s.threads[u].Idle?)
  }

  lemma StartInv(s: State)
    requires Start(s)
    ensures Inv(s)
  {
  }

  lemma {:induction false} MountedSet(a: seq<Session>, x: nat, k: Session)
    requires x < |a|
    ensures Mounted(a[x := k]) + (if a[x].mounted then 1 else 0) == Mounted(a) + if k.mounted then 1 else 0
  {
    if x == 0 {
      assert a[x := k][1..] == a[1..];
    } else {
      MountedSet(a[1..], x - 1, k);
      assert a[x := k][1..] == a[1..][x - 1 := k];
    }
  }

  lemma {:induction false} MountedAppend(a: seq<Session>, k: Session)
    ensures Mounted(a + [k]) == Mounted(a) + if k.mounted then 1 else 0
  {
    if a != [] {
      MountedAppend(a[1..], k);
      assert (a + [k])[1..] == a[1..] + [k];
    }
  }

  // ----- a step touches one thread, one device and at most one session

  /** The session a thread depends on. */
  predicate Names(p: Pc, x: nat) {
    (Closes(p) || Mounts(p)) && p.x == x
  }

  /** x is |s'.sessions| if no session is touched. */
  ghost predicate Touches(s: State, s': State, u: nat, d: nat, x: nat) {
    && u < |s.threads| == |s'.threads| && d < |s.devices| == |s'.devices| && |s.sessions| <= |s'.sessions|
    && x <= |s'.sessions| && (|s'.sessions| == |s.sessions| || (x == |s.sessions| && |s'.sessions| == x + 1))
    && (forall v | 0 <= v < |s.threads| && v != u :: s'.threads[v] == s.threads[v])
    && (forall e | 0 <= e < |s.devices| && e != d :: s'.devices[e] == s.devices[e])
    && (forall y | 0 <= y < |s.sessions| && y != x :: s'.sessions[y] == s.sessions[y])
    && (x < |s.sessions| ==> s.sessions[x].dev == d) && (x < |s'.sessions| ==> s'.sessions[x].dev == d)
    && ((DeviceOf(s.threads[u]).None? && DeviceOf(s'.threads[u]).None?)
        || ((DeviceOf(s.threads[u]).None? || s.threads[u].d == d)
            && (DeviceOf(s'.threads[u]).None? || s'.threads[u].d == d)))
    && (Mounts(s.threads[u]) ==> s.threads[u].x == x)
  }

  /** What the other threads rely on stays. */
  ghost predicate Leaves(s: State, s': State, u: nat, d: nat, x: nat)
    requires Touches(s, s', u, d, x)
  {
    var v, v' := s.devices[d], s'.devices[d];
    && (v.user.Thread? && v.user.u != u ==> v'.user == v.user)
    && (v.user.Thread? && v.user.u != u && v.user.u < |s.threads| && Closes(s.threads[v.user.u]) ==>
      v'.data == v.data && (x < |s.sessions| && s.sessions[x].isOpen ==> s'.sessions[x].isOpen))
    && (v.mtx.Some? && v.mtx.value != u ==> v'.mtx == v.mtx)
    && (s.mutex.Some? && s.mutex.value != u ==>
      s'.mutex == s.mutex && (v.user.Nobody? && v.data.None? ==> v'.user.Nobody? && v'.data.None?))
    && (v'.data == v.data || ((v.data.None? || v.data.value == x) && (v'.data.None? || v'.data.value == x)))
    && (x < |s.sessions| && s.sessions[x].mounter.By? && s.sessions[x].mounter.u != u ==>
      s'.sessions[x].mounter == s.sessions[x].mounter)
  }

  lemma LocalThread(s: State, s': State, u: nat, d: nat, x: nat, v: nat)
    requires Inv(s) && Touches(s, s', u, d, x) && Leaves(s, s', u, d, x) && v < |s.threads| && v != u
    ensures ThreadOk(s', v)
  {
    assert ThreadOk(s, v);
    if DeviceOf(s.threads[v]).Some? {
      assert DeviceOk(s, s.threads[v].d);
    }
  }

  lemma LocalDevice(s: State, s': State, u: nat, d: nat, x: nat, e: nat)
    requires Inv(s) && Touches(s, s', u, d, x) && e < |s.devices| && e != d
    ensures DeviceOk(s', e)
  {
    assert DeviceOk(s, e) && ThreadOk(s, u);
  }

  lemma LocalSession(s: State, s': State, u: nat, d: nat, x: nat, y: nat)
    requires Inv(s) && Touches(s, s', u, d, x) && Leaves(s, s', u, d, x) && y < |s'.sessions| && y != x
    ensures SessionOk(s', y)
  {
    assert SessionOk(s, y) && ThreadOk(s, u) && DeviceOk(s, d);
  }

  /** What the invariant says of the thread, device and session in hand, and of the user of the device. */
  ghost predicate Facts(s: State, u: nat, d: nat, x: nat) {
    && u < |s.threads| && d < |s.devices| && ThreadOk(s, u) && DeviceOk(s, d)
    && (x < |s.sessions| ==> SessionOk(s, x))
    && (s.devices[d].user.Thread? ==> ThreadOk(s, s.devices[d].user.u))
    && (s.mutex.Some? ==> s.mutex.value < |s.threads| && LocksAll(s.threads[s.mutex.value]))
  }

  ghost predicate Fits(s: State, s': State, u: nat, d: nat, x: nat) {
    && Touches(s, s', u, d, x) && Leaves(s, s', u, d, x)
    && DeviceOk(s', d) && (x < |s'.sessions| ==> SessionOk(s', x)) && ThreadOk(s', u)
    && (s'.mutex.Some? ==> s'.mutex.value < |s'.threads| && LocksAll(s'.threads[s'.mutex.value]))
  }

  lemma Local(s: State, s': State, u: nat, d: nat, x: nat)
    requires Inv(s) && Fits(s, s', u, d, x) && s'.mountCount == Mounted(s'.sessions)
    ensures Inv(s')
  {
    forall v | 0 <= v < |s'.threads| && v != u
      ensures ThreadOk(s', v)
    {
      LocalThread(s, s', u, d, x, v);
    }
    forall e | 0 <= e < |s'.devices| && e != d
      ensures DeviceOk(s', e)
    {
      LocalDevice(s, s', u, d, x, e);
    }
    forall y | 0 <= y < |s'.sessions| && y != x
      ensures SessionOk(s', y)
    {
      LocalSession(s, s', u, d, x, y);
    }
  }

  lemma OpenBeginFits(s: State, u: nat, dev: nat)
    requires Can(s, u, OpenBegin(dev)) && Facts(s, u, dev, |s.sessions|)
    ensures Fits(s, Do(s, u, OpenBegin(dev)), u, dev, |Do(s, u, OpenBegin(dev)).sessions|)
  {
  }

  lemma StepOpenBegin(s: State, u: nat, dev: nat)
    requires Inv(s) && Can(s, u, OpenBegin(dev))
    ensures Inv(Do(s, u, OpenBegin(dev)))
  {
    var s', d := Do(s, u, OpenBegin(dev)), dev;
    assert ThreadOk(s, u) && DeviceOk(s, d);
    OpenBeginFits(s, u, dev);
    Local(s, s', u, d, |s'.sessions|);
  }

  lemma OpenLockFits(s: State, u: nat)
    requires Can(s, u, OpenLock) && Facts(s, u, s.threads[u].d, |s.sessions|)
    ensures Fits(s, Do(s, u, OpenLock), u, s.threads[u].d, |Do(s, u, OpenLock).sessions|)
  {
  }

  lemma StepOpenLock(s: State, u: nat)
    requires Inv(s) && Can(s, u, OpenLock)
    ensures Inv(Do(s, u, OpenLock))
  {
    var s', d := Do(s, u, OpenLock), s.threads[u].d;
    assert ThreadOk(s, u) && DeviceOk(s, d);
    OpenLockFits(s, u);
    Local(s, s', u, d, |s'.sessions|);
  }

  lemma OpenNestLockFits(s: State, u: nat)
    requires Can(s, u, OpenNestLock) && Facts(s, u, s.threads[u].d, |s.sessions|)
    ensures Fits(s, Do(s, u, OpenNestLock), u, s.threads[u].d, |Do(s, u, OpenNestLock).sessions|)
  {
  }

  lemma StepOpenNestLock(s: State, u: nat)
    requires Inv(s) && Can(s, u, OpenNestLock)
    ensures Inv(Do(s, u, OpenNestLock))
  {
    var s', d := Do(s, u, OpenNestLock), s.threads[u].d;
    assert ThreadOk(s, u) && DeviceOk(s, d);
    OpenNestLockFits(s, u);
    Local(s, s', u, d, |s'.sessions|);
  }

  lemma OpenCheckFits(s: State, u: nat)
    requires Can(s, u, OpenCheck) && Facts(s, u, s.threads[u].d, |s.sessions|)
    ensures Fits(s, Do(s, u, OpenCheck), u, s.threads[u].d, |s.sessions|)
  {
  }

  lemma StepOpenCheck(s: State, u: nat)
    requires Inv(s) && Can(s, u, OpenCheck)
    ensures Inv(Do(s, u, OpenCheck))
  {
    var s', d := Do(s, u, OpenCheck), s.threads[u].d;
    assert ThreadOk(s, u) && DeviceOk(s, d);
    OpenCheckFits(s, u);
    MountedAppend(s.sessions, Session(d, true, false, false, 0, NotMounted));
    Local(s, s', u, d, |s.sessions|);
  }

  lemma OpenBusyLockFits(s: State, u: nat)
    requires Can(s, u, OpenBusyLock) && Facts(s, u, s.threads[u].d, |s.sessions|)
    ensures Fits(s, Do(s, u, OpenBusyLock), u, s.threads[u].d, |Do(s, u, OpenBusyLock).sessions|)
  {
  }

  lemma StepOpenBusyLock(s: State, u: nat)
    requires Inv(s) && Can(s, u, OpenBusyLock)
    ensures Inv(Do(s, u, OpenBusyLock))
  {
    var s', d := Do(s, u, OpenBusyLock), s.threads[u].d;
    assert ThreadOk(s, u) && DeviceOk(s, d);
    OpenBusyLockFits(s, u);
    Local(s, s', u, d, |s'.sessions|);
  }

  lemma CloseBeginFits(s: State, u: nat, dev: nat, x: nat)
    requires Can(s, u, CloseBegin(dev)) && Facts(s, u, dev, x) && s.devices[dev].data == Some(x)
    ensures Fits(s, Do(s, u, CloseBegin(dev)), u, dev, x)
  {
  }

  lemma StepCloseBegin(s: State, u: nat, dev: nat)
    requires Inv(s) && Can(s, u, CloseBegin(dev))
    ensures Inv(Do(s, u, CloseBegin(dev)))
  {
    assert ThreadOk(s, u) && DeviceOk(s, dev);
    var s', x := Do(s, u, CloseBegin(dev)), s.devices[dev].data.value;
    assert SessionOk(s, x);
    CloseBeginFits(s, u, dev, x);
    MountedSet(s.sessions, x, s'.sessions[x]);
    Local(s, s', u, dev, x);
  }

  lemma CloseLockFits(s: State, u: nat)
    requires Can(s, u, CloseLock) && Facts(s, u, s.threads[u].d, s.threads[u].x)
    ensures Fits(s, Do(s, u, CloseLock), u, s.threads[u].d, s.threads[u].x)
  {
  }

  lemma StepCloseLock(s: State, u: nat)
    requires Inv(s) && Can(s, u, CloseLock)
    ensures Inv(Do(s, u, CloseLock))
  {
    assert ThreadOk(s, u) && SessionOk(s, s.threads[u].x);
    var s', d := Do(s, u, CloseLock), s.threads[u].d;
    assert ThreadOk(s, u) && DeviceOk(s, d);
    CloseLockFits(s, u);
    Local(s, s', u, d, s.threads[u].x);
  }

  lemma CloseDoLast(s: State, u: nat)
    requires Can(s, u, CloseDo) && Facts(s, u, s.threads[u].d, s.threads[u].x)
    requires s.threads[u].x < |s.sessions| && !s.sessions[s.threads[u].x].mounted
    ensures Fits(s, Do(s, u, CloseDo), u, s.threads[u].d, s.threads[u].x)
  {
  }

  lemma CloseDoFits(s: State, u: nat)
    requires Can(s, u, CloseDo) && Facts(s, u, s.threads[u].d, s.threads[u].x)
    ensures Fits(s, Do(s, u, CloseDo), u, s.threads[u].d, s.threads[u].x)
  {
    if s.threads[u].x < |s.sessions| && !s.sessions[s.threads[u].x].mounted {
      CloseDoLast(s, u);
    }
  }

  lemma StepCloseDo(s: State, u: nat)
    requires Inv(s) && Can(s, u, CloseDo)
    ensures Inv(Do(s, u, CloseDo))
  {
    var x := s.threads[u].x;
    assert ThreadOk(s, u) && SessionOk(s, x);
    var s', d := Do(s, u, CloseDo), s.threads[u].d;
    assert ThreadOk(s, u) && DeviceOk(s, d);
    CloseDoFits(s, u);
    assert s'.sessions == s.sessions[x := s'.sessions[x]];
    MountedSet(s.sessions, x, s'.sessions[x]);
    Local(s, s', u, d, s.threads[u].x);
  }

  lemma CloseDoneFits(s: State, u: nat)
    requires Can(s, u, CloseDone) && Facts(s, u, s.threads[u].d, |s.sessions|)
    ensures Fits(s, Do(s, u, CloseDone), u, s.threads[u].d, |Do(s, u, CloseDone).sessions|)
  {
  }

  lemma StepCloseDone(s: State, u: nat)
    requires Inv(s) && Can(s, u, CloseDone)
    ensures Inv(Do(s, u, CloseDone))
  {
    var s', d := Do(s, u, CloseDone), s.threads[u].d;
    assert ThreadOk(s, u) && DeviceOk(s, d);
    CloseDoneFits(s, u);
    Local(s, s', u, d, |s'.sessions|);
  }

  lemma MountBeginFits(s: State, u: nat, dev: nat)
    requires Can(s, u, MountBegin(dev)) && Facts(s, u, dev, |s.sessions|)
    ensures Fits(s, Do(s, u, MountBegin(dev)), u, dev, |Do(s, u, MountBegin(dev)).sessions|)
  {
  }

  lemma StepMountBegin(s: State, u: nat, dev: nat)
    requires Inv(s) && Can(s, u, MountBegin(dev))
    ensures Inv(Do(s, u, MountBegin(dev)))
  {
    var s', d := Do(s, u, MountBegin(dev)), dev;
    assert ThreadOk(s, u) && DeviceOk(s, d);
    MountBeginFits(s, u, dev);
    Local(s, s', u, d, |s'.sessions|);
  }

  lemma MountLockFits(s: State, u: nat)
    requires Can(s, u, MountLock) && Facts(s, u, s.threads[u].d, |s.sessions|)
    ensures Fits(s, Do(s, u, MountLock), u, s.threads[u].d, |Do(s, u, MountLock).sessions|)
  {
  }

  lemma StepMountLock(s: State, u: nat)
    requires Inv(s) && Can(s, u, MountLock)
    ensures Inv(Do(s, u, MountLock))
  {
    var s', d := Do(s, u, MountLock), s.threads[u].d;
    assert ThreadOk(s, u) && DeviceOk(s, d);
    MountLockFits(s, u);
    Local(s, s', u, d, |s'.sessions|);
  }

  lemma MountRefusedFits(s: State, u: nat, denied: bool)
    requires Can(s, u, MountDo(denied)) && Facts(s, u, s.threads[u].d, |s.sessions|)
    requires var data := s.devices[s.threads[u].d].data; data.None? || s.sessions[data.value].mounted
    ensures Fits(s, Do(s, u, MountDo(denied)), u, s.threads[u].d, |s.sessions|)
  {
  }

  lemma MountTakenFits(s: State, u: nat, denied: bool, x: nat)
    requires Can(s, u, MountDo(denied)) && Facts(s, u, s.threads[u].d, x)
    requires s.devices[s.threads[u].d].data == Some(x) && !s.sessions[x].mounted
    ensures Fits(s, Do(s, u, MountDo(denied)), u, s.threads[u].d, x)
    ensures s.sessions[x].isOpen
  {
  }

  lemma StepMountDo(s: State, u: nat, denied: bool)
    requires Inv(s) && Can(s, u, MountDo(denied))
    ensures Inv(Do(s, u, MountDo(denied)))
  {
    var s', d := Do(s, u, MountDo(denied)), s.threads[u].d;
    assert ThreadOk(s, u) && DeviceOk(s, d);
    if s.devices[d].data.None? || s.sessions[s.devices[d].data.value].mounted {
      MountRefusedFits(s, u, denied);
      Local(s, s', u, d, |s.sessions|);
    } else {
      var x := s.devices[d].data.value;
      assert SessionOk(s, x);
      MountTakenFits(s, u, denied, x);
      MountedSet(s.sessions, x, s'.sessions[x]);
      Local(s, s', u, d, x);
    }
  }

  lemma MountEndFits(s: State, u: nat, ok: bool)
    requires Can(s, u, MountEnd(ok)) && Facts(s, u, s.threads[u].d, s.threads[u].x)
    ensures Fits(s, Do(s, u, MountEnd(ok)), u, s.threads[u].d, s.threads[u].x)
  {
  }

  lemma StepMountEnd(s: State, u: nat, ok: bool)
    requires Inv(s) && Can(s, u, MountEnd(ok))
    ensures Inv(Do(s, u, MountEnd(ok)))
  {
    var x := s.threads[u].x;
    assert ThreadOk(s, u) && SessionOk(s, x);
    var s', d := Do(s, u, MountEnd(ok)), s.threads[u].d;
    assert ThreadOk(s, u) && DeviceOk(s, d);
    MountEndFits(s, u, ok);
    if ok { MountedSet(s.sessions, x, s'.sessions[x]); }
    Local(s, s', u, d, s.threads[u].x);
  }

  lemma FailLockFits(s: State, u: nat)
    requires Can(s, u, FailLock) && Facts(s, u, s.threads[u].d, s.threads[u].x)
    ensures Fits(s, Do(s, u, FailLock), u, s.threads[u].d, s.threads[u].x)
  {
  }

  lemma StepFailLock(s: State, u: nat)
    requires Inv(s) && Can(s, u, FailLock)
    ensures Inv(Do(s, u, FailLock))
  {
    assert ThreadOk(s, u) && SessionOk(s, s.threads[u].x);
    var s', d := Do(s, u, FailLock), s.threads[u].d;
    assert ThreadOk(s, u) && DeviceOk(s, d);
    FailLockFits(s, u);
    Local(s, s', u, d, s.threads[u].x);
  }

  lemma FailDoLast(s: State, u: nat)
    requires Can(s, u, FailDo) && Facts(s, u, s.threads[u].d, s.threads[u].x)
    requires s.threads[u].x < |s.sessions| && !s.sessions[s.threads[u].x].isOpen
    ensures Fits(s, Do(s, u, FailDo), u, s.threads[u].d, s.threads[u].x)
  {
  }

  lemma FailDoFits(s: State, u: nat)
    requires Can(s, u, FailDo) && Facts(s, u, s.threads[u].d, s.threads[u].x)
    ensures Fits(s, Do(s, u, FailDo), u, s.threads[u].d, s.threads[u].x)
  {
    if s.threads[u].x < |s.sessions| && !s.sessions[s.threads[u].x].isOpen {
      FailDoLast(s, u);
    }
  }

  lemma StepFailDo(s: State, u: nat)
    requires Inv(s) && Can(s, u, FailDo)
    ensures Inv(Do(s, u, FailDo))
  {
    var x := s.threads[u].x;
    assert ThreadOk(s, u) && SessionOk(s, x);
    var s', d := Do(s, u, FailDo), s.threads[u].d;
    assert ThreadOk(s, u) && DeviceOk(s, d);
    FailDoFits(s, u);
    assert s'.sessions == s.sessions[x := s'.sessions[x]];
    MountedSet(s.sessions, x, s'.sessions[x]);
    Local(s, s', u, d, s.threads[u].x);
  }

  lemma UnmountBeginFits(s: State, u: nat, x: nat)
    requires Can(s, u, UnmountBegin(x)) && Facts(s, u, s.sessions[x].dev, x)
    ensures Fits(s, Do(s, u, UnmountBegin(x)), u, s.sessions[x].dev, x)
  {
  }

  lemma StepUnmountBegin(s: State, u: nat, x: nat)
    requires Inv(s) && Can(s, u, UnmountBegin(x))
    ensures Inv(Do(s, u, UnmountBegin(x)))
  {
    assert SessionOk(s, x);
    var s', d := Do(s, u, UnmountBegin(x)), s.sessions[x].dev;
    assert ThreadOk(s, u) && DeviceOk(s, d);
    UnmountBeginFits(s, u, x);
    MountedSet(s.sessions, x, s'.sessions[x]);
    Local(s, s', u, d, x);
  }

  lemma UnmountLockFits(s: State, u: nat)
    requires Can(s, u, UnmountLock) && Facts(s, u, s.threads[u].d, s.threads[u].x)
    ensures Fits(s, Do(s, u, UnmountLock), u, s.threads[u].d, s.threads[u].x)
  {
  }

  lemma StepUnmountLock(s: State, u: nat)
    requires Inv(s) && Can(s, u, UnmountLock)
    ensures Inv(Do(s, u, UnmountLock))
  {
    assert ThreadOk(s, u) && SessionOk(s, s.threads[u].x);
    var s', d := Do(s, u, UnmountLock), s.threads[u].d;
    assert ThreadOk(s, u) && DeviceOk(s, d);
    UnmountLockFits(s, u);
    Local(s, s', u, d, s.threads[u].x);
  }

  lemma UnmountDoLast(s: State, u: nat)
    requires Can(s, u, UnmountDo) && Facts(s, u, s.threads[u].d, s.threads[u].x)
    requires s.threads[u].x < |s.sessions| && !s.sessions[s.threads[u].x].isOpen
    ensures Fits(s, Do(s, u, UnmountDo), u, s.threads[u].d, s.threads[u].x)
  {
  }

  lemma UnmountDoFits(s: State, u: nat)
    requires Can(s, u, UnmountDo) && Facts(s, u, s.threads[u].d, s.threads[u].x)
    ensures Fits(s, Do(s, u, UnmountDo), u, s.threads[u].d, s.threads[u].x)
  {
    if s.threads[u].x < |s.sessions| && !s.sessions[s.threads[u].x].isOpen {
      UnmountDoLast(s, u);
    }
  }

  lemma StepUnmountDo(s: State, u: nat)
    requires Inv(s) && Can(s, u, UnmountDo)
    ensures Inv(Do(s, u, UnmountDo))
  {
    var x := s.threads[u].x;
    assert ThreadOk(s, u) && SessionOk(s, x);
    var s', d := Do(s, u, UnmountDo), s.threads[u].d;
    assert ThreadOk(s, u) && DeviceOk(s, d);
    UnmountDoFits(s, u);
    assert s'.sessions == s.sessions[x := s'.sessions[x]];
    MountedSet(s.sessions, x, s'.sessions[x]);
    Local(s, s', u, d, s.threads[u].x);
  }

  lemma DieFits(s: State, u: nat, x: nat)
    requires Can(s, u, Die(x)) && Facts(s, u, s.sessions[x].dev, x)
    ensures Fits(s, Do(s, u, Die(x)), u, s.sessions[x].dev, x)
  {
  }

  lemma StepDie(s: State, u: nat, x: nat)
    requires Inv(s) && Can(s, u, Die(x))
    ensures Inv(Do(s, u, Die(x)))
  {
    assert SessionOk(s, x);
    var s', d := Do(s, u, Die(x)), s.sessions[x].dev;
    assert ThreadOk(s, u) && DeviceOk(s, d);
    DieFits(s, u, x);
    MountedSet(s.sessions, x, s'.sessions[x]);
    Local(s, s', u, d, x);
  }

  /** Steps that touch no device and no session. */
  lemma Apart(s: State, s': State, u: nat)
    requires Inv(s) && u < |s.threads| && s'.devices == s.devices && s'.sessions == s.sessions
    requires s'.mountCount == s.mountCount
    requires |s'.threads| == |s.threads| && s'.threads == s.threads[u := s'.threads[u]] && ThreadOk(s', u)
    requires DeviceOf(s.threads[u]).None? && DeviceOf(s'.threads[u]).None?
    requires s.mutex.Some? && s.mutex.value != u ==> s'.mutex == s.mutex
    requires s'.mutex.Some? ==> s'.mutex.value < |s'.threads| && LocksAll(s'.threads[s'.mutex.value])
    ensures Inv(s')
  {
    forall v | 0 <= v < |s'.threads| && v != u
      ensures ThreadOk(s', v)
    {
      assert ThreadOk(s, v);
    }
    forall e | 0 <= e < |s'.devices|
      ensures DeviceOk(s', e)
    {
      assert DeviceOk(s, e);
    }
    forall y | 0 <= y < |s'.sessions|
      ensures SessionOk(s', y)
    {
      assert SessionOk(s, y);
    }
  }

  lemma StepStop(s: State, u: nat, step: Step)
    requires Inv(s) && Can(s, u, step) && (step.StopBegin? || step.StopLock? || step.StopCheck?)
    ensures Inv(Do(s, u, step))
  {
    assert ThreadOk(s, u);
    if step.StopCheck? && s.threads[u].i < |s.devices| { assert DeviceOk(s, s.threads[u].i); }
    Apart(s, Do(s, u, step), u);
  }

  /** Every step of every thread keeps the invariant. */
  lemma Preserved(s: State, u: nat, step: Step)
    requires Inv(s) && Can(s, u, step)
    ensures Inv(Do(s, u, step))
  {
    match step {
      case OpenBegin(d) => StepOpenBegin(s, u, d);
      case OpenLock => StepOpenLock(s, u);
      case OpenNestLock => StepOpenNestLock(s, u);
      case OpenCheck => StepOpenCheck(s, u);
      case OpenBusyLock => StepOpenBusyLock(s, u);
      case CloseBegin(d) => StepCloseBegin(s, u, d);
      case CloseLock => StepCloseLock(s, u);
      case CloseDo => StepCloseDo(s, u);
      case CloseDone => StepCloseDone(s, u);
      case MountBegin(d) => StepMountBegin(s, u, d);
      case MountLock => StepMountLock(s, u);
      case MountDo(denied) => StepMountDo(s, u, denied);
      case MountEnd(ok) => StepMountEnd(s, u, ok);
      case FailLock => StepFailLock(s, u);
      case FailDo => StepFailDo(s, u);
      case UnmountBegin(x) => StepUnmountBegin(s, u, x);
      case UnmountLock => StepUnmountLock(s, u);
      case UnmountDo => StepUnmountDo(s, u);
      case Die(x) => StepDie(s, u, x);
      case _ => StepStop(s, u, step);
    }
  }
}
