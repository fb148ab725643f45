/** Open, close, mount, failed mount, unmount and stop over the device table, for any number of threads.

    A step is what a thread does between one blocking lock and the next; the mutexes are modelled by their
    owners, so that a thread can wait for one while it holds another. */
module DeviceLifecycle {
  import opened Lists

  /** Who accounts for the usecount of a device: an open in progress or a close in progress, or an opened file. */
  datatype User = Nobody | Opener | Thread(u: nat)

  /** Who will clear mounted: a mount or unmount in progress, or the mounted volume. */
  datatype Mounter = NotMounted | Volume | By(u: nat)

  /** struct fuse_data; freed counts how often it has been destroyed. */
  datatype Session = Session(dev: nat, isOpen: bool, mounted: bool, dead: bool, freed: nat, mounter: Mounter)

  /** struct fuse_device; mtx is the thread that has locked fdev->mtx. */
  datatype Device = Device(usecount: int, data: Option<nat>, mtx: Option<nat>, user: User)

  datatype Pc =
    | Idle
    | OpenWant(d: nat)           // waits for fuse_device_mutex
    | OpenNest(d: nat)           // has it and waits for fdev->mtx
    | OpenIn(d: nat)             // has fdev->mtx alone
    | OpenBusy(d: nat)           // has fdev->mtx and waits for fuse_device_mutex
    | CloseWant(d: nat, x: nat)  // waits for fdev->mtx
    | CloseIn(d: nat, x: nat)
    | CloseEnd(d: nat)           // waits for fuse_device_mutex
    | MountWant(d: nat)
    | MountIn(d: nat)
    | Mounting(d: nat, x: nat)   // has set mounted, and talks to the daemon without a lock
    | FailWant(d: nat, counted: bool, x: nat)
    | FailIn(d: nat, counted: bool, x: nat)
    | UnmountWant(d: nat, x: nat)
    | UnmountIn(d: nat, x: nat)
    | StopWant
    | StopIn(i: nat)             // has fuse_device_mutex; devices below i are unused
    | Panic

  datatype State = State(
    devices: seq<Device>, sessions: seq<Session>, mutex: Option<nat>, mountCount: int, available: bool,
    stopped: bool, threads: seq<Pc>)

  datatype Step =
    | OpenBegin(dev: nat) | OpenLock | OpenNestLock | OpenCheck | OpenBusyLock
    | CloseBegin(dev: nat) | CloseLock | CloseDo | CloseDone
    | MountBegin(dev: nat) | MountLock | MountDo(denied: bool) | MountEnd(ok: bool) | FailLock | FailDo
    | UnmountBegin(x: nat) | UnmountLock | UnmountDo
    | StopBegin | StopLock | StopCheck | Die(x: nat)

  /** The device a thread is busy with. */
  function DeviceOf(p: Pc): Option<nat> {
    if p.Idle? || p.StopWant? || p.StopIn? || p.Panic? then None else Some(p.d)
  }

  function At(s: State, u: nat, p: Pc): State
    requires u < |s.threads|
  {
    s.(threads := s.threads[u := p])
  }

  function Dev(s: State, d: nat, v: Device): State
    requires d < |s.devices|
  {
    s.(devices := s.devices[d := v])
  }

  function Sess(s: State, x: nat, v: Session): State
    requires x < |s.sessions|
  {
    s.(sessions := s.sessions[x := v])
  }

  /** fuse_device_close_final. */
  function CloseFinal(s: State, d: nat): State
    requires d < |s.devices|
  {
    match s.devices[d].data
    case None => s
    case Some(x) =>
      if x < |s.sessions| then
        Dev(Sess(s, x, s.sessions[x].(freed := s.sessions[x].freed + 1)), d, s.devices[d].(data := None))
      else s
  }

  predicate Can(s: State, u: nat, step: Step) {
    !s.stopped && u < |s.threads| && var p := s.threads[u];
    (DeviceOf(p).Some? ==> p.d < |s.devices|) &&
    match step
    case OpenBegin(d) => p.Idle? && s.available && d < |s.devices|
    case OpenLock => p.OpenWant? && s.mutex.None?
    case OpenNestLock => p.OpenNest? && s.devices[p.d].mtx.None?
    case OpenCheck => p.OpenIn?
    case OpenBusyLock => p.OpenBusy? && s.mutex.None?
    case CloseBegin(d) => p.Idle? && d < |s.devices| && s.devices[d].user.Opener?
    case CloseLock => p.CloseWant? && s.devices[p.d].mtx.None?
    case CloseDo => p.CloseIn? && p.x < |s.sessions|
    case CloseDone => p.CloseEnd? && s.mutex.None?
    case MountBegin(d) => p.Idle? && d < |s.devices|
    case MountLock => p.MountWant? && s.devices[p.d].mtx.None?
    case MountDo(_) => p.MountIn? && (s.devices[p.d].data.Some? ==> s.devices[p.d].data.value < |s.sessions|)
    case MountEnd(_) => p.Mounting? && p.x < |s.sessions|
    case FailLock => p.FailWant? && s.devices[p.d].mtx.None?
    case FailDo => p.FailIn? && (s.devices[p.d].data.Some? ==> s.devices[p.d].data.value < |s.sessions|)
    case UnmountBegin(x) => p.Idle? && x < |s.sessions| && s.sessions[x].mounter.Volume?
    case UnmountLock => p.UnmountWant? && s.devices[p.d].mtx.None?
    case UnmountDo => p.UnmountIn? && p.x < |s.sessions|
    case StopBegin => p.Idle?
    case StopLock => p.StopWant? && s.mutex.None?
    case StopCheck => p.StopIn?
    case Die(x) => p.Idle? && x < |s.sessions|
  }

  function Do(s: State, u: nat, step: Step): State
    requires Can(s, u, step)
  {
    var p := s.threads[u];
    match step
    case OpenBegin(d) => At(s, u, OpenWant(d))
    case OpenLock =>
      var v := s.devices[p.d];
      if v.usecount != 0 then At(s, u, Idle)
      else At(Dev(s, p.d, v.(usecount := v.usecount + 1, user := Thread(u))), u, OpenNest(p.d)).(mutex := Some(u))
    case OpenNestLock =>
      At(Dev(s, p.d, s.devices[p.d].(mtx := Some(u))), u, OpenIn(p.d)).(mutex := None)
    case OpenCheck =>
      var v := s.devices[p.d];
      if v.data.Some? then At(s, u, OpenBusy(p.d))
      else
        var x := |s.sessions|;
        At(Dev(s, p.d, v.(data := Some(x), mtx := None, user := Opener)), u, Idle)
          .(sessions := s.sessions + [Session(p.d, true, false, false, 0, NotMounted)])
    case OpenBusyLock =>
      var v := s.devices[p.d];
      At(Dev(s, p.d, v.(usecount := v.usecount - 1, mtx := None, user := Nobody)), u, Idle)
    case CloseBegin(d) =>
      var v := s.devices[d];
      if v.data.None? || v.data.value >= |s.sessions| then At(s, u, Panic)
      else
        var x := v.data.value;
        At(Dev(Sess(s, x, s.sessions[x].(dead := true)), d, v.(user := Thread(u))), u, CloseWant(d, x))
    case CloseLock => At(Dev(s, p.d, s.devices[p.d].(mtx := Some(u))), u, CloseIn(p.d, p.x))
    case CloseDo =>
      var s1 := Sess(s, p.x, s.sessions[p.x].(isOpen := false));
      var s2 := if s.sessions[p.x].mounted then s1 else CloseFinal(s1, p.d);
      At(Dev(s2, p.d, s2.devices[p.d].(mtx := None)), u, CloseEnd(p.d))
    case CloseDone =>
      var v := s.devices[p.d];
      At(Dev(s, p.d, v.(usecount := v.usecount - 1, user := Nobody)), u, Idle)
    case MountBegin(d) => At(s, u, MountWant(d))
    case MountLock => At(Dev(s, p.d, s.devices[p.d].(mtx := Some(u))), u, MountIn(p.d))
    case MountDo(denied) =>
      var s1 := Dev(s, p.d, s.devices[p.d].(mtx := None));
      match s.devices[p.d].data {
        case None => At(s1, u, Idle)
        case Some(x) =>
          var k := s.sessions[x];
          if k.mounted then At(s1, u, Idle)
          else if !k.isOpen then At(s1, u, FailWant(p.d, false, x))
          else
            var s2 := Sess(s1, x, k.(mounted := true, mounter := By(u))).(mountCount := s.mountCount + 1);
            if k.dead || denied then At(s2, u, FailWant(p.d, true, x)) else At(s2, u, Mounting(p.d, x))
      }
    case MountEnd(ok) =>
      if ok then At(Sess(s, p.x, s.sessions[p.x].(mounter := Volume)), u, Idle)
      else At(s, u, FailWant(p.d, true, p.x))
    case FailLock => At(Dev(s, p.d, s.devices[p.d].(mtx := Some(u))), u, FailIn(p.d, p.counted, p.x))
    case FailDo =>
      var s1 := s.(mountCount := if p.counted then s.mountCount - 1 else s.mountCount);
      var s3 := match s.devices[p.d].data {
        case None => s1
        case Some(x) =>
          var s2 := Sess(s1, x, s.sessions[x].(mounted := false, mounter := NotMounted));
          if s.sessions[x].isOpen then s2 else CloseFinal(s2, p.d)
      };
      At(Dev(s3, p.d, s3.devices[p.d].(mtx := None)), u, Idle)
    case UnmountBegin(x) =>
      At(Sess(s, x, s.sessions[x].(dead := true, mounter := By(u))), u, UnmountWant(s.sessions[x].dev, x))
    case UnmountLock => At(Dev(s, p.d, s.devices[p.d].(mtx := Some(u))), u, UnmountIn(p.d, p.x))
    case UnmountDo =>
      var k := s.sessions[p.x].(mounted := false, mounter := NotMounted);
      var s1 := Sess(s, p.x, k).(mountCount := s.mountCount - 1);
      var s2 := if s.sessions[p.x].isOpen then s1 else CloseFinal(s1, p.d);
      At(Dev(s2, p.d, s2.devices[p.d].(mtx := None)), u, Idle)
    case StopBegin => At(s.(available := false), u, StopWant)
    case StopLock => At(s, u, StopIn(0)).(mutex := Some(u))
    case StopCheck =>
      if p.i >= |s.devices| then At(s, u, Idle).(mutex := None, stopped := true)
      else if s.devices[p.i].usecount != 0 || s.devices[p.i].data.Some?
      then At(s, u, Idle).(mutex := None, available := true)
      else At(s, u, StopIn(p.i + 1))
    case Die(x) => Sess(s, x, s.sessions[x].(dead := true))
  }
}
