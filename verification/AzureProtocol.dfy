/**
 The VPN Azure client as a concurrent protocol.

 One main thread connects to the relay server and serves requests. Any number of other threads
 apply a new configuration, switch the client on or off, or free it. Every critical section under
 the client's lock, every unlocked access to a shared flag and every blocking socket operation is
 one atomic step; a step is a function of the state and of an event that names the thread and
 carries the choices of the environment (I/O results, random numbers, time).
 */
module AzureProtocol {
  import opened Text

  const INITIAL_RETRY_INTERVAL: nat := 1000
  const MAX_RETRY_INTERVAL: nat := 3_600_000

  type SockId = nat
  type ThreadId = nat

  /** The part of the DDNS status the protocol reads; `setting` stands for the proxy settings. */
  datatype Status = Status(hostName: string, azureIp: string, setting: nat)

  datatype Sock = Sock(refs: nat, disconnected: bool, freed: bool)

  /** The retry timer. `firings` is its history: the ticks at which it has fired since the last
      reset of the retry counter. */
  datatype Timer = Timer(last: nat, interval: nat, retries: nat, firings: seq<nat>)

  datatype MainPc =
    | LoopTop | ReadEnabled | TakeSnapshot | ReadRevision | PollTimer | Decide | Connect | Publish
    | RecvParam | StoreParam | Recheck | Register | ReadHalt | ServeHalt | ServeIo
    | Unpublish | CheckLong | DisconnectOwn | ReleaseOwn | LoopEnd | Stopped

  /** The main thread with its local variables. */
  datatype MainThread = MainThread(
    pc: MainPc, now: nat, st: Status, connectNow: bool, timer: Timer, lastRevision: nat,
    sock: SockId, hostChanged: bool, established: nat)

  datatype Call = ApplyConfig(status: Status) | SetEnable(enabled: bool) | FreeClient

  datatype CallerPc = WriteFlag | LockAndGrab | DisconnectGrabbed | ReleaseGrabbed | WaitMain | Returned

  /** A thread inside one call of the client's interface; `sock` is its local `disconnect_sock`. */
  datatype Caller = Caller(call: Call, pc: CallerPc, sock: Option<SockId>)

  /** The fields of the client object. */
  datatype Shared = Shared(
    enabled: bool, halt: bool, status: Status, statusCopy: Status,
    currentSock: Option<SockId>, isConnected: bool, connectingIp: string, ipRevision: nat)

  /** `fault` records that some thread has touched a socket after it was freed. */
  datatype State = State(
    shared: Shared, main: MainThread, callers: map<ThreadId, Caller>, socks: seq<Sock>,
    clock: nat, fault: bool)

  datatype Event =
    | MainStep(ok: bool, rnd: nat)
    | CallerStep(thread: ThreadId)
    | Spawn(newThread: ThreadId, call: Call)
    | Elapse(ticks: nat)
    | NewIpRevision(revision: nat)

  // ---- The retry timer ----

  function Min(a: nat, b: nat): nat { if a <= b then a else b }

  /** The environment chooses the result: at least `min`, and below `max` unless they are equal. */
  function GenRandInterval(min: nat, max: nat, rnd: nat): nat
    requires min <= max
  {
    if min <= rnd < max then rnd else min
  }

  /** The counter alone goes back to zero (the address or the host name changed). */
  function ResetRetries(t: Timer): Timer { t.(retries := 0, firings := []) }

  /** The whole timer goes back to its initial state. */
  const FreshTimer: Timer := Timer(0, INITIAL_RETRY_INTERVAL, 0, [])

  predicate TimerDue(t: Timer, now: nat) {
    t.last == 0 || now >= (t.last + t.interval) % UINT64_LIMIT
  }

  function FireTimer(t: Timer, now: nat, rnd: nat): Timer {
    var retries := (t.retries + 1) % UINT_LIMIT;
    var capped := Min(retries * INITIAL_RETRY_INTERVAL, MAX_RETRY_INTERVAL);
    Timer(now, GenRandInterval(capped / 2, capped, rnd), retries, t.firings + [now])
  }

  // ---- Sockets ----

  predicate Live(s: State, k: SockId) { k < |s.socks| && !s.socks[k].freed }

  function AddRef(s: State, k: SockId): State {
    if Live(s, k) then s.(socks := s.socks[k := s.socks[k].(refs := s.socks[k].refs + 1)])
    else s.(fault := true)
  }

  function Disconnect(s: State, k: SockId): State {
    if Live(s, k) then s.(socks := s.socks[k := s.socks[k].(disconnected := true)])
    else s.(fault := true)
  }

  /** The object is cleaned up, hence also disconnected, when its count reaches zero. */
  function ReleaseSock(s: State, k: SockId): State {
    if !Live(s, k) then s.(fault := true)
    else if s.socks[k].refs <= 1 then s.(socks := s.socks[k := Sock(0, true, true)])
    else s.(socks := s.socks[k := s.socks[k].(refs := s.socks[k].refs - 1)])
  }

  /** I/O on a disconnected socket fails; on a connected one the environment decides. */
  predicate IoSucceeds(s: State, k: SockId, ok: bool) {
    ok && Live(s, k) && !s.socks[k].disconnected
  }

  function Touch(s: State, k: SockId): State {
    if Live(s, k) then s else s.(fault := true)
  }

  // ---- The critical sections, on the client's fields ----

  /** The snapshot found a new relay address or a new host name. */
  predicate SnapshotChanged(c: Shared) {
    || (!SameName(c.status.azureIp, c.statusCopy.azureIp) && !IsEmptyStr(c.status.azureIp))
    || !SameName(c.status.hostName, c.statusCopy.hostName)
  }

  function SnapshotShared(c: Shared): Shared { c.(statusCopy := c.status) }

  function PublishShared(c: Shared, k: SockId, ip: string): Shared {
    c.(currentSock := Some(k), isConnected := true, connectingIp := ip)
  }

  function UnpublishShared(c: Shared): Shared {
    c.(currentSock := None, isConnected := false, connectingIp := "")
  }

  /** What the changer stores, and the socket it must disconnect. */
  function ApplyShared(c: Shared, status: Option<Status>): (r: (Shared, Option<SockId>)) {
    var changed := status.Some?
      && (!SameName(c.status.hostName, status.value.hostName) || c.status.setting != status.value.setting);
    var c' := if status.Some? then c.(status := status.value) else c;
    (c', if changed || !c.enabled then c.currentSock else None)
  }

  // ---- The main thread ----

  /** What the step at `m.pc` does to the main thread: `works` says that its I/O succeeds and `newSock`
      names the next new socket. */
  function NextMain(m: MainThread, c: Shared, clock: nat, works: bool, rnd: nat, newSock: SockId): MainThread {
    match m.pc
    case LoopTop =>
      if c.halt then m.(pc := Stopped) else m.(pc := ReadEnabled, now := clock)
    case ReadEnabled =>
      if c.enabled then m.(pc := TakeSnapshot, connectNow := false)
      else m.(pc := LoopEnd, timer := FreshTimer)
    case TakeSnapshot =>
      m.(pc := ReadRevision, st := c.status, connectNow := SnapshotChanged(c),
         timer := if SnapshotChanged(c) then ResetRetries(m.timer) else m.timer)
    case ReadRevision =>
      if m.lastRevision == c.ipRevision then m.(pc := PollTimer)
      else m.(pc := PollTimer, lastRevision := c.ipRevision, connectNow := true, timer := ResetRetries(m.timer))
    case PollTimer =>
      if TimerDue(m.timer, m.now) then m.(pc := Decide, connectNow := true, timer := FireTimer(m.timer, m.now, rnd))
      else m.(pc := Decide)
    case Decide =>
      m.(pc := if !IsEmptyStr(m.st.azureIp) && !IsEmptyStr(m.st.hostName) && m.connectNow then Connect else LoopEnd)
    case Connect =>
      if works then m.(pc := Publish, sock := newSock) else m.(pc := LoopEnd)
    case Publish =>
      m.(pc := RecvParam, hostChanged := false, established := 0)
    case RecvParam =>
      m.(pc := if works then StoreParam else Unpublish)
    case StoreParam =>
      m.(pc := Recheck)
    case Recheck =>
      m.(pc := Register, hostChanged := !SameName(m.st.hostName, c.status.hostName))
    case Register =>
      // sends the registration and receives a result byte other than zero
      m.(pc := if !m.hostChanged && works then ReadHalt else Unpublish)
    case ReadHalt =>
      if c.halt then m.(pc := Unpublish) else m.(pc := ServeHalt, established := clock)
    case ServeHalt =>
      m.(pc := if c.halt then Unpublish else ServeIo)
    case ServeIo =>
      m.(pc := if works then ServeHalt else Unpublish)
    case Unpublish =>
      m.(pc := CheckLong)
    case CheckLong =>
      if m.established != 0 && m.established + MAX_RETRY_INTERVAL <= clock
      then m.(pc := DisconnectOwn, timer := FreshTimer)
      else m.(pc := DisconnectOwn)
    case DisconnectOwn =>
      m.(pc := ReleaseOwn)
    case ReleaseOwn =>
      m.(pc := LoopEnd)
    case LoopEnd =>
      m.(pc := if c.halt then Stopped else LoopTop)
    case Stopped => m
  }

  /** Its three critical sections that write the client's fields. */
  function NextShared(m: MainThread, c: Shared): Shared {
    match m.pc
    case TakeSnapshot => SnapshotShared(c)
    case Publish => PublishShared(c, m.sock, m.st.azureIp)
    case Unpublish => UnpublishShared(c)
    case _ => c
  }

  /** What the step does to sockets: only a new connection, I/O, Disconnect and ReleaseSock. */
  function SockEffect(s: State, m: MainThread, ok: bool): (r: State)
    ensures r == s.(socks := r.socks, fault := r.fault)
  {
    match m.pc
    case Connect => if ok then s.(socks := s.socks + [Sock(1, false, false)]) else s
    case RecvParam => Touch(s, m.sock)
    case Register => if m.hostChanged then s else Touch(s, m.sock)
    case ServeIo => Touch(s, m.sock)
    case DisconnectOwn => Disconnect(s, m.sock)
    case ReleaseOwn => ReleaseSock(s, m.sock)
    case _ => s
  }

  predicate Works(s: State, ok: bool) {
    if s.main.pc.Connect? then ok else IoSucceeds(s, s.main.sock, ok)
  }

  function StepMain(s: State, ok: bool, rnd: nat): State {
    var m := s.main;
    SockEffect(s.(main := NextMain(m, s.shared, s.clock, Works(s, ok), rnd, |s.socks|),
                  shared := NextShared(m, s.shared)), m, ok)
  }

  // ---- Callers of the interface ----

  function AfterRelease(call: Call): CallerPc {
    if call.FreeClient? then WaitMain else Returned
  }

  /** The socket that the caller's critical section takes a reference to. */
  function GrabTarget(call: Call, c: Shared): Option<SockId> {
    match call
    case ApplyConfig(status) => ApplyShared(c, Some(status)).1
    case SetEnable(_) => ApplyShared(c, None).1
    case FreeClient => c.currentSock
  }

  function NextCaller(u: Caller, c: Shared, mainStopped: bool): Caller {
    match u.pc
    case WriteFlag => u.(pc := LockAndGrab)
    case LockAndGrab =>
      var target := GrabTarget(u.call, c);
      if target.Some? then u.(pc := DisconnectGrabbed, sock := target)
      else u.(pc := AfterRelease(u.call))
    case DisconnectGrabbed => u.(pc := ReleaseGrabbed)
    case ReleaseGrabbed => u.(pc := AfterRelease(u.call), sock := None)
    case WaitMain => if mainStopped then u.(pc := Returned) else u
    case Returned => u
  }

  /** The unlocked write of a flag, or the critical section. */
  function CallerShared(u: Caller, c: Shared): Shared {
    match u.call
    case ApplyConfig(status) => if u.pc.LockAndGrab? then ApplyShared(c, Some(status)).0 else c
    case SetEnable(enabled) => if u.pc.WriteFlag? then c.(enabled := enabled) else c
    case FreeClient => if u.pc.WriteFlag? then c.(halt := true) else c
  }

  function CallerSockEffect(s: State, u: Caller): (r: State)
    ensures r == s.(socks := r.socks, fault := r.fault)
  {
    var k := if u.pc.LockAndGrab? then GrabTarget(u.call, s.shared) else u.sock;
    if k.None? then s
    else match u.pc
      case LockAndGrab => AddRef(s, k.value)
      case DisconnectGrabbed => Disconnect(s, k.value)
      case ReleaseGrabbed => ReleaseSock(s, k.value)
      case _ => s
  }

  function StepCaller(s: State, t: ThreadId): State
    requires t in s.callers
  {
    var u := s.callers[t];
    var s' := CallerSockEffect(s, u);
    s'.(shared := CallerShared(u, s.shared),
        callers := s.callers[t := NextCaller(u, s.shared, s.main.pc.Stopped?)])
  }

  // ---- Runs ----

  function Step(s: State, e: Event): State {
    match e
    case MainStep(ok, rnd) => StepMain(s, ok, rnd)
    case CallerStep(t) => if t in s.callers then StepCaller(s, t) else s
    case Spawn(t, call) =>
      if t in s.callers then s
      else s.(callers := s.callers[t := Caller(call, if call.ApplyConfig? then LockAndGrab else WriteFlag, None)])
    case Elapse(ticks) =>
      if s.clock + ticks + MAX_RETRY_INTERVAL < UINT64_LIMIT then s.(clock := s.clock + ticks) else s
    case NewIpRevision(revision) =>
      if revision < UINT_LIMIT then s.(shared := s.shared.(ipRevision := revision)) else s
  }

  function Run(s: State, events: seq<Event>): State
    decreases |events|
  {
    if events == [] then s else Run(Step(s, events[0]), events[1..])
  }

  const EmptyStatus: Status := Status("", "", 0)

  /** A new client, its main thread about to start, at some positive tick. */
  function Init(clock: nat): State {
    State(Shared(false, false, EmptyStatus, EmptyStatus, None, false, "", 0),
          MainThread(LoopTop, 0, EmptyStatus, false, FreshTimer, UINT_LIMIT - 1, 0, false, 0),
          map[], [], clock, false)
  }

  predicate ValidStart(clock: nat) { 0 < clock && clock + MAX_RETRY_INTERVAL < UINT64_LIMIT }
}
