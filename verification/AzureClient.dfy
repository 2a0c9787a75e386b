/**
 The client object and its critical sections as the threads execute them. Each method takes the local
 variables of its thread, updates the object's fields in place, and is proved to be exactly one step
 of the protocol: whatever the other threads are doing, the state it leaves is the state that the
 protocol's step leads to.
 */
module AzureClient {
  import opened Text
  import opened AzureProtocol

  class Client {
    var enabled: bool
    var halt: bool
    var status: Status
    var statusCopy: Status
    var currentSock: Option<SockId>
    var isConnected: bool
    var connectingIp: string
    var ipRevision: nat
    var socks: seq<Sock>

    ghost function Fields(): Shared
      reads this
    {
      Shared(enabled, halt, status, statusCopy, currentSock, isConnected, connectingIp, ipRevision)
    }

    /** The protocol's state, with the given main thread, callers and time. */
    ghost function Abstract(m: MainThread, callers: map<ThreadId, Caller>, clock: nat): State
      reads this
    {
      State(Fields(), m, callers, socks, clock, false)
    }

    ghost predicate IsLive(k: SockId)
      reads this`socks
    {
      k < |socks| && socks[k].refs >= 1 && !socks[k].freed
    }

    constructor ()
      ensures forall clock :: Abstract(Init(clock).main, map[], clock) == Init(clock)
    {
      enabled, halt, status, statusCopy := false, false, EmptyStatus, EmptyStatus;
      currentSock, isConnected, connectingIp, ipRevision, socks := None, false, "", 0, [];
    }

    // ---- The main thread ----

    /** Copies the status and decides whether to reconnect at once. */
    method TakeSnapshot(m: MainThread, ghost callers: map<ThreadId, Caller>, ghost clock: nat, ghost ok: bool, ghost rnd: nat)
      returns (m': MainThread)
      requires m.pc.TakeSnapshot?
      modifies this`statusCopy
      ensures Abstract(m', callers, clock) == StepMain(old(Abstract(m, callers, clock)), ok, rnd)
    {
      var st, connectNow, timer := status, false, m.timer;
      if !SameName(st.azureIp, statusCopy.azureIp) {
        if !IsEmptyStr(st.azureIp) {
          connectNow := true;
          timer := ResetRetries(timer);
        }
      }
      if !SameName(st.hostName, statusCopy.hostName) {
        connectNow := true;
        timer := ResetRetries(timer);
      }
      statusCopy := st;
      m' := m.(pc := ReadRevision, st := st, connectNow := connectNow, timer := timer);
    }

    /** One turn of the retry timer: fires if it is due, and then chooses the next interval. */
    method PollTimer(m: MainThread, rnd: nat, ghost callers: map<ThreadId, Caller>, ghost clock: nat, ghost ok: bool)
      returns (m': MainThread)
      requires m.pc.PollTimer?
      ensures Abstract(m', callers, clock) == StepMain(Abstract(m, callers, clock), ok, rnd)
    {
      m' := m.(pc := Decide);
      if m.timer.last == 0 || m.now >= (m.timer.last + m.timer.interval) % UINT64_LIMIT {
        var retries := (m.timer.retries + 1) % UINT_LIMIT;
        var interval := retries * INITIAL_RETRY_INTERVAL;
        if interval > MAX_RETRY_INTERVAL {
          interval := MAX_RETRY_INTERVAL;
        }
        interval := GenRandInterval(interval / 2, interval, rnd);
        m' := m'.(connectNow := true, timer := Timer(m.now, interval, retries, m.timer.firings + [m.now]));
      }
    }

    method PublishSock(m: MainThread, ghost callers: map<ThreadId, Caller>, ghost clock: nat, ghost ok: bool, ghost rnd: nat)
      returns (m': MainThread)
      requires m.pc.Publish?
      modifies this`currentSock, this`isConnected, this`connectingIp
      ensures Abstract(m', callers, clock) == StepMain(old(Abstract(m, callers, clock)), ok, rnd)
    {
      currentSock := Some(m.sock);
      isConnected := true;
      connectingIp := m.st.azureIp;
      m' := m.(pc := RecvParam, hostChanged := false, established := 0);
    }

    /** Compares the registered host name with the current one once more. */
    method RecheckHostName(m: MainThread, ghost callers: map<ThreadId, Caller>, ghost clock: nat, ghost ok: bool, ghost rnd: nat)
      returns (m': MainThread)
      requires m.pc.Recheck?
      ensures Abstract(m', callers, clock) == StepMain(Abstract(m, callers, clock), ok, rnd)
    {
      var hostChanged := false;
      if !SameName(m.st.hostName, status.hostName) {
        hostChanged := true;
      }
      m' := m.(pc := Register, hostChanged := hostChanged);
    }

    method UnpublishSock(m: MainThread, ghost callers: map<ThreadId, Caller>, ghost clock: nat, ghost ok: bool, ghost rnd: nat)
      returns (m': MainThread)
      requires m.pc.Unpublish?
      modifies this`currentSock, this`isConnected, this`connectingIp
      ensures Abstract(m', callers, clock) == StepMain(old(Abstract(m, callers, clock)), ok, rnd)
    {
      isConnected := false;
      currentSock := None;
      connectingIp := "";
      m' := m.(pc := CheckLong);
    }

    /** The main thread's last use of its socket. */
    method ReleaseOwnSock(m: MainThread, ghost callers: map<ThreadId, Caller>, ghost clock: nat, ghost ok: bool, ghost rnd: nat)
      returns (m': MainThread)
      requires m.pc.ReleaseOwn? && IsLive(m.sock)
      modifies this`socks
      ensures Abstract(m', callers, clock) == StepMain(old(Abstract(m, callers, clock)), ok, rnd)
    {
      Release(m.sock);
      m' := m.(pc := LoopEnd);
    }

    // ---- Callers of the interface ----

    /** The critical section of AcApplyCurrentConfig, called directly or to switch the client on or off. */
    method ApplyCurrentConfig(u: Caller, ghost m: MainThread, ghost callers: map<ThreadId, Caller>, ghost t: ThreadId, ghost clock: nat)
      returns (u': Caller)
      requires u.pc.LockAndGrab? && !u.call.FreeClient? && t in callers && callers[t] == u
      requires currentSock.Some? ==> IsLive(currentSock.value)
      modifies this`status, this`socks
      ensures Abstract(m, callers[t := u'], clock) == StepCaller(old(Abstract(m, callers, clock)), t)
    {
      var disconnectNow := false;
      var sock: Option<SockId> := None;
      if u.call.ApplyConfig? {
        if !SameName(status.hostName, u.call.status.hostName) {
          disconnectNow := true;
        }
        if status.setting != u.call.status.setting {
          disconnectNow := true;
        }
        status := u.call.status;
      }
      if !enabled {
        disconnectNow := true;
      }
      if disconnectNow {
        sock := GrabCurrent();
      }
      u' := if sock.Some? then u.(pc := DisconnectGrabbed, sock := sock) else u.(pc := Returned);
    }

    /** The critical section of FreeAzureClient. */
    method GrabForFree(u: Caller, ghost m: MainThread, ghost callers: map<ThreadId, Caller>, ghost t: ThreadId, ghost clock: nat)
      returns (u': Caller)
      requires u.pc.LockAndGrab? && u.call.FreeClient? && t in callers && callers[t] == u
      requires currentSock.Some? ==> IsLive(currentSock.value)
      modifies this`socks
      ensures Abstract(m, callers[t := u'], clock) == StepCaller(old(Abstract(m, callers, clock)), t)
    {
      var sock := GrabCurrent();
      u' := if sock.Some? then u.(pc := DisconnectGrabbed, sock := sock) else u.(pc := WaitMain);
    }

    /** Takes a counted reference to the published socket, if there is one. */
    method GrabCurrent() returns (k: Option<SockId>)
      requires currentSock.Some? ==> IsLive(currentSock.value)
      modifies this`socks
      ensures k == currentSock
      ensures socks == if k.None? then old(socks)
                       else old(socks)[k.value := old(socks)[k.value].(refs := old(socks)[k.value].refs + 1)]
    {
      k := currentSock;
      if k.Some? {
        socks := socks[k.value := socks[k.value].(refs := socks[k.value].refs + 1)];
      }
    }

    /** Outside the lock: disconnects what was grabbed. */
    method DisconnectGrabbedSock(u: Caller, ghost m: MainThread, ghost callers: map<ThreadId, Caller>, ghost t: ThreadId, ghost clock: nat)
      returns (u': Caller)
      requires u.pc.DisconnectGrabbed? && u.sock.Some? && IsLive(u.sock.value) && t in callers && callers[t] == u
      modifies this`socks
      ensures Abstract(m, callers[t := u'], clock) == StepCaller(old(Abstract(m, callers, clock)), t)
    {
      var k := u.sock.value;
      socks := socks[k := socks[k].(disconnected := true)];
      u' := u.(pc := ReleaseGrabbed);
    }

    method ReleaseGrabbedSock(u: Caller, ghost m: MainThread, ghost callers: map<ThreadId, Caller>, ghost t: ThreadId, ghost clock: nat)
      returns (u': Caller)
      requires u.pc.ReleaseGrabbed? && u.sock.Some? && IsLive(u.sock.value) && t in callers && callers[t] == u
      modifies this`socks
      ensures Abstract(m, callers[t := u'], clock) == StepCaller(old(Abstract(m, callers, clock)), t)
    {
      Release(u.sock.value);
      u' := u.(pc := if u.call.FreeClient? then WaitMain else Returned, sock := None);
    }

    /** Counts down; the last reference cleans the socket up. */
    method Release(k: SockId)
      requires IsLive(k)
      modifies this`socks
      ensures socks == old(socks)[k := if old(socks)[k].refs == 1 then Sock(0, true, true)
                                       else old(socks)[k].(refs := old(socks)[k].refs - 1)]
    {
      var refs := socks[k].refs - 1;
      if refs == 0 {
        socks := socks[k := Sock(0, true, true)];
      } else {
        socks := socks[k := socks[k].(refs := refs)];
      }
    }
  }
}
