/** What holds in every interleaving of the VPN Azure client's threads. */
module AzureSafety {
  import opened Text
  import opened AzureProtocol

  // ---- Who holds which socket ----

  /** How far the main thread is from stopping, in steps of its own, once it is told to halt. */
  function Distance(pc: MainPc): nat {
    match pc
    case Stopped => 0
    case LoopTop => 1
    case LoopEnd => 1
    case ReleaseOwn => 2
    case DisconnectOwn => 3
    case CheckLong => 4
    case Unpublish => 5
    case ServeHalt => 6
    case ServeIo => 7
    case ReadHalt => 8
    case Register => 9
    case Recheck => 10
    case StoreParam => 11
    case RecvParam => 12
    case Publish => 13
    case Connect => 14
    case Decide => 15
    case PollTimer => 16
    case ReadRevision => 17
    case TakeSnapshot => 18
    case ReadEnabled => 19
  }

  /** The main thread's own reference: from the connection until its release. */
  predicate MainHolds(m: MainThread) { 2 <= Distance(m.pc) <= 13 }

  predicate Published(m: MainThread) { 5 <= Distance(m.pc) <= 12 }

  /** Between the check of the host name and the end of serving. */
  predicate Registering(m: MainThread) { 6 <= Distance(m.pc) <= 9 }

  /** The main thread is registered at the relay server and waits for requests. */
  predicate Serving(m: MainThread) { 6 <= Distance(m.pc) <= 7 }

  predicate Holding(c: Caller) { c.pc.DisconnectGrabbed? || c.pc.ReleaseGrabbed? }

  predicate HoldsSock(c: Caller, k: SockId) {
    Holding(c) && c.sock == Some(k)
  }

  function Holders(callers: map<ThreadId, Caller>, k: SockId): set<ThreadId> {
    set t | t in callers && HoldsSock(callers[t], k)
  }

  function HolderCount(s: State, k: SockId): nat {
    |Holders(s.callers, k)| + if MainHolds(s.main) && s.main.sock == k then 1 else 0
  }

  /** Some thread has a reference to the socket and its next step disconnects it. */
  predicate AboutToBeDisconnected(s: State, k: SockId) {
    exists t :: t in s.callers && s.callers[t].pc == DisconnectGrabbed && s.callers[t].sock == Some(k)
  }

  predicate CutOff(s: State, k: SockId) {
    (k < |s.socks| && s.socks[k].disconnected) || AboutToBeDisconnected(s, k)
  }

  predicate PastLock(c: Caller) { !c.pc.WriteFlag? && !c.pc.LockAndGrab? }

  /** Some caller of FreeAzureClient has left its critical section. */
  predicate FreeHasLocked(s: State) {
    exists t :: t in s.callers && s.callers[t].call.FreeClient? && PastLock(s.callers[t])
  }

  // ---- The invariant ----

  predicate FieldsAgree(s: State) {
    && s.shared.currentSock == (if Published(s.main) then Some(s.main.sock) else None)
    && s.shared.isConnected == s.shared.currentSock.Some?
    && s.shared.isConnected == (s.shared.connectingIp != "")
    && ((s.main.pc.Connect? || s.main.pc.Publish?) ==> s.main.st.azureIp != "")
  }

  predicate CountsExact(s: State) {
    && (MainHolds(s.main) ==> s.main.sock < |s.socks|)
    && (forall t | t in s.callers && Holding(s.callers[t]) ::
          s.callers[t].sock.Some? && s.callers[t].sock.value < |s.socks|)
    && (forall k | 0 <= k < |s.socks| :: s.socks[k].refs == HolderCount(s, k))
    && (forall k | 0 <= k < |s.socks| :: s.socks[k].freed <==> s.socks[k].refs == 0)
    && (forall k | 0 <= k < |s.socks| && s.socks[k].freed :: s.socks[k].disconnected)
    && !s.fault
  }

  /** Registered under a host name that is no longer the current one only if already cut off. */
  predicate HostGuarded(s: State) {
    Registering(s.main) && !s.main.hostChanged ==>
      SameName(s.main.st.hostName, s.shared.status.hostName) || CutOff(s, s.main.sock)
  }

  predicate HaltGuarded(s: State) {
    && (forall t | t in s.callers && s.callers[t].call.FreeClient? && s.callers[t].pc != WriteFlag :: s.shared.halt)
    && (Serving(s.main) && FreeHasLocked(s) ==> CutOff(s, s.main.sock))
    && (Registering(s.main) && !s.main.pc.Register? ==> !s.main.hostChanged)
    && (forall t | t in s.callers && s.callers[t].call.FreeClient? && s.callers[t].pc.Returned? :: s.main.pc.Stopped?)
  }

  /** Lower bound of the wait after the n-th firing. */
  function MinWait(n: nat): nat { Min(n * 500, 1_800_000) }

  /** The history explains the timer for as long as the 32-bit counter has not wrapped. */
  predicate TimerExact(t: Timer, clock: nat) {
    && t.retries < UINT_LIMIT
    && (|t.firings| < UINT_LIMIT ==> t.retries == |t.firings|)
    && t.last <= clock
    && t.interval <= MAX_RETRY_INTERVAL
    && (t.firings != [] ==> t.last == t.firings[|t.firings| - 1] && t.last > 0)
    && (0 < |t.firings| < UINT_LIMIT ==> t.interval >= MinWait(|t.firings|))
    && (forall i | 0 < i < |t.firings| && i < UINT_LIMIT :: t.firings[i] >= t.firings[i - 1] + MinWait(i))
  }

  predicate ClockExact(s: State) {
    && 0 < s.clock && s.clock + MAX_RETRY_INTERVAL < UINT64_LIMIT
    && (s.main.pc.ReadEnabled? || s.main.pc.TakeSnapshot? || s.main.pc.ReadRevision? || s.main.pc.PollTimer? ==> 0 < s.main.now <= s.clock && s.main.timer.last <= s.main.now)
    && s.main.established <= s.clock
    && TimerExact(s.main.timer, s.clock)
  }

  predicate Inv(s: State) {
    FieldsAgree(s) && CountsExact(s) && HostGuarded(s) && HaltGuarded(s) && ClockExact(s)
  }

  // ---- Counting ----

  lemma HoldersAfterUpdate(callers: map<ThreadId, Caller>, t: ThreadId, c: Caller, k: SockId)
    ensures |Holders(callers[t := c], k)| ==
            |Holders(callers, k)| - (if t in callers && HoldsSock(callers[t], k) then 1 else 0)
            + (if HoldsSock(c, k) then 1 else 0)
  {
    var others := Holders(callers, k) - {t};
    CardinalityWithout(Holders(callers, k), t);
    assert t in Holders(callers, k) <==> t in callers && HoldsSock(callers[t], k);
    HoldersUpdated(callers, t, c, k);
  }

  lemma HoldersUpdated(callers: map<ThreadId, Caller>, t: ThreadId, c: Caller, k: SockId)
    ensures Holders(callers[t := c], k) == Holders(callers, k) - {t} + (if HoldsSock(c, k) then {t} else {})
  {
    var callers' := callers[t := c];
    forall u ensures u in Holders(callers', k) <==>
        u in Holders(callers, k) - {t} + (if HoldsSock(c, k) then {t} else {}) {
      if u != t && u in callers {
        assert callers'[u] == callers[u];
      }
    }
  }

  lemma CardinalityWithout<T>(xs: set<T>, x: T)
    ensures |xs - {x}| == |xs| - if x in xs then 1 else 0
  {
    if x !in xs {
      assert xs - {x} == xs;
    }
  }

  /** A thread holding a socket keeps it alive. */
  lemma HeldIsLive(s: State, k: SockId)
    requires CountsExact(s) && k < |s.socks|
    requires (MainHolds(s.main) && s.main.sock == k) || exists t :: t in s.callers && HoldsSock(s.callers[t], k)
    ensures Live(s, k) && s.socks[k].refs >= 1
  {
    if t :| t in s.callers && HoldsSock(s.callers[t], k) {
      assert t in Holders(s.callers, k);
      CardinalityWithout(Holders(s.callers, k), t);
    }
  }

  // ---- Preservation: the main thread ----

  lemma MainKeepsCounts(s: State, ok: bool, rnd: nat)
    requires CountsExact(s)
    ensures CountsExact(StepMain(s, ok, rnd))
  {
    var s' := StepMain(s, ok, rnd);
    var k := s.main.sock;
    NextMainHolds(s.main, s.shared, s.clock, Works(s, ok), rnd, |s.socks|);
    if MainHolds(s.main) {
      HeldIsLive(s, k);
    }
    if s.main.pc.Connect? {
      NoHoldersBeyond(s, |s.socks|);
    }
    RecountMain(s, s');
  }

  /** A hold begins with the connection and ends with the release, and keeps its socket. */
  lemma NextMainHolds(m: MainThread, c: Shared, clock: nat, works: bool, rnd: nat, newSock: SockId)
    ensures var m' := NextMain(m, c, clock, works, rnd, newSock);
            if m.pc.Connect? then MainHolds(m') == works && (works ==> m'.sock == newSock)
            else if m.pc.ReleaseOwn? then !MainHolds(m')
            else MainHolds(m') == MainHolds(m) && m'.sock == m.sock
  {
  }

  /** The counts stay exact if they change as the main thread's own hold does. */
  lemma RecountMain(s: State, s': State)
    requires CountsExact(s) && s'.callers == s.callers && !s'.fault && |s'.socks| >= |s.socks|
    requires MainHolds(s'.main) ==> s'.main.sock < |s'.socks|
    requires forall k | |s.socks| <= k < |s'.socks| :: Holders(s.callers, k) == {} && HolderCount(s', k) == s'.socks[k].refs
    requires forall k | 0 <= k < |s.socks| :: s'.socks[k].refs - s.socks[k].refs == HolderCount(s', k) - HolderCount(s, k)
    requires forall k | 0 <= k < |s'.socks| :: s'.socks[k].freed <==> s'.socks[k].refs == 0
    requires forall k | 0 <= k < |s'.socks| && s'.socks[k].freed :: s'.socks[k].disconnected
    ensures CountsExact(s')
  {
  }

  lemma NoHoldersBeyond(s: State, k: SockId)
    requires CountsExact(s) && k >= |s.socks|
    ensures Holders(s.callers, k) == {}
  {
  }

  lemma MainKeepsTimer(t: Timer, now: nat, clock: nat, rnd: nat)
    requires TimerExact(t, clock) && 0 < now <= clock && t.last <= now && clock + MAX_RETRY_INTERVAL < UINT64_LIMIT
    requires TimerDue(t, now)
    ensures TimerExact(FireTimer(t, now, rnd), clock)
    ensures FireTimer(t, now, rnd).last == now
  {
    var t' := FireTimer(t, now, rnd);
    var capped := Min(t'.retries * INITIAL_RETRY_INTERVAL, MAX_RETRY_INTERVAL);
    IntervalRange(capped, rnd);
    if t.firings != [] && t.interval > 0 {
      assert t.last + t.interval < UINT64_LIMIT;
    }
  }

  lemma IntervalRange(capped: nat, rnd: nat)
    ensures capped / 2 <= GenRandInterval(capped / 2, capped, rnd) <= capped
  {
  }

  lemma MainKeepsClock(s: State, ok: bool, rnd: nat)
    requires ClockExact(s)
    ensures ClockExact(StepMain(s, ok, rnd))
  {
    if s.main.pc == PollTimer && TimerDue(s.main.timer, s.main.now) {
      MainKeepsTimer(s.main.timer, s.main.now, s.clock, rnd);
    }
  }

  lemma MainKeepsFields(s: State, ok: bool, rnd: nat)
    requires FieldsAgree(s)
    ensures FieldsAgree(StepMain(s, ok, rnd))
  {
    var s' := StepMain(s, ok, rnd);
    NextMainPublishes(s.main, s.shared, s.clock, Works(s, ok), rnd, |s.socks|);
    assert s'.main == NextMain(s.main, s.shared, s.clock, Works(s, ok), rnd, |s.socks|);
    assert s'.shared == NextShared(s.main, s.shared);
  }

  lemma NextMainPublishes(m: MainThread, c: Shared, clock: nat, works: bool, rnd: nat, newSock: SockId)
    ensures var m' := NextMain(m, c, clock, works, rnd, newSock);
            && Published(m') == ((Published(m) || m.pc.Publish?) && !m.pc.Unpublish?)
            && (Published(m') ==> m'.sock == m.sock)
            && (m'.pc.Connect? ==> m.pc.Decide? && m'.st.azureIp != "")
            && (m'.pc.Publish? ==> m.pc.Connect? && m'.st == m.st)
  {
  }

  lemma MainKeepsHostGuard(s: State, ok: bool, rnd: nat)
    requires HostGuarded(s)
    ensures HostGuarded(StepMain(s, ok, rnd))
  {
    NextMainRegisters(s.main, s.shared, s.clock, Works(s, ok), rnd, |s.socks|);
    if Registering(s.main) {
      MainKeepsCutOff(s, ok, rnd);
    }
  }

  lemma MainKeepsHaltGuard(s: State, ok: bool, rnd: nat)
    requires HaltGuarded(s)
    ensures HaltGuarded(StepMain(s, ok, rnd))
  {
    NextMainRegisters(s.main, s.shared, s.clock, Works(s, ok), rnd, |s.socks|);
    if Registering(s.main) {
      MainKeepsCutOff(s, ok, rnd);
    }
  }

  lemma MainKeepsCutOff(s: State, ok: bool, rnd: nat)
    requires Registering(s.main)
    ensures CutOff(s, s.main.sock) ==> CutOff(StepMain(s, ok, rnd), s.main.sock)
  {
    if CutOff(s, s.main.sock) {
      CutOffKept(s, StepMain(s, ok, rnd), s.main.sock);
    }
  }

  /** While registering or serving, the main thread only moves on. */
  lemma NextMainRegisters(m: MainThread, c: Shared, clock: nat, works: bool, rnd: nat, newSock: SockId)
    ensures var m' := NextMain(m, c, clock, works, rnd, newSock);
            Registering(m') ==>
              && (m.pc.Recheck? || Registering(m))
              && m'.sock == m.sock && m'.st == m.st
              && (m.pc.Recheck? ==> m'.pc.Register? && m'.hostChanged == !SameName(m.st.hostName, c.status.hostName))
              && (!m.pc.Recheck? ==> m'.hostChanged == m.hostChanged)
              && (m.pc.Register? ==> !m.hostChanged)
              && (Serving(m') && !Serving(m) ==> !c.halt)
  {
  }

  lemma CutOffKept(s: State, s': State, k: SockId)
    requires CutOff(s, k) && s'.callers == s.callers && |s'.socks| >= |s.socks|
    requires k < |s.socks| && s.socks[k].disconnected ==> s'.socks[k].disconnected
    ensures CutOff(s', k)
  {
    if AboutToBeDisconnected(s, k) {
      var t :| t in s.callers && s.callers[t].pc == DisconnectGrabbed && s.callers[t].sock == Some(k);
      assert t in s'.callers;
    }
  }

  // ---- Preservation: the other threads ----

  lemma CallerKeepsCounts(s: State, t: ThreadId)
    requires FieldsAgree(s) && CountsExact(s) && t in s.callers
    ensures CountsExact(StepCaller(s, t))
  {
    var s' := StepCaller(s, t);
    var c, c' := s.callers[t], StepCaller(s, t).callers[t];
    CallerMovesOneCount(s, t);
    assert s'.callers == s.callers[t := c'];
    forall k | 0 <= k < |s'.socks| ensures s'.socks[k].refs == HolderCount(s', k) {
      HoldersAfterUpdate(s.callers, t, c', k);
    }
  }

  /** The socket a caller is working on is alive when its step begins. */
  lemma CallerTargetLive(s: State, t: ThreadId)
    requires FieldsAgree(s) && CountsExact(s) && t in s.callers
    ensures var u := s.callers[t];
            && (u.pc.LockAndGrab? && GrabTarget(u.call, s.shared).Some? ==>
                  Live(s, GrabTarget(u.call, s.shared).value))
            && (Holding(u) ==> u.sock.Some? && Live(s, u.sock.value) && s.socks[u.sock.value].refs >= 1)
  {
    if s.shared.currentSock.Some? {
      HeldIsLive(s, s.shared.currentSock.value);
    }
    if Holding(s.callers[t]) {
      assert HoldsSock(s.callers[t], s.callers[t].sock.value);
      HeldIsLive(s, s.callers[t].sock.value);
    }
  }

  /** A caller's step changes the count of a socket exactly as it changes the caller's hold on it. */
  lemma CallerMovesOneCount(s: State, t: ThreadId)
    requires FieldsAgree(s) && CountsExact(s) && t in s.callers
    ensures var s', u, u' := StepCaller(s, t), s.callers[t], StepCaller(s, t).callers[t];
            && s'.main == s.main && !s'.fault && |s'.socks| == |s.socks|
            && (Holding(u') ==> u'.sock.Some? && u'.sock.value < |s.socks|)
            && forall k | 0 <= k < |s.socks| ::
                 && s'.socks[k].refs == s.socks[k].refs - (if HoldsSock(u, k) then 1 else 0)
                                        + (if HoldsSock(u', k) then 1 else 0)
                 && (s'.socks[k].freed <==> s'.socks[k].refs == 0)
                 && (s.socks[k].disconnected || s'.socks[k].freed ==> s'.socks[k].disconnected)
  {
    CallerTargetLive(s, t);
    var s', u := StepCaller(s, t), s.callers[t];
    match u.pc
    case LockAndGrab =>
      if GrabTarget(u.call, s.shared).Some? {
        assert s'.socks == AddRef(s, GrabTarget(u.call, s.shared).value).socks;
      }
    case DisconnectGrabbed => assert s'.socks == Disconnect(s, u.sock.value).socks;
    case ReleaseGrabbed => assert s'.socks == ReleaseSock(s, u.sock.value).socks;
    case _ => assert s'.socks == s.socks;
  }

  /** One step of another thread never un-disconnects the main thread's socket. */
  lemma CallerKeepsCutOff(s: State, t: ThreadId, k: SockId)
    requires Inv(s) && t in s.callers && CutOff(s, k)
    ensures CutOff(StepCaller(s, t), k)
  {
    var s' := StepCaller(s, t);
    CallerMovesOneCount(s, t);
    if !s'.socks[k].disconnected {
      var u :| u in s.callers && s.callers[u].pc == DisconnectGrabbed && s.callers[u].sock == Some(k);
      assert u != t && s'.callers[u] == s.callers[u];
    }
  }

  lemma CallerKeepsGuards(s: State, t: ThreadId)
    requires Inv(s) && t in s.callers
    ensures var s' := StepCaller(s, t); FieldsAgree(s') && HostGuarded(s') && HaltGuarded(s') && ClockExact(s')
  {
    var s' := StepCaller(s, t);
    var c := s.callers[t];
    assert s'.main == s.main && s'.clock == s.clock;
    assert s'.callers == s.callers[t := s'.callers[t]];
    var k := s.main.sock;
    if Published(s.main) {
      if CutOff(s, k) {
        CallerKeepsCutOff(s, t, k);
      }
      if s'.callers[t].pc == DisconnectGrabbed {
        assert s'.callers[t].sock == Some(k);
        assert AboutToBeDisconnected(s', k);
      }
    }
    if FreeHasLocked(s') && !FreeHasLocked(s) {
      var u :| u in s'.callers && s'.callers[u].call.FreeClient? && PastLock(s'.callers[u]);
      assert u == t && c.pc == LockAndGrab;
    }
  }

  // ---- Every run ----

  lemma StepKeepsInv(s: State, e: Event)
    requires Inv(s)
    ensures Inv(Step(s, e))
  {
    match e
    case MainStep(ok, rnd) =>
      MainKeepsCounts(s, ok, rnd);
      MainKeepsClock(s, ok, rnd);
      MainKeepsFields(s, ok, rnd);
      MainKeepsHostGuard(s, ok, rnd);
      MainKeepsHaltGuard(s, ok, rnd);
    case CallerStep(t) =>
      if t in s.callers {
        CallerKeepsCounts(s, t);
        CallerKeepsGuards(s, t);
      }
    case Spawn(t, call) => SpawnKeepsInv(s, t, call);
    case Elapse(ticks) => QuietKeepsInv(s, Step(s, e));
    case NewIpRevision(revision) => QuietKeepsInv(s, Step(s, e));
  }

  lemma SpawnKeepsInv(s: State, t: ThreadId, call: Call)
    requires Inv(s)
    ensures Inv(Step(s, Spawn(t, call)))
  {
    if t !in s.callers {
      var s' := Step(s, Spawn(t, call));
      forall k | 0 <= k < |s'.socks| ensures s'.socks[k].refs == HolderCount(s', k) {
        HoldersAfterUpdate(s.callers, t, s'.callers[t], k);
        assert s.socks[k].refs == HolderCount(s, k);
      }
      if AboutToBeDisconnected(s, s.main.sock) {
        var u :| u in s.callers && s.callers[u].pc == DisconnectGrabbed && s.callers[u].sock == Some(s.main.sock);
        assert u in s'.callers && s'.callers[u] == s.callers[u];
      }
      if FreeHasLocked(s') {
        var u :| u in s'.callers && s'.callers[u].call.FreeClient? && PastLock(s'.callers[u]);
        assert u in s.callers;
      }
    }
  }

  lemma QuietKeepsInv(s: State, s': State)
    requires Inv(s)
    requires s' == s.(clock := s'.clock, shared := s.shared.(ipRevision := s'.shared.ipRevision))
    requires s.clock <= s'.clock && s'.clock + MAX_RETRY_INTERVAL < UINT64_LIMIT
    ensures Inv(s')
  {
    assert forall k :: HolderCount(s', k) == HolderCount(s, k);
    assert FreeHasLocked(s') ==> FreeHasLocked(s);
    if CutOff(s, s.main.sock) {
      CutOffKept(s, s', s.main.sock);
    }
  }

  lemma {:induction false} RunKeepsInv(s: State, events: seq<Event>)
    requires Inv(s)
    ensures Inv(Run(s, events))
    decreases |events|
  {
    if events != [] {
      StepKeepsInv(s, events[0]);
      RunKeepsInv(Step(s, events[0]), events[1..]);
    }
  }

  /** The invariant holds however the threads interleave. */
  lemma EveryRunSafe(clock: nat, events: seq<Event>)
    requires ValidStart(clock)
    ensures Inv(Run(Init(clock), events))
  {
    RunKeepsInv(Init(clock), events);
  }
}
