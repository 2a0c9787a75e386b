/** The guarantees of the VPN Azure client, for every run of its threads. */
module AzureTheorems {
  import opened Text
  import opened AzureProtocol
  import opened AzureSafety

  // ---- Configuration changes ----

  /** The client never goes on serving under an outdated host name: at every moment of every run the
      name it is registered under is the current one, or its socket is disconnected, or some thread
      holds a reference to the socket and disconnects it in its next step. */
  lemma NeverServesStaleHost(clock: nat, events: seq<Event>)
    requires ValidStart(clock)
    ensures var s := Run(Init(clock), events);
            Serving(s.main) ==>
              SameName(s.main.st.hostName, s.shared.status.hostName) || CutOff(s, s.main.sock)
  {
    EveryRunSafe(clock, events);
  }

  /** What `AboutToBeDisconnected` promises: the thread's next step disconnects the socket. */
  lemma NextStepDisconnects(s: State, t: ThreadId, k: SockId)
    requires Inv(s) && t in s.callers && s.callers[t].pc.DisconnectGrabbed? && s.callers[t].sock == Some(k)
    ensures k < |s.socks| && StepCaller(s, t).socks[k].disconnected
  {
    CallerTargetLive(s, t);
  }

  function CountMain(events: seq<Event>): nat
    decreases |events|
  {
    if events == [] then 0 else (if events[0].MainStep? then 1 else 0) + CountMain(events[1..])
  }

  /** A session whose socket is disconnected is over within two steps of the main thread, whatever
      the other threads do meanwhile. */
  lemma {:induction false} DisconnectedSessionEnds(s: State, events: seq<Event>)
    requires Inv(s)
    requires Serving(s.main) ==> s.socks[s.main.sock].disconnected
    requires match s.main.pc
             case ServeHalt => CountMain(events) == 2
             case ServeIo => 1 <= CountMain(events) <= 2
             case Unpublish => CountMain(events) <= 1
             case CheckLong => CountMain(events) == 0
             case _ => false
    ensures !Serving(Run(s, events).main)
    decreases |events|
  {
    if events != [] {
      var s' := Step(s, events[0]);
      StepKeepsInv(s, events[0]);
      if events[0].CallerStep? && events[0].thread in s.callers {
        CallerMovesOneCount(s, events[0].thread);
      }
      DisconnectedSessionEnds(s', events[1..]);
    }
  }

  // ---- The fields of the client ----

  /** `IsConnected`, `CurrentSock` and `ConnectingAzureIp` always agree, and a published socket is
      alive and carries the main thread's reference. */
  lemma PublicationIsConsistent(clock: nat, events: seq<Event>)
    requires ValidStart(clock)
    ensures var s := Run(Init(clock), events);
            && s.shared.isConnected == s.shared.currentSock.Some? == (s.shared.connectingIp != "")
            && (s.shared.currentSock.Some? ==>
                  && MainHolds(s.main) && s.shared.currentSock == Some(s.main.sock)
                  && Live(s, s.main.sock) && s.socks[s.main.sock].refs >= 1)
  {
    EveryRunSafe(clock, events);
    var s := Run(Init(clock), events);
    if MainHolds(s.main) {
      HeldIsLive(s, s.main.sock);
    }
  }

  // ---- Reference counts ----

  /** No thread ever touches a freed socket, and each count is the number of holders. */
  lemma NoSocketUsedAfterFree(clock: nat, events: seq<Event>)
    requires ValidStart(clock)
    ensures var s := Run(Init(clock), events);
            && !s.fault
            && forall k | 0 <= k < |s.socks| ::
                 s.socks[k].refs == HolderCount(s, k) && (s.socks[k].freed <==> HolderCount(s, k) == 0)
  {
    EveryRunSafe(clock, events);
  }

  /** Once the main thread has stopped and no call still holds a socket, every socket ever opened is
      disconnected and freed. */
  lemma AllSocketsReleased(clock: nat, events: seq<Event>)
    requires ValidStart(clock)
    requires var s := Run(Init(clock), events);
             s.main.pc.Stopped? && forall t | t in s.callers :: !Holding(s.callers[t])
    ensures var s := Run(Init(clock), events);
            forall k | 0 <= k < |s.socks| :: s.socks[k] == Sock(0, true, true)
  {
    EveryRunSafe(clock, events);
    var s := Run(Init(clock), events);
    forall k | 0 <= k < |s.socks| ensures s.socks[k] == Sock(0, true, true) {
      assert Holders(s.callers, k) == {};
      assert s.socks[k].refs == HolderCount(s, k);
    }
  }

  // ---- Freeing the client ----

  /** From the end of FreeAzureClient's critical section on, the main thread serves only on a socket
      that is disconnected or about to be; and when the call returns the main thread has stopped. */
  lemma FreeCutsOffService(clock: nat, events: seq<Event>)
    requires ValidStart(clock)
    ensures var s := Run(Init(clock), events);
            && (FreeHasLocked(s) && Serving(s.main) ==> CutOff(s, s.main.sock))
            && (FreeHasLocked(s) ==> s.shared.halt)
            && forall t | t in s.callers && s.callers[t].call.FreeClient? && s.callers[t].pc.Returned? ::
                 s.main.pc.Stopped?
  {
    EveryRunSafe(clock, events);
  }

  /** The number of sockets that the main thread publishes in a run. */
  function CountPublished(s: State, events: seq<Event>): nat
    decreases |events|
  {
    if events == [] then 0
    else (if events[0].MainStep? && s.main.pc.Publish? then 1 else 0)
         + CountPublished(Step(s, events[0]), events[1..])
  }

  /** A main-thread step after the halt flag is set brings the thread closer to its end. */
  lemma HaltedStepProgresses(s: State, ok: bool, rnd: nat)
    requires s.shared.halt && !s.main.pc.Stopped?
    ensures Distance(StepMain(s, ok, rnd).main.pc) < Distance(s.main.pc)
  {
    NextMainProgresses(s.main, s.shared, s.clock, Works(s, ok), rnd, |s.socks|);
  }

  lemma NextMainProgresses(m: MainThread, c: Shared, clock: nat, works: bool, rnd: nat, newSock: SockId)
    requires c.halt && !m.pc.Stopped?
    ensures Distance(NextMain(m, c, clock, works, rnd, newSock).pc) < Distance(m.pc)
  {
  }

  lemma HaltStays(s: State, e: Event)
    requires s.shared.halt
    ensures Step(s, e).shared.halt
    ensures !e.MainStep? ==> Step(s, e).main == s.main
    ensures e.MainStep? && s.main.pc.Stopped? ==> Step(s, e).main == s.main
  {
  }

  /** After the halt flag is set, at most one socket is still published, and none unless the main
      thread was already between its loop test and the publication. */
  lemma {:induction false} AtMostOnePublicationAfterHalt(s: State, events: seq<Event>)
    requires s.shared.halt
    ensures CountPublished(s, events) <= if Distance(s.main.pc) >= Distance(Publish) then 1 else 0
    decreases |events|
  {
    if events != [] {
      var s' := Step(s, events[0]);
      HaltStays(s, events[0]);
      if events[0].MainStep? && !s.main.pc.Stopped? {
        HaltedStepProgresses(s, events[0].ok, events[0].rnd);
      }
      AtMostOnePublicationAfterHalt(s', events[1..]);
    }
  }

  /** The wait for the main thread ends: 19 of its own steps suffice, from any state. */
  lemma {:induction false} MainStopsAfterHalt(s: State, events: seq<Event>)
    requires s.shared.halt && CountMain(events) >= Distance(s.main.pc)
    ensures Run(s, events).main.pc.Stopped?
    ensures Distance(s.main.pc) <= 19
    decreases |events|
  {
    if events != [] {
      HaltStays(s, events[0]);
      if events[0].MainStep? && !s.main.pc.Stopped? {
        HaltedStepProgresses(s, events[0].ok, events[0].rnd);
      }
      MainStopsAfterHalt(Step(s, events[0]), events[1..]);
    }
  }

  // ---- The retry timer ----

  /** The interval computed by a firing is sane except when the 32-bit counter wraps to zero. */
  lemma IntervalInRangeUnlessWrapped(t: Timer, now: nat, rnd: nat)
    requires t.retries < UINT_LIMIT
    ensures 500 <= FireTimer(t, now, rnd).interval <= MAX_RETRY_INTERVAL <==> t.retries + 1 < UINT_LIMIT
    ensures t.retries + 1 == UINT_LIMIT ==> FireTimer(t, now, rnd).interval == 0
  {
    var capped := Min((t.retries + 1) % UINT_LIMIT * INITIAL_RETRY_INTERVAL, MAX_RETRY_INTERVAL);
    IntervalRange(capped, rnd);
  }

  /** In every run, from the last reset of the retry counter on, the k-th firing comes at least
      250 * k * (k - 1) ms after the first, and no 64-bit sum overflows. */
  lemma BackoffIsQuadratic(clock: nat, events: seq<Event>, k: nat)
    requires ValidStart(clock) && 1 <= k <= 3600
    requires k <= |Run(Init(clock), events).main.timer.firings|
    ensures var t := Run(Init(clock), events).main.timer;
            && t.firings[k - 1] - t.firings[0] >= 250 * k * (k - 1)
            && t.last + t.interval < UINT64_LIMIT
  {
    EveryRunSafe(clock, events);
    SumOfWaits(Run(Init(clock), events).main.timer, Run(Init(clock), events).clock, k);
  }

  lemma {:induction false} SumOfWaits(t: Timer, clock: nat, k: nat)
    requires TimerExact(t, clock) && 1 <= k <= 3600 && k <= |t.firings|
    ensures t.firings[k - 1] - t.firings[0] >= 250 * k * (k - 1)
  {
    if k > 1 {
      SumOfWaits(t, clock, k - 1);
      assert t.firings[k - 1] >= t.firings[k - 2] + 500 * (k - 1);
      NextSquare(k);
    }
  }

  lemma NextSquare(k: nat)
    ensures 250 * k * (k - 1) == 250 * (k - 1) * (k - 2) + 500 * (k - 1)
  {
  }

  /** Past the cap the firings stay at least half an hour apart. */
  lemma {:induction false} BackoffBeyondCap(t: Timer, clock: nat, k: nat)
    requires TimerExact(t, clock) && 3600 <= k <= |t.firings| && k < UINT_LIMIT
    ensures t.firings[k - 1] - t.firings[0] >= 250 * 3600 * 3599 + 1_800_000 * (k - 3600)
  {
    if k == 3600 {
      SumOfWaits(t, clock, k);
    } else {
      BackoffBeyondCap(t, clock, k - 1);
      assert t.firings[k - 1] >= t.firings[k - 2] + MinWait(k - 1);
    }
  }
}
