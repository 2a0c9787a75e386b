/** The retry back-off of the VPN Azure client over whole runs: what resets it, and that failed sessions do not. */
module AzureBackoff {
  import opened Text
  import opened AzureProtocol
  import opened AzureSafety
  import opened AzureTheorems

  /** The events that reset the back-off: the snapshot finds a new relay address or host name, the address
      revision has changed, the client is switched off, or the session that has just ended had been
      established for an hour. */
  predicate ResetsBackoff(s: State, e: Event) {
    var m, c := s.main, s.shared;
    && e.MainStep?
    && match m.pc
       case TakeSnapshot =>
         || (!SameName(c.status.azureIp, c.statusCopy.azureIp) && !IsEmptyStr(c.status.azureIp))
         || !SameName(c.status.hostName, c.statusCopy.hostName)
       case ReadRevision => m.lastRevision != c.ipRevision
       case ReadEnabled => !c.enabled
       case CheckLong => m.established != 0 && s.clock - m.established >= 3_600_000
       case _ => false
  }

  /** The timer fires in this step. */
  predicate Fires(s: State, e: Event) {
    && e.MainStep? && s.main.pc.PollTimer?
    && (s.main.timer.last == 0 || s.main.now >= (s.main.timer.last + s.main.timer.interval) % UINT64_LIMIT)
  }

  /** From any state, with any event: each of these events clears counter and history, and the last two the
      whole timer; a firing counts one up, in 32 bits, and is recorded; and no other step of any thread
      touches the timer. */
  lemma TimerChangesExactlySo(s: State, e: Event)
    ensures var t, u := s.main.timer, Step(s, e).main.timer;
            && (ResetsBackoff(s, e) ==>
                  && u.retries == 0 && u.firings == []
                  && (s.main.pc.ReadEnabled? || s.main.pc.CheckLong? ==> u.last == 0 && u.interval == 1000)
                  && (s.main.pc.TakeSnapshot? || s.main.pc.ReadRevision? ==> u.last == t.last && u.interval == t.interval))
            && (Fires(s, e) ==>
                  u.retries == (t.retries + 1) % UINT_LIMIT && u.firings == t.firings + [s.main.now] && u.last == s.main.now)
            && (!ResetsBackoff(s, e) && !Fires(s, e) ==> u == t)
  {
    if e.MainStep? {
      NextTimer(s.main, s.shared, s.clock, Works(s, e.ok), e.rnd, |s.socks|);
      hide NextMain, SameName, IsEmptyStr, SockEffect;
    } else {
      hide ResetsBackoff;
      OthersLeaveMain(s, e);
    }
  }

  lemma OthersLeaveMain(s: State, e: Event)
    requires !e.MainStep?
    ensures Step(s, e).main == s.main
  {
  }

  lemma NextTimer(m: MainThread, c: Shared, clock: nat, works: bool, rnd: nat, newSock: SockId)
    ensures NextMain(m, c, clock, works, rnd, newSock).timer ==
              match m.pc
              case TakeSnapshot => if SnapshotChanged(c) then ResetRetries(m.timer) else m.timer
              case ReadRevision => if m.lastRevision != c.ipRevision then ResetRetries(m.timer) else m.timer
              case ReadEnabled => if !c.enabled then FreshTimer else m.timer
              case PollTimer => if TimerDue(m.timer, m.now) then FireTimer(m.timer, m.now, rnd) else m.timer
              case CheckLong => if m.established != 0 && m.established + MAX_RETRY_INTERVAL <= clock then FreshTimer else m.timer
              case _ => m.timer
  {
    hide SnapshotChanged, TimerDue, FireTimer, IsEmptyStr, SameName;
  }

  /** The tick from which a session counts as established is that at which it began to be served, and zero
      until then. */
  lemma EstablishedWhenServed(s: State, e: Event)
    ensures var m, n := s.main, Step(s, e).main;
            && (e.MainStep? && m.pc.ReadHalt? && !s.shared.halt ==> n.pc.ServeHalt? && n.established == s.clock)
            && (e.MainStep? && m.pc.Publish? ==> n.established == 0)
            && (n.established != m.established ==> e.MainStep? && (m.pc.Publish? || (m.pc.ReadHalt? && !s.shared.halt)))
  {
    hide SameName, IsEmptyStr;
  }

  // ---- Runs without a reset ----

  predicate NeverResets(s: State, events: seq<Event>)
    decreases |events|
  {
    events == [] || (!ResetsBackoff(s, events[0]) && NeverResets(Step(s, events[0]), events[1..]))
  }

  /** How often the main thread tries to connect. */
  function Attempts(s: State, events: seq<Event>): nat
    decreases |events|
  {
    if events == [] then 0
    else (if events[0].MainStep? && s.main.pc.Connect? then 1 else 0) + Attempts(Step(s, events[0]), events[1..])
  }

  lemma {:induction false} FiringsOnlyGrow(s: State, events: seq<Event>)
    requires NeverResets(s, events)
    ensures s.main.timer.firings <= Run(s, events).main.timer.firings
    decreases |events|
  {
    hide Step;
    if events != [] {
      TimerChangesExactlySo(s, events[0]);
      FiringsOnlyGrow(Step(s, events[0]), events[1..]);
    }
  }

  /** However many sessions fail: in any run from any moment on without one of these events, the k-th firing
      from then on comes at least 250 * k * (k - 1) ms after the first. */
  lemma BackoffSpansSessions(clock: nat, before: seq<Event>, after: seq<Event>, k: nat)
    requires ValidStart(clock) && 1 <= k <= 3600
    requires var s := Run(Init(clock), before);
             NeverResets(s, after) && |s.main.timer.firings| + k <= |Run(s, after).main.timer.firings| < UINT_LIMIT
    ensures var s := Run(Init(clock), before);
            var n := |s.main.timer.firings|;
            var u := Run(s, after);
            && s.main.timer.firings <= u.main.timer.firings
            && u.main.timer.firings[n + k - 1] - u.main.timer.firings[n] >= 250 * k * (k - 1)
            && u.main.timer.firings[n + k - 1] <= u.clock
  {
    var s := Run(Init(clock), before);
    var u := Run(s, after);
    TimerStaysExact(clock, before, after);
    hide *;
    FiringsOnlyGrow(s, after);
    WaitsFrom(u.main.timer, u.clock, |s.main.timer.firings|, k);
    FiringsBeforeClock(u.main.timer, u.clock, |s.main.timer.firings| + k - 1);
  }

  lemma TimerStaysExact(clock: nat, before: seq<Event>, after: seq<Event>)
    requires ValidStart(clock)
    ensures var u := Run(Run(Init(clock), before), after); TimerExact(u.main.timer, u.clock)
  {
    EveryRunSafe(clock, before);
    RunKeepsInv(Run(Init(clock), before), after);
  }

  lemma {:induction false} WaitsFrom(t: Timer, clock: nat, n: nat, k: nat)
    requires TimerExact(t, clock) && 1 <= k <= 3600 && n + k <= |t.firings| < UINT_LIMIT
    ensures t.firings[n + k - 1] - t.firings[n] >= 250 * k * (k - 1)
  {
    if k > 1 {
      WaitsFrom(t, clock, n, k - 1);
      assert t.firings[n + k - 1] >= t.firings[n + k - 2] + MinWait(n + k - 1);
      assert MinWait(n + k - 1) >= 500 * (k - 1);
      hide MinWait, TimerExact;
      NextSquare(k);
    }
  }

  lemma {:induction false} FiringsBeforeClock(t: Timer, clock: nat, i: nat)
    requires TimerExact(t, clock) && i < |t.firings| < UINT_LIMIT
    ensures t.firings[i] <= clock
    decreases |t.firings| - i
  {
    if i + 1 < |t.firings| {
      FiringsBeforeClock(t, clock, i + 1);
      assert t.firings[i + 1] >= t.firings[i] + MinWait(i + 1);
    }
  }

  // ---- Attempts are firings ----

  /** Something seen in this pass through the loop already asks for a connection. */
  predicate Asked(m: MainThread) {
    m.pc.Connect? || (m.connectNow && (m.pc.ReadRevision? || m.pc.PollTimer? || m.pc.Decide?))
  }

  lemma AskedOnlyByFiring(s: State, e: Event)
    requires !ResetsBackoff(s, e)
    ensures var attempt := if e.MainStep? && s.main.pc.Connect? then 1 else 0;
            attempt + (if Asked(Step(s, e).main) then 1 else 0) <= (if Asked(s.main) then 1 else 0) + if Fires(s, e) then 1 else 0
  {
    hide SameName, IsEmptyStr;
  }

  /** Without a reset every attempt to connect, but for one that may be under way already, takes a firing of
      its own: so attempts obey the back-off too. */
  lemma {:induction false} AttemptsAreFirings(s: State, events: seq<Event>)
    requires NeverResets(s, events)
    ensures Attempts(s, events) + (if Asked(Run(s, events).main) then 1 else 0)
         <= |Run(s, events).main.timer.firings| - |s.main.timer.firings| + if Asked(s.main) then 1 else 0
    decreases |events|
  {
    hide Step, Asked;
    if events != [] {
      TimerChangesExactlySo(s, events[0]);
      AskedOnlyByFiring(s, events[0]);
      AttemptsAreFirings(Step(s, events[0]), events[1..]);
    }
  }

  /** So a client whose sessions all fail slows down: `m` attempts more than the one under way take at least
      250 * m * (m - 1) ms. */
  lemma AttemptsBackOff(clock: nat, before: seq<Event>, after: seq<Event>, m: nat)
    requires ValidStart(clock) && 1 <= m <= 3600
    requires var s := Run(Init(clock), before);
             NeverResets(s, after) && Attempts(s, after) == m + 1 && |Run(s, after).main.timer.firings| < UINT_LIMIT
    ensures var s := Run(Init(clock), before);
            var n := |s.main.timer.firings|;
            var u := Run(s, after);
            n < |u.main.timer.firings| && u.clock - u.main.timer.firings[n] >= 250 * m * (m - 1)
  {
    AttemptsAreFirings(Run(Init(clock), before), after);
    BackoffSpansSessions(clock, before, after, m);
  }

  /** When a pass through the loop connects: if the snapshot or the address revision has changed since the last
      one, or the timer has fired, and there are an address and a host name. What a snapshot has seen counts as
      seen. */
  lemma ConnectsExactlyWhenAsked(s: State, e: Event)
    requires e.MainStep?
    ensures var m, c, u := s.main, s.shared, Step(s, e);
            var n := u.main;
            && (m.pc.ReadEnabled? && c.enabled ==> n.pc.TakeSnapshot? && !n.connectNow)
            && (m.pc.TakeSnapshot? ==>
                  n.pc.ReadRevision? && n.st == c.status && u.shared.statusCopy == c.status && (n.connectNow <==> ResetsBackoff(s, e)))
            && (m.pc.ReadRevision? ==>
                  n.pc.PollTimer? && n.lastRevision == c.ipRevision && (n.connectNow <==> m.connectNow || ResetsBackoff(s, e)))
            && (m.pc.PollTimer? ==> n.pc.Decide? && (n.connectNow <==> m.connectNow || Fires(s, e)))
            && (m.pc.Decide? ==> (n.pc.Connect? <==> m.connectNow && !IsEmptyStr(m.st.azureIp) && !IsEmptyStr(m.st.hostName)))
  {
    hide SameName, IsEmptyStr, FireTimer;
  }


  /** The waits that the timer may choose after a firing: those from half the capped interval up to, but not
      including, the whole one, each of them and no other; zero if the counter has just wrapped. */
  lemma WaitsAreThese(t: Timer, now: nat, wait: nat)
    ensures var n := (t.retries + 1) % 0x1_0000_0000;
            var most := if n <= 3600 then n * 1000 else 3_600_000;
            (exists rnd: nat :: FireTimer(t, now, rnd).interval == wait) <==> most / 2 <= wait && (wait < most || most == 0 == wait)
  {
    var n := (t.retries + 1) % 0x1_0000_0000;
    var most := if n <= 3600 then n * 1000 else 3_600_000;
    forall rnd: nat ensures FireTimer(t, now, rnd).interval == if most / 2 <= rnd < most then rnd else most / 2 {
    }
    if most / 2 <= wait && (wait < most || most == 0 == wait) {
      assert FireTimer(t, now, wait).interval == wait;
    }
  }
}
