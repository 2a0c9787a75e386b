/** When disabling the VPN Azure client works, and when it is missed. */
module AzureDisable {
  import opened Text
  import opened AzureProtocol
  import opened AzureSafety

  /** Nobody is going to set the flag again. */
  predicate NoEnabling(callers: map<ThreadId, Caller>) {
    forall t | t in callers && callers[t].call == SetEnable(true) :: !callers[t].pc.WriteFlag?
  }

  predicate StaysDisabled(events: seq<Event>) {
    forall e <- events :: !(e.Spawn? && e.call == SetEnable(true))
  }

  /** The disabling call has cleared the flag and is about to take the lock. */
  predicate Disabling(s: State, t: ThreadId) {
    && t in s.callers && s.callers[t].call == SetEnable(false) && s.callers[t].pc.LockAndGrab?
    && !s.shared.enabled && NoEnabling(s.callers)
  }

  predicate HasAddress(st: Status) { !IsEmptyStr(st.azureIp) && !IsEmptyStr(st.hostName) }

  /** The main thread is past its test of the flag, not yet at the publication, and nothing that it has
      already read keeps it from connecting. */
  predicate MayConnect(m: MainThread, halt: bool) {
    && !halt
    && match m.pc
       case TakeSnapshot => true
       case ReadRevision => HasAddress(m.st)
       case PollTimer => HasAddress(m.st) && (m.connectNow || TimerDue(m.timer, m.now))
       case Decide => HasAddress(m.st) && m.connectNow
       case Connect => true
       case Publish => true
       case _ => false
  }

  /** The main thread is served on a socket that nobody is going to disconnect. */
  predicate ServedOn(s: State) { Serving(s.main) && !CutOff(s, s.main.sock) }

  // ---- It works if the main thread cannot connect any more ----

  /** Disabled for good: whatever is published is cut off, or will meet the halt flag before it serves. */
  predicate SwitchedOff(s: State) {
    && !s.shared.enabled && NoEnabling(s.callers) && !MayConnect(s.main, s.shared.halt)
    && (Published(s.main) ==> CutOff(s, s.main.sock) || (s.shared.halt && !Serving(s.main)))
  }

  lemma DisablingSwitchesOff(s: State, t: ThreadId)
    requires Inv(s) && Disabling(s, t) && !MayConnect(s.main, s.shared.halt)
    ensures SwitchedOff(StepCaller(s, t))
  {
    var u := StepCaller(s, t);
    if Published(s.main) {
      assert u.callers[t].pc == DisconnectGrabbed && u.callers[t].sock == Some(s.main.sock);
    }
  }

  /** One step of a switched-off main thread does not bring it back on its way to a connection. */
  lemma NextMainStaysOut(m: MainThread, c: Shared, clock: nat, works: bool, rnd: nat, newSock: SockId)
    requires !c.enabled && !MayConnect(m, c.halt)
    ensures !MayConnect(NextMain(m, c, clock, works, rnd, newSock), c.halt)
    ensures Serving(NextMain(m, c, clock, works, rnd, newSock)) ==> Published(m) && (c.halt ==> Serving(m))
    ensures m.pc.Publish? ==> c.halt
  {
    hide IsEmptyStr, SnapshotChanged;
  }

  lemma MainKeepsPublishedCutOff(s: State, ok: bool, rnd: nat)
    requires Published(s.main) && CutOff(s, s.main.sock)
    ensures CutOff(StepMain(s, ok, rnd), s.main.sock)
  {
    CutOffKept(s, StepMain(s, ok, rnd), s.main.sock);
  }

  lemma MainStaysSwitchedOff(s: State, ok: bool, rnd: nat)
    requires SwitchedOff(s)
    ensures SwitchedOff(StepMain(s, ok, rnd))
  {
    var m, c := s.main, s.shared;
    var works := Works(s, ok);
    NextMainPublishes(m, c, s.clock, works, rnd, |s.socks|);
    NextMainStaysOut(m, c, s.clock, works, rnd, |s.socks|);
    if Published(m) && CutOff(s, m.sock) {
      MainKeepsPublishedCutOff(s, ok, rnd);
    }
    hide NextMain, CutOff, MayConnect;
  }

  lemma CallerStaysSwitchedOff(s: State, t: ThreadId)
    requires Inv(s) && SwitchedOff(s) && t in s.callers
    ensures SwitchedOff(StepCaller(s, t))
  {
    var u := StepCaller(s, t);
    CallerMovesOneCount(s, t);
    if Published(s.main) && CutOff(s, s.main.sock) {
      CallerKeepsCutOff(s, t, s.main.sock);
    }
    hide Inv, CutOff;
    assert u.callers == s.callers[t := u.callers[t]];
  }

  lemma StepStaysSwitchedOff(s: State, e: Event)
    requires Inv(s) && SwitchedOff(s) && !(e.Spawn? && e.call == SetEnable(true))
    ensures SwitchedOff(Step(s, e))
  {
    match e
    case MainStep(ok, rnd) => MainStaysSwitchedOff(s, ok, rnd);
    case CallerStep(t) =>
      if t in s.callers {
        CallerStaysSwitchedOff(s, t);
      }
    case Spawn(t, call) =>
      if t !in s.callers {
        var u := Step(s, e);
        if AboutToBeDisconnected(s, s.main.sock) {
          var o :| o in s.callers && s.callers[o].pc == DisconnectGrabbed && s.callers[o].sock == Some(s.main.sock);
          assert o in u.callers && u.callers[o] == s.callers[o];
        }
      }
    case _ =>
      if CutOff(s, s.main.sock) {
        CutOffKept(s, Step(s, e), s.main.sock);
      }
  }

  lemma {:induction false} RunStaysSwitchedOff(s: State, events: seq<Event>)
    requires Inv(s) && SwitchedOff(s) && StaysDisabled(events)
    ensures Inv(Run(s, events)) && SwitchedOff(Run(s, events))
    decreases |events|
  {
    hide Inv, SwitchedOff, Step;
    if events != [] {
      StepKeepsInv(s, events[0]);
      StepStaysSwitchedOff(s, events[0]);
      RunStaysSwitchedOff(Step(s, events[0]), events[1..]);
    }
  }

  // ---- It is missed if the main thread still can ----

  /** A socket that is not published yet is known to nobody else. */
  predicate UnpublishedIsPrivate(s: State) {
    s.main.pc.Publish? ==> s.main.sock < |s.socks| && s.socks[s.main.sock] == Sock(1, false, false)
  }

  lemma StepKeepsPrivate(s: State, e: Event)
    requires Inv(s) && UnpublishedIsPrivate(s)
    ensures UnpublishedIsPrivate(Step(s, e))
  {
    match e
    case MainStep(ok, rnd) =>
      NextMainPublishes(s.main, s.shared, s.clock, Works(s, ok), rnd, |s.socks|);
    case CallerStep(t) =>
      if t in s.callers && s.main.pc.Publish? {
        var k := s.main.sock;
        assert Holders(s.callers, k) == {};
        assert !HoldsSock(s.callers[t], k) by {
          assert t !in Holders(s.callers, k);
        }
        CallerTargetLive(s, t);
      }
    case _ =>
  }

  /** Both invariants of the protocol. */
  predicate Sound(s: State) { Inv(s) && UnpublishedIsPrivate(s) }

  lemma {:induction false} RunKeepsSound(s: State, events: seq<Event>)
    requires Sound(s)
    ensures Sound(Run(s, events))
    decreases |events|
  {
    hide Inv, UnpublishedIsPrivate, Step;
    if events != [] {
      StepKeepsInv(s, events[0]);
      StepKeepsPrivate(s, events[0]);
      RunKeepsSound(Step(s, events[0]), events[1..]);
    }
  }

  lemma {:induction false} FreshThread(threads: set<ThreadId>) returns (t: ThreadId)
    ensures t !in threads && forall u <- threads :: u < t
    decreases threads
  {
    if threads == {} {
      t := 0;
    } else {
      var u :| u in threads;
      var above := FreshThread(threads - {u});
      t := if above > u then above else u + 1;
      assert forall v <- threads :: v == u || v in threads - {u};
    }
  }

  /** The main thread alone, with at most another address revision. */
  predicate NoCalls(events: seq<Event>) {
    forall e <- events :: e.MainStep? || e.NewIpRevision?
  }

  /** While nothing is published a new configuration goes in without anything being disconnected. */
  lemma ApplyBeforePublishing(s: State, st: Status) returns (events: seq<Event>)
    requires Sound(s) && !Published(s.main)
    ensures var u := Run(s, events);
            && StaysDisabled(events) && Sound(u) && u.main == s.main && u.socks == s.socks
            && u.shared == s.shared.(status := st) && forall e <- events | e.Spawn? :: e.call == ApplyConfig(st)
  {
    var t := FreshThread(s.callers.Keys);
    events := [Spawn(t, ApplyConfig(st)), CallerStep(t)];
    RunTwo(s, events[0], events[1]);
    RunKeepsSound(s, events);
    var s1 := Step(s, events[0]);
    assert s1.callers[t].pc.LockAndGrab? && s1.shared.currentSock == None;
  }

  lemma RunTwo(s: State, d: Event, e: Event)
    ensures Run(s, [d, e]) == Step(Step(s, d), e)
  {
    assert [d, e][1..] == [e] && [e][1..] == [];
    assert Run(Step(s, d), [e]) == Run(Step(Step(s, d), e), []);
  }

  lemma RunOne(s: State, e: Event)
    ensures Run(s, [e]) == Step(s, e)
  {
    assert Run(s, [e]) == Run(Step(s, e), []);
  }

  lemma {:induction false} RunAppends(s: State, xs: seq<Event>, ys: seq<Event>)
    ensures Run(s, xs + ys) == Run(Run(s, xs), ys)
    decreases |xs|
  {
    if xs == [] {
      assert xs + ys == ys;
    } else {
      assert (xs + ys)[1..] == xs[1..] + ys;
      RunAppends(Step(s, xs[0]), xs[1..], ys);
    }
  }

  /** Runs put together. */
  lemma Continue(s: State, xs: seq<Event>, ys: seq<Event>)
    requires StaysDisabled(xs) && StaysDisabled(ys)
    ensures StaysDisabled(xs + ys) && Run(s, xs + ys) == Run(Run(s, xs), ys)
  {
    RunAppends(s, xs, ys);
  }

  const RELAY: Status := Status("h", "a", 0)

  lemma NotPublishedYet(m: MainThread, halt: bool)
    requires MayConnect(m, halt)
    ensures !Published(m)
  {
  }

  /** One more step towards the connection: the environment helps with a status or an address revision
      where one is still to be read. */
  lemma ApproachConnection(s: State) returns (events: seq<Event>)
    requires Sound(s) && MayConnect(s.main, s.shared.halt) && !s.main.pc.Publish?
    ensures var u := Run(s, events);
            && StaysDisabled(events) && Sound(u) && MayConnect(u.main, u.shared.halt)
            && Distance(u.main.pc) < Distance(s.main.pc) && !u.main.pc.TakeSnapshot?
            && (!s.main.pc.TakeSnapshot? ==> NoCalls(events) && u.main.st == s.main.st)
  {
    hide MayConnect, StepMain, Inv, UnpublishedIsPrivate;
    NotPublishedYet(s.main, s.shared.halt);
    var ahead: seq<Event> := [];
    if s.main.pc.TakeSnapshot? {
      ahead := ApplyBeforePublishing(s, RELAY);
      assert HasAddress(RELAY) by { assert RELAY.azureIp[0] == 'a' && RELAY.hostName[0] == 'h'; }
    } else if s.main.pc.ReadRevision? {
      var revision := if s.main.lastRevision == 0 then 1 else 0;
      ahead := [NewIpRevision(revision)];
      RunOne(s, ahead[0]);
      RunKeepsSound(s, ahead);
    }
    var s1 := Run(s, ahead);
    assert s1.main == s.main && s1.shared.halt == s.shared.halt;
    events := ahead + [MainStep(true, 0)];
    Continue(s, ahead, [MainStep(true, 0)]);
    RunOne(s1, MainStep(true, 0));
    RunKeepsSound(s, events);
    MainApproaches(s1);
  }

  /** The step itself, once there is something good to read. */
  lemma MainApproaches(s: State)
    requires MayConnect(s.main, s.shared.halt) && !s.main.pc.Publish?
    requires s.main.pc.TakeSnapshot? ==> HasAddress(s.shared.status)
    requires s.main.pc.ReadRevision? ==> s.main.lastRevision != s.shared.ipRevision
    ensures var u := StepMain(s, true, 0);
            && MayConnect(u.main, u.shared.halt) && Distance(u.main.pc) < Distance(s.main.pc) && !u.main.pc.TakeSnapshot?
            && (!s.main.pc.TakeSnapshot? ==> u.main.st == s.main.st)
  {
    hide IsEmptyStr, SnapshotChanged;
  }

  lemma {:induction false} ReachPublication(s: State) returns (events: seq<Event>)
    requires Sound(s) && MayConnect(s.main, s.shared.halt)
    ensures var u := Run(s, events); StaysDisabled(events) && Sound(u) && !u.shared.halt && u.main.pc.Publish?
    ensures !s.main.pc.TakeSnapshot? ==> NoCalls(events) && Run(s, events).main.st == s.main.st
    decreases Distance(s.main.pc)
  {
    hide Sound, Run;
    if s.main.pc.Publish? {
      events := [];
      RunNothing(s);
    } else {
      var ahead := ApproachConnection(s);
      var rest := ReachPublication(Run(s, ahead));
      events := ahead + rest;
      Continue(s, ahead, rest);
    }
  }

  lemma RunNothing(s: State)
    ensures Run(s, []) == s
  {
  }

  /** Published under the current host name, on a socket that only the main thread holds. */
  predicate Undisturbed(s: State) {
    var m := s.main;
    && !s.shared.halt && SameName(m.st.hostName, s.shared.status.hostName)
    && (m.pc.Publish? || m.pc.RecvParam? || m.pc.StoreParam? || m.pc.Recheck? || m.pc.Register? || m.pc.ReadHalt? || m.pc.ServeHalt?)
    && (m.pc.Register? ==> !m.hostChanged)
    && m.sock < |s.socks| && s.socks[m.sock] == Sock(1, false, false)
  }

  lemma UndisturbedStep(s: State)
    requires Undisturbed(s) && !s.main.pc.ServeHalt?
    ensures Undisturbed(StepMain(s, true, 0))
    ensures Distance(StepMain(s, true, 0).main.pc) < Distance(s.main.pc) && StepMain(s, true, 0).main.st == s.main.st
  {
    hide SameName, IsEmptyStr;
  }

  lemma {:induction false} ReachService(s: State) returns (events: seq<Event>)
    requires Sound(s) && Undisturbed(s)
    ensures var u := Run(s, events); StaysDisabled(events) && Sound(u) && Undisturbed(u) && u.main.pc.ServeHalt?
    ensures NoCalls(events) && Run(s, events).main.st == s.main.st
    decreases Distance(s.main.pc)
  {
    hide Sound, Undisturbed, Step;
    if s.main.pc.ServeHalt? {
      events := [];
    } else {
      UndisturbedStep(s);
      var step := MainStep(true, 0);
      RunOne(s, step);
      RunKeepsSound(s, [step]);
      assert Step(s, step) == StepMain(s, true, 0) by { StepIsMain(s); }
      var rest := ReachService(Step(s, step));
      events := [step] + rest;
      Continue(s, [step], rest);
    }
  }

  lemma StepIsMain(s: State)
    ensures Step(s, MainStep(true, 0)) == StepMain(s, true, 0)
  {
  }

  lemma PrivateIsNotCutOff(s: State)
    requires Sound(s) && Undisturbed(s) && MainHolds(s.main)
    ensures !CutOff(s, s.main.sock)
  {
    var k := s.main.sock;
    if AboutToBeDisconnected(s, k) {
      var t :| t in s.callers && s.callers[t].pc == DisconnectGrabbed && s.callers[t].sock == Some(k);
      assert t in Holders(s.callers, k);
      CardinalityWithout(Holders(s.callers, k), t);
    }
  }

  /** A configuration with the host name that was read is all it takes from the publication to service. */
  lemma ServeFrom(s: State, st: Status) returns (events: seq<Event>)
    requires Sound(s) && s.main.pc.Publish? && !s.shared.halt && SameName(s.main.st.hostName, st.hostName)
    ensures StaysDisabled(events) && ServedOn(Run(s, events)) && Run(s, events).main.st == s.main.st
    ensures forall e <- events | e.Spawn? :: e.call == ApplyConfig(st)
  {
    hide Inv, Run, StaysDisabled, SameName, NoCalls;
    var first := ApplyBeforePublishing(s, st);
    assert Undisturbed(Run(s, first));
    var second := ReachService(Run(s, first));
    Continue(s, first, second);
    PrivateIsNotCutOff(Run(Run(s, first), second));
    events := first + second;
    OnlyFirstCalls(first, second);
  }

  lemma OnlyFirstCalls(first: seq<Event>, second: seq<Event>)
    requires NoCalls(second)
    ensures forall e <- first + second | e.Spawn? :: e in first
  {
  }

  /** From every such state some run gets the client served, with the flag cleared all the while. */
  lemma MissedFrom(s: State) returns (events: seq<Event>)
    requires Sound(s) && MayConnect(s.main, s.shared.halt)
    ensures StaysDisabled(events) && ServedOn(Run(s, events))
  {
    var first := ReachPublication(s);
    var rest := ServeFrom(Run(s, first), Run(s, first).main.st);
    hide *;
    Continue(s, first, rest);
    events := first + rest;
  }

  // ---- Exactly when ----

  /** A disabling call works, that is, nobody is served any more unless cut off, however the threads go
      on without switching the client on again, if and only if at the moment it takes the lock the main
      thread is not on its way from the test of the flag to a publication. */
  lemma DisableWorksExactlyIf(clock: nat, before: seq<Event>, t: ThreadId)
    requires ValidStart(clock) && Disabling(Run(Init(clock), before), t)
    ensures var s := Run(Init(clock), before);
            (forall after | StaysDisabled(after) :: !ServedOn(Run(StepCaller(s, t), after)))
            <==> !MayConnect(s.main, s.shared.halt)
  {
    hide Inv, MayConnect, StepCaller, Step;
    var s := Run(Init(clock), before);
    InitIsSound(clock);
    RunKeepsSound(Init(clock), before);
    CallerStepIsSound(s, t);
    var u := StepCaller(s, t);
    if MayConnect(s.main, s.shared.halt) {
      var after := MissedFrom(u);
      assert StaysDisabled(after) && ServedOn(Run(u, after));
    } else {
      DisablingSwitchesOff(s, t);
      forall after | StaysDisabled(after) ensures !ServedOn(Run(u, after)) {
        RunStaysSwitchedOff(u, after);
        SwitchedOffIsNotServed(Run(u, after));
      }
    }
  }

  /** The call that is missed has nothing left to do. */
  lemma MissedCallReturns(s: State, t: ThreadId)
    requires Inv(s) && Disabling(s, t) && MayConnect(s.main, s.shared.halt)
    ensures StepCaller(s, t).callers[t].pc.Returned?
  {
  }

  /** And it does happen: a client that was switched on and then off again, all calls finished, is
      served on. */
  lemma DisableCanBeMissed(clock: nat) returns (before: seq<Event>, after: seq<Event>)
    requires ValidStart(clock)
    ensures var s := Run(Init(clock), before);
            && Disabling(s, 1) && StaysDisabled(after)
            && (forall t | t in StepCaller(s, 1).callers :: StepCaller(s, 1).callers[t].pc.Returned?)
            && ServedOn(Run(StepCaller(s, 1), after))
  {
    var on := SwitchOn(clock);
    var off := SwitchOff(Run(Init(clock), on));
    before := on + off;
    RunAppends(Init(clock), on, off);
    InitIsSound(clock);
    RunKeepsSound(Init(clock), before);
    hide Sound, Run, StepCaller, MayConnect, Disabling;
    CallerStepIsSound(Run(Init(clock), before), 1);
    after := MissedFrom(StepCaller(Run(Init(clock), before), 1));
  }

  lemma SwitchOn(clock: nat) returns (events: seq<Event>)
    ensures var s := Run(Init(clock), events);
            && s.shared == Init(clock).shared.(enabled := true)
            && s.clock == clock && s.main == Init(clock).main.(pc := ReadEnabled, now := clock)
            && s.callers == map[0 := Caller(SetEnable(true), Returned, None)]
  {
    events := [Spawn(0, SetEnable(true)), CallerStep(0)] + [CallerStep(0), MainStep(true, 0)];
    RunTwo(Init(clock), Spawn(0, SetEnable(true)), CallerStep(0));
    RunTwo(Run(Init(clock), [Spawn(0, SetEnable(true)), CallerStep(0)]), CallerStep(0), MainStep(true, 0));
    RunAppends(Init(clock), [Spawn(0, SetEnable(true)), CallerStep(0)], [CallerStep(0), MainStep(true, 0)]);
  }

  /** The main thread tests the flag just before it is cleared. */
  lemma SwitchOff(s: State) returns (events: seq<Event>)
    requires s.shared.enabled && !s.shared.halt && s.main.pc.ReadEnabled? && s.shared.currentSock.None?
    requires s.callers == map[0 := Caller(SetEnable(true), Returned, None)]
    ensures var u := Run(s, events);
            && Disabling(u, 1) && MayConnect(u.main, u.shared.halt)
            && forall t | t in StepCaller(u, 1).callers :: StepCaller(u, 1).callers[t].pc.Returned?
  {
    events := [MainStep(true, 0), Spawn(1, SetEnable(false))] + [CallerStep(1)];
    RunTwo(s, MainStep(true, 0), Spawn(1, SetEnable(false)));
    RunOne(Run(s, [MainStep(true, 0), Spawn(1, SetEnable(false))]), CallerStep(1));
    RunAppends(s, [MainStep(true, 0), Spawn(1, SetEnable(false))], [CallerStep(1)]);
  }

  lemma InitIsSound(clock: nat)
    requires ValidStart(clock)
    ensures Sound(Init(clock))
  {
    EveryRunSafe(clock, []);
  }

  lemma CallerStepIsSound(s: State, t: ThreadId)
    requires Sound(s) && Disabling(s, t)
    ensures var u := StepCaller(s, t); Sound(u) && u.main == s.main && u.shared.halt == s.shared.halt
  {
    StepKeepsInv(s, CallerStep(t));
    StepKeepsPrivate(s, CallerStep(t));
  }

  lemma SwitchedOffIsNotServed(s: State)
    requires SwitchedOff(s)
    ensures !ServedOn(s)
  {
  }
}
