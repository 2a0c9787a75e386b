/** When a change of the proxy setting ends the session of the VPN Azure client, and when it is missed. */
module AzureSetting {
  import opened Text
  import opened AzureProtocol
  import opened AzureSafety
  import opened AzureDisable

  /** Every configuration still to be applied has this setting. */
  predicate OnlySetting(callers: map<ThreadId, Caller>, setting: nat) {
    forall t | t in callers && !PastLock(callers[t]) && callers[t].call.ApplyConfig? :: callers[t].call.status.setting == setting
  }

  predicate StaysWith(events: seq<Event>, setting: nat) {
    forall e <- events :: e.Spawn? && e.call.ApplyConfig? ==> e.call.status.setting == setting
  }

  /** The call is about to take the lock with a configuration of another setting than the current one. */
  predicate Changing(s: State, t: ThreadId, setting: nat) {
    && t in s.callers && s.callers[t].call.ApplyConfig? && s.callers[t].pc.LockAndGrab?
    && s.callers[t].call.status.setting == setting && s.shared.status.setting != setting && OnlySetting(s.callers, setting)
  }

  /** The main thread has taken its snapshot with another setting and may still connect with that. */
  predicate MayConnectOld(m: MainThread, halt: bool, setting: nat) {
    MayConnect(m, halt) && !m.pc.TakeSnapshot? && m.st.setting != setting
  }

  /** Served, with another setting, on a socket that nobody is going to disconnect. */
  predicate ServedOld(s: State, setting: nat) { ServedOn(s) && s.main.st.setting != setting }

  // ---- It works if the main thread cannot connect with the old setting any more ----

  /** Whatever is published under another setting is cut off, or will meet the halt flag before it serves. */
  predicate Settled(s: State, setting: nat) {
    && s.shared.status.setting == setting && OnlySetting(s.callers, setting)
    && !MayConnectOld(s.main, s.shared.halt, setting)
    && (Published(s.main) && s.main.st.setting != setting ==>
          CutOff(s, s.main.sock) || (s.shared.halt && !Serving(s.main)))
  }

  lemma ChangingSettles(s: State, t: ThreadId, setting: nat)
    requires Inv(s) && Changing(s, t, setting) && !MayConnectOld(s.main, s.shared.halt, setting)
    ensures Settled(StepCaller(s, t), setting)
  {
    var u := StepCaller(s, t);
    if Published(s.main) {
      assert u.callers[t].pc == DisconnectGrabbed && u.callers[t].sock == Some(s.main.sock);
    }
  }

  lemma NextMainStaysSettled(m: MainThread, c: Shared, clock: nat, works: bool, rnd: nat, newSock: SockId, setting: nat)
    requires c.status.setting == setting && !MayConnectOld(m, c.halt, setting)
    ensures var n := NextMain(m, c, clock, works, rnd, newSock);
            && !MayConnectOld(n, c.halt, setting)
            && (Serving(n) && n.st.setting != setting ==> Published(m) && m.st == n.st && (c.halt ==> Serving(m)))
            && (Published(n) ==> n.st == m.st)
    ensures m.pc.Publish? && m.st.setting != setting ==> c.halt
  {
    hide IsEmptyStr, SnapshotChanged;
  }

  lemma MainStaysSettled(s: State, ok: bool, rnd: nat, setting: nat)
    requires Settled(s, setting)
    ensures Settled(StepMain(s, ok, rnd), setting)
  {
    var m, c := s.main, s.shared;
    var works := Works(s, ok);
    NextMainPublishes(m, c, s.clock, works, rnd, |s.socks|);
    NextMainStaysSettled(m, c, s.clock, works, rnd, |s.socks|, setting);
    if Published(m) && CutOff(s, m.sock) {
      MainKeepsPublishedCutOff(s, ok, rnd);
    }
    hide NextMain, CutOff, MayConnectOld;
  }

  lemma CallerStaysSettled(s: State, t: ThreadId, setting: nat)
    requires Inv(s) && Settled(s, setting) && t in s.callers
    ensures Settled(StepCaller(s, t), setting)
  {
    var u := StepCaller(s, t);
    CallerMovesOneCount(s, t);
    if Published(s.main) && CutOff(s, s.main.sock) {
      CallerKeepsCutOff(s, t, s.main.sock);
    }
    hide Inv, CutOff;
    assert u.callers == s.callers[t := u.callers[t]];
  }

  lemma StepStaysSettled(s: State, e: Event, setting: nat)
    requires Inv(s) && Settled(s, setting) && (e.Spawn? && e.call.ApplyConfig? ==> e.call.status.setting == setting)
    ensures Settled(Step(s, e), setting)
  {
    match e
    case MainStep(ok, rnd) => MainStaysSettled(s, ok, rnd, setting);
    case CallerStep(t) =>
      if t in s.callers {
        CallerStaysSettled(s, t, setting);
      }
    case Spawn(t, call) =>
      if t !in s.callers {
        var u := Step(s, e);
        if AboutToBeDisconnected(s, s.main.sock) {
          var o :| o in s.callers && s.callers[o].pc == DisconnectGrabbed && s.callers[o].sock == Some(s.main.sock);
          assert o in u.callers && u.callers[o] == s.callers[o];
        }
      }
    case _ =>
      if CutOff(s, s.main.sock) {
        CutOffKept(s, Step(s, e), s.main.sock);
      }
  }

  lemma {:induction false} RunStaysSettled(s: State, events: seq<Event>, setting: nat)
    requires Inv(s) && Settled(s, setting) && StaysWith(events, setting)
    ensures Inv(Run(s, events)) && Settled(Run(s, events), setting)
    decreases |events|
  {
    hide Inv, Settled, Step;
    if events != [] {
      StepKeepsInv(s, events[0]);
      StepStaysSettled(s, events[0], setting);
      RunStaysSettled(Step(s, events[0]), events[1..], setting);
    }
  }

  lemma SettledIsNotServedOld(s: State, setting: nat)
    requires Settled(s, setting)
    ensures !ServedOld(s, setting)
  {
  }

  // ---- It is missed if the main thread still can ----

  /** From every such state some run gets the client served with the old setting, which is not current
      all the while. */
  lemma SettingMissedFrom(s: State, setting: nat) returns (events: seq<Event>)
    requires Sound(s) && MayConnectOld(s.main, s.shared.halt, setting)
    ensures StaysWith(events, setting) && ServedOld(Run(s, events), setting)
  {
    var first := ReachPublication(s);
    var st := Run(s, first).main.st;
    var rest := ServeFrom(Run(s, first), st.(setting := setting));
    events := first + rest;
    Continue(s, first, rest);
    OnlyThenCalls(first, rest);
  }

  lemma OnlyThenCalls(first: seq<Event>, rest: seq<Event>)
    requires NoCalls(first)
    ensures forall e <- first + rest | e.Spawn? :: e in rest
  {
  }

  // ---- Exactly when ----

  /** A new proxy setting takes effect, that is, nobody is served with another one any more unless cut off,
      however the threads go on without changing the setting again, if and only if at the moment the call
      takes the lock the main thread is not between a snapshot with another setting and the publication. */
  lemma SettingWorksExactlyIf(clock: nat, before: seq<Event>, t: ThreadId, setting: nat)
    requires ValidStart(clock) && Changing(Run(Init(clock), before), t, setting)
    ensures var s := Run(Init(clock), before);
            (forall after | StaysWith(after, setting) :: !ServedOld(Run(StepCaller(s, t), after), setting))
            <==> !MayConnectOld(s.main, s.shared.halt, setting)
  {
    hide Inv, MayConnectOld, StepCaller, Step;
    var s := Run(Init(clock), before);
    InitIsSound(clock);
    RunKeepsSound(Init(clock), before);
    ChangingStepIsSound(s, t, setting);
    var u := StepCaller(s, t);
    if MayConnectOld(s.main, s.shared.halt, setting) {
      var after := SettingMissedFrom(u, setting);
      assert StaysWith(after, setting) && ServedOld(Run(u, after), setting);
    } else {
      ChangingSettles(s, t, setting);
      forall after | StaysWith(after, setting) ensures !ServedOld(Run(u, after), setting) {
        RunStaysSettled(u, after, setting);
        SettledIsNotServedOld(Run(u, after), setting);
      }
    }
  }

  lemma ChangingStepIsSound(s: State, t: ThreadId, setting: nat)
    requires Sound(s) && Changing(s, t, setting)
    ensures var u := StepCaller(s, t); Sound(u) && u.main == s.main && u.shared.halt == s.shared.halt
  {
    StepKeepsInv(s, CallerStep(t));
    StepKeepsPrivate(s, CallerStep(t));
  }

  /** And it does happen: the setting is changed right after a snapshot. */
  lemma SettingCanBeMissed(clock: nat) returns (before: seq<Event>, after: seq<Event>)
    requires ValidStart(clock)
    ensures var s := Run(Init(clock), before);
            && Changing(s, 2, 1) && StaysWith(after, 1) && ServedOld(Run(StepCaller(s, 2), after), 1)
  {
    var on := SwitchOn(clock);
    var rest := SnapshotThenChange(Run(Init(clock), on));
    before := on + rest;
    RunAppends(Init(clock), on, rest);
    InitIsSound(clock);
    RunKeepsSound(Init(clock), before);
    hide Sound, Run, StepCaller, MayConnectOld, Changing;
    ChangingStepIsSound(Run(Init(clock), before), 2, 1);
    after := SettingMissedFrom(StepCaller(Run(Init(clock), before), 2), 1);
  }

  lemma SnapshotThenChange(s: State) returns (events: seq<Event>)
    requires s.shared.enabled && !s.shared.halt && s.main.pc.ReadEnabled? && s.shared.currentSock.None?
    requires s.callers == map[0 := Caller(SetEnable(true), Returned, None)]
    ensures var u := Run(s, events); Changing(u, 2, 1) && MayConnectOld(u.main, u.shared.halt, 1)
  {
    hide Run, Changing, MayConnectOld;
    var applies := [Spawn(1, ApplyConfig(RELAY)), CallerStep(1)];
    var snapshot := [MainStep(true, 0), MainStep(true, 0)];
    var change := [Spawn(2, ApplyConfig(RELAY.(setting := 1)))];
    events := (applies + snapshot) + change;
    RunAppends(s, applies + snapshot, change);
    RunAppends(s, applies, snapshot);
    Applies(s);
    Snapshot(Run(s, applies));
    Change(Run(Run(s, applies), snapshot));
  }

  lemma Applies(s: State)
    requires s.shared.enabled && s.shared.currentSock.None? && s.callers == map[0 := Caller(SetEnable(true), Returned, None)]
    ensures var u := Run(s, [Spawn(1, ApplyConfig(RELAY)), CallerStep(1)]);
            && u.shared == s.shared.(status := RELAY) && u.main == s.main
            && u.callers == s.callers[1 := Caller(ApplyConfig(RELAY), Returned, None)]
  {
    RunTwo(s, Spawn(1, ApplyConfig(RELAY)), CallerStep(1));
    hide Run, SameName;
    var v := Step(s, Spawn(1, ApplyConfig(RELAY)));
    assert v == s.(callers := s.callers[1 := Caller(ApplyConfig(RELAY), LockAndGrab, None)]);
  }

  lemma Snapshot(s: State)
    requires s.shared.enabled && s.main.pc.ReadEnabled?
    ensures var u := Run(s, [MainStep(true, 0), MainStep(true, 0)]);
            && u.main.pc.ReadRevision? && u.main.st == s.shared.status && u.shared.status == s.shared.status
            && u.shared.halt == s.shared.halt && u.callers == s.callers
  {
    RunTwo(s, MainStep(true, 0), MainStep(true, 0));
    hide Run, SnapshotChanged;
  }

  lemma Change(s: State)
    requires s.main.pc.ReadRevision? && s.main.st == s.shared.status == RELAY && !s.shared.halt
    requires 2 !in s.callers && forall t | t in s.callers :: s.callers[t].pc.Returned?
    ensures var u := Run(s, [Spawn(2, ApplyConfig(RELAY.(setting := 1)))]);
            Changing(u, 2, 1) && MayConnectOld(u.main, u.shared.halt, 1)
  {
    RunOne(s, Spawn(2, ApplyConfig(RELAY.(setting := 1))));
    hide Run;
    assert RELAY.azureIp[0] == 'a' && RELAY.hostName[0] == 'h';
  }
}
