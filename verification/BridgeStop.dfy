/**
 StopHub and the local bridges.

 StopHub writes the off-line flag it has saved back without the online lock. When that write is
 harmless, what a StopHub that runs alone leaves behind, and the two ways in which the write goes wrong.
 */
module BridgeStop {
  import opened Text
  import opened BridgeProtocol
  import opened BridgeSafety
  import opened BridgeTheorems

  /** While the hub is off line no bridge runs on it, but for one that is just being switched on. */
  predicate QuietAt(s: State, h: HubId)
    requires h < |s.hubs|
  {
    s.hubs[h].offline ==> JustStarted(s, h) || forall b | 0 <= b < |s.bridges| :: !RunsOn(s, b, h)
  }

  /** While the hub is on line its listed entries have bridges, or will get them. */
  predicate NoneMissedAt(s: State, h: HubId)
    requires h < |s.hubs|
  {
    !s.hubs[h].isDynamic && !s.hubs[h].offline ==> forall e <- s.list | BelongsTo(s, e, h) :: Provided(s, e, h)
  }

  /** The write of any StopHub, in any run, keeps both exactly if it is harmless. */
  lemma RestoreWorksExactlyIf(s: State, t: ThreadId)
    requires Inv(s) && t in s.threads && s.threads[t].Restore? && !s.hubs[s.threads[t].hub].spoiled
    ensures var Restore(h, was) := s.threads[t];
            var u := StepThread(s, t);
            QuietAt(u, h) && NoneMissedAt(u, h) <==> Harmless(s, h, was)
  {
    var Restore(h, was) := s.threads[t];
    var u := StepThread(s, t);
    assert ThreadOk(s, s.threads[t]);
    if Harmless(s, h, was) {
      StopHubKeepsInv(s, t);
      hide Harmless;
      InvMeansSound(u, h);
    } else {
      RestoreBreaks(s, t, h, was);
    }
  }

  lemma InvMeansSound(s: State, h: HubId)
    requires Inv(s) && h < |s.hubs| && !s.hubs[h].spoiled
    ensures QuietAt(s, h) && NoneMissedAt(s, h)
  {
    hide SameName, BelongsTo, HubNamesDiffer, BridgesOk, PlacesOk, LocksOk, ThreadsOk, JustStarted, JustStopped, Provided;
    if !s.hubs[h].isDynamic && !s.hubs[h].offline {
      assert MustRun(s, h);
      forall e <- s.list | BelongsTo(s, e, h) ensures Provided(s, e, h) {
        var k :| 0 <= k < |s.list| && s.list[k] == e;
      }
    }
  }

  lemma RestoreBreaks(s: State, t: ThreadId, h: HubId, was: bool)
    requires Inv(s) && t in s.threads && s.threads[t] == Restore(h, was) && h < |s.hubs| && !Harmless(s, h, was)
    ensures var u := RestoreOffline(s, t, h, was); !(QuietAt(u, h) && NoneMissedAt(u, h))
  {
    hide SameName, ListOk, OfflineOk, NothingMissed, ThreadsOk;
    var u := RestoreOffline(s, t, h, was);
    assert SameHubs(s, u);
    SameHubsKeepBelonging(s, u);
    UnlockedStepKeepsLocks(s, u, t, h);
    hide LocksOk, JustStarted, JustStopped, HolderOf, BelongsTo;
    if was {
      var e :| e in s.list && BelongsTo(s, e, h) && s.entries[e].bridge.Some?;
      BridgeIsOnItsHub(s, e, h);
      assert RunsOn(u, s.entries[e].bridge.value, h);
    } else {
      var e :| e in s.list && BelongsTo(s, e, h) && !Provided(s, e, h);
      assert !Provided(u, e, h);
    }
  }

  // ---- Hubs that are not stopped ----

  /** The thread has come to some point of StopHub for this hub. */
  predicate Stops(c: Thread, h: HubId) {
    && (c.Stop? || c.SetHalt? || c.Restore?
        || ((c.Offline? || c.OfflineLocked? || c.OfflineStopped? || c.Unlocking?) && c.saved.Some?))
    && c.hub == h
  }

  predicate Untouched(s: State, h: HubId) {
    h < |s.hubs| && !s.hubs[h].spoiled && forall t | t in s.threads :: !Stops(s.threads[t], h)
  }

  /** On a hub that no StopHub is called for the flag always tells the truth. */
  lemma {:induction false} UntouchedStaysSound(s: State, evs: seq<Event>, h: HubId)
    requires Inv(s) && Untouched(s, h) && forall ev <- evs :: !(ev.Spawn? && ev.call == Stop(h))
    ensures var u := Run(s, evs); Untouched(u, h) && QuietAt(u, h) && NoneMissedAt(u, h)
    decreases |evs|
  {
    if evs == [] {
      InvMeansSound(s, h);
    } else {
      hide Inv, Untouched;
      assert evs[0] in evs;
      NextKeepsInv(s, evs[0]);
      NextKeepsUntouched(s, evs[0], h);
      hide Next, QuietAt, NoneMissedAt;
      UntouchedStaysSound(Next(s, evs[0]), evs[1..], h);
    }
  }

  lemma NextKeepsUntouched(s: State, ev: Event, h: HubId)
    requires Untouched(s, h) && !(ev.Spawn? && ev.call == Stop(h))
    ensures Untouched(Next(s, ev), h)
  {
    if ev.Step? && ev.thread in s.threads {
      hide Untouched;
      var t := ev.thread;
      match s.threads[t]
      case Add(_, _, _) => TableStepKeepsUntouched(s, t, h);
      case Delete(_, _) => TableStepKeepsUntouched(s, t, h);
      case StartLocked(_, _) => TableStepKeepsUntouched(s, t, h);
      case OnlineLocked(_) => TableStepKeepsUntouched(s, t, h);
      case OfflineLocked(_, _) => TableStepKeepsUntouched(s, t, h);
      case _ => FlagStepKeepsUntouched(s, t, h);
    }
  }

  lemma TableStepKeepsUntouched(s: State, t: ThreadId, h: HubId)
    requires Untouched(s, h) && t in s.threads
    requires var c := s.threads[t]; c.Add? || c.Delete? || c.StartLocked? || c.OnlineLocked? || c.OfflineLocked?
    ensures Untouched(StepThread(s, t), h)
  {
    hide SameName, Exists, FindHub, FindEntry, LockOnline, UnlockOnline, RestoreOffline;
    var c := s.threads[t];
    assert !Stops(c, h);
    hide Untouched;
    if c.OnlineLocked? || c.OfflineLocked? {
      LoopsKeepRest(s, c.hub, |s.list|);
    }
    hide StartAll, StopAll;
    var u := StepThread(s, t);
    assert u.hubs == s.hubs && u.threads == s.threads[t := u.threads[t]];
    assert !Stops(u.threads[t], h);
    hide StepThread;
    OneThreadKeepsUntouched(s, u, t, h);
  }

  lemma FlagStepKeepsUntouched(s: State, t: ThreadId, h: HubId)
    requires Untouched(s, h) && t in s.threads
    requires var c := s.threads[t]; !(c.Add? || c.Delete? || c.StartLocked? || c.OnlineLocked? || c.OfflineLocked?)
    ensures Untouched(StepThread(s, t), h)
  {
    hide Harmless, AddEntry, DeleteEntry, StartBridge, StartAll, StopAll, LockOnline, UnlockOnline, RestoreOffline;
    var c := s.threads[t];
    var u := StepThread(s, t);
    if c.Stop? || c.SetHalt? || c.Done? {
      OneThreadKeepsUntouched(s, u, t, h);
    } else if c.Added? || c.Online? || c.Offline? {
      var to := if c.Added? then StartLocked(c.entry, c.hub) else if c.Online? then OnlineLocked(c.hub) else OfflineLocked(c.hub, c.saved);
      LockKeepsUntouched(s, t, h, c.hub, to);
    } else if c.Restore? {
      assert c.hub != h;
      RestoreKeepsUntouched(s, t, h, c.hub, c.was);
    } else {
      var to := if c.OnlineStarted? then Done else AfterOffline(c.hub, c.saved);
      var offline := c.OfflineStopped? || (c.Unlocking? && c.hub < |s.hubs| && s.hubs[c.hub].offline);
      UnlockKeepsUntouched(s, t, h, c.hub, offline, to);
    }
  }

  lemma LockKeepsUntouched(s: State, t: ThreadId, h: HubId, g: HubId, to: Thread)
    requires Untouched(s, h) && t in s.threads && !Stops(to, h)
    ensures Untouched(LockOnline(s, t, g, to), h)
  {
    if g < |s.hubs| && s.hubs[g].holder.None? {
      OneThreadKeepsUntouched(s, LockOnline(s, t, g, to), t, h);
    }
  }

  lemma UnlockKeepsUntouched(s: State, t: ThreadId, h: HubId, g: HubId, offline: bool, to: Thread)
    requires Untouched(s, h) && t in s.threads && !Stops(to, h)
    ensures Untouched(UnlockOnline(s, t, g, offline, to), h)
  {
    if g < |s.hubs| {
      OneThreadKeepsUntouched(s, UnlockOnline(s, t, g, offline, to), t, h);
    }
  }

  lemma RestoreKeepsUntouched(s: State, t: ThreadId, h: HubId, g: HubId, was: bool)
    requires Untouched(s, h) && t in s.threads && g != h
    ensures Untouched(RestoreOffline(s, t, g, was), h)
  {
    hide Harmless;
    if g < |s.hubs| {
      OneThreadKeepsUntouched(s, RestoreOffline(s, t, g, was), t, h);
    }
  }

  lemma OneThreadKeepsUntouched(s: State, u: State, t: ThreadId, h: HubId)
    requires Untouched(s, h) && t in s.threads && t in u.threads && u.threads == s.threads[t := u.threads[t]]
    requires !Stops(u.threads[t], h)
    requires u.hubs == s.hubs || (h < |u.hubs| && !u.hubs[h].spoiled)
    ensures Untouched(u, h)
  {
  }

  lemma {:induction false} LoopsKeepRest(s: State, h: HubId, k: nat)
    requires k <= |s.list|
    ensures var v := StartAll(s, h, k); v == s.(entries := v.entries, bridges := v.bridges)
    ensures var v := StopAll(s, h, k); v == s.(entries := v.entries, bridges := v.bridges)
  {
    if k > 0 {
      LoopsKeepRest(s, h, k - 1);
    }
  }

  // ---- A StopHub that nobody disturbs ----

  predicate AllDone(s: State) { forall t | t in s.threads :: s.threads[t].Done? }

  /** The hub is on line, has not been halted yet and has an entry. */
  predicate HasWhatToLose(s: State, h: HubId)
    requires h < |s.hubs|
  {
    !s.hubs[h].offline && !s.hubs[h].halt && !s.hubs[h].isDynamic && exists e <- s.list :: BelongsTo(s, e, h)
  }

  function StopCall(t: ThreadId, h: HubId): seq<Event> { [Spawn(t, Stop(h))] + Steps(t, 6) }

  function Steps(t: ThreadId, n: nat): seq<Event> {
    if n == 0 then [] else [Step(t)] + Steps(t, n - 1)
  }

  lemma CallRuns(s: State, t: ThreadId, call: Thread, n: nat)
    requires t !in s.threads && IsCall(s, call)
    ensures t in Goto(s, t, call).threads && Run(s, [Spawn(t, call)] + Steps(t, n)) == Run(Goto(s, t, call), Steps(t, n))
  {
    hide StepThread, Steps;
    assert ([Spawn(t, call)] + Steps(t, n))[1..] == Steps(t, n);
  }

  lemma RunSteps(s: State, t: ThreadId, n: nat)
    requires n > 0 ==> t in s.threads
    ensures Run(s, Steps(t, n)) == if n == 0 then s else Run(StepThread(s, t), Steps(t, n - 1))
  {
    if n > 0 {
      assert Steps(t, n)[1..] == Steps(t, n - 1);
      hide StepThread;
    }
  }

  /** StopHub, alone, with the lock. */
  function Locked(s: State, t: ThreadId, h: HubId): State
    requires h < |s.hubs|
  {
    Goto(s.(hubs := s.hubs[h := s.hubs[h].(holder := Some(t))]), t, OfflineLocked(h, Some(s.hubs[h].offline)))
  }

  /** Then without it. */
  function Released(s: State, t: ThreadId, h: HubId): State
    requires h < |s.hubs|
  {
    var hub := s.hubs[h];
    var u := if hub.offline || hub.halt then s else StopAll(Locked(s, t, h), h, |s.list|);
    var hubs := s.hubs[h := hub.(offline := hub.offline || !hub.halt)];
    State(s.isUnix, u.entries, s.list, u.bridges, hubs, s.threads[t := SetHalt(h, hub.offline)])
  }

  /** And before its last step. */
  function BeforeRestore(s: State, t: ThreadId, h: HubId): State
    requires h < |s.hubs|
  {
    var u := Released(s, t, h);
    u.(hubs := u.hubs[h := u.hubs[h].(halt := true)], threads := s.threads[t := Restore(h, s.hubs[h].offline)])
  }

  /** From any quiet state: a StopHub that runs alone leaves an on-line hub with entries that have no bridge
      exactly if the hub had something to lose. */
  lemma StoppingAlone(s: State, t: ThreadId, h: HubId)
    requires Inv(s) && AllDone(s) && t !in s.threads && h < |s.hubs| && !s.hubs[h].spoiled
    ensures var u := Run(s, StopCall(t, h));
            && AllDone(u) && u.list == s.list
            && u.hubs == s.hubs[h := s.hubs[h].(halt := true, spoiled := HasWhatToLose(s, h))]
            && (NoneMissedAt(u, h) <==> !HasWhatToLose(s, h))
            && (HasWhatToLose(s, h) ==>
                  forall e <- u.list | BelongsTo(s, e, h) :: BelongsTo(u, e, h) && u.entries[e].bridge.None?)
  {
    LockIsFree(s, h);
    hide SameName, Run, StopCall, Inv, NoneMissedAt, Harmless, BelongsTo;
    assert s.hubs[h].offline || s.hubs[h].halt ==> !HasWhatToLose(s, h);
    hide HasWhatToLose;
    StopRun(s, t, h);
    Restored(s, t, h);
    hide AllDone, BeforeRestore, RestoreOffline;
    if s.hubs[h].offline || s.hubs[h].halt {
      NothingLost(s, t, h);
    } else {
      AllLost(s, t, h);
    }
  }

  lemma Restored(s: State, t: ThreadId, h: HubId)
    requires AllDone(s) && t !in s.threads && h < |s.hubs| && !s.hubs[h].spoiled
    ensures var v := BeforeRestore(s, t, h);
            var u := RestoreOffline(v, t, h, s.hubs[h].offline);
            && t in v.threads && StepThread(v, t) == u && AllDone(u) && u.list == s.list
            && u.hubs == s.hubs[h := s.hubs[h].(halt := true, spoiled := !Harmless(v, h, s.hubs[h].offline))]
  {
    hide StopAll, Harmless, AddEntry, DeleteEntry, StartBridge, StartAll, LockOnline, UnlockOnline;
  }

  lemma NothingLost(s: State, t: ThreadId, h: HubId)
    requires Inv(s) && AllDone(s) && t !in s.threads && h < |s.hubs| && s.hubs[h].holder.None? && !s.hubs[h].spoiled
    requires s.hubs[h].offline || s.hubs[h].halt
    ensures var v := BeforeRestore(s, t, h); Harmless(v, h, s.hubs[h].offline)
    ensures var u := RestoreOffline(BeforeRestore(s, t, h), t, h, s.hubs[h].offline); NoneMissedAt(u, h)
  {
    hide SameName, StopAll;
    InvMeansSound(s, h);
    hide Inv;
    var v := BeforeRestore(s, t, h);
    var u := RestoreOffline(v, t, h, s.hubs[h].offline);
    assert u.hubs[h].name == s.hubs[h].name;
    forall e <- s.list | !s.hubs[h].isDynamic && !s.hubs[h].offline && BelongsTo(s, e, h) ensures Provided(u, e, h) {
      assert Provided(s, e, h);
      assert HolderOf(s, h) == Done;
    }
    hide Provided;
  }

  lemma AllLost(s: State, t: ThreadId, h: HubId)
    requires Inv(s) && AllDone(s) && t !in s.threads && h < |s.hubs| && s.hubs[h].holder.None?
    requires !s.hubs[h].offline && !s.hubs[h].halt
    ensures var v := BeforeRestore(s, t, h); Harmless(v, h, false) <==> !HasWhatToLose(s, h)
    ensures var u := RestoreOffline(BeforeRestore(s, t, h), t, h, false);
            && (NoneMissedAt(u, h) <==> !HasWhatToLose(s, h))
            && forall e <- u.list | BelongsTo(s, e, h) :: BelongsTo(u, e, h) && u.entries[e].bridge.None?
  {
    hide SameName, StopAll;
    var v := BeforeRestore(s, t, h);
    var u := RestoreOffline(v, t, h, false);
    StoppedEntries(s, t, h);
    hide Inv;
    assert u.list == s.list && v.list == s.list && v.hubs[h].isDynamic == s.hubs[h].isDynamic && v.hubs[h].offline;
    assert HolderOf(v, h) == Done && HolderOf(u, h) == Done;
    forall e <- s.list | BelongsTo(s, e, h) ensures !Provided(v, e, h) && !Provided(u, e, h) {
    }
    hide Provided, BelongsTo, HolderOf;
  }

  lemma StoppedEntries(s: State, t: ThreadId, h: HubId)
    requires Inv(s) && h < |s.hubs| && !s.hubs[h].offline && !s.hubs[h].halt
    ensures var v := BeforeRestore(s, t, h);
            var u := RestoreOffline(v, t, h, false);
            && |v.entries| == |s.entries| && u.entries == v.entries
            && (forall e <- s.list | BelongsTo(s, e, h) :: v.entries[e].bridge.None?)
            && (forall e :: BelongsTo(v, e, h) <==> BelongsTo(s, e, h)) && (forall e :: BelongsTo(u, e, h) <==> BelongsTo(s, e, h))
  {
    hide SameName, StopAll, Harmless;
    var locked := Locked(s, t, h);
    TableDependsOnTable(s, locked);
    hide ListOk, BridgesOk, PlacesOk, HubNamesDiffer, LocksOk, ThreadsOk, OfflineOk, NothingMissed;
    StopAllStops(locked, h, |s.list|);
    forall e <- s.list | BelongsTo(s, e, h) ensures BeforeRestore(s, t, h).entries[e].bridge.None? {
      var j :| 0 <= j < |s.list| && s.list[j] == e;
      assert BelongsTo(locked, locked.list[j], h);
    }
  }

  lemma StopRun(s: State, t: ThreadId, h: HubId)
    requires t !in s.threads && h < |s.hubs| && s.hubs[h].holder.None?
    ensures t in BeforeRestore(s, t, h).threads && Run(s, StopCall(t, h)) == StepThread(BeforeRestore(s, t, h), t)
  {
    ToTheLock(s, t, h);
    UnderTheLock(s, t, h);
    SetsHalt(s, t, h);
    CallRuns(s, t, Stop(h), 6);
    hide Steps, Run, BeforeRestore, Locked, Released, StepThread;
    var s1, locked, before := Goto(s, t, Stop(h)), Locked(s, t, h), BeforeRestore(s, t, h);
    RunSteps(s1, t, 6);
    RunSteps(StepThread(s1, t), t, 5);
    RunSteps(locked, t, 4);
    RunSteps(StepThread(locked, t), t, 3);
    RunSteps(Released(s, t, h), t, 2);
    RunSteps(before, t, 1);
    RunSteps(StepThread(before, t), t, 0);
  }

  lemma ToTheLock(s: State, t: ThreadId, h: HubId)
    requires t !in s.threads && h < |s.hubs| && s.hubs[h].holder.None?
    ensures var u := StepThread(Goto(s, t, Stop(h)), t); t in u.threads && StepThread(u, t) == Locked(s, t, h)
    ensures t in Locked(s, t, h).threads
  {
    hide AddEntry, DeleteEntry, StartBridge, StartAll, StopAll, Harmless;
    var next := Offline(h, Some(s.hubs[h].offline));
    var u := StepThread(Goto(s, t, Stop(h)), t);
    assert u == Goto(s, t, next);
  }

  lemma UnderTheLock(s: State, t: ThreadId, h: HubId)
    requires t !in s.threads && h < |s.hubs| && s.hubs[h].holder.None?
    ensures t in Locked(s, t, h).threads
    ensures var u := StepThread(Locked(s, t, h), t);
            t in u.threads && t in Released(s, t, h).threads && StepThread(u, t) == Released(s, t, h)
  {
    hide StepThread, StopAll;
    var locked := Locked(s, t, h);
    var hub := s.hubs[h];
    StepLocked(locked, t, h, Some(hub.offline));
    var u := StepThread(locked, t);
    StopAllKeepsRest(locked, h);
    StepUnlock(u, t, h, Some(hub.offline));
    hide StopAll;
    if hub.offline || hub.halt {
      assert hub == hub.(offline := hub.offline || !hub.halt);
      assert StepThread(u, t).hubs == s.hubs;
    } else {
      assert StepThread(u, t).hubs == s.hubs[h := hub.(offline := true)];
    }
    assert StepThread(u, t).threads == s.threads[t := SetHalt(h, hub.offline)];
  }

  lemma StopAllKeepsRest(s: State, h: HubId)
    ensures var v := StopAll(s, h, |s.list|); v == s.(entries := v.entries, bridges := v.bridges)
  {
    LoopsKeepRest(s, h, |s.list|);
  }

  lemma StepLocked(s: State, t: ThreadId, h: HubId, saved: Option<bool>)
    requires t in s.threads && s.threads[t] == OfflineLocked(h, saved) && h < |s.hubs|
    ensures StepThread(s, t) == if s.hubs[h].offline || s.hubs[h].halt then Goto(s, t, Unlocking(h, saved))
                                else Goto(StopAll(s, h, |s.list|), t, OfflineStopped(h, saved))
  {
    hide StopAll;
  }

  lemma StepUnlock(s: State, t: ThreadId, h: HubId, saved: Option<bool>)
    requires t in s.threads && (s.threads[t] == Unlocking(h, saved) || s.threads[t] == OfflineStopped(h, saved)) && h < |s.hubs|
    ensures StepThread(s, t) == UnlockOnline(s, t, h, s.hubs[h].offline || s.threads[t].OfflineStopped?, AfterOffline(h, saved))
  {
    hide UnlockOnline;
  }

  lemma SetsHalt(s: State, t: ThreadId, h: HubId)
    requires t !in s.threads && h < |s.hubs|
    ensures t in Released(s, t, h).threads && t in BeforeRestore(s, t, h).threads
    ensures StepThread(Released(s, t, h), t) == BeforeRestore(s, t, h)
  {
    hide AddEntry, DeleteEntry, StartBridge, StartAll, StopAll, LockOnline, UnlockOnline, RestoreOffline, Locked;
  }

  lemma LockIsFree(s: State, h: HubId)
    requires LocksOk(s) && AllDone(s) && h < |s.hubs|
    ensures s.hubs[h].holder.None?
  {
  }

  // ---- The two ways in which the write goes wrong ----

  /** A table of one entry, with or without a bridge, and one hub of that name. */
  function OneEntry(name: string, device: string, started: bool, hub: Hub, threads: map<ThreadId, Thread>): State {
    State(true, [Entry(name, device, false, if started then Some(0) else None, false)], [0],
          if started then [Bridge(0, 0, true)] else [], [hub], threads)
  }

  function FreeHub(name: string, offline: bool): Hub { Hub(name, false, offline, false, None, false) }

  function NoEntry(name: string, offline: bool): State { State(true, [], [], [], [FreeHub(name, offline)], map[]) }

  function AddCall(name: string, device: string): seq<Event> { [Spawn(0, Add(name, device, false))] + Steps(0, 4) }

  /** An entry is added to an empty table; its bridge runs if the hub is on line. */
  lemma AddedAlone(name: string, device: string, offline: bool)
    ensures Init(NoEntry(name, offline))
    ensures Run(NoEntry(name, offline), AddCall(name, device)) == OneEntry(name, device, !offline, FreeHub(name, offline), map[0 := Done])
  {
    hide SameName;
    var s := NoEntry(name, offline);
    assert Init(s);
    CallRuns(s, 0, Add(name, device, false), 4);
    hide StepThread, Run, Steps, OneEntry, Init, Goto;
    var hub := FreeHub(name, offline);
    var locked := hub.(holder := Some(0));
    FirstPhase(name, device, offline);
    LockStep(name, device, hub);
    StartStep(name, device, locked);
    UnlockStep(name, device, !offline, locked);
    RunSteps(Goto(s, 0, Add(name, device, false)), 0, 4);
    RunSteps(OneEntry(name, device, false, hub, map[0 := Added(0, 0)]), 0, 3);
    RunSteps(OneEntry(name, device, false, locked, map[0 := StartLocked(0, 0)]), 0, 2);
    RunSteps(OneEntry(name, device, !offline, locked, map[0 := Unlocking(0, None)]), 0, 1);
    RunSteps(OneEntry(name, device, !offline, hub, map[0 := Done]), 0, 0);
  }

  lemma LockStep(name: string, device: string, hub: Hub)
    requires hub.holder.None?
    ensures var s := OneEntry(name, device, false, hub, map[0 := Added(0, 0)]);
            0 in s.threads && StepThread(s, 0) == OneEntry(name, device, false, hub.(holder := Some(0)), map[0 := StartLocked(0, 0)])
  {
  }

  lemma StartStep(name: string, device: string, hub: Hub)
    ensures var s := OneEntry(name, device, false, hub, map[0 := StartLocked(0, 0)]);
            0 in s.threads && StepThread(s, 0) == OneEntry(name, device, !hub.offline, hub, map[0 := Unlocking(0, None)])
  {
  }

  lemma UnlockStep(name: string, device: string, started: bool, hub: Hub)
    ensures var s := OneEntry(name, device, started, hub, map[0 := Unlocking(0, None)]);
            0 in s.threads && StepThread(s, 0) == OneEntry(name, device, started, hub.(holder := None), map[0 := Done])
  {
  }

  lemma FirstPhase(name: string, device: string, offline: bool)
    ensures var s := Goto(NoEntry(name, offline), 0, Add(name, device, false));
            0 in s.threads && StepThread(s, 0) == OneEntry(name, device, false, FreeHub(name, offline), map[0 := Added(0, 0)])
  {
    assert FindHub([FreeHub(name, offline)], name, 0) == Some(0);
  }

  /** A hub that is stopped while on line is on line again afterwards, without its bridge. */
  lemma StopLosesBridge(name: string, device: string) returns (s: State, evs: seq<Event>)
    ensures Init(s)
    ensures var u := Run(s, evs);
            && AllDone(u) && u.list == [0] && BelongsTo(u, 0, 0) && !u.hubs[0].isDynamic && !u.hubs[0].offline
            && u.entries[0].bridge.None?
  {
    s, evs := NoEntry(name, false), AddCall(name, device) + StopCall(1, 0);
    AddedAlone(name, device, false);
    RunAppends(s, AddCall(name, device), StopCall(1, 0));
    var v := Run(s, AddCall(name, device));
    hide *;
    InitHasInv(s);
    RunKeepsInv(s, AddCall(name, device));
    OneEntryHasWhatToLose(name, device);
    StoppingAlone(v, 1, 0);
  }

  lemma OneEntryHasWhatToLose(name: string, device: string)
    ensures var v := OneEntry(name, device, true, FreeHub(name, false), map[0 := Done]);
            && AllDone(v) && 1 !in v.threads && |v.hubs| == 1 && !v.hubs[0].spoiled && !v.hubs[0].offline && !v.hubs[0].isDynamic
            && v.list == [0] && BelongsTo(v, 0, 0) && HasWhatToLose(v, 0)
  {
    var v := OneEntry(name, device, true, FreeHub(name, false), map[0 := Done]);
    assert BelongsTo(v, 0, 0);
    hide BelongsTo, SameName;
    assert v.list[0] in v.list;
  }

  /** Two calls of StopHub and SetHubOnline that leave a bridge running on a hub that is off line: the first
      has saved that the hub is off line, the second switches it on, the first writes back what it saved. */
  lemma StopUndoesOnline(name: string, device: string) returns (s: State, evs: seq<Event>)
    ensures Init(s)
    ensures var u := Run(s, evs);
            AllDone(u) && |u.hubs| == 1 && u.hubs[0].offline && u.hubs[0].holder.None? && RunsOn(u, 0, 0)
  {
    var added, stop, online := AddCall(name, device), [Spawn(1, Stop(0))] + Steps(1, 4), [Spawn(2, Online(0))] + Steps(2, 3);
    s := NoEntry(name, true);
    evs := ((added + stop) + online) + Steps(1, 2);
    AddedAlone(name, device, true);
    StopSaves(name, device);
    OnlineStarts(name, device);
    StopRestores(name, device);
    hide *;
    RunAppends(s, added, stop);
    RunAppends(s, added + stop, online);
    RunAppends(s, (added + stop) + online, Steps(1, 2));
  }

  lemma StopSaves(name: string, device: string)
    ensures var v := OneEntry(name, device, false, FreeHub(name, true), map[0 := Done]);
            Run(v, [Spawn(1, Stop(0))] + Steps(1, 4))
            == OneEntry(name, device, false, FreeHub(name, true), map[0 := Done, 1 := SetHalt(0, true)])
  {
    var hub := FreeHub(name, true);
    var v := OneEntry(name, device, false, hub, map[0 := Done]);
    var s1 := Goto(v, 1, Stop(0));
    CallRuns(v, 1, Stop(0), 4);
    ToTheLock(v, 1, 0);
    UnderTheLock(v, 1, 0);
    var locked := Locked(v, 1, 0);
    var u := StepThread(locked, 1);
    assert Released(v, 1, 0) == OneEntry(name, device, false, hub, map[0 := Done, 1 := SetHalt(0, true)]);
    hide *;
    RunSteps(s1, 1, 4);
    RunSteps(StepThread(s1, 1), 1, 3);
    RunSteps(locked, 1, 2);
    RunSteps(u, 1, 1);
    RunSteps(Released(v, 1, 0), 1, 0);
  }

  lemma OnlineStarts(name: string, device: string)
    ensures var m := map[0 := Done, 1 := SetHalt(0, true)];
            Run(OneEntry(name, device, false, FreeHub(name, true), m), [Spawn(2, Online(0))] + Steps(2, 3))
            == OneEntry(name, device, true, FreeHub(name, false), m[2 := Done])
  {
    var m := map[0 := Done, 1 := SetHalt(0, true)];
    var hub := FreeHub(name, true);
    var v := OneEntry(name, device, false, hub, m);
    var locked := hub.(holder := Some(2));
    CallRuns(v, 2, Online(0), 3);
    var s1 := OneEntry(name, device, false, hub, m[2 := Online(0)]);
    var s2 := OneEntry(name, device, false, locked, m[2 := OnlineLocked(0)]);
    var s3 := OneEntry(name, device, true, locked, m[2 := OnlineStarted(0)]);
    var s4 := OneEntry(name, device, true, FreeHub(name, false), m[2 := Done]);
    assert StepThread(s1, 2) == s2 by { TakesOnlineLock(name, device, hub, m); }
    assert StepThread(s2, 2) == s3 by { StartsAll(name, device, locked, m); }
    assert StepThread(s3, 2) == s4 by { LeavesOnlineLock(name, device, locked, m); }
    assert s1 == Goto(v, 2, Online(0));
    assert 2 in s1.threads && 2 in s2.threads && 2 in s3.threads;
    hide *;
    RunSteps(s1, 2, 3);
    RunSteps(s2, 2, 2);
    RunSteps(s3, 2, 1);
    RunSteps(s4, 2, 0);
  }

  lemma TakesOnlineLock(name: string, device: string, hub: Hub, m: map<ThreadId, Thread>)
    requires hub.holder.None?
    ensures StepThread(OneEntry(name, device, false, hub, m[2 := Online(0)]), 2)
         == OneEntry(name, device, false, hub.(holder := Some(2)), m[2 := OnlineLocked(0)])
  {
    hide SameName;
    assert m[2 := Online(0)][2 := OnlineLocked(0)] == m[2 := OnlineLocked(0)];
  }

  lemma StartsAll(name: string, device: string, hub: Hub, m: map<ThreadId, Thread>)
    requires hub.name == name && hub.offline && !hub.isDynamic
    ensures StepThread(OneEntry(name, device, false, hub, m[2 := OnlineLocked(0)]), 2)
         == OneEntry(name, device, true, hub, m[2 := OnlineStarted(0)])
  {
    var s := OneEntry(name, device, false, hub, m[2 := OnlineLocked(0)]);
    assert BelongsTo(s, 0, 0);
    assert s.list[0] in s.list;
    assert StartAll(s, 0, 1) == OneEntry(name, device, true, hub, m[2 := OnlineLocked(0)]);
    assert m[2 := OnlineLocked(0)][2 := OnlineStarted(0)] == m[2 := OnlineStarted(0)];
  }

  lemma LeavesOnlineLock(name: string, device: string, hub: Hub, m: map<ThreadId, Thread>)
    ensures StepThread(OneEntry(name, device, true, hub, m[2 := OnlineStarted(0)]), 2)
         == OneEntry(name, device, true, hub.(holder := None, offline := false), m[2 := Done])
  {
    hide SameName;
    assert m[2 := OnlineStarted(0)][2 := Done] == m[2 := Done];
  }

  lemma StopRestores(name: string, device: string)
    ensures var m := map[0 := Done, 1 := SetHalt(0, true)][2 := Done];
            var u := Run(OneEntry(name, device, true, FreeHub(name, false), m), Steps(1, 2));
            AllDone(u) && |u.hubs| == 1 && u.hubs[0].offline && u.hubs[0].holder.None? && RunsOn(u, 0, 0)
  {
    var m := map[0 := Done, 1 := SetHalt(0, true)][2 := Done];
    var s := OneEntry(name, device, true, FreeHub(name, false), m);
    hide SameName, Run, Harmless;
    RunSteps(s, 1, 2);
    RunSteps(StepThread(s, 1), 1, 1);
    RunSteps(StepThread(StepThread(s, 1), 1), 1, 0);
  }
}
