/** Every interleaving keeps the invariant of the local bridge table, and what follows from it. */
module BridgeSafety {
  import opened Text
  import opened BridgeProtocol

  // ---- Starting and stopping bridges ----

  /** Nothing but bridges differs. */
  predicate SameTable(s: State, t: State) {
    && t == s.(entries := t.entries, bridges := t.bridges)
    && |t.entries| == |s.entries| && |s.bridges| <= |t.bridges|
    && (forall e | 0 <= e < |s.entries| :: t.entries[e] == s.entries[e].(bridge := t.entries[e].bridge))
    && (forall b | 0 <= b < |s.bridges| :: t.bridges[b] == s.bridges[b].(running := t.bridges[b].running))
  }

  /** Some entries of the hub got a bridge on it; all bridges there were go on as before. */
  predicate OnlyStarts(s: State, t: State, h: HubId) {
    && SameTable(s, t)
    && (forall e | 0 <= e < |s.entries| && s.entries[e].bridge.Some? :: t.entries[e] == s.entries[e])
    && (forall b | 0 <= b < |s.bridges| :: t.bridges[b] == s.bridges[b])
    && (forall b | |s.bridges| <= b < |t.bridges| :: t.bridges[b].hub == h)
  }

  /** Some bridges stopped; all entries but those of the hub keep theirs. */
  predicate OnlyStops(s: State, t: State, h: HubId) {
    && SameTable(s, t) && |t.bridges| == |s.bridges|
    && (forall e | 0 <= e < |s.entries| :: t.entries[e].bridge.Some? ==> t.entries[e] == s.entries[e])
    && (forall e | 0 <= e < |s.entries| && !BelongsTo(s, e, h) :: t.entries[e] == s.entries[e])
    && (forall b | 0 <= b < |s.bridges| && t.bridges[b].running :: s.bridges[b].running)
  }

  lemma StartBridgeStarts(s: State, e: EntryId, h: HubId)
    requires ListOk(s) && BridgesOk(s) && PlacesOk(s) && BelongsTo(s, e, h) && !s.hubs[h].isDynamic
    ensures var t := StartBridge(s, e, h);
            && ListOk(t) && BridgesOk(t) && PlacesOk(t) && OnlyStarts(s, t, h)
            && (e in s.list ==> t.entries[e].bridge.Some?)
  {
    var t := StartBridge(s, e, h);
    assert OnlyStarts(s, t, h) by { hide ListOk, BridgesOk, PlacesOk, SameName; }
    SameTableKeepsList(s, t);
    assert e in s.list ==> !s.entries[e].freed;
    assert BridgesOk(t) by { hide ListOk, PlacesOk, SameName, OnlyStarts; }
    assert PlacesOk(t) by {
      hide ListOk, SameName, OnlyStarts;
      SameTableKeepsBelonging(s, t);
    }
  }

  lemma SameTableKeepsBelonging(s: State, t: State)
    requires SameTable(s, t)
    ensures forall e, h: HubId :: BelongsTo(t, e, h) <==> BelongsTo(s, e, h)
  {
  }

  lemma StopBridgeStops(s: State, e: EntryId, h: HubId)
    requires ListOk(s) && BridgesOk(s) && PlacesOk(s) && BelongsTo(s, e, h)
    ensures var t := StopBridge(s, e);
            && ListOk(t) && BridgesOk(t) && PlacesOk(t) && OnlyStops(s, t, h)
            && t.entries[e].bridge.None?
  {
    var t := StopBridge(s, e);
    assert OnlyStops(s, t, h) && t.entries[e].bridge.None? by { hide ListOk, PlacesOk, SameName; }
    SameTableKeepsList(s, t);
    assert BridgesOk(t) by { hide ListOk, PlacesOk, SameName, OnlyStops; }
    assert PlacesOk(t) by {
      hide ListOk, SameName;
      SameTableKeepsBelonging(s, t);
    }
  }

  lemma SameTableKeepsList(s: State, t: State)
    requires ListOk(s) && SameTable(s, t)
    ensures ListOk(t)
  {
    assert forall d, e | SameEntry(t, d, e) :: SameEntry(s, d, e);
  }

  lemma StartsCompose(s: State, t: State, u: State, h: HubId)
    requires OnlyStarts(s, t, h) && OnlyStarts(t, u, h)
    ensures OnlyStarts(s, u, h)
  {
  }

  lemma StopsCompose(s: State, t: State, u: State, h: HubId)
    requires OnlyStops(s, t, h) && OnlyStops(t, u, h)
    ensures OnlyStops(s, u, h)
  {
    hide SameName;
    SameTableKeepsBelonging(s, t);
  }

  lemma {:induction false} StartAllStarts(s: State, h: HubId, k: nat)
    requires k <= |s.list| && h < |s.hubs| && !s.hubs[h].isDynamic
    requires ListOk(s) && BridgesOk(s) && PlacesOk(s)
    ensures var t := StartAll(s, h, k);
            && ListOk(t) && BridgesOk(t) && PlacesOk(t) && OnlyStarts(s, t, h)
            && forall j | 0 <= j < k && BelongsTo(s, s.list[j], h) :: t.entries[s.list[j]].bridge.Some?
  {
    hide ListOk, BridgesOk, PlacesOk, StartBridge, SameName;
    if k > 0 {
      StartAllStarts(s, h, k - 1);
      var t := StartAll(s, h, k - 1);
      var e := s.list[k - 1];
      if BelongsTo(s, e, h) {
        SameTableKeepsBelonging(s, t);
        StartBridgeStarts(t, e, h);
        StartsCompose(s, t, StartAll(s, h, k), h);
      }
    }
  }

  lemma {:induction false} StopAllStops(s: State, h: HubId, k: nat)
    requires k <= |s.list| && h < |s.hubs|
    requires ListOk(s) && BridgesOk(s) && PlacesOk(s)
    ensures var t := StopAll(s, h, k);
            && ListOk(t) && BridgesOk(t) && PlacesOk(t) && OnlyStops(s, t, h)
            && forall j | 0 <= j < k && BelongsTo(s, s.list[j], h) :: t.entries[s.list[j]].bridge.None?
  {
    hide ListOk, BridgesOk, PlacesOk, StopBridge, SameName;
    if k > 0 {
      StopAllStops(s, h, k - 1);
      var t := StopAll(s, h, k - 1);
      var e := s.list[k - 1];
      if BelongsTo(s, e, h) {
        SameTableKeepsBelonging(s, t);
        StopBridgeStops(t, e, h);
        StopsCompose(s, t, StopAll(s, h, k), h);
      }
    }
  }

  // ---- What each part of the invariant depends on ----

  lemma TableDependsOnTable(s: State, u: State)
    requires ListOk(s) && BridgesOk(s) && PlacesOk(s) && HubNamesDiffer(s)
    requires u.entries == s.entries && u.list == s.list && u.bridges == s.bridges && SameHubs(s, u)
    ensures ListOk(u) && BridgesOk(u) && PlacesOk(u) && HubNamesDiffer(u)
  {
    hide SameName;
    forall d, e ensures SameEntry(u, d, e) <==> SameEntry(s, d, e) {
    }
    SameHubsKeepBelonging(s, u);
  }

  predicate SameHubs(s: State, u: State) {
    && |u.hubs| == |s.hubs|
    && (forall h | 0 <= h < |s.hubs| :: u.hubs[h].name == s.hubs[h].name && u.hubs[h].isDynamic == s.hubs[h].isDynamic)
    && (forall h | 0 <= h < |s.hubs| && s.hubs[h].spoiled :: u.hubs[h].spoiled)
  }

  lemma SameHubsKeepBelonging(s: State, u: State)
    requires u.entries == s.entries && SameHubs(s, u)
    ensures forall e, h: HubId :: BelongsTo(u, e, h) <==> BelongsTo(s, e, h)
  {
  }

  /** Only thread `t` and the lock of hub `h` differ. */
  predicate OthersStay(s: State, u: State, t: ThreadId, h: HubId) {
    && SameHubs(s, u) && t in s.threads && t in u.threads && u.threads == s.threads[t := u.threads[t]]
    && (forall g | 0 <= g < |s.hubs| && g != h :: u.hubs[g] == s.hubs[g])
  }

  /** What the holders of all other locks have come to does not change. */
  lemma HoldersStay(s: State, u: State, t: ThreadId, h: HubId)
    requires LocksOk(s) && OthersStay(s, u, t, h)
    requires forall g: HubId | g != h :: !Holds(s.threads[t], g) && !Holds(u.threads[t], g)
    ensures forall g: HubId | g != h :: HolderOf(u, g) == HolderOf(s, g)
  {
    hide SameName;
  }

  lemma ThreadsStay(s: State, u: State, t: ThreadId, h: HubId)
    requires ThreadsOk(s) && OthersStay(s, u, t, h) && ThreadOk(u, u.threads[t])
    requires forall e, g: HubId :: BelongsTo(s, e, g) ==> BelongsTo(u, e, g)
    ensures ThreadsOk(u)
  {
    hide SameName;
  }

  lemma OfflineStays(s: State, u: State)
    requires OfflineOk(s) && |u.hubs| == |s.hubs|
    requires forall b, h: HubId :: RunsOn(u, b, h) && h < |s.hubs| && !u.hubs[h].spoiled ==>
               || (RunsOn(s, b, h) && u.hubs[h].offline == s.hubs[h].offline && !s.hubs[h].spoiled
                   && (JustStarted(s, h) ==> JustStarted(u, h))
                   && (JustStopped(u, h) ==> JustStopped(s, h)))
               || ((u.hubs[h].offline ==> JustStarted(u, h)) && !JustStopped(u, h))
    ensures OfflineOk(u)
  {
    hide JustStarted, JustStopped;
  }

  lemma MissedStays(s: State, u: State)
    requires NothingMissed(s)
    requires forall k, h: HubId | 0 <= k < |u.list| && BelongsTo(u, u.list[k], h) && MustRun(u, h) ::
               || Provided(u, u.list[k], h)
               || (u.list[k] in s.list && BelongsTo(s, u.list[k], h) && MustRun(s, h)
                   && (Provided(s, u.list[k], h) ==> Provided(u, u.list[k], h)))
    ensures NothingMissed(u)
  {
    hide BelongsTo, Provided, JustStarted, JustStopped;
  }

  lemma ProvidedStays(s: State, u: State, t: ThreadId, e: EntryId, h: HubId)
    requires Provided(s, e, h) && t in s.threads && t in u.threads && u.threads == s.threads[t := u.threads[t]]
    requires e < |s.entries| && s.entries[e].bridge.Some? ==> e < |u.entries| && u.entries[e].bridge.Some?
    requires JustStopped(s, h) ==> JustStopped(u, h)
    requires WillStart(s.threads[t], e, h) ==> WillStart(u.threads[t], e, h)
    ensures Provided(u, e, h)
  {
    hide JustStopped;
    if e < |s.entries| && s.entries[e].bridge.Some? {
    } else if JustStopped(s, h) {
    } else {
      var o :| o in s.threads && WillStart(s.threads[o], e, h);
      assert WillStart(u.threads[o], e, h);
    }
  }

  // ---- Taking and leaving the online lock ----

  lemma LockKeepsLocks(s: State, t: ThreadId, h: HubId, to: Thread)
    requires LocksOk(s) && t in s.threads && (forall g: HubId :: !Holds(s.threads[t], g))
    requires forall g: HubId :: Holds(to, g) <==> g == h
    requires h < |s.hubs| && s.hubs[h].holder.None?
    ensures LocksOk(LockOnline(s, t, h, to))
  {
  }

  lemma LockKeepsInv(s: State, t: ThreadId, h: HubId, to: Thread)
    requires Inv(s) && t in s.threads && ThreadOk(s, to)
    requires match s.threads[t]
             case Added(e, g) => g == h && to == StartLocked(e, h)
             case Online(g) => g == h && to == OnlineLocked(h)
             case Offline(g, saved) => g == h && to == OfflineLocked(h, saved)
             case _ => false
    ensures Inv(LockOnline(s, t, h, to))
  {
    hide SameName;
    var u := LockOnline(s, t, h, to);
    if u != s {
      TableDependsOnTable(s, u);
      SameHubsKeepBelonging(s, u);
      hide ListOk, BridgesOk, PlacesOk, HubNamesDiffer, BelongsTo;
      LockKeepsLocks(s, t, h, to);
      HoldersStay(s, u, t, h);
      hide LocksOk, Holds;
      assert ThreadOk(u, to);
      ThreadsStay(s, u, t, h);
      hide ThreadsOk, ThreadOk;
      assert OfflineOk(u) by {
        hide NothingMissed;
        OfflineStays(s, u);
      }
      forall e, g: HubId | Provided(s, e, g) ensures Provided(u, e, g) {
        ProvidedStays(s, u, t, e, g);
      }
      hide Provided;
      MissedStays(s, u);
    }
  }

  lemma UnlockKeepsLocks(s: State, t: ThreadId, h: HubId, offline: bool, to: Thread)
    requires LocksOk(s) && t in s.threads && Holds(s.threads[t], h) && (to.Done? || to.SetHalt?)
    ensures LocksOk(UnlockOnline(s, t, h, offline, to))
  {
  }

  lemma UnlockKeepsInv(s: State, t: ThreadId, h: HubId, offline: bool, to: Thread)
    requires Inv(s) && t in s.threads && h < |s.hubs| && (to.Done? || (to.SetHalt? && to.hub == h))
    requires match s.threads[t]
             case Unlocking(g, _) => g == h && offline == s.hubs[h].offline
             case OnlineStarted(g) => g == h && !offline
             case OfflineStopped(g, _) => g == h && offline
             case _ => false
    ensures Inv(UnlockOnline(s, t, h, offline, to))
  {
    hide SameName;
    var u := UnlockOnline(s, t, h, offline, to);
    TableDependsOnTable(s, u);
    SameHubsKeepBelonging(s, u);
    hide ListOk, BridgesOk, PlacesOk, HubNamesDiffer, BelongsTo;
    UnlockKeepsLocks(s, t, h, offline, to);
    HoldersStay(s, u, t, h);
    assert Holds(s.threads[t], h);
    assert HolderOf(s, h) == s.threads[t] && HolderOf(u, h) == Done;
    assert ThreadsOk(u) by { ThreadsStay(s, u, t, h); }
    hide LocksOk, Holds, ThreadsOk, ThreadOk, HolderOf;
    assert OfflineOk(u) by {
      hide NothingMissed;
      assert forall b, g: HubId :: RunsOn(u, b, g) <==> RunsOn(s, b, g);
      if u.hubs[h].offline {
        assert s.threads[t].OfflineStopped? || s.hubs[h].offline;
      }
      OfflineStays(s, u);
    }
    hide OfflineOk;
    forall e, g: HubId | Provided(s, e, g) && MustRun(u, g) ensures Provided(u, e, g) {
      ProvidedStays(s, u, t, e, g);
    }
    hide Provided;
    MissedStays(s, u);
  }

  // ---- Steps of the thread that holds the online lock ----

  /** The holder of the lock of `h` goes on from one of these points to another. */
  lemma MoveKeepsLocks(s: State, u: State, t: ThreadId, h: HubId)
    requires LocksOk(s) && t in s.threads && Holds(s.threads[t], h)
    requires u.hubs == s.hubs && t in u.threads && u.threads == s.threads[t := u.threads[t]] && Holds(u.threads[t], h)
    ensures LocksOk(u)
    ensures forall g: HubId | g != h :: HolderOf(u, g) == HolderOf(s, g)
    ensures h < |s.hubs| && HolderOf(s, h) == s.threads[t] && HolderOf(u, h) == u.threads[t]
  {
    HoldersStay(s, u, t, h);
  }

  /** Nothing but the program counter changes. */
  lemma MoveKeepsInv(s: State, t: ThreadId, h: HubId, to: Thread)
    requires Inv(s) && t in s.threads && Holds(s.threads[t], h) && h < |s.hubs|
    requires s.threads[t].OnlineLocked? || s.threads[t].OfflineLocked? || (s.threads[t].StartLocked? && s.hubs[h].offline)
    requires (to.Unlocking? && to.hub == h) || (to == OnlineStarted(h) && s.hubs[h].offline && s.hubs[h].isDynamic)
    ensures Inv(Goto(s, t, to))
  {
    hide SameName;
    var u := Goto(s, t, to);
    TableDependsOnTable(s, u);
    SameHubsKeepBelonging(s, u);
    hide ListOk, BridgesOk, PlacesOk, HubNamesDiffer, BelongsTo;
    MoveKeepsLocks(s, u, t, h);
    hide LocksOk;
    assert ThreadsOk(u) by { ThreadsStay(s, u, t, h); }
    hide Holds, ThreadsOk, ThreadOk, HolderOf;
    assert OfflineOk(u) by {
      hide NothingMissed;
      assert forall b, g: HubId :: RunsOn(u, b, g) <==> RunsOn(s, b, g);
      OfflineStays(s, u);
    }
    hide OfflineOk;
    forall e, g: HubId | Provided(s, e, g) && MustRun(u, g) ensures Provided(u, e, g) {
      ProvidedStays(s, u, t, e, g);
    }
    hide Provided;
    MissedStays(s, u);
  }

  lemma StartLockedKeepsInv(s: State, t: ThreadId)
    requires Inv(s) && t in s.threads && s.threads[t].StartLocked?
    ensures Inv(StepThread(s, t))
  {
    hide SameName;
    var e, h := s.threads[t].entry, s.threads[t].hub;
    var u := StepThread(s, t);
    MoveKeepsLocks(s, u, t, h);
    if s.hubs[h].offline {
      MoveKeepsInv(s, t, h, Unlocking(h, None));
      return;
    }
    assert BelongsTo(s, e, h) && !s.hubs[h].isDynamic;
    StartBridgeStarts(s, e, h);
    var v := StartBridge(s, e, h);
    assert u == Goto(v, t, Unlocking(h, None));
    assert HubNamesDiffer(v) by { hide Inv; }
    TableDependsOnTable(v, u);
    SameTableKeepsBelonging(s, v);
    SameHubsKeepBelonging(v, u);
    forall k | 0 <= k < |s.list| && BelongsTo(s, s.list[k], h) && MustRun(u, h)
      ensures Provided(s, s.list[k], h) ==> Provided(u, s.list[k], h)
    {
      hide ListOk, BridgesOk, PlacesOk, BelongsTo, StartBridge, NothingMissed;
      if Provided(s, s.list[k], h) && s.list[k] != e {
        ProvidedStays(s, u, t, s.list[k], h);
      }
    }
    hide ListOk, BridgesOk, PlacesOk, BelongsTo, LocksOk, StartBridge, HubNamesDiffer;
    StartsKeepRest(s, v, u, t, h);
  }

  /** Starting bridges on one hub keeps the rest of the invariant. */
  lemma StartsKeepRest(s: State, v: State, u: State, t: ThreadId, h: HubId)
    requires ThreadsOk(s) && OfflineOk(s) && NothingMissed(s)
    requires t in s.threads && OnlyStarts(s, v, h) && t in u.threads && u == Goto(v, t, u.threads[t]) && h < |s.hubs|
    requires ThreadOk(u, u.threads[t])
    requires forall e, g: HubId :: BelongsTo(u, e, g) <==> BelongsTo(s, e, g)
    requires forall g: HubId | g != h :: HolderOf(u, g) == HolderOf(s, g)
    requires (s.hubs[h].offline ==> JustStarted(u, h)) && !JustStopped(u, h)
    requires forall e, g | g != h :: !WillStart(s.threads[t], e, g)
    requires forall k | 0 <= k < |s.list| && BelongsTo(s, s.list[k], h) && MustRun(u, h) ::
               Provided(u, s.list[k], h) || (MustRun(s, h) && (Provided(s, s.list[k], h) ==> Provided(u, s.list[k], h)))
    ensures ThreadsOk(u) && OfflineOk(u) && NothingMissed(u)
  {
    hide SameName, HolderOf;
    assert ThreadsOk(u) by {
      hide OfflineOk, NothingMissed;
      ThreadsStay(s, u, t, h);
    }
    hide ThreadsOk, ThreadOk;
    assert OfflineOk(u) by {
      hide NothingMissed;
      OfflineStays(s, u);
    }
    hide OfflineOk, RunsOn, BelongsTo;
    forall e, g: HubId | g != h && Provided(s, e, g) ensures Provided(u, e, g) {
      ProvidedStays(s, u, t, e, g);
    }
    hide Provided;
    MissedStays(s, u);
  }

  lemma OnlineLockedKeepsInv(s: State, t: ThreadId)
    requires Inv(s) && t in s.threads && s.threads[t].OnlineLocked?
    ensures Inv(StepThread(s, t))
  {
    var h := s.threads[t].hub;
    HeldHubExists(s, t, h);
    hide Inv;
    if !s.hubs[h].offline {
      MoveKeepsInv(s, t, h, Unlocking(h, None));
    } else if s.hubs[h].isDynamic {
      MoveKeepsInv(s, t, h, OnlineStarted(h));
    } else {
      SwitchOnKeepsInv(s, t, h);
    }
  }

  lemma HeldHubExists(s: State, t: ThreadId, h: HubId)
    requires LocksOk(s) && t in s.threads && Holds(s.threads[t], h)
    ensures h < |s.hubs|
  {
  }

  lemma SwitchOnKeepsTable(s: State, t: ThreadId, h: HubId)
    requires ListOk(s) && BridgesOk(s) && PlacesOk(s) && HubNamesDiffer(s) && h < |s.hubs| && !s.hubs[h].isDynamic
    ensures var v := StartAll(s, h, |s.list|);
            var u := Goto(v, t, OnlineStarted(h));
            && OnlyStarts(s, v, h) && ListOk(u) && BridgesOk(u) && PlacesOk(u) && HubNamesDiffer(u)
            && (forall j | 0 <= j < |s.list| && BelongsTo(s, s.list[j], h) :: Provided(u, s.list[j], h))
            && (forall e, g: HubId :: BelongsTo(u, e, g) <==> BelongsTo(s, e, g))
  {
    hide SameName, StartAll, ListOk, BridgesOk, PlacesOk, HubNamesDiffer, OnlyStarts, BelongsTo, Provided;
    StartAllStarts(s, h, |s.list|);
    var v := StartAll(s, h, |s.list|);
    var u := Goto(v, t, OnlineStarted(h));
    StartAllKeepsHubs(s, h, |s.list|);
    StartedEntries(s, v, u, h);
    HubNamesAreOfHubs(s, v);
    TableDependsOnTable(v, u);
  }

  lemma StartedEntries(s: State, v: State, u: State, h: HubId)
    requires OnlyStarts(s, v, h) && u == v.(threads := u.threads)
    requires forall j | 0 <= j < |s.list| && BelongsTo(s, s.list[j], h) :: v.entries[s.list[j]].bridge.Some?
    ensures forall j | 0 <= j < |s.list| && BelongsTo(s, s.list[j], h) :: Provided(u, s.list[j], h)
    ensures forall e, g: HubId :: BelongsTo(u, e, g) <==> BelongsTo(s, e, g)
  {
    hide SameName, JustStopped, WillStart;
    SameTableKeepsBelonging(s, v);
  }

  lemma {:induction false} StartAllKeepsHubs(s: State, h: HubId, k: nat)
    requires k <= |s.list|
    ensures StartAll(s, h, k).hubs == s.hubs
  {
    if k > 0 {
      StartAllKeepsHubs(s, h, k - 1);
    }
  }

  lemma SwitchOnKeepsInv(s: State, t: ThreadId, h: HubId)
    requires Inv(s) && t in s.threads && s.threads[t] == OnlineLocked(h)
    requires h < |s.hubs| && s.hubs[h].offline && !s.hubs[h].isDynamic
    ensures Inv(Goto(StartAll(s, h, |s.list|), t, OnlineStarted(h)))
  {
    hide SameName, StartAll, ListOk, BridgesOk, PlacesOk, HubNamesDiffer, BelongsTo, OfflineOk, NothingMissed, ThreadsOk, Provided, MustRun;
    SwitchOnKeepsTable(s, t, h);
    var v := StartAll(s, h, |s.list|);
    var u := Goto(v, t, OnlineStarted(h));
    MoveKeepsLocks(s, u, t, h);
    hide LocksOk, HolderOf, Holds;
    StartsKeepRest(s, v, u, t, h);
  }

  lemma OfflineLockedKeepsInv(s: State, t: ThreadId)
    requires Inv(s) && t in s.threads && s.threads[t].OfflineLocked?
    ensures Inv(StepThread(s, t))
  {
    var OfflineLocked(h, saved) := s.threads[t];
    HeldHubExists(s, t, h);
    hide Inv;
    if s.hubs[h].offline || s.hubs[h].halt {
      MoveKeepsInv(s, t, h, Unlocking(h, saved));
    } else {
      SwitchOffKeepsInv(s, t, h, saved);
    }
  }

  lemma SwitchOffKeepsTable(s: State, t: ThreadId, h: HubId, saved: Option<bool>)
    requires ListOk(s) && BridgesOk(s) && PlacesOk(s) && HubNamesDiffer(s) && h < |s.hubs|
    ensures var v := StopAll(s, h, |s.list|);
            var u := Goto(v, t, OfflineStopped(h, saved));
            && OnlyStops(s, v, h) && ListOk(u) && BridgesOk(u) && PlacesOk(u) && HubNamesDiffer(u)
            && (forall b :: !RunsOn(u, b, h))
            && (forall e, g: HubId :: BelongsTo(u, e, g) <==> BelongsTo(s, e, g))
  {
    hide SameName, StopAll, ListOk, BridgesOk, PlacesOk, HubNamesDiffer, OnlyStops, BelongsTo, RunsOn;
    StopAllStops(s, h, |s.list|);
    var v := StopAll(s, h, |s.list|);
    var u := Goto(v, t, OfflineStopped(h, saved));
    StoppedTable(s, v, u, h);
    HubNamesAreOfHubs(s, v);
    TableDependsOnTable(v, u);
    NoneRunsOn(s, u, h);
  }

  lemma StoppedTable(s: State, v: State, u: State, h: HubId)
    requires OnlyStops(s, v, h) && u == v.(threads := u.threads)
    ensures v.hubs == s.hubs && v.list == s.list && forall e, g: HubId :: BelongsTo(u, e, g) <==> BelongsTo(s, e, g)
  {
    hide SameName;
    SameTableKeepsBelonging(s, v);
  }

  lemma SwitchOffKeepsInv(s: State, t: ThreadId, h: HubId, saved: Option<bool>)
    requires Inv(s) && t in s.threads && s.threads[t] == OfflineLocked(h, saved)
    requires h < |s.hubs| && !s.hubs[h].offline
    ensures Inv(Goto(StopAll(s, h, |s.list|), t, OfflineStopped(h, saved)))
  {
    hide SameName, StopAll, ListOk, BridgesOk, PlacesOk, BelongsTo, OfflineOk, NothingMissed, ThreadsOk, RunsOn;
    SwitchOffKeepsTable(s, t, h, saved);
    var v := StopAll(s, h, |s.list|);
    var u := Goto(v, t, OfflineStopped(h, saved));
    MoveKeepsLocks(s, u, t, h);
    hide LocksOk, HolderOf, Holds;
    OtherHubsBelongings(s, h);
    hide HubNamesDiffer;
    StopsKeepRest(s, v, u, t, h);
  }

  /** If no listed entry of the hub has a bridge, none runs there. */
  lemma NoneRunsOn(s: State, u: State, h: HubId)
    requires ListOk(u) && BridgesOk(u) && PlacesOk(u) && u.list == s.list
    requires forall e, g: HubId :: BelongsTo(u, e, g) <==> BelongsTo(s, e, g)
    requires forall j | 0 <= j < |s.list| && BelongsTo(s, s.list[j], h) :: u.entries[s.list[j]].bridge.None?
    ensures forall b :: !RunsOn(u, b, h)
  {
    hide BelongsTo;
  }

  lemma OtherHubsBelongings(s: State, h: HubId)
    requires HubNamesDiffer(s)
    ensures forall e, g: HubId | BelongsTo(s, e, g) && g != h :: !BelongsTo(s, e, h)
  {
    forall e, g: HubId | BelongsTo(s, e, g) && BelongsTo(s, e, h) ensures g == h {
      assert SameName(s.hubs[g].name, s.hubs[h].name) && SameName(s.hubs[h].name, s.hubs[g].name);
    }
  }

  /** Stopping the bridges of one hub keeps the rest of the invariant. */
  lemma StopsKeepRest(s: State, v: State, u: State, t: ThreadId, h: HubId)
    requires ThreadsOk(s) && OfflineOk(s) && NothingMissed(s)
    requires t in s.threads && OnlyStops(s, v, h) && t in u.threads && u == Goto(v, t, u.threads[t]) && h < |s.hubs|
    requires ThreadOk(u, u.threads[t]) && JustStopped(u, h)
    requires forall e, g: HubId :: BelongsTo(u, e, g) <==> BelongsTo(s, e, g)
    requires forall g: HubId | g != h :: HolderOf(u, g) == HolderOf(s, g)
    requires forall b :: !RunsOn(u, b, h)
    requires forall e, g :: !WillStart(s.threads[t], e, g)
    requires forall e, g: HubId | BelongsTo(s, e, g) && g != h :: !BelongsTo(s, e, h)
    ensures ThreadsOk(u) && OfflineOk(u) && NothingMissed(u)
  {
    hide SameName, HolderOf;
    assert ThreadsOk(u) by {
      hide OfflineOk, NothingMissed;
      ThreadsStay(s, u, t, h);
    }
    hide ThreadsOk, ThreadOk;
    assert OfflineOk(u) by {
      hide NothingMissed;
      OfflineStays(s, u);
    }
    hide OfflineOk, RunsOn;
    forall e, g: HubId | BelongsTo(s, e, g) && Provided(s, e, g) ensures Provided(u, e, g) {
      if g == h {
      } else {
        ProvidedStays(s, u, t, e, g);
      }
    }
    hide Provided, BelongsTo;
    MissedStays(s, u);
  }

  // ---- Adding and deleting entries ----

  lemma AddEntryKeepsTable(s: State, t: ThreadId, hubName: string, deviceName: string, tapMode: bool)
    requires ListOk(s) && BridgesOk(s) && PlacesOk(s) && HubNamesDiffer(s)
    ensures var u := AddEntry(s, t, hubName, deviceName, tapMode);
            ListOk(u) && BridgesOk(u) && PlacesOk(u) && HubNamesDiffer(u)
  {
    var u := AddEntry(s, t, hubName, deviceName, tapMode);
    if u.entries != s.entries {
      assert u.entries[..|s.entries|] == s.entries;
      assert ListOk(u) by {
        hide PlacesOk, BridgesOk, HubNamesDiffer;
        AddedEntryDiffers(s, u, hubName, deviceName, tapMode && s.isUnix);
      }
      hide ListOk, SameName;
      assert BridgesOk(u) by { hide PlacesOk, HubNamesDiffer; }
      assert PlacesOk(u) by { hide HubNamesDiffer; }
    } else {
      hide ListOk, BridgesOk, PlacesOk, HubNamesDiffer, Exists;
      TableDependsOnTable(s, u);
    }
  }

  lemma AddedEntryDiffers(s: State, u: State, hubName: string, deviceName: string, tapMode: bool)
    requires ListOk(s) && !Exists(s, hubName, deviceName, tapMode)
    requires u.entries == s.entries + [Entry(hubName, deviceName, tapMode, None, false)] && u.list == s.list + [|s.entries|]
    ensures ListOk(u)
  {
    var e := |s.entries|;
    assert forall d | d in s.list :: u.entries[d] == s.entries[d];
    forall c, d | c in u.list && d in u.list && c != d ensures !SameEntry(u, c, d) {
      if c == e {
        assert d in s.list;
      } else if d == e {
        assert c in s.list;
      } else {
        assert c in s.list && d in s.list && !SameEntry(s, c, d);
      }
    }
    forall d | 0 <= d < |u.entries| && !u.entries[d].freed ensures d in u.list {
      if d == e {
        assert u.list[|s.list|] == e;
      } else {
        assert d in s.list;
      }
    }
  }

  /** A thread that holds no lock before or after leaves all locks alone. */
  lemma FreeThreadKeepsLocks(s: State, u: State, t: ThreadId)
    requires LocksOk(s) && t in s.threads && t in u.threads && u.hubs == s.hubs && u.threads == s.threads[t := u.threads[t]]
    requires forall g: HubId :: !Holds(s.threads[t], g) && !Holds(u.threads[t], g)
    ensures LocksOk(u)
    ensures forall g: HubId :: HolderOf(u, g) == HolderOf(s, g)
  {
    HoldersStay(s, u, t, |s.hubs|);
  }

  /** Neither adding nor deleting an entry disturbs what is said of all the others. */
  lemma EntriesKeepRest(s: State, u: State, t: ThreadId)
    requires ThreadsOk(s) && OfflineOk(s) && NothingMissed(s)
    requires t in s.threads && t in u.threads && u.hubs == s.hubs && u.threads == s.threads[t := u.threads[t]]
    requires ThreadOk(u, u.threads[t]) && (forall e, g :: !WillStart(s.threads[t], e, g))
    requires forall e, g: HubId :: BelongsTo(s, e, g) ==> BelongsTo(u, e, g)
    requires forall g: HubId :: HolderOf(u, g) == HolderOf(s, g)
    requires forall b, g: HubId :: RunsOn(u, b, g) ==> RunsOn(s, b, g)
    requires forall e, g: HubId | e in u.list && BelongsTo(u, e, g) && MustRun(u, g) ::
               Provided(u, e, g) || (e in s.list && BelongsTo(s, e, g))
    requires forall e | e in u.list && e < |s.entries| && s.entries[e].bridge.Some? :: e < |u.entries| && u.entries[e].bridge.Some?
    ensures ThreadsOk(u) && OfflineOk(u) && NothingMissed(u)
  {
    hide SameName, HolderOf;
    assert ThreadsOk(u) by {
      hide OfflineOk, NothingMissed;
      ThreadsStay(s, u, t, |s.hubs|);
    }
    hide ThreadsOk, ThreadOk, BelongsTo;
    assert OfflineOk(u) by {
      hide NothingMissed;
      OfflineStays(s, u);
    }
    hide OfflineOk, RunsOn;
    forall e, g: HubId | Provided(s, e, g) && e in u.list ensures Provided(u, e, g) {
      ProvidedStays(s, u, t, e, g);
    }
    hide Provided;
    MissedStays(s, u);
  }

  lemma AddEntryKeepsInv(s: State, t: ThreadId)
    requires Inv(s) && t in s.threads && s.threads[t].Add?
    ensures Inv(StepThread(s, t))
  {
    hide SameName, ListOk, BridgesOk, PlacesOk, HubNamesDiffer, Provided, NothingMissed, OfflineOk;
    hide AddEntry, BelongsTo, HolderOf, ThreadsOk, ThreadOk, RunsOn, LocksOk;
    var Add(hubName, deviceName, tapMode) := s.threads[t];
    var u := AddEntry(s, t, hubName, deviceName, tapMode);
    AddEntryKeepsTable(s, t, hubName, deviceName, tapMode);
    NewEntryWillStart(s, t, hubName, deviceName, tapMode);
    AddEntryFrame(s, t, hubName, deviceName, tapMode);
    FreeThreadKeepsLocks(s, u, t);
    EntriesKeepRest(s, u, t);
  }

  lemma AddEntryFrame(s: State, t: ThreadId, hubName: string, deviceName: string, tapMode: bool)
    requires t in s.threads && ThreadsOk(s)
    ensures var u := AddEntry(s, t, hubName, deviceName, tapMode);
            && (forall e, g: HubId :: BelongsTo(s, e, g) ==> BelongsTo(u, e, g))
            && (forall e, g: HubId | e in u.list && BelongsTo(u, e, g) ::
                  (e == |s.entries| && u.entries != s.entries) || (e in s.list && BelongsTo(s, e, g)))
            && (forall e: EntryId | e < |s.entries| :: e < |u.entries| && u.entries[e] == s.entries[e])
            && u.hubs == s.hubs && u.bridges == s.bridges && t in u.threads && u.threads == s.threads[t := u.threads[t]]
            && ThreadOk(u, u.threads[t]) && (forall g: HubId :: !Holds(u.threads[t], g))
            && (forall b, g: HubId :: RunsOn(u, b, g) ==> RunsOn(s, b, g))
  {
    var u := AddEntry(s, t, hubName, deviceName, tapMode);
    var e := |s.entries|;
    if u.entries != s.entries {
      assert ThreadOk(u, u.threads[t]) by { hide ThreadsOk; }
    }
    hide SameName, ThreadOk, ThreadsOk, Exists;
  }

  /** The thread that has added an entry will start its bridge, if there is a hub to run it on. */
  lemma NewEntryWillStart(s: State, t: ThreadId, hubName: string, deviceName: string, tapMode: bool)
    requires HubNamesDiffer(s) && t in s.threads
    ensures var u := AddEntry(s, t, hubName, deviceName, tapMode);
            u.entries == s.entries ||
            forall g: HubId | BelongsTo(u, |s.entries|, g) && !s.hubs[g].isDynamic :: Provided(u, |s.entries|, g)
  {
    var u := AddEntry(s, t, hubName, deviceName, tapMode);
    var e := |s.entries|;
    if u.entries != s.entries {
      forall g: HubId | BelongsTo(u, e, g) && !s.hubs[g].isDynamic ensures Provided(u, e, g) {
        var h := FindHub(s.hubs, hubName, 0).value;
        assert SameName(s.hubs[h].name, s.hubs[g].name) && SameName(s.hubs[g].name, s.hubs[h].name);
        assert h == g;
        assert WillStart(u.threads[t], e, g);
      }
    }
  }

  lemma DeletedEntryLeavesList(s: State, u: State, k: nat)
    requires ListOk(s) && k < |s.list| && u.list == s.list[..k] + s.list[k + 1..]
    requires |u.entries| == |s.entries| && u.entries[s.list[k]].freed
    requires forall e | 0 <= e < |s.entries| && e != s.list[k] :: u.entries[e] == s.entries[e]
    ensures ListOk(u)
    ensures forall e: EntryId :: e in u.list <==> e in s.list && e != s.list[k]
  {
    RemovedMembers(s.list, k);
    SameEntriesBesides(s, u, s.list[k]);
    hide SameName, SameEntry, Matches;
    assert forall e | e in u.list :: e < |u.entries| && !u.entries[e].freed;
  }

  lemma SameEntriesBesides(s: State, u: State, gone: EntryId)
    requires |u.entries| == |s.entries| && forall e | 0 <= e < |s.entries| && e != gone :: u.entries[e] == s.entries[e]
    ensures forall d, e {:trigger SameEntry(u, d, e)} | d != gone && e != gone && SameEntry(u, d, e) :: SameEntry(s, d, e)
  {
    hide SameName;
  }

  lemma DeleteKeepsTable(s: State, t: ThreadId, hubName: string, deviceName: string)
    requires ListOk(s) && BridgesOk(s) && PlacesOk(s) && HubNamesDiffer(s)
    ensures var u := DeleteEntry(s, t, hubName, deviceName);
            ListOk(u) && BridgesOk(u) && PlacesOk(u) && HubNamesDiffer(u)
  {
    hide SameName, ListOk, BridgesOk, PlacesOk, HubNamesDiffer, Removed;
    match FindEntry(s, hubName, deviceName, 0)
    case None => TableDependsOnTable(s, Goto(s, t, Done));
    case Some(k) => RemovedKeepsTable(s, t, k);
  }

  lemma RemovedKeepsTable(s: State, t: ThreadId, k: nat)
    requires ListOk(s) && BridgesOk(s) && PlacesOk(s) && HubNamesDiffer(s) && k < |s.list| && s.list[k] < |s.entries|
    ensures var u := Removed(s, t, k); ListOk(u) && BridgesOk(u) && PlacesOk(u) && HubNamesDiffer(u)
  {
    hide SameName, HubNamesDiffer;
    var u := Removed(s, t, k);
    assert u.hubs == s.hubs;
    assert HubNamesDiffer(u) by { HubNamesAreOfHubs(s, u); }
    assert ListOk(u) by {
      hide PlacesOk;
      DeletedEntryLeavesList(s, u, k);
    }
    assert !s.entries[s.list[k]].freed;
    hide ListOk;
    assert BridgesOk(u) by { hide PlacesOk; }
    RemovedKeepsPlaces(s, t, k);
  }

  lemma HubNamesAreOfHubs(s: State, u: State)
    requires HubNamesDiffer(s) && u.hubs == s.hubs
    ensures HubNamesDiffer(u)
  {
  }

  lemma RemovedKeepsPlaces(s: State, t: ThreadId, k: nat)
    requires PlacesOk(s) && k < |s.list| && s.list[k] < |s.entries|
    ensures PlacesOk(Removed(s, t, k))
  {
    hide SameName;
  }

  lemma DeleteFrame(s: State, t: ThreadId, hubName: string, deviceName: string)
    requires ListOk(s) && BridgesOk(s) && t in s.threads
    ensures var u := DeleteEntry(s, t, hubName, deviceName);
            && (forall e, g: HubId :: BelongsTo(s, e, g) <==> BelongsTo(u, e, g))
            && (forall e: EntryId | e in u.list :: e in s.list && e < |s.entries| && u.entries[e] == s.entries[e])
            && u.hubs == s.hubs && t in u.threads && u.threads == s.threads[t := Done]
            && (forall b, g: HubId :: RunsOn(u, b, g) ==> RunsOn(s, b, g))
  {
    hide SameName;
    var u := DeleteEntry(s, t, hubName, deviceName);
    var found := FindEntry(s, hubName, deviceName, 0);
    if found.Some? {
      DeletedEntryLeavesList(s, u, found.value);
    }
  }

  lemma DeleteKeepsInv(s: State, t: ThreadId)
    requires Inv(s) && t in s.threads && s.threads[t].Delete?
    ensures Inv(StepThread(s, t))
  {
    hide SameName;
    var Delete(hubName, deviceName) := s.threads[t];
    var u := DeleteEntry(s, t, hubName, deviceName);
    hide ListOk, BridgesOk, PlacesOk, HubNamesDiffer, Provided, NothingMissed, OfflineOk;
    DeleteKeepsTable(s, t, hubName, deviceName);
    DeleteFrame(s, t, hubName, deviceName);
    FreeThreadKeepsLocks(s, u, t);
    hide LocksOk;
    hide DeleteEntry, BelongsTo, HolderOf, Provided, NothingMissed, OfflineOk, ThreadsOk, RunsOn;
    EntriesKeepRest(s, u, t);
  }

  // ---- Every step, every run ----

  lemma StepThreadKeepsInv(s: State, t: ThreadId)
    requires Inv(s) && t in s.threads
    ensures Inv(StepThread(s, t))
  {
    match s.threads[t]
    case Add(_, _, _) => AddEntryKeepsInv(s, t);
    case Delete(_, _) => DeleteKeepsInv(s, t);
    case StartLocked(_, _) => StartLockedKeepsInv(s, t);
    case OnlineLocked(_) => OnlineLockedKeepsInv(s, t);
    case OfflineLocked(_, _) => OfflineLockedKeepsInv(s, t);
    case Stop(_) => StopHubKeepsInv(s, t);
    case SetHalt(_, _) => StopHubKeepsInv(s, t);
    case Restore(_, _) => StopHubKeepsInv(s, t);
    case Done =>
    case _ => LockStepKeepsInv(s, t);
  }

  lemma LockStepKeepsInv(s: State, t: ThreadId)
    requires Inv(s) && t in s.threads
    requires var c := s.threads[t];
             c.Added? || c.Online? || c.Offline? || c.OnlineStarted? || c.OfflineStopped? || c.Unlocking?
    ensures Inv(StepThread(s, t))
  {
    hide SameName, ListOk, BridgesOk, PlacesOk, HubNamesDiffer, OfflineOk, NothingMissed, LockOnline, UnlockOnline;
    assert ThreadOk(s, s.threads[t]);
    match s.threads[t]
    case Added(e, h) => LockKeepsInv(s, t, h, StartLocked(e, h));
    case Online(h) => LockKeepsInv(s, t, h, OnlineLocked(h));
    case Offline(h, saved) => LockKeepsInv(s, t, h, OfflineLocked(h, saved));
    case OnlineStarted(h) => UnlockKeepsInv(s, t, h, false, Done);
    case OfflineStopped(h, saved) => UnlockKeepsInv(s, t, h, true, AfterOffline(h, saved));
    case Unlocking(h, saved) => UnlockKeepsInv(s, t, h, s.hubs[h].offline, AfterOffline(h, saved));
    case _ =>
  }

  lemma SpawnKeepsInv(s: State, t: ThreadId, c: Thread)
    requires Inv(s) && t !in s.threads && IsCall(s, c)
    ensures Inv(Goto(s, t, c))
  {
    hide SameName;
    var u := Goto(s, t, c);
    TableDependsOnTable(s, u);
    SameHubsKeepBelonging(s, u);
    hide ListOk, BridgesOk, PlacesOk, HubNamesDiffer;
    assert forall h: HubId :: !Holds(c, h);
    assert LocksOk(u) by { hide OfflineOk, NothingMissed, ThreadsOk; }
    assert forall g: HubId :: HolderOf(u, g) == HolderOf(s, g);
    hide LocksOk, HolderOf, BelongsTo;
    OfflineStays(s, u);
    forall e, g: HubId | Provided(s, e, g) ensures Provided(u, e, g) {
      ProvidedStaysIfThreadsDo(s, u, e, g);
    }
    hide Provided, OfflineOk;
    MissedStays(s, u);
  }

  lemma ProvidedStaysIfThreadsDo(s: State, u: State, e: EntryId, h: HubId)
    requires Provided(s, e, h) && u.entries == s.entries
    requires forall t | t in s.threads :: t in u.threads && u.threads[t] == s.threads[t]
    requires JustStopped(s, h) ==> JustStopped(u, h)
    ensures Provided(u, e, h)
  {
    hide JustStopped;
    if !(e < |s.entries| && s.entries[e].bridge.Some?) && !JustStopped(s, h) {
      var t :| t in s.threads && WillStart(s.threads[t], e, h);
      assert WillStart(u.threads[t], e, h);
    }
  }

  // ---- What StopHub does without the lock ----

  lemma StopHubKeepsInv(s: State, t: ThreadId)
    requires Inv(s) && t in s.threads && (s.threads[t].Stop? || s.threads[t].SetHalt? || s.threads[t].Restore?)
    ensures Inv(StepThread(s, t))
  {
    var h := s.threads[t].hub;
    assert ThreadOk(s, s.threads[t]);
    var hub := s.hubs[h];
    assert Harmless(s, h, hub.offline);
    hide Inv, Harmless;
    match s.threads[t]
    case Stop(_) =>
      assert s.hubs[h := hub] == s.hubs;
      UnlockedStepKeepsInv(s, t, h, hub, Offline(h, Some(hub.offline)));
    case SetHalt(_, was) => UnlockedStepKeepsInv(s, t, h, hub.(halt := true), Restore(h, was));
    case Restore(_, was) =>
      UnlockedStepKeepsInv(s, t, h, hub.(offline := was, spoiled := hub.spoiled || !Harmless(s, h, was)), Done);
  }

  lemma UnlockedStepKeepsInv(s: State, t: ThreadId, h: HubId, hub: Hub, to: Thread)
    requires Inv(s) && t in s.threads && h < |s.hubs| && ThreadOk(s, to)
    requires s.threads[t].Stop? || s.threads[t].SetHalt? || s.threads[t].Restore?
    requires to.Offline? || to.Restore? || to.Done?
    requires SameButFlags(s.hubs[h], hub)
    requires hub.spoiled || Harmless(s, h, hub.offline)
    ensures Inv(Goto(s.(hubs := s.hubs[h := hub]), t, to))
  {
    hide SameName, Harmless, ListOk, BridgesOk, PlacesOk, HubNamesDiffer, OfflineOk, NothingMissed, ThreadsOk, LocksOk, BelongsTo;
    hide JustStarted, JustStopped, Provided, MustRun, RunsOn, HolderOf;
    var u := Goto(s.(hubs := s.hubs[h := hub]), t, to);
    assert ThreadOk(u, to);
    hide ThreadOk;
    TableDependsOnTable(s, u);
    SameHubsKeepBelonging(s, u);
    UnlockedStepKeepsLocks(s, u, t, h);
    hide Holds;
    ThreadsStay(s, u, t, h);
    assert OfflineOk(u) by { UnlockedStepKeepsOffline(s, u, h); }
    forall e, g: HubId | Provided(s, e, g) ensures Provided(u, e, g) {
      ProvidedStays(s, u, t, e, g);
    }
    UnlockedStepKeepsProvided(s, u, h);
  }

  predicate SameButFlags(hub: Hub, after: Hub) {
    && after.name == hub.name && after.isDynamic == hub.isDynamic && after.holder == hub.holder
    && (hub.spoiled ==> after.spoiled)
  }

  lemma UnlockedStepKeepsLocks(s: State, u: State, t: ThreadId, h: HubId)
    requires LocksOk(s) && OthersStay(s, u, t, h) && h < |s.hubs| && u.hubs[h].holder == s.hubs[h].holder
    requires forall g: HubId :: !Holds(s.threads[t], g) && !Holds(u.threads[t], g)
    ensures LocksOk(u)
    ensures forall g: HubId :: (JustStarted(u, g) <==> JustStarted(s, g)) && (JustStopped(u, g) <==> JustStopped(s, g))
  {
    hide SameName;
    assert forall g: HubId | g < |s.hubs| :: u.hubs[g].holder == s.hubs[g].holder;
  }

  /** Off line may be written where nothing runs, and on line anywhere, as far as off-line hubs go. */
  lemma UnlockedStepKeepsOffline(s: State, u: State, h: HubId)
    requires OfflineOk(s) && ListOk(s) && BridgesOk(s) && PlacesOk(s) && HubNamesDiffer(s)
    requires h < |s.hubs| == |u.hubs| && u.hubs == s.hubs[h := u.hubs[h]] && u.bridges == s.bridges && SameButFlags(s.hubs[h], u.hubs[h])
    requires u.hubs[h].spoiled || Harmless(s, h, u.hubs[h].offline)
    requires forall g: HubId :: (JustStarted(u, g) <==> JustStarted(s, g)) && (JustStopped(u, g) <==> JustStopped(s, g))
    ensures OfflineOk(u)
  {
    hide ListOk, BridgesOk, PlacesOk, HubNamesDiffer, BelongsTo, JustStarted, JustStopped, Provided, SameName;
    forall b, g: HubId | 0 <= b < |u.bridges| && RunsOn(u, b, g) && g < |u.hubs| && !u.hubs[g].spoiled
      ensures (u.hubs[g].offline ==> JustStarted(u, g)) && !JustStopped(u, g)
    {
      assert RunsOn(s, b, g);
      if g == h && u.hubs[h].offline && !s.hubs[h].offline {
        RunningBridgeIsListed(s, b, h);
      }
    }
  }

  lemma RunningBridgeIsListed(s: State, b: BridgeId, h: HubId)
    requires ListOk(s) && BridgesOk(s) && PlacesOk(s) && HubNamesDiffer(s) && RunsOn(s, b, h)
    ensures var e := s.bridges[b].entry; e in s.list && BelongsTo(s, e, h) && s.entries[e].bridge == Some(b)
  {
    hide SameName;
  }

  lemma UnlockedStepKeepsProvided(s: State, u: State, h: HubId)
    requires NothingMissed(s) && u.list == s.list
    requires h < |s.hubs| == |u.hubs| && u.hubs == s.hubs[h := u.hubs[h]] && SameButFlags(s.hubs[h], u.hubs[h])
    requires u.hubs[h].spoiled || Harmless(s, h, u.hubs[h].offline)
    requires forall g: HubId :: JustStarted(u, g) <==> JustStarted(s, g)
    requires forall e, g: HubId :: BelongsTo(u, e, g) <==> BelongsTo(s, e, g)
    requires forall e, g: HubId :: Provided(s, e, g) ==> Provided(u, e, g)
    ensures NothingMissed(u)
  {
    hide BelongsTo, Provided, JustStarted;
    MissedStays(s, u);
  }

  lemma NextKeepsInv(s: State, ev: Event)
    requires Inv(s)
    ensures Inv(Next(s, ev))
  {
    hide Inv;
    match ev
    case Spawn(t, c) =>
      if t !in s.threads && IsCall(s, c) {
        SpawnKeepsInv(s, t, c);
      }
    case Step(t) =>
      if t in s.threads {
        StepThreadKeepsInv(s, t);
      }
  }

  lemma {:induction false} RunKeepsInv(s: State, evs: seq<Event>)
    requires Inv(s)
    ensures Inv(Run(s, evs))
    decreases |evs|
  {
    hide Inv, Next;
    if evs != [] {
      NextKeepsInv(s, evs[0]);
      RunKeepsInv(Next(s, evs[0]), evs[1..]);
    }
  }

  lemma InitHasInv(s: State)
    requires Init(s)
    ensures Inv(s)
  {
  }
}