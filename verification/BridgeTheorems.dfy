/** What holds of the local bridge table after any run of any threads. */
module BridgeTheorems {
  import opened Text
  import opened BridgeProtocol
  import opened BridgeSafety

  /** No two entries ever share hub, device and tap mode. */
  lemma EntriesStayDistinct(s: State, evs: seq<Event>, j: nat, k: nat)
    requires Init(s)
    ensures var u := Run(s, evs); j < k < |u.list| ==> !SameEntry(u, u.list[j], u.list[k])
  {
    InitHasInv(s);
    RunKeepsInv(s, evs);
  }

  /** A bridge runs only for an entry of the list that has not been freed, and alone for it. */
  lemma OneBridgeAnEntry(s: State, evs: seq<Event>, b: BridgeId)
    requires Init(s)
    ensures var u := Run(s, evs);
            b < |u.bridges| && u.bridges[b].running ==>
              var e := u.bridges[b].entry;
              && e in u.list && e < |u.entries| && !u.entries[e].freed && u.entries[e].bridge == Some(b)
              && forall c | 0 <= c < |u.bridges| && u.bridges[c].running && u.bridges[c].entry == e :: c == b
  {
    InitHasInv(s);
    RunKeepsInv(s, evs);
  }

  /** While nobody holds the online lock of a hub that is off line, no bridge runs there unless StopHub has
      written the flag back wrongly; and on a dynamic hub none ever does. */
  lemma OfflineHubIsQuiet(s: State, evs: seq<Event>, h: HubId, b: BridgeId)
    requires Init(s)
    ensures var u := Run(s, evs);
            h < |u.hubs| && RunsOn(u, b, h) ==>
              !u.hubs[h].isDynamic && (u.hubs[h].offline && !u.hubs[h].spoiled ==> u.hubs[h].holder.Some?)
  {
    InitHasInv(s);
    RunKeepsInv(s, evs);
  }

  /** Once all threads are done, every entry whose hub is on line has its bridge running on that hub:
      neither phase of an add can lose against the hub being switched on or off. The exception is again a
      flag that StopHub has written back wrongly. */
  lemma NoBridgeIsMissed(s: State, evs: seq<Event>, e: EntryId, h: HubId)
    requires Init(s)
    ensures var u := Run(s, evs);
            (forall t | t in u.threads :: u.threads[t].Done?) && e in u.list
            && BelongsTo(u, e, h) && !u.hubs[h].isDynamic && !u.hubs[h].offline && !u.hubs[h].spoiled ==>
              u.entries[e].bridge.Some? && RunsOn(u, u.entries[e].bridge.value, h)
  {
    InitHasInv(s);
    RunKeepsInv(s, evs);
    hide Init, Run, SameName;
    var u := Run(s, evs);
    if (forall t | t in u.threads :: u.threads[t].Done?) && e in u.list
       && BelongsTo(u, e, h) && !u.hubs[h].isDynamic && !u.hubs[h].offline && !u.hubs[h].spoiled {
      assert MustRun(u, h);
      assert Provided(u, e, h);
      assert u.entries[e].bridge.Some?;
      BridgeIsOnItsHub(u, e, h);
    }
  }

  lemma BridgeIsOnItsHub(s: State, e: EntryId, h: HubId)
    requires HubNamesDiffer(s) && BridgesOk(s) && PlacesOk(s) && BelongsTo(s, e, h) && s.entries[e].bridge.Some?
    ensures RunsOn(s, s.entries[e].bridge.value, h)
  {
    OtherHubsBelongings(s, h);
    var g := s.bridges[s.entries[e].bridge.value].hub;
    assert BelongsTo(s, e, g);
  }

  /** A deleted entry never comes back, and its bridge never runs again. */
  lemma DeletedStaysDeleted(s: State, before: seq<Event>, after: seq<Event>, e: EntryId)
    requires Init(s)
    ensures var u, v := Run(s, before), Run(Run(s, before), after);
            e < |u.entries| && u.entries[e].freed ==>
              && e < |v.entries| && v.entries[e].freed && e !in v.list
              && forall b | 0 <= b < |v.bridges| && v.bridges[b].entry == e :: !v.bridges[b].running
  {
    InitHasInv(s);
    RunKeepsInv(s, before);
    var u := Run(s, before);
    RunKeepsInv(u, after);
    if e < |u.entries| && u.entries[e].freed {
      hide Inv;
      RunKeepsFreed(u, after, e);
    }
  }

  /** The `k`-th entry of the list is the first with that hub and device. */
  predicate FirstListed(s: State, k: nat, hubName: string, deviceName: string) {
    && k < |s.list| && s.list[k] < |s.entries| && Matches(s.entries[s.list[k]], hubName, deviceName)
    && forall j | 0 <= j < k && s.list[j] < |s.entries| :: !Matches(s.entries[s.list[j]], hubName, deviceName)
  }

  /** What a deletion does, in any run: the first entry of that hub and device is taken out of the list and
      freed, and none of its bridges runs any more; nothing else changes, and nothing at all if there is none. */
  lemma DeletionDeletes(s: State, evs: seq<Event>, t: ThreadId, hubName: string, deviceName: string)
    requires Init(s) && t in Run(s, evs).threads && Run(s, evs).threads[t] == Delete(hubName, deviceName)
    ensures var u := Run(s, evs);
            var v := Next(u, Step(t));
            && v.threads == u.threads[t := Done] && v.hubs == u.hubs
            && |v.entries| == |u.entries| && |v.bridges| == |u.bridges|
            && ((forall k: nat :: !FirstListed(u, k, hubName, deviceName)) ==>
                  v.list == u.list && v.entries == u.entries && v.bridges == u.bridges)
            && forall k: nat | FirstListed(u, k, hubName, deviceName) ::
                 var e := u.list[k];
                 && v.list == u.list[..k] + u.list[k + 1..] && e !in v.list && v.entries[e].freed && v.entries[e].bridge.None?
                 && (forall d: EntryId | d < |u.entries| && d != e :: v.entries[d] == u.entries[d])
                 && (forall b: BridgeId | b < |u.bridges| ::
                       if u.bridges[b].entry == e then !v.bridges[b].running else v.bridges[b] == u.bridges[b])
  {
    InitHasInv(s);
    RunKeepsInv(s, evs);
    DeleteStepDeletes(Run(s, evs), t, hubName, deviceName);
  }

  lemma DeleteStepDeletes(u: State, t: ThreadId, hubName: string, deviceName: string)
    requires ListOk(u) && BridgesOk(u) && t in u.threads && u.threads[t] == Delete(hubName, deviceName)
    ensures var v := Next(u, Step(t));
            && v.threads == u.threads[t := Done] && v.hubs == u.hubs
            && |v.entries| == |u.entries| && |v.bridges| == |u.bridges|
            && ((forall k: nat :: !FirstListed(u, k, hubName, deviceName)) ==>
                  v.list == u.list && v.entries == u.entries && v.bridges == u.bridges)
            && forall k: nat | FirstListed(u, k, hubName, deviceName) ::
                 var e := u.list[k];
                 && v.list == u.list[..k] + u.list[k + 1..] && e !in v.list && v.entries[e].freed && v.entries[e].bridge.None?
                 && (forall d: EntryId | d < |u.entries| && d != e :: v.entries[d] == u.entries[d])
                 && (forall b: BridgeId | b < |u.bridges| ::
                       if u.bridges[b].entry == e then !v.bridges[b].running else v.bridges[b] == u.bridges[b])
  {
    hide SameName, Matches, FindEntry, Removed, AddEntry, StartAll, StopAll, LockOnline, UnlockOnline, RestoreOffline, Harmless;
    var found := FindEntry(u, hubName, deviceName, 0);
    if found.Some? {
      var k0 := found.value;
      assert FirstListed(u, k0, hubName, deviceName);
      assert forall k: nat | FirstListed(u, k, hubName, deviceName) :: k == k0;
      RemovedDeletes(u, t, k0);
    } else {
      assert forall k: nat :: !FirstListed(u, k, hubName, deviceName);
    }
  }

  lemma RemovedDeletes(u: State, t: ThreadId, k: nat)
    requires ListOk(u) && BridgesOk(u) && k < |u.list|
    ensures var v := Removed(u, t, k);
            var e := u.list[k];
            && v.threads == u.threads[t := Done] && v.hubs == u.hubs
            && |v.entries| == |u.entries| && |v.bridges| == |u.bridges|
            && v.list == u.list[..k] + u.list[k + 1..] && e !in v.list && v.entries[e].freed && v.entries[e].bridge.None?
            && (forall d: EntryId | d < |u.entries| && d != e :: v.entries[d] == u.entries[d])
            && (forall b: BridgeId | b < |u.bridges| ::
                  if u.bridges[b].entry == e then !v.bridges[b].running else v.bridges[b] == u.bridges[b])
  {
    hide SameName, SameEntry;
    RemovedMembers(u.list, k);
  }

  predicate FirstHub(s: State, h: HubId, name: string) {
    h < |s.hubs| && SameName(s.hubs[h].name, name) && forall g | 0 <= g < h :: !SameName(s.hubs[g].name, name)
  }

  predicate HasEntry(s: State, hubName: string, deviceName: string, tapMode: bool) {
    exists k :: 0 <= k < |s.list| && s.list[k] < |s.entries| && s.entries[s.list[k]].tapMode == tapMode
                && SameName(s.entries[s.list[k]].hubName, hubName) && SameName(s.entries[s.list[k]].deviceName, deviceName)
  }

  lemma HasEntryIfExists(s: State, hubName: string, deviceName: string, tapMode: bool)
    ensures HasEntry(s, hubName, deviceName, tapMode) <==> Exists(s, hubName, deviceName, tapMode)
  {
    hide SameName;
    if Exists(s, hubName, deviceName, tapMode) {
      var e :| e in s.list && e < |s.entries| && Matches(s.entries[e], hubName, deviceName) && s.entries[e].tapMode == tapMode;
      var k :| 0 <= k < |s.list| && s.list[k] == e;
    }
    if HasEntry(s, hubName, deviceName, tapMode) {
      var k :| 0 <= k < |s.list| && s.list[k] < |s.entries| && s.entries[s.list[k]].tapMode == tapMode
               && SameName(s.entries[s.list[k]].hubName, hubName) && SameName(s.entries[s.list[k]].deviceName, deviceName);
      assert s.list[k] in s.list;
    }
  }

  /** What the first phase of an add does, in any run: nothing if a listed entry has that hub, device and tap
      mode; else a new entry is listed, and the thread goes on to start its bridge on the first hub of that
      name unless there is none or it is dynamic. */
  lemma AdditionAdds(s: State, evs: seq<Event>, t: ThreadId, hubName: string, deviceName: string, tapMode: bool)
    requires t in Run(s, evs).threads && Run(s, evs).threads[t] == Add(hubName, deviceName, tapMode)
    ensures var u := Run(s, evs);
            var v := Next(u, Step(t));
            var tap := tapMode && u.isUnix;
            var taken := HasEntry(u, hubName, deviceName, tap);
            && v.bridges == u.bridges && v.hubs == u.hubs && t in v.threads && v.threads == u.threads[t := v.threads[t]]
            && v.entries == u.entries + (if taken then [] else [Entry(hubName, deviceName, tap, None, false)])
            && v.list == u.list + (if taken then [] else [|u.entries|])
            && (forall h: HubId | FirstHub(u, h, hubName) ::
                  v.threads[t] == if taken || u.hubs[h].isDynamic then Done else Added(|u.entries|, h))
            && ((forall h: HubId :: !FirstHub(u, h, hubName)) ==> v.threads[t].Done?)
  {
    hide SameName, Run, HasEntry, Exists, Next;
    HasEntryIfExists(Run(s, evs), hubName, deviceName, tapMode && Run(s, evs).isUnix);
    AddStepAdds(Run(s, evs), t, hubName, deviceName, tapMode);
  }

  lemma AddStepAdds(u: State, t: ThreadId, hubName: string, deviceName: string, tapMode: bool)
    requires t in u.threads && u.threads[t] == Add(hubName, deviceName, tapMode)
    ensures var v := Next(u, Step(t));
            var taken := Exists(u, hubName, deviceName, tapMode && u.isUnix);
            && v.bridges == u.bridges && v.hubs == u.hubs && t in v.threads && v.threads == u.threads[t := v.threads[t]]
            && v.entries == u.entries + (if taken then [] else [Entry(hubName, deviceName, tapMode && u.isUnix, None, false)])
            && v.list == u.list + (if taken then [] else [|u.entries|])
            && (forall h: HubId | FirstHub(u, h, hubName) ::
                  v.threads[t] == if taken || u.hubs[h].isDynamic then Done else Added(|u.entries|, h))
            && ((forall h: HubId :: !FirstHub(u, h, hubName)) ==> v.threads[t].Done?)
  {
    hide SameName, Exists, StartAll, StopAll, LockOnline, UnlockOnline, RestoreOffline, Harmless, Removed;
    var found := FindHub(u.hubs, hubName, 0);
    hide FindHub;
    if found.Some? {
      assert FirstHub(u, found.value, hubName);
      assert forall h: HubId | FirstHub(u, h, hubName) :: h == found.value;
    }
  }

  lemma {:induction false} RunKeepsFreed(s: State, evs: seq<Event>, e: EntryId)
    requires Inv(s) && e < |s.entries| && s.entries[e].freed
    ensures var u := Run(s, evs); e < |u.entries| && u.entries[e].freed
    decreases |evs|
  {
    hide Inv, Next;
    if evs != [] {
      NextKeepsInv(s, evs[0]);
      NextKeepsFreed(s, evs[0], e);
      RunKeepsFreed(Next(s, evs[0]), evs[1..], e);
    }
  }

  lemma NextKeepsFreed(s: State, ev: Event, e: EntryId)
    requires Inv(s) && e < |s.entries| && s.entries[e].freed
    ensures var u := Next(s, ev); e < |u.entries| && u.entries[e].freed
  {
    hide Inv;
    if ev.Step? && ev.thread in s.threads {
      var c := s.threads[ev.thread];
      if c.OnlineLocked? || c.OfflineLocked? {
        LoopsKeepFreed(s, ev.thread, e);
      } else if c.Add? || c.Delete? || c.StartLocked? {
        EntryStepKeepsFreed(s, ev.thread, e);
      } else {
        hide AddEntry, DeleteEntry, StartBridge, StartAll, StopAll, Harmless;
      }
    }
  }

  lemma EntryStepKeepsFreed(s: State, t: ThreadId, e: EntryId)
    requires e < |s.entries| && s.entries[e].freed && t in s.threads
    requires var c := s.threads[t]; c.Add? || c.Delete? || c.StartLocked?
    ensures var u := StepThread(s, t); e < |u.entries| && u.entries[e].freed
  {
    hide SameName, Exists, FindHub, FindEntry, StartAll, StopAll, LockOnline, UnlockOnline, RestoreOffline;
  }

  lemma LoopsKeepFreed(s: State, t: ThreadId, e: EntryId)
    requires Inv(s) && e < |s.entries| && s.entries[e].freed && t in s.threads
    requires s.threads[t].OnlineLocked? || s.threads[t].OfflineLocked?
    ensures var u := StepThread(s, t); e < |u.entries| && u.entries[e].freed
  {
    hide SameName, ListOk, BridgesOk, PlacesOk, OfflineOk, NothingMissed, ThreadsOk, HubNamesDiffer;
    var c := s.threads[t];
    HeldHubExists(s, t, c.hub);
    hide LocksOk;
    if c.OfflineLocked? {
      StopAllStops(s, c.hub, |s.list|);
    } else if !s.hubs[c.hub].isDynamic {
      StartAllStarts(s, c.hub, |s.list|);
    }
    hide StartAll, StopAll, AddEntry, DeleteEntry, StartBridge, LockOnline, UnlockOnline, RestoreOffline;
  }

  lemma {:induction false} RunAppends(s: State, xs: seq<Event>, ys: seq<Event>)
    ensures Run(s, xs + ys) == Run(Run(s, xs), ys)
    decreases |xs|
  {
    hide Next;
    if xs == [] {
      assert xs + ys == ys;
    } else {
      assert (xs + ys)[1..] == xs[1..] + ys;
      RunAppends(Next(s, xs[0]), xs[1..], ys);
    }
  }

  lemma RunThen(s: State, evs: seq<Event>, ev: Event)
    ensures Run(s, evs + [ev]) == Next(Run(s, evs), ev)
  {
    hide Next;
    RunAppends(s, evs, [ev]);
    assert [ev][1..] == [];
    assert Run(Run(s, evs), [ev]) == Run(Next(Run(s, evs), ev), []);
  }
}
