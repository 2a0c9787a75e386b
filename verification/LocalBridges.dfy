/** The local bridge table as code on its list, step by step as the protocol says. */
module LocalBridges {
  import opened Text
  import opened BridgeProtocol
  import opened BridgeTheorems

  class LocalBridge {
    ghost const id: EntryId
    const hubName: string
    const deviceName: string
    const tapMode: bool
    var bridge: Option<BridgeId>

    constructor (ghost id: EntryId, hubName: string, deviceName: string, tapMode: bool)
      ensures this.id == id && this.hubName == hubName && this.deviceName == deviceName && this.tapMode == tapMode
      ensures bridge == None
    {
      this.id, this.hubName, this.deviceName, this.tapMode, this.bridge := id, hubName, deviceName, tapMode, None;
    }

    ghost function AsEntry(freed: bool): Entry
      reads this`bridge
    {
      Entry(hubName, deviceName, tapMode, bridge, freed)
    }
  }

  /** A bridge points to the entry that it was started for. */
  datatype BridgeOf = BridgeOf(parent: LocalBridge, hub: HubId, running: bool)

  class BridgeTable {
    const isUnix: bool
    var list: seq<LocalBridge>
    /** Every bridge that was ever started. */
    var bridges: seq<BridgeOf>
    /** Every entry that was ever made. */
    ghost var made: seq<LocalBridge>

    ghost predicate Valid()
      reads this, made
    {
      && (forall i | 0 <= i < |made| :: made[i].id == i)
      && (forall br <- list :: br.id < |made| && made[br.id] == br)
      && (forall i, j | 0 <= i < j < |list| :: list[i] != list[j])
      && (forall br <- made :: br.bridge.Some? ==> br.bridge.value < |bridges|)
    }

    /** The protocol's state, with the given hubs and threads. An entry has been freed if it is not listed. */
    ghost function Abstract(hubs: seq<Hub>, threads: map<ThreadId, Thread>): State
      reads this, made
    {
      State(isUnix, Entries(), Ids(list), Bridges(bridges), hubs, threads)
    }

    ghost function Entries(): seq<Entry>
      reads this, made
    {
      seq(|made|, i requires 0 <= i < |made| reads this, made => made[i].AsEntry(made[i] !in list))
    }

    constructor (isUnix: bool)
      ensures Valid() && forall hubs :: Abstract(hubs, map[]) == State(isUnix, [], [], [], hubs, map[])
    {
      this.isUnix, list, bridges, made := isUnix, [], [], [];
    }

    /** True exactly if some entry has that hub and device. The first one is then taken out, and the bridge it
        had has stopped; all other entries and bridges stay, as everything does if there is none. */
    method DeleteLocalBridge(hub: string, device: string, ghost hubs: seq<Hub>, ghost threads: map<ThreadId, Thread>, ghost t: ThreadId)
      returns (ret: bool)
      requires Valid() && t in threads && threads[t] == Delete(hub, device)
      modifies `list, `bridges, list
      ensures Valid()
      ensures Abstract(hubs, threads[t := Done]) == StepThread(old(Abstract(hubs, threads)), t)
      ensures ret <==> exists br <- old(list) :: SameName(br.hubName, hub) && SameName(br.deviceName, device)
      ensures !ret ==> list == old(list) && bridges == old(bridges) && forall br <- list :: br.bridge == old(br.bridge)
      ensures ret ==> exists k: nat :: FirstMatch(old(list), k, hub, device)
      ensures forall k: nat | FirstMatch(old(list), k, hub, device) ::
                && list == old(list)[..k] + old(list)[k + 1..] && old(list)[k].bridge == None
                && |bridges| == |old(bridges)|
                && (forall b | 0 <= b < |bridges| ::
                      bridges[b] == if old(list[k].bridge) == Some(b) then old(bridges)[b].(running := false) else old(bridges)[b])
                && (forall br <- old(list) | br != old(list)[k] :: br.bridge == old(br.bridge))
    {
      hide SameName, FindEntry, Removed, AddEntry, StartAll, StopAll, LockOnline, UnlockOnline, RestoreOffline, FirstMatch, Valid, Matches;
      ghost var s := Abstract(hubs, threads);
      ret := false;
      for i := 0 to |list|
        invariant list == old(list) && bridges == old(bridges) && !ret && Valid() && forall br <- list :: br.bridge == old(br.bridge)
        invariant Abstract(hubs, threads) == s
        invariant forall j | 0 <= j < i :: !(SameName(list[j].hubName, hub) && SameName(list[j].deviceName, device))
      {
        var br := list[i];
        if SameName(br.hubName, hub) {
          if SameName(br.deviceName, device) {
            FirstIsFound(s, hub, device, i);
            RemoveEntry(i, hubs, threads, t);
            ret := true;
            assert FirstMatch(old(list), i, hub, device);
            return;
          }
        }
      }
      NoneIsFound(s, hub, device);
      assert Abstract(hubs, threads[t := Done]) == s.(threads := threads[t := Done]);
    }

    lemma FirstIsFound(s: State, hub: string, device: string, i: nat)
      requires Valid() && s.entries == Entries() && s.list == Ids(list)
      requires i < |list| && SameName(list[i].hubName, hub) && SameName(list[i].deviceName, device)
      requires forall j | 0 <= j < i :: !(SameName(list[j].hubName, hub) && SameName(list[j].deviceName, device))
      ensures FindEntry(s, hub, device, 0) == Some(i)
      ensures forall k: nat :: FirstMatch(list, k, hub, device) <==> k == i
    {
      hide SameName;
      ListedEntries(s);
      assert Matches(s.entries[s.list[i]], hub, device);
      hide FindEntry;
    }

    lemma NoneIsFound(s: State, hub: string, device: string)
      requires Valid() && s.entries == Entries() && s.list == Ids(list)
      requires forall j | 0 <= j < |list| :: !(SameName(list[j].hubName, hub) && SameName(list[j].deviceName, device))
      ensures FindEntry(s, hub, device, 0) == None
      ensures forall k: nat :: !FirstMatch(list, k, hub, device)
    {
      hide SameName, FindEntry;
      ListedEntries(s);
    }

    lemma ListedEntries(s: State)
      requires Valid() && s.entries == Entries() && s.list == Ids(list)
      ensures forall j | 0 <= j < |list| :: s.list[j] < |s.entries| && s.entries[s.list[j]] == list[j].AsEntry(false)
    {
    }

    method RemoveEntry(k: nat, ghost hubs: seq<Hub>, ghost threads: map<ThreadId, Thread>, ghost t: ThreadId)
      requires Valid() && k < |list|
      modifies `list, `bridges, list[k]
      ensures Valid()
      ensures Abstract(hubs, threads[t := Done]) == Removed(old(Abstract(hubs, threads)), t, k)
      ensures list == old(list)[..k] + old(list)[k + 1..] && old(list)[k].bridge == None && |bridges| == |old(bridges)|
      ensures forall b | 0 <= b < |bridges| ::
                bridges[b] == if old(list[k].bridge) == Some(b) then old(bridges)[b].(running := false) else old(bridges)[b]
    {
      var br := list[k];
      ghost var s := Abstract(hubs, threads);
      FreeBridge(br, hubs, threads);
      list := list[..k] + list[k + 1..];
      RemovedMembers(old(list), k);
      assert Ids(list) == s.list[..k] + s.list[k + 1..];
      assert Entries() == Removed(s, t, k).entries;
    }

    /** The entry's bridge, if it has one, is stopped. */
    method FreeBridge(br: LocalBridge, ghost hubs: seq<Hub>, ghost threads: map<ThreadId, Thread>)
      requires Valid() && br in list
      modifies `bridges, br
      ensures Valid() && Abstract(hubs, threads) == StopBridge(old(Abstract(hubs, threads)), br.id)
      ensures br.bridge == None && |bridges| == |old(bridges)|
      ensures forall b | 0 <= b < |bridges| ::
                bridges[b] == if old(br.bridge) == Some(b) then old(bridges)[b].(running := false) else old(bridges)[b]
    {
      ghost var s := Abstract(hubs, threads);
      assert s.entries[br.id] == br.AsEntry(false);
      if br.bridge.Some? {
        bridges := bridges[br.bridge.value := bridges[br.bridge.value].(running := false)];
        br.bridge := None;
        assert Bridges(bridges) == StopBridge(s, br.id).bridges;
        assert Entries() == StopBridge(s, br.id).entries;
      }
    }

    /** The entry gets a bridge on the hub unless it has one. */
    method NewBridge(br: LocalBridge, h: HubId, ghost hubs: seq<Hub>, ghost threads: map<ThreadId, Thread>)
      requires Valid() && br in list
      modifies `bridges, br
      ensures Valid() && Abstract(hubs, threads) == StartBridge(old(Abstract(hubs, threads)), br.id, h)
      ensures br.bridge == if old(br.bridge) == None then Some(|old(bridges)|) else old(br.bridge)
      ensures bridges == old(bridges) + if old(br.bridge) == None then [BridgeOf(br, h, true)] else []
    {
      ghost var s := Abstract(hubs, threads);
      ListedIds(br);
      assert s.entries[br.id] == br.AsEntry(false);
      if br.bridge == None {
        br.bridge := Some(|bridges|);
        bridges := bridges + [BridgeOf(br, h, true)];
        assert Bridges(bridges) == s.bridges + [Bridge(br.id, h, true)];
        assert Entries() == s.entries[br.id := s.entries[br.id].(bridge := Some(|s.bridges|))];
      }
    }

    /** SetHubOnline under the hub's online lock. */
    method StartBridgesOf(h: HubId, hubs: seq<Hub>, ghost threads: map<ThreadId, Thread>, ghost t: ThreadId) returns (switched: bool)
      requires Valid() && h < |hubs| && t in threads && threads[t] == OnlineLocked(h)
      modifies `bridges, list
      ensures Valid() && switched == hubs[h].offline
      ensures var next := if switched then OnlineStarted(h) else Unlocking(h, None);
              Abstract(hubs, threads[t := next]) == StepThread(old(Abstract(hubs, threads)), t)
    {
      hide StartBridge, StopBridge, SameName, AddEntry, DeleteEntry, LockOnline, UnlockOnline, RestoreOffline;
      ghost var s := Abstract(hubs, threads);
      switched := hubs[h].offline;
      if switched && !hubs[h].isDynamic {
        for i := 0 to |list|
          invariant list == old(list) && made == old(made) && Valid()
          invariant Abstract(hubs, threads) == StartAll(s, h, i)
        {
          assert BelongsTo(s, s.list[i], h) <==> SameName(list[i].hubName, hubs[h].name);
          if SameName(list[i].hubName, hubs[h].name) {
            NewBridge(list[i], h, hubs, threads);
          }
        }
      }
    }

    /** SetHubOffline under the hub's online lock. */
    method StopBridgesOf(h: HubId, hubs: seq<Hub>, ghost saved: Option<bool>, ghost threads: map<ThreadId, Thread>, ghost t: ThreadId)
      returns (switched: bool)
      requires Valid() && h < |hubs| && t in threads && threads[t] == OfflineLocked(h, saved)
      modifies `bridges, list
      ensures Valid() && (switched <==> !hubs[h].offline && !hubs[h].halt)
      ensures var next := if switched then OfflineStopped(h, saved) else Unlocking(h, saved);
              Abstract(hubs, threads[t := next]) == StepThread(old(Abstract(hubs, threads)), t)
    {
      hide StartBridge, StopBridge, SameName, AddEntry, DeleteEntry, LockOnline, UnlockOnline, RestoreOffline;
      ghost var s := Abstract(hubs, threads);
      switched := !(hubs[h].offline || hubs[h].halt);
      if switched {
        for i := 0 to |list|
          invariant list == old(list) && made == old(made) && Valid()
          invariant Abstract(hubs, threads) == StopAll(s, h, i)
        {
          assert BelongsTo(s, s.list[i], h) <==> SameName(list[i].hubName, hubs[h].name);
          if SameName(list[i].hubName, hubs[h].name) {
            FreeBridge(list[i], hubs, threads);
          }
        }
      }
    }

    /** The first phase of AddLocalBridge: an entry of that configuration is added unless there is one,
        and the hub is looked up that its bridge will run on. */
    method AddLocalBridgeEntry(hub: string, device: string, tapMode: bool, hubs: seq<Hub>, ghost threads: map<ThreadId, Thread>, ghost t: ThreadId)
      returns (br: LocalBridge?, h: Option<HubId>)
      requires Valid() && t in threads && threads[t] == Add(hub, device, tapMode)
      modifies `list, `made
      ensures Valid() && (br == null ==> list == old(list) && h == None)
      ensures br == null <==> exists b <- old(list) ::
                SameName(b.hubName, hub) && SameName(b.deviceName, device) && b.tapMode == (tapMode && isUnix)
      ensures br != null ==> fresh(br) && list == old(list) + [br] && br.hubName == hub && br.deviceName == device
                             && br.tapMode == (tapMode && isUnix) && br.bridge == None
      ensures h.Some? ==> h.value < |hubs| && SameName(hubs[h.value].name, hub)
      ensures br != null && h.None? ==> forall g <- hubs :: !SameName(g.name, hub)
      ensures var next := if br != null && h.Some? && h.value < |hubs| && !hubs[h.value].isDynamic then Added(br.id, h.value) else Done;
              Abstract(hubs, threads[t := next]) == StepThread(old(Abstract(hubs, threads)), t)
    {
      ghost var s := Abstract(hubs, threads);
      var tap := tapMode && isUnix;
      var found := false;
      br, h := null, None;
      for i := 0 to |list|
        invariant found <==> exists j | 0 <= j < i :: list[j].tapMode == tap && SameName(list[j].hubName, hub) && SameName(list[j].deviceName, device)
      {
        if SameName(list[i].deviceName, device) {
          if SameName(list[i].hubName, hub) {
            if list[i].tapMode == tap {
              found := true;
            }
          }
        }
      }
      ExistsInList(s, hub, device, tap);
      if found {
        return;
      }
      br := new LocalBridge(|made|, hub, device, tap);
      made := made + [br];
      list := list + [br];
      assert Ids(list) == s.list + [|s.entries|];
      assert Entries() == s.entries + [Entry(hub, device, tap, None, false)];
      h := FindHub(hubs, hub, 0);
    }

    /** What the loop over the list finds is what the protocol asks. */
    lemma ExistsInList(s: State, hub: string, device: string, tap: bool)
      requires Valid() && s.entries == Entries() && s.list == Ids(list)
      ensures Exists(s, hub, device, tap) <==>
              exists j | 0 <= j < |list| :: list[j].tapMode == tap && SameName(list[j].hubName, hub) && SameName(list[j].deviceName, device)
    {
      hide SameName;
      assert forall j | 0 <= j < |list| :: s.list[j] == list[j].id && s.entries[list[j].id] == list[j].AsEntry(false);
      if j :| 0 <= j < |list| && list[j].tapMode == tap && SameName(list[j].hubName, hub) && SameName(list[j].deviceName, device) {
        assert s.list[j] in s.list;
      }
    }

    /** The second phase, with the hub's online lock held: the entry may be gone by now, or have a bridge. */
    method StartLocalBridge(br: LocalBridge, h: HubId, offline: bool, ghost hubs: seq<Hub>, ghost threads: map<ThreadId, Thread>, ghost t: ThreadId)
      requires Valid() && br in made && t in threads && threads[t] == StartLocked(br.id, h)
      requires h < |hubs| && hubs[h].offline == offline
      modifies `bridges, br
      ensures Valid()
      ensures Abstract(hubs, threads[t := Unlocking(h, None)]) == StepThread(old(Abstract(hubs, threads)), t)
      ensures var starts := !offline && br in list && old(br.bridge) == None;
              && br.bridge == (if starts then Some(|old(bridges)|) else old(br.bridge))
              && bridges == old(bridges) + if starts then [BridgeOf(br, h, true)] else []
    {
      ListedIds(br);
      if !offline {
        if br in list {
          NewBridge(br, h, hubs, threads);
        }
      }
    }

    lemma ListedIds(br: LocalBridge)
      requires Valid() && br in made
      ensures br in list <==> br.id in Ids(list)
    {
      if br in list {
        var j :| 0 <= j < |list| && list[j] == br;
        assert Ids(list)[j] == br.id;
      }
      if br.id in Ids(list) {
        var j :| 0 <= j < |list| && Ids(list)[j] == br.id;
        assert list[j] in list;
      }
    }
  }

  ghost predicate FirstMatch(list: seq<LocalBridge>, k: nat, hub: string, device: string) {
    && k < |list| && SameName(list[k].hubName, hub) && SameName(list[k].deviceName, device)
    && forall j | 0 <= j < k :: !(SameName(list[j].hubName, hub) && SameName(list[j].deviceName, device))
  }

  ghost function Bridges(bridges: seq<BridgeOf>): seq<Bridge> {
    seq(|bridges|, i requires 0 <= i < |bridges| => Bridge(bridges[i].parent.id, bridges[i].hub, bridges[i].running))
  }

  ghost function Ids(list: seq<LocalBridge>): seq<EntryId> {
    seq(|list|, i requires 0 <= i < |list| => list[i].id)
  }

  // ---- What deleting without regard to the tap mode means ----

  predicate InBothModes(s: State, hub: string, device: string) {
    && (exists e <- s.list :: e < |s.entries| && Matches(s.entries[e], hub, device) && s.entries[e].tapMode)
    && (exists e <- s.list :: e < |s.entries| && Matches(s.entries[e], hub, device) && !s.entries[e].tapMode)
  }

  /** One deletion clears a hub and device exactly if it does not have an entry in each tap mode. */
  lemma OneDeleteIsEnough(s: State, hub: string, device: string, k: nat)
    requires ListOk(s) && FindEntry(s, hub, device, 0) == Some(k)
    ensures (forall e <- s.list[..k] + s.list[k + 1..] :: !Matches(s.entries[e], hub, device)) <==> !InBothModes(s, hub, device)
  {
    var rest := s.list[..k] + s.list[k + 1..];
    var first := s.list[k];
    RemovedMembers(s.list, k);
    assert first in s.list;
    forall e <- rest | Matches(s.entries[e], hub, device) ensures s.entries[e].tapMode != s.entries[first].tapMode {
      assert !SameEntry(s, e, first);
    }
    hide SameName;
  }

  /** A hub and device can have one in each. */
  lemma BothModesHappen(hub: string, device: string) returns (s: State, events: seq<Event>)
    ensures Init(s) && InBothModes(Run(s, events), hub, device)
  {
    s := State(true, [], [], [], [], map[]);
    var tapped, plain := Entry(hub, device, true, None, false), Entry(hub, device, false, None, false);
    var first := State(true, [tapped], [0], [], [], map[0 := Done]);
    var last := State(true, [tapped, plain], [0, 1], [], [], map[0 := Done, 1 := Done]);
    NoneOfOtherMode(hub, device);
    BothModesListed(hub, device);
    assert Init(s) by { hide SameName; }
    hide Exists, InBothModes, SameName, Init;
    events := AddOne(s, [], s, 0, hub, device, true);
    hide Run;
    assert Run(s, events) == first;
    events := AddOne(s, events, first, 1, hub, device, false);
    assert Run(s, events) == last;
  }

  lemma NoneOfOtherMode(hub: string, device: string)
    ensures !Exists(State(true, [], [], [], [], map[]), hub, device, true)
    ensures !Exists(State(true, [Entry(hub, device, true, None, false)], [0], [], [], map[0 := Done]), hub, device, false)
  {
    hide SameName;
  }

  lemma BothModesListed(hub: string, device: string)
    ensures var entries := [Entry(hub, device, true, None, false), Entry(hub, device, false, None, false)];
            InBothModes(State(true, entries, [0, 1], [], [], map[0 := Done, 1 := Done]), hub, device)
  {
    var entries := [Entry(hub, device, true, None, false), Entry(hub, device, false, None, false)];
    var s := State(true, entries, [0, 1], [], [], map[0 := Done, 1 := Done]);
    assert SameName(hub, hub) && SameName(device, device);
    hide SameName;
    assert s.list[0] in s.list && s.list[1] in s.list;
  }

  /** Without hubs an add has only its first phase. */
  lemma AddOne(s: State, before: seq<Event>, u: State, t: ThreadId, hub: string, device: string, tapMode: bool) returns (events: seq<Event>)
    requires u == Run(s, before) && t !in u.threads && u.hubs == [] && u.isUnix && !Exists(u, hub, device, tapMode)
    ensures Run(s, events) ==
            u.(entries := u.entries + [Entry(hub, device, tapMode, None, false)], list := u.list + [|u.entries|], threads := u.threads[t := Done])
  {
    hide SameName, Run, Exists;
    var call := Add(hub, device, tapMode);
    events := before + [Spawn(t, call)] + [Step(t)];
    RunThen(s, before, Spawn(t, call));
    RunThen(s, before + [Spawn(t, call)], Step(t));
    var v := Goto(u, t, call);
    assert Next(u, Spawn(t, call)) == v;
    assert Exists(v, hub, device, tapMode) <==> Exists(u, hub, device, tapMode) by { SameTableSameAnswer(u, v, hub, device, tapMode); }
    assert FindHub([], hub, 0) == None;
    assert v.threads[t := Done] == u.threads[t := Done];
  }

  lemma SameTableSameAnswer(s: State, u: State, hub: string, device: string, tapMode: bool)
    requires u.entries == s.entries && u.list == s.list
    ensures Exists(u, hub, device, tapMode) <==> Exists(s, hub, device, tapMode)
  {
    hide SameName;
  }
}
