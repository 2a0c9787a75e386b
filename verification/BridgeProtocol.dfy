/**
 The local bridge table under concurrency.

 Any number of threads add and delete local bridges and switch virtual hubs on and off line. A
 bridge is added in two phases: the entry under the list locks, the running bridge later under the
 hub's online lock. Each critical section is one atomic step; so is each access to `Offline` and
 `Halt` that StopHub makes without the lock. Under the lock a step reads `Offline` and acts on it: a
 write by StopHub between the two is the same as one after both, because nothing else looks at the
 flag before the lock is free. Entries, bridges and hubs have fresh identities that are never reused.
 */
module BridgeProtocol {
  import opened Text

  type EntryId = nat
  type BridgeId = nat
  type HubId = nat
  type ThreadId = nat

  datatype Entry = Entry(hubName: string, deviceName: string, tapMode: bool, bridge: Option<BridgeId>, freed: bool)

  datatype Bridge = Bridge(entry: EntryId, hub: HubId, running: bool)

  /** `holder` is the thread that holds the hub's online lock. `spoiled` is history: a StopHub has written
      back a value of `offline` that the bridges contradict. */
  datatype Hub = Hub(name: string, isDynamic: bool, offline: bool, halt: bool, holder: Option<ThreadId>, spoiled: bool)

  /** How far a thread has come in the one call it makes. StopHub saves `offline`, then switches the hub off
      line as SetHubOffline does, which has nothing `saved`. */
  datatype Thread =
    | Add(hubName: string, deviceName: string, tapMode: bool)
    | Added(entry: EntryId, hub: HubId) | StartLocked(entry: EntryId, hub: HubId)
    | Delete(hubName: string, deviceName: string)
    | Online(hub: HubId) | OnlineLocked(hub: HubId) | OnlineStarted(hub: HubId)
    | Stop(hub: HubId)
    | Offline(hub: HubId, saved: Option<bool>) | OfflineLocked(hub: HubId, saved: Option<bool>)
    | OfflineStopped(hub: HubId, saved: Option<bool>) | Unlocking(hub: HubId, saved: Option<bool>)
    | SetHalt(hub: HubId, was: bool) | Restore(hub: HubId, was: bool)
    | Done

  datatype State = State(
    isUnix: bool, entries: seq<Entry>, list: seq<EntryId>, bridges: seq<Bridge>, hubs: seq<Hub>,
    threads: map<ThreadId, Thread>)

  datatype Event = Spawn(newThread: ThreadId, call: Thread) | Step(thread: ThreadId)

  // ---- The critical sections ----

  predicate Matches(e: Entry, hubName: string, deviceName: string) {
    SameName(e.hubName, hubName) && SameName(e.deviceName, deviceName)
  }

  predicate Exists(s: State, hubName: string, deviceName: string, tapMode: bool) {
    exists id <- s.list :: id < |s.entries| && Matches(s.entries[id], hubName, deviceName) && s.entries[id].tapMode == tapMode
  }

  /** The first hub of that name. */
  function FindHub(hubs: seq<Hub>, name: string, from: nat): (h: Option<HubId>)
    ensures h.Some? ==> from <= h.value < |hubs| && SameName(hubs[h.value].name, name)
    ensures forall k | from <= k < (if h.None? then |hubs| else h.value) :: !SameName(hubs[k].name, name)
    decreases |hubs| - from
  {
    if from >= |hubs| then None
    else if SameName(hubs[from].name, name) then Some(from)
    else FindHub(hubs, name, from + 1)
  }

  /** The position in the list of the first entry of that hub and device, whatever its tap mode. */
  function FindEntry(s: State, hubName: string, deviceName: string, from: nat): (k: Option<nat>)
    ensures k.Some? ==> from <= k.value < |s.list| && s.list[k.value] < |s.entries| && Matches(s.entries[s.list[k.value]], hubName, deviceName)
    ensures forall j | from <= j < (if k.None? then |s.list| else k.value) && s.list[j] < |s.entries| ::
              !Matches(s.entries[s.list[j]], hubName, deviceName)
    decreases |s.list| - from
  {
    if from >= |s.list| then None
    else if s.list[from] < |s.entries| && Matches(s.entries[s.list[from]], hubName, deviceName) then Some(from)
    else FindEntry(s, hubName, deviceName, from + 1)
  }

  /** Makes a bridge for an entry that has none. */
  function StartBridge(s: State, e: EntryId, h: HubId): State {
    if e in s.list && e < |s.entries| && s.entries[e].bridge.None? then
      s.(entries := s.entries[e := s.entries[e].(bridge := Some(|s.bridges|))], bridges := s.bridges + [Bridge(e, h, true)])
    else s
  }

  function StopBridge(s: State, e: EntryId): State {
    if e < |s.entries| && s.entries[e].bridge.Some? && s.entries[e].bridge.value < |s.bridges| then
      var b := s.entries[e].bridge.value;
      s.(entries := s.entries[e := s.entries[e].(bridge := None)], bridges := s.bridges[b := s.bridges[b].(running := false)])
    else s
  }

  predicate BelongsTo(s: State, e: EntryId, h: HubId) {
    e < |s.entries| && h < |s.hubs| && SameName(s.entries[e].hubName, s.hubs[h].name)
  }

  /** Starts the bridges of the first `k` entries of the list that belong to the hub. */
  function StartAll(s: State, h: HubId, k: nat): State
    requires k <= |s.list|
  {
    if k == 0 then s
    else
      var t := StartAll(s, h, k - 1);
      if BelongsTo(s, s.list[k - 1], h) then StartBridge(t, s.list[k - 1], h) else t
  }

  function StopAll(s: State, h: HubId, k: nat): State
    requires k <= |s.list|
  {
    if k == 0 then s
    else
      var t := StopAll(s, h, k - 1);
      if BelongsTo(s, s.list[k - 1], h) then StopBridge(t, s.list[k - 1]) else t
  }

  // ---- The steps ----

  function Goto(s: State, t: ThreadId, to: Thread): State { s.(threads := s.threads[t := to]) }

  /** The first phase of adding: the entry, and the hub it will run on. */
  function AddEntry(s: State, t: ThreadId, hubName: string, deviceName: string, tapMode: bool): State {
    var tap := tapMode && s.isUnix;
    if Exists(s, hubName, deviceName, tap) then Goto(s, t, Done)
    else
      var e := |s.entries|;
      var s1 := s.(entries := s.entries + [Entry(hubName, deviceName, tap, None, false)], list := s.list + [e]);
      match FindHub(s.hubs, hubName, 0)
      case Some(h) => Goto(s1, t, if s.hubs[h].isDynamic then Done else Added(e, h))
      case None => Goto(s1, t, Done)
  }

  function DeleteEntry(s: State, t: ThreadId, hubName: string, deviceName: string): State {
    match FindEntry(s, hubName, deviceName, 0)
    case None => Goto(s, t, Done)
    case Some(k) => Removed(s, t, k)
  }

  /** The `k`-th entry of the list is stopped, taken out and freed. */
  function Removed(s: State, t: ThreadId, k: nat): State
    requires k < |s.list| && s.list[k] < |s.entries|
  {
    var e := s.list[k];
    var s1 := StopBridge(s, e);
    Goto(s1.(list := s.list[..k] + s.list[k + 1..], entries := s1.entries[e := s1.entries[e].(freed := true)]), t, Done)
  }

  /** A blocked thread does not move. */
  function LockOnline(s: State, t: ThreadId, h: HubId, to: Thread): State {
    if h < |s.hubs| && s.hubs[h].holder.None? then
      Goto(s.(hubs := s.hubs[h := s.hubs[h].(holder := Some(t))]), t, to)
    else s
  }

  function UnlockOnline(s: State, t: ThreadId, h: HubId, offline: bool, to: Thread): State {
    if h < |s.hubs| then Goto(s.(hubs := s.hubs[h := s.hubs[h].(holder := None, offline := offline)]), t, to)
    else s
  }

  /** What follows the switch to off line: nothing, or the rest of StopHub. */
  function AfterOffline(h: HubId, saved: Option<bool>): Thread {
    match saved
    case None => Done
    case Some(was) => SetHalt(h, was)
  }

  /** StopHub's last step: what it saved is written back, without the lock. */
  function RestoreOffline(s: State, t: ThreadId, h: HubId, was: bool): State {
    if h < |s.hubs| then
      Goto(s.(hubs := s.hubs[h := s.hubs[h].(offline := was, spoiled := s.hubs[h].spoiled || !Harmless(s, h, was))]), t, Done)
    else s
  }

  function StepThread(s: State, t: ThreadId): State
    requires t in s.threads
  {
    match s.threads[t]
    case Add(hubName, deviceName, tapMode) => AddEntry(s, t, hubName, deviceName, tapMode)
    case Added(e, h) => LockOnline(s, t, h, StartLocked(e, h))
    case StartLocked(e, h) =>
      Goto(if h < |s.hubs| && !s.hubs[h].offline then StartBridge(s, e, h) else s, t, Unlocking(h, None))
    case Delete(hubName, deviceName) => DeleteEntry(s, t, hubName, deviceName)
    case Online(h) => LockOnline(s, t, h, OnlineLocked(h))
    case OnlineLocked(h) =>
      if h < |s.hubs| && !s.hubs[h].offline then Goto(s, t, Unlocking(h, None))
      else Goto(if h < |s.hubs| && s.hubs[h].isDynamic then s else StartAll(s, h, |s.list|), t, OnlineStarted(h))
    case OnlineStarted(h) => UnlockOnline(s, t, h, false, Done)
    case Stop(h) => if h < |s.hubs| then Goto(s, t, Offline(h, Some(s.hubs[h].offline))) else s
    case Offline(h, saved) => LockOnline(s, t, h, OfflineLocked(h, saved))
    case OfflineLocked(h, saved) =>
      if h < |s.hubs| && (s.hubs[h].offline || s.hubs[h].halt) then Goto(s, t, Unlocking(h, saved))
      else Goto(StopAll(s, h, |s.list|), t, OfflineStopped(h, saved))
    case OfflineStopped(h, saved) => UnlockOnline(s, t, h, true, AfterOffline(h, saved))
    case Unlocking(h, saved) => if h < |s.hubs| then UnlockOnline(s, t, h, s.hubs[h].offline, AfterOffline(h, saved)) else s
    case SetHalt(h, was) => if h < |s.hubs| then Goto(s.(hubs := s.hubs[h := s.hubs[h].(halt := true)]), t, Restore(h, was)) else s
    case Restore(h, was) => RestoreOffline(s, t, h, was)
    case Done => s
  }

  /** The calls a thread may make. */
  predicate IsCall(s: State, c: Thread) {
    c.Add? || c.Delete? || ((c.Online? || c.Stop? || (c.Offline? && c.saved.None?)) && c.hub < |s.hubs|)
  }

  function Next(s: State, ev: Event): State {
    match ev
    case Spawn(t, c) => if t !in s.threads && IsCall(s, c) then Goto(s, t, c) else s
    case Step(t) => if t in s.threads then StepThread(s, t) else s
  }

  function Run(s: State, evs: seq<Event>): State
    decreases |evs|
  {
    if evs == [] then s else Run(Next(s, evs[0]), evs[1..])
  }

  /** No entries and no threads yet; hubs of different names, each on or off line. */
  predicate Init(s: State) {
    && s.entries == [] && s.list == [] && s.bridges == [] && s.threads == map[]
    && (forall h | 0 <= h < |s.hubs| :: s.hubs[h].holder.None? && !s.hubs[h].spoiled)
    && HubNamesDiffer(s)
  }

  predicate HubNamesDiffer(s: State) {
    forall h, g | 0 <= h < g < |s.hubs| :: !SameName(s.hubs[h].name, s.hubs[g].name)
  }

  // ---- The invariant ----

  /** Listed entries exist, are not freed, stand in the list once, and differ in hub, device or tap mode. */
  predicate ListOk(s: State) {
    && (forall k | 0 <= k < |s.list| :: s.list[k] < |s.entries| && !s.entries[s.list[k]].freed)
    && (forall j, k | 0 <= j < k < |s.list| :: s.list[j] != s.list[k])
    && (forall d, e {:trigger SameEntry(s, d, e)} | d in s.list && e in s.list && d != e :: !SameEntry(s, d, e))
    && (forall e | 0 <= e < |s.entries| && !s.entries[e].freed :: e in s.list)
  }

  predicate SameEntry(s: State, d: EntryId, e: EntryId) {
    && d < |s.entries| && e < |s.entries|
    && Matches(s.entries[d], s.entries[e].hubName, s.entries[e].deviceName)
    && s.entries[d].tapMode == s.entries[e].tapMode
  }

  /** A bridge runs if and only if an entry of the list says that it is its bridge. */
  predicate BridgesOk(s: State) {
    && (forall e | 0 <= e < |s.entries| && s.entries[e].bridge.Some? ::
          var b := s.entries[e].bridge.value;
          !s.entries[e].freed && b < |s.bridges| && s.bridges[b].entry == e && s.bridges[b].running)
    && (forall b | 0 <= b < |s.bridges| && s.bridges[b].running ::
          s.bridges[b].entry < |s.entries| && s.entries[s.bridges[b].entry].bridge == Some(b))
  }

  /** A bridge runs on the hub its entry names, never on a dynamic one. */
  predicate PlacesOk(s: State) {
    forall b | 0 <= b < |s.bridges| && s.bridges[b].running ::
      && BelongsTo(s, s.bridges[b].entry, s.bridges[b].hub)
      && !s.hubs[s.bridges[b].hub].isDynamic
  }

  predicate Holds(c: Thread, h: HubId) {
    && (c.StartLocked? || c.OnlineLocked? || c.OnlineStarted? || c.OfflineLocked? || c.OfflineStopped? || c.Unlocking?)
    && c.hub == h
  }

  /** The online lock of a hub is held by the thread whose program counter says so, and by no other. */
  ghost predicate LocksOk(s: State) {
    && (forall t, h: HubId {:trigger Holds(s.threads[t], h)} | t in s.threads && Holds(s.threads[t], h) :: h < |s.hubs| && s.hubs[h].holder == Some(t))
    && (forall h | 0 <= h < |s.hubs| && s.hubs[h].holder.Some? ::
          s.hubs[h].holder.value in s.threads && Holds(s.threads[s.hubs[h].holder.value], h))
  }

  predicate ThreadOk(s: State, c: Thread) {
    match c
    case Added(e, h) => BelongsTo(s, e, h) && !s.hubs[h].isDynamic
    case StartLocked(e, h) => BelongsTo(s, e, h) && !s.hubs[h].isDynamic
    case Add(_, _, _) => true
    case Delete(_, _) => true
    case Done => true
    case _ => c.hub < |s.hubs|
  }

  predicate ThreadsOk(s: State) {
    forall t | t in s.threads :: ThreadOk(s, s.threads[t])
  }

  /** The point that the thread holding the hub's online lock has come to. */
  function HolderOf(s: State, h: HubId): Thread {
    if h < |s.hubs| && s.hubs[h].holder.Some? && s.hubs[h].holder.value in s.threads then s.threads[s.hubs[h].holder.value] else Done
  }

  predicate JustStarted(s: State, h: HubId) { HolderOf(s, h) == OnlineStarted(h) }

  predicate JustStopped(s: State, h: HubId) { HolderOf(s, h).OfflineStopped? && HolderOf(s, h).hub == h }

  predicate RunsOn(s: State, b: BridgeId, h: HubId) {
    b < |s.bridges| && s.bridges[b].running && s.bridges[b].hub == h
  }

  /** No bridge runs on a hub that is off line, but for one that is just being switched on; and none
      on a hub whose bridges have just been stopped. */
  predicate OfflineOk(s: State) {
    forall b, h: HubId | 0 <= b < |s.bridges| && RunsOn(s, b, h) && h < |s.hubs| && !s.hubs[h].spoiled ::
      && (s.hubs[h].offline ==> JustStarted(s, h))
      && !JustStopped(s, h)
  }

  /** A thread that still has to start the entry's bridge. */
  predicate WillStart(c: Thread, e: EntryId, h: HubId) {
    c == Added(e, h) || c == StartLocked(e, h)
  }

  /** A listed entry whose hub is on line, or has just had its bridges started, has a bridge, or some
      thread is still to start it, or the hub is on its way off line. */
  ghost predicate NothingMissed(s: State) {
    forall k, h: HubId | 0 <= k < |s.list| && BelongsTo(s, s.list[k], h) && MustRun(s, h) :: Provided(s, s.list[k], h)
  }

  predicate MustRun(s: State, h: HubId) {
    h < |s.hubs| && !s.hubs[h].spoiled && !s.hubs[h].isDynamic && (!s.hubs[h].offline || JustStarted(s, h))
  }

  predicate Provided(s: State, e: EntryId, h: HubId) {
    || (e < |s.entries| && s.entries[e].bridge.Some?)
    || JustStopped(s, h)
    || exists t | t in s.threads :: WillStart(s.threads[t], e, h)
  }

  /** When writing this to `offline` without the lock does no harm: it changes nothing, or the hub is just
      being switched on, or off line is written and no listed entry of the hub has a bridge, or on line is
      written and every listed entry of the hub is provided for. */
  predicate Harmless(s: State, h: HubId, offline: bool)
    requires h < |s.hubs|
  {
    || offline == s.hubs[h].offline || JustStarted(s, h)
    || (offline && forall e <- s.list | BelongsTo(s, e, h) :: s.entries[e].bridge.None?)
    || (!offline && (s.hubs[h].isDynamic || forall e <- s.list | BelongsTo(s, e, h) :: Provided(s, e, h)))
  }

  ghost predicate Inv(s: State) {
    && HubNamesDiffer(s) && ListOk(s) && BridgesOk(s) && PlacesOk(s)
    && LocksOk(s) && ThreadsOk(s) && OfflineOk(s) && NothingMissed(s)
  }
}
