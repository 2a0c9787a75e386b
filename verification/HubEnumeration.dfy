/** Enumerating the hubs of a server: count under the hub locks, fill, then add what other cluster
    members report. */
module HubEnumeration {
  import opened Text

  /** Counters are 32 bits wide and wrap around. */
  type uint = x: nat | x < UINT_LIMIT

  datatype Counts = Counts(sessions: uint, macTables: uint, ipTables: uint)

  datatype DbCounts = DbCounts(users: nat, groups: nat)

  /** Name and option pointer are set when a hub is made and never change. `locks` counts how often
      this thread holds the hub's re-entrant lock. */
  class Hub {
    const name: string
    const hasOption: bool
    var locks: nat

    constructor (name: string, hasOption: bool)
      ensures this.name == name && this.hasOption == hasOption && locks == 0
    {
      this.name, this.hasOption, this.locks := name, hasOption, 0;
    }

    method Lock()
      modifies `locks
      ensures locks == old(locks) + 1
    {
      locks := locks + 1;
    }

    method Unlock()
      requires locks > 0
      modifies `locks
      ensures locks == old(locks) - 1
    {
      locks := locks - 1;
    }
  }

  /** What other threads may have made of the hub's other fields by the time they are read. */
  datatype Sample = Sample(
    offline: bool, hubType: nat, counts: Counts, database: Option<DbCounts>,
    lastCommTime: nat, lastLoginTime: nat, numLogin: nat, createdTime: nat, traffic: nat)

  datatype HubItem = HubItem(
    hubName: string, online: bool, hubType: nat, numUsers: nat, numGroups: nat, counts: Counts,
    lastCommTime: nat, lastLoginTime: nat, numLogin: nat, createdTime: nat, traffic: nat, isTrafficFilled: bool)

  datatype Admin = Admin(serverAdmin: bool, hubName: string)

  datatype RemoteHub = RemoteHub(name: string, counts: Counts)
  datatype Member = Member(isMe: bool, hubs: seq<RemoteHub>)

  /** A hub administrator sees no other hub, unless that hub has no options. */
  predicate Listed(a: Admin, h: Hub) {
    a.serverAdmin || !h.hasOption || SameName(h.name, a.hubName)
  }

  function LocalItem(h: Hub, s: Sample): HubItem {
    HubItem(h.name, !s.offline, s.hubType,
            if s.database.None? then 0 else s.database.value.users,
            if s.database.None? then 0 else s.database.value.groups,
            s.counts, s.lastCommTime, s.lastLoginTime, s.numLogin, s.createdTime, s.traffic, true)
  }

  /** The rows of the first `n` hubs, in the order of the list. */
  function LocalRows(a: Admin, hubs: seq<Hub>, samples: seq<Sample>, n: nat): (rows: seq<HubItem>)
    requires n <= |hubs| == |samples|
    ensures |rows| <= n
  {
    if n == 0 then []
    else
      LocalRows(a, hubs, samples, n - 1) + (if Listed(a, hubs[n - 1]) then [LocalItem(hubs[n - 1], samples[n - 1])] else [])
  }

  lemma {:induction false} MoreRowsLater(a: Admin, hubs: seq<Hub>, samples: seq<Sample>, m: nat, n: nat)
    requires m <= n <= |hubs| == |samples|
    ensures LocalRows(a, hubs, samples, m) <= LocalRows(a, hubs, samples, n)
    decreases n
  {
    if m < n {
      MoreRowsLater(a, hubs, samples, m, n - 1);
    }
  }

  /** The first pass: takes every hub's lock, and counts the hubs that will be listed. */
  method LockAndCount(a: Admin, hubs: seq<Hub>, ghost samples: seq<Sample>) returns (num: nat)
    requires |samples| == |hubs| && forall i, j | 0 <= i < j < |hubs| :: hubs[i] != hubs[j]
    modifies hubs`locks
    ensures num == |LocalRows(a, hubs, samples, |hubs|)|
    ensures forall h <- hubs :: h.locks == old(h.locks) + 1
  {
    num := 0;
    for i := 0 to |hubs|
      invariant num == |LocalRows(a, hubs, samples, i)|
      invariant forall k | 0 <= k < |hubs| :: hubs[k].locks == old(hubs[k].locks) + (if k < i then 1 else 0)
    {
      hubs[i].Lock();
      if !a.serverAdmin && hubs[i].hasOption && !SameName(hubs[i].name, a.hubName) {
      } else {
        num := num + 1;
      }
    }
  }

  lemma NoRows(a: Admin, hubs: seq<Hub>, samples: seq<Sample>)
    requires |hubs| == |samples|
    ensures LocalRows(a, hubs, samples, 0) == []
  {
  }

  lemma NextRow(a: Admin, hubs: seq<Hub>, samples: seq<Sample>, j: nat)
    requires j < |hubs| == |samples|
    ensures var rows := LocalRows(a, hubs, samples, j);
            LocalRows(a, hubs, samples, j + 1) == if Listed(a, hubs[j]) then rows + [LocalItem(hubs[j], samples[j])] else rows
  {
  }

  /** The row shows this hub as it was sampled. */
  predicate Shows(e: HubItem, h: Hub, s: Sample) {
    && e.hubName == h.name && (e.online <==> !s.offline) && e.hubType == s.hubType
    && (s.database.None? ==> e.numUsers == 0 && e.numGroups == 0)
    && (s.database.Some? ==> e.numUsers == s.database.value.users && e.numGroups == s.database.value.groups)
    && e.lastCommTime == s.lastCommTime && e.lastLoginTime == s.lastLoginTime && e.numLogin == s.numLogin
    && e.createdTime == s.createdTime && e.traffic == s.traffic && e.isTrafficFilled
  }

  /** Its counts are the sampled ones plus these sums, in 32 bits. */
  predicate CountsAre(e: HubItem, s: Sample, sums: Sums) {
    && e.counts.sessions == (s.counts.sessions + sums.sessions) % UINT_LIMIT
    && e.counts.macTables == (s.counts.macTables + sums.macTables) % UINT_LIMIT
    && e.counts.ipTables == (s.counts.ipTables + sums.ipTables) % UINT_LIMIT
  }

  /** The row is that of this hub, and this administrator may see it: the server's may see any hub, another one
      a hub without options or the one of its own name. */
  predicate IsRowOf(a: Admin, e: HubItem, h: Hub, s: Sample, os: seq<RemoteHub>) {
    && (a.serverAdmin || !h.hasOption || SameName(h.name, a.hubName))
    && Shows(e, h, s) && CountsAre(e, s, Total(os, h.name))
  }

  predicate ShowsSome(a: Admin, e: HubItem, hubs: seq<Hub>, samples: seq<Sample>, os: seq<RemoteHub>)
    requires |samples| == |hubs|
  {
    exists i :: 0 <= i < |hubs| && IsRowOf(a, e, hubs[i], samples[i], os)
  }

  predicate HasRow(a: Admin, rows: seq<HubItem>, h: Hub, s: Sample, os: seq<RemoteHub>) {
    exists k :: 0 <= k < |rows| && IsRowOf(a, rows[k], h, s, os)
  }

  predicate AllRowsShowSome(a: Admin, rows: seq<HubItem>, hubs: seq<Hub>, samples: seq<Sample>, os: seq<RemoteHub>)
    requires |samples| == |hubs|
  {
    forall e <- rows :: ShowsSome(a, e, hubs, samples, os)
  }

  predicate AllSeenHaveRows(a: Admin, rows: seq<HubItem>, hubs: seq<Hub>, samples: seq<Sample>, os: seq<RemoteHub>)
    requires |samples| == |hubs|
  {
    forall i | 0 <= i < |hubs| && (a.serverAdmin || !hubs[i].hasOption || SameName(hubs[i].name, a.hubName)) ::
      HasRow(a, rows, hubs[i], samples[i], os)
  }

  /** Fills in one row; a hub without a database leaves the two numbers at zero. */
  method FillRow(rows: array<HubItem>, i: nat, h: Hub, s: Sample)
    requires i < rows.Length && rows[i].numUsers == rows[i].numGroups == 0
    modifies rows
    ensures rows[..] == old(rows[..])[i := LocalItem(h, s)]
  {
    var e := rows[i];
    e := e.(hubName := h.name, online := if s.offline then false else true, hubType := s.hubType);
    e := e.(counts := Counts(s.counts.sessions, s.counts.macTables, s.counts.ipTables));
    if s.database.Some? {
      e := e.(numUsers := s.database.value.users);
      e := e.(numGroups := s.database.value.groups);
    }
    e := e.(lastCommTime := s.lastCommTime, lastLoginTime := s.lastLoginTime, numLogin := s.numLogin, createdTime := s.createdTime);
    rows[i] := e.(traffic := s.traffic, isTrafficFilled := true);
  }

  /** The second pass: fills exactly the rows that were counted, and releases every lock once. */
  method FillAndUnlock(a: Admin, hubs: seq<Hub>, samples: seq<Sample>, rows: array<HubItem>)
    requires |samples| == |hubs| && (forall i, j | 0 <= i < j < |hubs| :: hubs[i] != hubs[j])
    requires rows.Length == |LocalRows(a, hubs, samples, |hubs|)|
    requires forall h <- hubs :: h.locks > 0
    requires forall k | 0 <= k < rows.Length :: rows[k].numUsers == rows[k].numGroups == 0
    modifies hubs`locks, rows
    ensures rows[..] == LocalRows(a, hubs, samples, |hubs|)
    ensures AllRowsShowSome(a, rows[..], hubs, samples, []) && AllSeenHaveRows(a, rows[..], hubs, samples, [])
    ensures forall h <- hubs :: h.locks == old(h.locks) - 1
  {
    hide SameName, LocalItem, LocalRows;
    ghost var all := LocalRows(a, hubs, samples, |hubs|);
    NoRows(a, hubs, samples);
    var i := 0;
    for j := 0 to |hubs|
      invariant i == |LocalRows(a, hubs, samples, j)| <= rows.Length
      invariant forall k | 0 <= k < rows.Length :: rows[k] == if k < i then all[k] else old(rows[k])
      invariant forall k | 0 <= k < |hubs| :: hubs[k].locks == old(hubs[k].locks) - (if k < j then 1 else 0)
    {
      NextRow(a, hubs, samples, j);
      MoreRowsLater(a, hubs, samples, j + 1, |hubs|);
      if !a.serverAdmin && hubs[j].hasOption && !SameName(hubs[j].name, a.hubName) {
      } else {
        assert LocalRows(a, hubs, samples, j + 1)[i] == all[i] == LocalItem(hubs[j], samples[j]);
        FillRow(rows, i, hubs[j], samples[j]);
        i := i + 1;
      }
      hubs[j].Unlock();
    }
    hide AllRowsShowSome, AllSeenHaveRows;
    assert rows[..] == all;
    AddNothing(all);
    RowsAreSeen(a, hubs, samples, [], all);
  }

  // ---- The other members of the cluster ----

  function Plus(c: uint, d: nat): uint { (c + d) % UINT_LIMIT }

  function AddToRow(e: HubItem, o: RemoteHub): HubItem {
    if SameName(e.hubName, o.name) then
      e.(counts := Counts(Plus(e.counts.sessions, o.counts.sessions), Plus(e.counts.macTables, o.counts.macTables),
                          Plus(e.counts.ipTables, o.counts.ipTables)))
    else e
  }

  function AddToRows(rows: seq<HubItem>, o: RemoteHub): seq<HubItem> {
    seq(|rows|, k requires 0 <= k < |rows| => AddToRow(rows[k], o))
  }

  function AddAll(rows: seq<HubItem>, os: seq<RemoteHub>): seq<HubItem> {
    if os == [] then rows else AddToRows(AddAll(rows, os[..|os| - 1]), os[|os| - 1])
  }

  /** All hubs that the members other than this server report. */
  function Reported(members: seq<Member>): seq<RemoteHub> {
    if members == [] then []
    else
      var m := members[|members| - 1];
      Reported(members[..|members| - 1]) + (if m.isMe then [] else m.hubs)
  }

  datatype Sums = Sums(sessions: nat, macTables: nat, ipTables: nat)

  /** The sums over all reported hubs of that name. */
  function Total(os: seq<RemoteHub>, name: string): Sums {
    if os == [] then Sums(0, 0, 0)
    else
      var o := os[|os| - 1];
      var rest := Total(os[..|os| - 1], name);
      if SameName(name, o.name) then
        Sums(rest.sessions + o.counts.sessions, rest.macTables + o.counts.macTables, rest.ipTables + o.counts.ipTables)
      else rest
  }

  /** The totals are sums: of nothing zero, of one hub its own counts or nothing, and of two lists, field by
      field, those of both together. */
  lemma {:induction false} TotalsAreSums(o: RemoteHub, os: seq<RemoteHub>, ps: seq<RemoteHub>, name: string)
    ensures Total([], name) == Sums(0, 0, 0)
    ensures var t := Total([o], name);
            if SameName(name, o.name)
            then t.sessions == o.counts.sessions && t.macTables == o.counts.macTables && t.ipTables == o.counts.ipTables
            else t == Sums(0, 0, 0)
    ensures var t, u, both := Total(os, name), Total(ps, name), Total(os + ps, name);
            && both.sessions == t.sessions + u.sessions && both.macTables == t.macTables + u.macTables
            && both.ipTables == t.ipTables + u.ipTables
    decreases |ps|
  {
    hide SameName;
    assert [o][..0] == [];
    if ps == [] {
      assert os + ps == os;
    } else {
      var n := |ps| - 1;
      assert (os + ps)[..|os + ps| - 1] == os + ps[..n] && (os + ps)[|os + ps| - 1] == ps[n];
      TotalsAreSums(o, os, ps[..n], name);
    }
  }

  /** What is reported: every hub of every other member, no hub of this server, as often as it is there. */
  lemma {:induction false} ReportedAreTheOthersHubs(members: seq<Member>, o: RemoteHub)
    ensures multiset(Reported(members))[o] == TimesReported(members, o)
  {
    if members != [] {
      var m := members[|members| - 1];
      ReportedAreTheOthersHubs(members[..|members| - 1], o);
      assert members == members[..|members| - 1] + [m];
      TimesReportedOfLast(members[..|members| - 1], m, o);
    }
  }

  function TimesReported(members: seq<Member>, o: RemoteHub): nat {
    if members == [] then 0
    else (if members[0].isMe then 0 else multiset(members[0].hubs)[o]) + TimesReported(members[1..], o)
  }

  lemma {:induction false} TimesReportedOfLast(members: seq<Member>, m: Member, o: RemoteHub)
    ensures TimesReported(members + [m], o) == TimesReported(members, o) + if m.isMe then 0 else multiset(m.hubs)[o]
  {
    if members == [] {
      assert [m][1..] == [];
    } else {
      assert (members + [m])[1..] == members[1..] + [m];
      TimesReportedOfLast(members[1..], m, o);
    }
  }

  method AddRemoteHub(rows: array<HubItem>, o: RemoteHub)
    modifies rows
    ensures rows[..] == AddToRows(old(rows[..]), o)
  {
    for k := 0 to rows.Length
      invariant forall i | 0 <= i < rows.Length :: rows[i] == if i < k then AddToRow(old(rows[i]), o) else old(rows[i])
    {
      if SameName(rows[k].hubName, o.name) {
        var e := rows[k];
        var ipTables := Plus(e.counts.ipTables, o.counts.ipTables);
        var macTables := Plus(e.counts.macTables, o.counts.macTables);
        var sessions := Plus(e.counts.sessions, o.counts.sessions);
        rows[k] := e.(counts := Counts(sessions, macTables, ipTables));
      }
    }
  }

  method AddReported(rows: array<HubItem>, members: seq<Member>)
    modifies rows
    ensures rows[..] == AddAll(old(rows[..]), Reported(members))
  {
    ghost var start := rows[..];
    for i := 0 to |members|
      invariant rows[..] == AddAll(start, Reported(members[..i]))
    {
      var m := members[i];
      ghost var sofar := Reported(members[..i]);
      assert members[..i + 1][..i] == members[..i];
      if !m.isMe {
        assert sofar + m.hubs[..0] == sofar;
        for j := 0 to |m.hubs|
          invariant rows[..] == AddAll(start, sofar + m.hubs[..j])
        {
          AddRemoteHub(rows, m.hubs[j]);
          assert (sofar + m.hubs[..j + 1])[..|sofar| + j] == sofar + m.hubs[..j];
        }
        assert m.hubs[..|m.hubs|] == m.hubs;
      } else {
        assert sofar + [] == sofar;
      }
    }
    assert members[..|members|] == members;
  }

  /** A row with these sums added to its counts, in 32 bits. */
  function WithSums(e: HubItem, sums: Sums): HubItem {
    e.(counts := Counts((e.counts.sessions + sums.sessions) % UINT_LIMIT, (e.counts.macTables + sums.macTables) % UINT_LIMIT,
                        (e.counts.ipTables + sums.ipTables) % UINT_LIMIT))
  }

  /** Each row's counts end up as the local ones plus the sums over all matching hubs of all other
      members, in 32 bits; nothing else of the row changes. */
  lemma {:induction false} RowsHoldTheSums(rows: seq<HubItem>, os: seq<RemoteHub>)
    ensures |AddAll(rows, os)| == |rows|
    ensures forall k | 0 <= k < |rows| :: AddAll(rows, os)[k] == WithSums(rows[k], Total(os, rows[k].hubName))
    decreases |os|
  {
    if os == [] {
      assert forall k | 0 <= k < |rows| :: Total(os, rows[k].hubName) == Sums(0, 0, 0);
    } else {
      var n := |os| - 1;
      hide WithSums, Total, SameName, AddToRow;
      RowsHoldTheSums(rows, os[..n]);
      forall k | 0 <= k < |rows| ensures AddAll(rows, os)[k] == WithSums(rows[k], Total(os, rows[k].hubName)) {
        AddOneMore(rows[k], os);
      }
    }
  }

  lemma AddOneMore(e: HubItem, os: seq<RemoteHub>)
    requires os != []
    ensures var n := |os| - 1;
            AddToRow(WithSums(e, Total(os[..n], e.hubName)), os[n]) == WithSums(e, Total(os, e.hubName))
  {
    hide WithSums, AddToRow, SameName;
    var o := os[|os| - 1];
    AddSums(e, Total(os[..|os| - 1], e.hubName), o);
  }

  lemma AddSums(e: HubItem, d: Sums, o: RemoteHub)
    ensures AddToRow(WithSums(e, d), o) ==
            WithSums(e, if SameName(e.hubName, o.name) then
                          Sums(d.sessions + o.counts.sessions, d.macTables + o.counts.macTables, d.ipTables + o.counts.ipTables)
                        else d)
  {
    hide SameName, Plus;
    WrapSum(e.counts.sessions, d.sessions, o.counts.sessions);
    WrapSum(e.counts.macTables, d.macTables, o.counts.macTables);
    WrapSum(e.counts.ipTables, d.ipTables, o.counts.ipTables);
  }

  lemma WrapSum(c: nat, d: nat, e: nat)
    ensures Plus((c + d) % UINT_LIMIT, e) == (c + (d + e)) % UINT_LIMIT
  {
  }

  method StEnumHub(a: Admin, hubs: seq<Hub>, samples: seq<Sample>, isController: bool, members: seq<Member>)
    returns (rows: array<HubItem>)
    requires |samples| == |hubs| && forall i, j | 0 <= i < j < |hubs| :: hubs[i] != hubs[j]
    modifies hubs`locks
    ensures fresh(rows)
    ensures forall h <- hubs :: h.locks == old(h.locks)
    ensures var listed := LocalRows(a, hubs, samples, |hubs|);
            rows[..] == if isController then AddAll(listed, Reported(members)) else listed
    ensures var others := if isController then Reported(members) else [];
            AllRowsShowSome(a, rows[..], hubs, samples, others) && AllSeenHaveRows(a, rows[..], hubs, samples, others)
    ensures rows.Length == |set i | 0 <= i < |hubs| && (a.serverAdmin || !hubs[i].hasOption || SameName(hubs[i].name, a.hubName))|
  {
    var num := LockAndCount(a, hubs, samples);
    rows := new HubItem[num](_ => HubItem("", false, 0, 0, 0, Counts(0, 0, 0), 0, 0, 0, 0, 0, false));
    FillAndUnlock(a, hubs, samples, rows);
    if isController {
      AddReported(rows, members);
    }
    ghost var others := if isController then Reported(members) else [];
    AddNothing(LocalRows(a, hubs, samples, |hubs|));
    hide *;
    NumberOfRows(a, hubs, samples, |hubs|);
    RowsAreSeen(a, hubs, samples, others, rows[..]);
  }

  lemma AddNothing(rows: seq<HubItem>)
    ensures AddAll(rows, []) == rows
  {
  }

  lemma RowsAreSeen(a: Admin, hubs: seq<Hub>, samples: seq<Sample>, os: seq<RemoteHub>, rows: seq<HubItem>)
    requires |samples| == |hubs| && rows == AddAll(LocalRows(a, hubs, samples, |hubs|), os)
    ensures AllRowsShowSome(a, rows, hubs, samples, os) && AllSeenHaveRows(a, rows, hubs, samples, os)
  {
    hide SameName, LocalRows, AddAll, IsRowOf;
    forall k | 0 <= k < |rows| ensures ShowsSome(a, rows[k], hubs, samples, os) {
      var i := RowShowsHub(a, hubs, samples, os, rows, k);
    }
    forall i | 0 <= i < |hubs| && (a.serverAdmin || !hubs[i].hasOption || SameName(hubs[i].name, a.hubName))
      ensures HasRow(a, rows, hubs[i], samples[i], os)
    {
      var k := HubHasRow(a, hubs, samples, os, rows, i);
    }
  }

  lemma RowShowsHub(a: Admin, hubs: seq<Hub>, samples: seq<Sample>, os: seq<RemoteHub>, rows: seq<HubItem>, k: nat) returns (i: nat)
    requires |samples| == |hubs| && rows == AddAll(LocalRows(a, hubs, samples, |hubs|), os) && k < |rows|
    ensures i < |hubs| && IsRowOf(a, rows[k], hubs[i], samples[i], os)
  {
    hide SameName, LocalRows, AddAll, Total;
    var listed := LocalRows(a, hubs, samples, |hubs|);
    RowsHoldTheSums(listed, os);
    EveryRowIsAListedHub(a, hubs, samples, |hubs|, k);
    i :| 0 <= i < |hubs| && Listed(a, hubs[i]) && |LocalRows(a, hubs, samples, i)| == k && listed[k] == LocalItem(hubs[i], samples[i]);
    assert rows[k].hubName == listed[k].hubName;
  }

  lemma HubHasRow(a: Admin, hubs: seq<Hub>, samples: seq<Sample>, os: seq<RemoteHub>, rows: seq<HubItem>, i: nat) returns (k: nat)
    requires |samples| == |hubs| && rows == AddAll(LocalRows(a, hubs, samples, |hubs|), os)
    requires i < |hubs| && (a.serverAdmin || !hubs[i].hasOption || SameName(hubs[i].name, a.hubName))
    ensures k < |rows| && IsRowOf(a, rows[k], hubs[i], samples[i], os)
  {
    hide SameName, LocalRows, AddAll, Total;
    RowsHoldTheSums(LocalRows(a, hubs, samples, |hubs|), os);
    RowsAreTheListedHubs(a, hubs, samples, |hubs|, i);
    k := |LocalRows(a, hubs, samples, i)|;
  }

  lemma {:induction false} NumberOfRows(a: Admin, hubs: seq<Hub>, samples: seq<Sample>, n: nat)
    requires n <= |hubs| == |samples|
    ensures |LocalRows(a, hubs, samples, n)|
         == |set i | 0 <= i < n && (a.serverAdmin || !hubs[i].hasOption || SameName(hubs[i].name, a.hubName))|
  {
    hide SameName;
    if n > 0 {
      NumberOfRows(a, hubs, samples, n - 1);
      var before := set i | 0 <= i < n - 1 && (a.serverAdmin || !hubs[i].hasOption || SameName(hubs[i].name, a.hubName));
      var now := set i | 0 <= i < n && (a.serverAdmin || !hubs[i].hasOption || SameName(hubs[i].name, a.hubName));
      if Listed(a, hubs[n - 1]) {
        assert now == before + {n - 1};
      } else {
        assert now == before;
      }
    }
  }

  /** The rows are those of the listed hubs, each once and in order. */
  lemma {:induction false} RowsAreTheListedHubs(a: Admin, hubs: seq<Hub>, samples: seq<Sample>, n: nat, i: nat)
    requires i < n <= |hubs| == |samples| && Listed(a, hubs[i])
    ensures var k := |LocalRows(a, hubs, samples, i)|;
            k < |LocalRows(a, hubs, samples, n)| && LocalRows(a, hubs, samples, n)[k] == LocalItem(hubs[i], samples[i])
  {
    MoreRowsLater(a, hubs, samples, i + 1, n);
  }

  lemma {:induction false} EveryRowIsAListedHub(a: Admin, hubs: seq<Hub>, samples: seq<Sample>, n: nat, k: nat)
    requires n <= |hubs| == |samples| && k < |LocalRows(a, hubs, samples, n)|
    ensures exists i :: 0 <= i < n && Listed(a, hubs[i]) && |LocalRows(a, hubs, samples, i)| == k
                        && LocalRows(a, hubs, samples, n)[k] == LocalItem(hubs[i], samples[i])
  {
    if k < |LocalRows(a, hubs, samples, n - 1)| {
      EveryRowIsAListedHub(a, hubs, samples, n - 1, k);
    }
  }
}
