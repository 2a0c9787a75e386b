/** What the account database keeps over every sequence of administration requests. */
module AccountRuns {
  import opened Text
  import opened NameList
  import opened Policy
  import opened Account
  import opened AccountAdmin

  // ---- Enumeration of groups conserves membership ----

  datatype GroupItem = GroupItem(name: NameText, realName: WideText, note: WideText, denyAccess: bool, numUsers: nat)

  ghost function GroupsOf(list: seq<User>): seq<Group?>
    reads list
  {
    seq(|list|, i requires 0 <= i < |list| reads list => list[i].group)
  }

  ghost function Occurrences(xs: seq<Group?>, x: Group?): nat {
    if xs == [] then 0
    else Occurrences(xs[..|xs| - 1], x) + if xs[|xs| - 1] == x then 1 else 0
  }

  ghost function SumOccurrences(list: seq<Group>, xs: seq<Group?>): nat {
    if list == [] then 0
    else SumOccurrences(list[..|list| - 1], xs) + Occurrences(xs, list[|list| - 1])
  }

  ghost function SumUsers(items: seq<GroupItem>): nat {
    if items == [] then 0 else SumUsers(items[..|items| - 1]) + items[|items| - 1].numUsers
  }

  ghost predicate Distinct(list: seq<Group>) {
    forall i, j | 0 <= i < j < |list| :: list[i] != list[j]
  }

  lemma {:induction false} OneMoreOccurrence(list: seq<Group>, xs: seq<Group?>, x: Group?)
    requires Distinct(list)
    ensures SumOccurrences(list, xs + [x]) == SumOccurrences(list, xs) + if x != null && x in list then 1 else 0
  {
    assert (xs + [x])[..|xs|] == xs;
    if list != [] {
      var n := |list| - 1;
      OneMoreOccurrence(list[..n], xs, x);
      assert list == list[..n] + [list[n]];
    }
  }

  /** Each element is null or counted for exactly one group of the list. */
  lemma {:induction false} OccurrencesPartition(list: seq<Group>, xs: seq<Group?>)
    requires Distinct(list)
    requires forall i | 0 <= i < |xs| :: xs[i] == null || xs[i] in list
    ensures SumOccurrences(list, xs) + Occurrences(xs, null) == |xs|
  {
    if xs == [] {
      NoOccurrences(list);
    } else {
      var n := |xs| - 1;
      OccurrencesPartition(list, xs[..n]);
      OneMoreOccurrence(list, xs[..n], xs[n]);
      assert xs == xs[..n] + [xs[n]];
    }
  }

  lemma {:induction false} NoOccurrences(list: seq<Group>)
    ensures SumOccurrences(list, []) == 0
  {
    if list != [] {
      NoOccurrences(list[..|list| - 1]);
    }
  }

  lemma SortedIsDistinct(list: seq<Group>)
    requires Sorted(list, GroupName)
    ensures Distinct(list)
  {
    forall i, j | 0 <= i < j < |list| ensures list[i] != list[j] {
      StrCmpiZeroMeansSameName(list[i].name, list[j].name);
    }
  }

  /** The row of a group, given the groups of the listed users. */
  ghost function Row(g: Group, xs: seq<Group?>): GroupItem
    reads g
  {
    GroupItem(g.name, g.realName, g.note, g.policy.Some? && g.policy.value[0] == 0, Occurrences(xs, g))
  }

  /** The row, field by field: a group whose policy does not grant access is shown as denied. */
  ghost predicate Describes(e: GroupItem, g: Group, list: seq<User>)
    reads g, list
  {
    && e.name == g.name && e.realName == g.realName && e.note == g.note
    && (e.denyAccess <==> g.policy.Some? && g.policy.value[0] == 0)
    && e.numUsers == |set j | 0 <= j < |list| && list[j].group == g|
  }

  lemma RowDescribes(g: Group, list: seq<User>)
    ensures Describes(Row(g, GroupsOf(list)), g, list)
  {
    var xs := GroupsOf(list);
    OccurrencesAreIndices(xs, g);
    assert (set j | 0 <= j < |list| && list[j].group == g) == set j | 0 <= j < |xs| && xs[j] == g;
  }

  lemma {:induction false} OccurrencesAreIndices(xs: seq<Group?>, x: Group?)
    ensures Occurrences(xs, x) == |set j | 0 <= j < |xs| && xs[j] == x|
  {
    if xs != [] {
      var n := |xs| - 1;
      OccurrencesAreIndices(xs[..n], x);
      var before := set j | 0 <= j < n && xs[..n][j] == x;
      var now := set j | 0 <= j < |xs| && xs[j] == x;
      assert Occurrences(xs, x) == |before| + if xs[n] == x then 1 else 0;
      hide Occurrences;
      assert forall j | 0 <= j < n :: xs[..n][j] == xs[j];
      if xs[n] == x {
        assert now == before + {n};
      } else {
        assert now == before;
      }
    }
  }

  /** One row per group, with the number of listed users that point to it; together with the users of
      no group the rows account for every listed user. */
  method StEnumGroup(db: HubDb) returns (items: seq<GroupItem>)
    requires db.Valid()
    ensures |items| == |db.groupList|
    ensures forall i | 0 <= i < |items| :: items[i] == Row(db.groupList[i], GroupsOf(db.userList))
    ensures forall i | 0 <= i < |items| :: Describes(items[i], db.groupList[i], db.userList)
    ensures SumUsers(items) + Occurrences(GroupsOf(db.userList), null) == |db.userList|
  {
    ListedUsersGroups(db);
    hide *;
    items := [];
    ghost var xs := GroupsOf(db.userList);
    NoRowsYet(db.groupList, xs);
    for i := 0 to |db.groupList|
      invariant |items| == i
      invariant forall k | 0 <= k < i :: items[k] == Row(db.groupList[k], xs)
      invariant SumUsers(items) == SumOccurrences(db.groupList[..i], xs)
    {
      var item := GroupRow(db.groupList[i], db.userList);
      RowNumUsers(db.groupList[i], xs);
      OneMoreRow(items, item, db.groupList, xs);
      items := items + [item];
    }
    assert db.groupList[..|db.groupList|] == db.groupList;
    OccurrencesPartition(db.groupList, xs);
    RowsDescribe(items, db.groupList, db.userList);
  }

  lemma RowsDescribe(items: seq<GroupItem>, groups: seq<Group>, users: seq<User>)
    requires |items| == |groups| && forall i | 0 <= i < |items| :: items[i] == Row(groups[i], GroupsOf(users))
    ensures forall i | 0 <= i < |items| :: Describes(items[i], groups[i], users)
  {
    hide *;
    forall i | 0 <= i < |items| ensures Describes(items[i], groups[i], users) {
      RowDescribes(groups[i], users);
    }
  }

  lemma ListedUsersGroups(db: HubDb)
    requires db.Valid()
    ensures Distinct(db.groupList) && |GroupsOf(db.userList)| == |db.userList|
    ensures forall i | 0 <= i < |db.userList| :: GroupsOf(db.userList)[i] == null || GroupsOf(db.userList)[i] in db.groupList
  {
    SortedIsDistinct(db.groupList);
  }

  lemma NoRowsYet(list: seq<Group>, xs: seq<Group?>)
    ensures SumUsers([]) == SumOccurrences(list[..0], xs)
  {
  }

  lemma RowNumUsers(g: Group, xs: seq<Group?>)
    ensures Row(g, xs).numUsers == Occurrences(xs, g)
  {
  }

  lemma OneMoreRow(items: seq<GroupItem>, item: GroupItem, list: seq<Group>, xs: seq<Group?>)
    requires |items| < |list| && SumUsers(items) == SumOccurrences(list[..|items|], xs)
    requires item.numUsers == Occurrences(xs, list[|items|])
    ensures SumUsers(items + [item]) == SumOccurrences(list[..|items| + 1], xs)
  {
    hide Occurrences;
    var i := |items|;
    assert (items + [item])[..i] == items && list[..i + 1][..i] == list[..i];
  }

  method GroupRow(g: Group, list: seq<User>) returns (item: GroupItem)
    ensures item == Row(g, GroupsOf(list))
  {
    var denied := false;
    if g.policy.Some? {
      if g.policy.value[0] == 0 {
        denied := true;
      }
    }
    var count := 0;
    ghost var xs := GroupsOf(list);
    for j := 0 to |list|
      invariant count == Occurrences(xs[..j], g)
    {
      assert xs[..j + 1][..j] == xs[..j];
      if list[j].group == g {
        count := count + 1;
      }
    }
    assert xs[..|list|] == xs;
    item := GroupItem(g.name, g.realName, g.note, denied, count);
  }

  // ---- Reading a user and writing it back ----

  lemma OwnGroupIsNamed(db: HubDb, u: User)
    requires db.Valid() && u in db.userList
    ensures NamedGroup(db, if u.groupName.None? then "" else u.groupName.value) == u.group
    ensures u.groupName.Some? ==> u.groupName.value == "" || Fold(u.groupName.value) in db.GroupMap()
  {
    UserFacts(db, u);
    if u.group != null {
      var i :| 0 <= i < |db.groupList| && db.groupList[i] == u.group;
      DirectoryAt(db.groupList, GroupName, i);
    }
  }

  /** StSetUser with exactly what StGetUser returned, or the same without the NTLM hash: if it is not
      refused, nothing observable changes but the update time. */
  method ReapplyUser(db: HubDb, name: NameText, blank: bool, readEnv: Env, env: Env) returns (ret: RetCode)
    requires db.Valid()
    modifies db`auths, db.users, db.auths`freed
    modifies db.groups`refs, db.groups`freed, db.groups`handles, db.groups`members
    ensures db.Valid()
    ensures ret.NoError? ==> Fold(name) in db.UserMap()
    ensures forall u | u in db.users ::
              Observe(u) == if ret.NoError? && u == db.UserMap()[Fold(name)]
                            then old(Observe(u)).(updatedTime := env.now)
                            else old(Observe(u))
    ensures forall g | g in db.groups :: g.members == old(g.members) && g.refs == old(g.refs) && g.freed == old(g.freed)
    ensures forall u | u in db.users && old(u.authData) != null && u.authData != old(u.authData) ::
              old(u.authData).freed && !old(u.authData.freed)
  {
    ret := GetThenSet(db, name, blank, readEnv, env);
    hide Sorted, Directory, Fold;
    hide HubDb.GroupCountsOk, HubDb.ListsOk, HubDb.MembersOk, HubDb.NamesOk, HubDb.LinksOk, HubDb.DeadOk, HubDb.AuthOk, HubDb.UserCountsOk;
    forall u | u in db.users ensures u.group == old(u.group) {
      assert Observe(u).group == old(Observe(u)).group;
    }
    db.SameLinksSameCounts();
  }

  method GetThenSet(db: HubDb, name: NameText, blank: bool, readEnv: Env, env: Env) returns (ret: RetCode)
    requires db.Valid()
    modifies db`auths, db.users, db.auths`freed
    modifies db.groups`refs, db.groups`freed, db.groups`handles, db.groups`members
    ensures db.Valid()
    ensures ret.NoError? ==> Fold(name) in db.UserMap()
    ensures forall u | u in db.users ::
              Observe(u) == if ret.NoError? && u == db.UserMap()[Fold(name)]
                            then old(Observe(u)).(updatedTime := env.now)
                            else old(Observe(u))
    ensures forall g | g in db.groups :: g.handles == old(g.handles)
    ensures forall u | u in db.users && old(u.authData) != null && u.authData != old(u.authData) ::
              old(u.authData).freed && !old(u.authData.freed)
  {
    hide Sorted, Directory, IsEmptyStr, CheckUser, Fold, AfterSet, AsReply, Blanked, NamedGroup;
    var t;
    ret, t := StGetUser(db, name, readEnv);
    if t.None? {
      return;
    }
    ReplyFacts(db, name, t.value, env.now);
    hide HubDb.GroupCountsOk, HubDb.ListsOk, HubDb.MembersOk, HubDb.NamesOk, HubDb.LinksOk, HubDb.DeadOk, HubDb.AuthOk, HubDb.UserCountsOk;
    ret := StSetUser(db, if blank then Blanked(t.value) else t.value, env);
  }

  /** What a reply means when it is sent back. */
  lemma ReplyFacts(db: HubDb, name: NameText, t: RpcUser, now: nat)
    requires db.Valid() && Fold(name) in db.UserMap()
    requires forall u | u in db.users && u == db.UserMap()[Fold(name)] :: t == AsReply(name, Observe(u))
    ensures WellFormed(t) && WellFormed(Blanked(t)) && t.name == Blanked(t).name == name
    ensures forall u | u in db.users && u == db.UserMap()[Fold(name)] ::
              && AfterSet(Observe(u), t, NamedGroup(db, t.groupName), now) == Observe(u).(updatedTime := now)
              && AfterSet(Observe(u), Blanked(t), NamedGroup(db, Blanked(t).groupName), now) == Observe(u).(updatedTime := now)
              && (t.groupName == "" || Fold(t.groupName) in db.GroupMap())
  {
    DirectoryValues(db.userList, UserName, Fold(name));
    var u: User :| u in db.userList && u == db.UserMap()[Fold(name)];
    UserFacts(db, u);
    OwnGroupIsNamed(db, u);
    SetOfGetIsIdentity(name, Observe(u), now);
  }

  // ---- Every sequence of requests ----

  datatype Request =
    | CreateUser(user: RpcUser, env: Env) | SetUser(user: RpcUser, env: Env)
    | GetUser(name: NameText, env: Env) | DeleteUser(name: NameText, env: Env)
    | CreateGroup(group: RpcGroup, env: Env) | DeleteGroup(name: NameText, env: Env)

  predicate WellFormedRequest(r: Request) {
    (r.CreateUser? ==> WellFormed(r.user)) && (r.SetUser? ==> WellFormed(r.user))
  }

  /** The references that callers hold across requests, and no others. */
  ghost predicate HeldBy(db: HubDb, heldUsers: seq<User>, heldGroups: seq<Group>)
    reads db`users, db`groups, db.users`handles, db.groups`handles
  {
    && (forall u <- heldUsers :: u in db.users) && (forall g <- heldGroups :: g in db.groups)
    && (forall u | u in db.users :: u.handles == multiset(heldUsers)[u])
    && (forall g | g in db.groups :: g.handles == multiset(heldGroups)[g])
  }

  /** One request, whatever its outcome, keeps the invariant and leaves no reference behind. */
  method ServeRequest(db: HubDb, r: Request)
    requires db.Valid() && WellFormedRequest(r)
    modifies db, db.users, db.groups, db.auths
    ensures db.Valid()
    ensures fresh(db.users - old(db.users)) && fresh(db.groups - old(db.groups)) && fresh(db.auths - old(db.auths))
    ensures old(db.users) <= db.users && old(db.groups) <= db.groups
    ensures forall u | u in db.users :: u.handles == if u in old(db.users) then old(u.handles) else 0
    ensures forall g | g in db.groups :: g.handles == if g in old(db.groups) then old(g.handles) else 0
  {
    hide HubDb.GroupCountsOk, HubDb.ListsOk, HubDb.MembersOk, HubDb.NamesOk, HubDb.LinksOk, HubDb.DeadOk, HubDb.AuthOk, HubDb.UserCountsOk;
    hide Sorted, Directory, Observe, CheckUser, CreateVerdict, CreateGroupVerdict;
    match r
    case CreateUser(t, env) => var ret, created := StCreateUser(db, t, env);
    case SetUser(t, env) => var ret := StSetUser(db, t, env);
    case GetUser(name, env) => var ret, t := StGetUser(db, name, env);
    case DeleteUser(name, env) => var ret := StDeleteUser(db, name, env);
    case CreateGroup(t, env) => var ret, created := StCreateGroup(db, t, env);
    case DeleteGroup(name, env) => var ret := StDeleteGroup(db, name, env);
  }

  /** A request, or another caller that looks an object up and keeps it, or releases one it has kept. */
  datatype Operation =
    | Serve(request: Request)
    | HoldUser(name: string) | DropUser(index: nat) | HoldGroup(name: string) | DropGroup(index: nat)

  lemma OneMoreHeld<T>(held: seq<T>, x: T)
    ensures multiset(held + [x]) == multiset(held) + multiset{x}
  {
  }

  lemma OneFewerHeld<T>(held: seq<T>, i: nat)
    requires i < |held|
    ensures multiset(held) == multiset(held[..i] + held[i + 1..]) + multiset{held[i]}
  {
    assert held == held[..i] + [held[i]] + held[i + 1..];
  }

  method HoldUserOf(db: HubDb, name: string, held: seq<User>, ghost heldGroups: seq<Group>) returns (held': seq<User>)
    requires db.Valid() && HeldBy(db, held, heldGroups)
    modifies db.users`refs, db.users`handles
    ensures db.Valid() && HeldBy(db, held', heldGroups)
  {
    hide HubDb.Valid;
    held' := held;
    var u := db.AcGetUser(name);
    if u != null {
      OneMoreHeld(held, u);
      held' := held + [u];
    }
  }

  method HoldGroupOf(db: HubDb, name: string, ghost heldUsers: seq<User>, held: seq<Group>) returns (held': seq<Group>)
    requires db.Valid() && HeldBy(db, heldUsers, held)
    modifies db.groups`refs, db.groups`handles
    ensures db.Valid() && HeldBy(db, heldUsers, held')
  {
    hide HubDb.Valid;
    held' := held;
    var g := db.AcGetGroup(name);
    if g != null {
      OneMoreHeld(held, g);
      held' := held + [g];
    }
  }

  method DropUserOf(db: HubDb, i: nat, held: seq<User>, ghost heldGroups: seq<Group>) returns (held': seq<User>)
    requires db.Valid() && HeldBy(db, held, heldGroups) && i < |held|
    modifies db.users`handles, db.users`refs, db.users`freed, db.users`group, db.users`groupName
    modifies db.users`authType, db.users`authData, db.groups`refs, db.groups`freed, db.groups`members, db.auths`freed
    ensures db.Valid() && HeldBy(db, held', heldGroups)
  {
    var u := held[i];
    assert u in multiset(held);
    db.OwnAuthListed(u);
    hide HubDb.Valid;
    OneFewerHeld(held, i);
    held' := held[..i] + held[i + 1..];
    db.HandBackUser(u);
  }

  method DropGroupOf(db: HubDb, i: nat, ghost heldUsers: seq<User>, held: seq<Group>) returns (held': seq<Group>)
    requires db.Valid() && HeldBy(db, heldUsers, held) && i < |held|
    modifies db.groups`handles, db.groups`refs, db.groups`freed
    ensures db.Valid() && HeldBy(db, heldUsers, held')
  {
    hide HubDb.Valid;
    var g := held[i];
    assert g in multiset(held);
    OneFewerHeld(held, i);
    held' := held[..i] + held[i + 1..];
    db.HandBackGroup(g);
  }

  method Operate(db: HubDb, op: Operation, heldUsers: seq<User>, heldGroups: seq<Group>)
    returns (heldUsers': seq<User>, heldGroups': seq<Group>)
    requires db.Valid() && HeldBy(db, heldUsers, heldGroups) && (op.Serve? ==> WellFormedRequest(op.request))
    modifies db, db.users, db.groups, db.auths
    ensures db.Valid() && HeldBy(db, heldUsers', heldGroups')
    ensures fresh(db.users - old(db.users)) && fresh(db.groups - old(db.groups)) && fresh(db.auths - old(db.auths))
  {
    hide HubDb.Valid, WellFormedRequest;
    heldUsers', heldGroups' := heldUsers, heldGroups;
    match op
    case Serve(request) => ServeRequest(db, request);
    case HoldUser(name) => heldUsers' := HoldUserOf(db, name, heldUsers, heldGroups);
    case HoldGroup(name) => heldGroups' := HoldGroupOf(db, name, heldUsers, heldGroups);
    case DropUser(i) =>
      if i < |heldUsers| {
        heldUsers' := DropUserOf(db, i, heldUsers, heldGroups);
      }
    case DropGroup(i) =>
      if i < |heldGroups| {
        heldGroups' := DropGroupOf(db, i, heldUsers, heldGroups);
      }
  }

  /** From the empty database on, every sequence of requests, with any number of callers that keep
      users and groups while others are served. */
  method OperateAll(ops: seq<Operation>) returns (db: HubDb, heldUsers: seq<User>, heldGroups: seq<Group>)
    requires forall op <- ops :: op.Serve? ==> WellFormedRequest(op.request)
    ensures fresh(db) && db.Valid() && HeldBy(db, heldUsers, heldGroups)
  {
    db := new HubDb();
    heldUsers, heldGroups := [], [];
    for i := 0 to |ops|
      invariant db.Valid() && HeldBy(db, heldUsers, heldGroups)
      invariant fresh(db) && fresh(db.users) && fresh(db.groups) && fresh(db.auths)
    {
      heldUsers, heldGroups := Operate(db, ops[i], heldUsers, heldGroups);
    }
  }

  /** What that means: each count is the list's reference, plus the members that have not been cleaned
      up, plus the references that callers hold; objects are cleaned up exactly when the count is zero,
      so nothing held, listed or pointed to is. */
  lemma CountsAreExact(db: HubDb, heldUsers: seq<User>, heldGroups: seq<Group>)
    requires db.Valid() && HeldBy(db, heldUsers, heldGroups)
    ensures forall u | u in db.users ::
              && u.refs == (if u in db.userList then 1 else 0) + multiset(heldUsers)[u]
              && (u.freed <==> u !in db.userList && u !in heldUsers)
    ensures forall g | g in db.groups ::
              && g.refs == (if g in db.groupList then 1 else 0) + |set u | u in db.users && !u.freed && u.group == g|
                           + multiset(heldGroups)[g]
              && (g.freed <==> g !in db.groupList && g !in heldGroups
                               && forall u | u in db.users && !u.freed :: u.group != g)
  {
    hide Sorted, Directory, HubDb.AuthOk, HubDb.ListsOk, HubDb.LinksOk, HubDb.NamesOk;
    forall u | u in db.users ensures u in heldUsers <==> multiset(heldUsers)[u] > 0 {
    }
    forall g | g in db.groups
      ensures g.members == set u | u in db.users && !u.freed && u.group == g
      ensures g in heldGroups <==> multiset(heldGroups)[g] > 0
    {
      db.MembersAre(g);
    }
    forall g | g in db.groups
      ensures g.members == {} <==> forall u | u in db.users && !u.freed :: u.group != g
    {
      if u :| u in db.users && !u.freed && u.group == g {
        assert u in g.members;
      }
      if u :| u in g.members {
        assert u in db.users && !u.freed && u.group == g;
      }
    }
  }

  /** A listed user belongs to no group or to a listed one, whose name it carries; and it is found under
      any spelling of its own name, as is a group. */
  lemma ReferencesHold(db: HubDb)
    requires db.Valid()
    ensures forall u | u in db.users && u in db.userList ::
              && (u.group != null ==> u.group in db.groupList)
              && u.groupName == if u.group == null then None else Some(u.group.name)
    ensures forall u, name | u in db.userList && SameName(name, u.name) ::
              Fold(name) in db.UserMap() && db.UserMap()[Fold(name)] == u
    ensures forall g, name | g in db.groupList && SameName(name, g.name) ::
              Fold(name) in db.GroupMap() && db.GroupMap()[Fold(name)] == g
  {
    forall u, name | u in db.userList && SameName(name, u.name)
      ensures Fold(name) in db.UserMap() && db.UserMap()[Fold(name)] == u
    {
      var i :| 0 <= i < |db.userList| && db.userList[i] == u;
      DirectoryAt(db.userList, UserName, i);
    }
    forall g, name | g in db.groupList && SameName(name, g.name)
      ensures Fold(name) in db.GroupMap() && db.GroupMap()[Fold(name)] == g
    {
      var i :| 0 <= i < |db.groupList| && db.groupList[i] == g;
      DirectoryAt(db.groupList, GroupName, i);
    }
  }
}
