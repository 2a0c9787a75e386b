/**
 The account database of a virtual hub: users and groups as reference-counted heap objects in
 name-sorted lists. A `freed` object is one whose cleanup has run; every method that touches an
 object requires that it is not freed.
 */
module Account {
  import opened Text
  import opened NameList
  import opened Policy

  const MAX_USERS: nat := 10000
  const MAX_GROUPS: nat := 10000

  // ---- Authentication data ----

  datatype AuthType = Anonymous | Password | UserCert | RootCert | Radius | Nt | OtherType(code: nat)

  datatype Cert = Cert(data: string, compatible: bool)

  /** The contents of the structure that goes with each authentication type. */
  datatype AuthValue =
    | PasswordValue(hashedKey: seq<nat>, ntlmHash: seq<nat>)
    | CertValue(cert: Option<Cert>)
    | NamesValue(names: string)

  predicate Matches(t: AuthType, v: AuthValue) {
    match t
    case Password => v.PasswordValue?
    case UserCert => v.CertValue?
    case RootCert => v.NamesValue?
    case Radius => v.NamesValue?
    case Nt => v.NamesValue?
    case _ => false
  }

  predicate IsZero(bytes: seq<nat>) { forall i | 0 <= i < |bytes| :: bytes[i] == 0 }

  /** What CopyAuthData hands out: nothing for anonymous or unknown types, else a deep copy. */
  function CopyAuthValue(v: Option<AuthValue>, t: AuthType): Option<AuthValue> {
    if t.Anonymous? || t.OtherType? then None else v
  }

  /** The new value as stored: a blank NTLM hash is taken over from an unchanged password. */
  function StoredAuth(oldType: AuthType, oldValue: AuthValue, newType: AuthType, newValue: AuthValue): AuthValue {
    if oldType.Password? && newType.Password? && oldValue.PasswordValue? && newValue.PasswordValue?
       && oldValue.hashedKey == newValue.hashedKey && IsZero(newValue.ntlmHash)
    then newValue.(ntlmHash := oldValue.ntlmHash)
    else newValue
  }

  class AuthData {
    var value: AuthValue
    var freed: bool

    constructor (value: AuthValue)
      ensures this.value == value && !freed
    {
      this.value, freed := value, false;
    }
  }

  // ---- Users and groups ----

  /** Texts that fit the fixed buffers of the RPC structures they come from. */
  type NameText = s: string | |s| <= 255
  type WideText = s: string | |s| <= 511

  class Group {
    const name: NameText
    var realName: WideText
    var note: WideText
    var policy: Option<PolicyWords>
    var refs: nat
    var freed: bool
    ghost var handles: nat  // references held by callers at work
    ghost var members: set<User>  // the users, not cleaned up, that point here

    constructor (name: NameText, realName: WideText, note: WideText)
      ensures this.name == name && this.realName == realName && this.note == note && policy == None
      ensures refs == 1 && !freed && handles == 1 && members == {}
    {
      members := {};
      this.name, this.realName, this.note, policy := name, realName, note, None;
      refs, freed, handles := 1, false, 1;
    }
  }

  class User {
    const name: NameText
    const createdTime: nat
    var realName: WideText
    var note: WideText
    var groupName: Option<NameText>
    var group: Group?
    var authType: AuthType
    var authData: AuthData?
    var updatedTime: nat
    var expireTime: nat
    var numLogin: nat
    var policy: Option<PolicyWords>
    var refs: nat
    var freed: bool
    ghost var handles: nat  // references held by callers at work

    constructor (name: NameText, realName: WideText, note: WideText, authType: AuthType, authData: AuthData?, now: nat)
      ensures this.name == name && this.realName == realName && this.note == note && createdTime == updatedTime == now
      ensures groupName == None && group == null && this.authType == authType && this.authData == authData
      ensures expireTime == 0 && numLogin == 0 && policy == None
      ensures refs == 1 && !freed && handles == 1
    {
      this.name, this.realName, this.note, createdTime, updatedTime := name, realName, note, now, now;
      groupName, group, this.authType, this.authData := None, null, authType, authData;
      expireTime, numLogin, policy := 0, 0, None;
      refs, freed, handles := 1, false, 1;
    }
  }

  function UserName(u: User): string { u.name }

  function GroupName(g: Group): string { g.name }

  /** The heap block behind a pointer that may be null. */
  ghost function Block(a: AuthData?): set<AuthData> { if a == null then {} else {a} }

  /** The database of one hub, with every object ever made for it. */
  class HubDb {
    var userList: seq<User>
    var groupList: seq<Group>
    ghost var users: set<User>
    ghost var groups: set<Group>
    ghost var auths: set<AuthData>

    // ---- The invariant ----

    ghost predicate ListsOk()
      reads `userList, `groupList, `users, `groups
    {
      && Sorted(userList, UserName) && Sorted(groupList, GroupName)
      && (forall u | u in userList :: u in users)
      && (forall g | g in groupList :: g in groups)
      && (forall g | g in groups :: g.name != "")
      && |userList| <= MAX_USERS && |groupList| <= MAX_GROUPS
    }

    /** A group's count: the list's reference, its members' and the callers'. */
    ghost predicate GroupCountsOk()
      reads `groups, `groupList, groups`refs, groups`freed, groups`handles, groups`members
    {
      forall g | g in groups ::
        && g.refs == (if g in groupList then 1 else 0) + |g.members| + g.handles
        && (g.freed <==> g.refs == 0)
    }

    /** The members of a group are exactly the users that point to it. */
    ghost predicate MembersOk()
      reads `users, `groups, users`group, groups`members
    {
      && (forall g, u | g in groups && u in g.members :: u in users && u.group == g)
      && (forall u | u in users && u.group != null :: u.group in groups && u in u.group.members)
    }

    /** A user's count: the list's reference and the callers'; `u` may have `extra` more. */
    ghost predicate UserCountsOk(u: User?, extra: nat)
      reads `users, `userList, users`refs, users`freed, users`handles
    {
      forall v | v in users ::
        && v.refs == (if v in userList then 1 else 0) + v.handles + (if v == u then extra else 0)
        && (v.freed <==> v.refs == 0)
    }

    /** A user's group name is that of its group. */
    ghost predicate NamesOk()
      reads `users, users`group, users`groupName
    {
      forall u | u in users :: u.groupName == if u.group == null then None else Some(u.group.name)
    }

    /** Referential integrity: a listed user belongs to no group or to a listed one. */
    ghost predicate LinksOk()
      reads `users, `userList, `groupList, users`group
    {
      forall u | u in users && u in userList :: u.group != null ==> u.group in groupList
    }

    /** Every user owns its authentication data alone, and no freed data is left in use. */
    ghost predicate AuthOk()
      reads `users, `auths, users`authType, users`authData, auths
    {
      && (forall u | u in users ::
            && (u.authType.Anonymous? <==> u.authData == null)
            && (u.authData != null ==> u.authData in auths && !u.authData.freed && Matches(u.authType, u.authData.value)))
      && (forall u, v | u in users && v in users && u != v :: u.authData != null ==> u.authData != v.authData)
    }

    /** A user that has been cleaned up has given everything back. */
    ghost predicate DeadOk()
      reads `users, users`freed, users`group, users`authData
    {
      forall u | u in users && u.freed :: u.group == null && u.authData == null
    }

    /** Everything but the counts of users. */
    ghost predicate CoreOk()
      reads this, users, groups, auths
    {
      ListsOk() && GroupCountsOk() && MembersOk() && NamesOk() && LinksOk() && AuthOk() && DeadOk()
    }

    ghost predicate ValidExcept(u: User?, extra: nat)
      reads this, users, groups, auths
    {
      CoreOk() && UserCountsOk(u, extra)
    }

    ghost predicate Valid()
      reads this, users, groups, auths
    {
      ValidExcept(null, 0)
    }

    ghost function UserMap(): map<string, User>
      reads `userList
    {
      Directory(userList, UserName)
    }

    ghost function GroupMap(): map<string, Group>
      reads `groupList
    {
      Directory(groupList, GroupName)
    }

    constructor ()
      ensures Valid() && userList == [] && groupList == [] && users == {} && groups == {} && auths == {}
    {
      userList, groupList, users, groups, auths := [], [], {}, {}, {};
    }

    // ---- New objects ----

    method NewGroup(name: NameText, realName: WideText, note: WideText) returns (g: Group)
      requires Valid() && name != ""
      modifies `groups
      ensures Valid() && fresh(g) && groups == old(groups) + {g}
      ensures g.name == name && g.realName == realName && g.note == note && g.policy == None
      ensures g.handles == 1 && g.members == {} && g !in groupList && !g.freed
    {
      hide Sorted, Directory;
      g := new Group(name, realName, note);
      groups := groups + {g};
    }

    /** The user takes over `authData`; there is none without the data that the type asks for. */
    method NewUser(name: NameText, realName: WideText, note: WideText, authType: AuthType, authData: AuthData?, now: nat)
      returns (u: User?)
      requires Valid()
      requires authData != null ==> authData !in auths && !authData.freed && Matches(authType, authData.value)
      modifies `users, `auths
      ensures Valid()
      ensures u == null <==> !authType.Anonymous? && authData == null
      ensures u == null ==> users == old(users) && auths == old(auths)
      ensures u != null ==> fresh(u) && users == old(users) + {u} && auths == old(auths) + Block(authData)
      ensures u != null ==> u.name == name && u.realName == realName && u.note == note
                            && u.createdTime == u.updatedTime == now && u.expireTime == 0 && u.numLogin == 0
                            && u.policy == None && u.group == null && u.groupName == None
                            && u.authType == authType && u.authData == authData
                            && u.handles == 1 && u !in userList && !u.freed
    {
      hide Sorted, Directory;
      if !authType.Anonymous? && authData == null {
        return null;
      }
      u := new User(name, realName, note, authType, authData, now);
      TakeIn(u);
    }

    /** A new user joins the objects of the database. */
    ghost method TakeIn(u: User)
      requires Valid() && u !in users && u.refs == u.handles == 1 && !u.freed && u.group == null && u.groupName == None
      requires Block(u.authData) !! auths && (u.authType.Anonymous? <==> u.authData == null)
      requires u.authData != null ==> !u.authData.freed && Matches(u.authType, u.authData.value)
      modifies `users, `auths
      ensures Valid() && users == old(users) + {u} && auths == old(auths) + Block(u.authData) && u !in userList
    {
      hide Sorted, Directory, ListsOk, GroupCountsOk, MembersOk, NamesOk, LinksOk, AuthOk, DeadOk, UserCountsOk;
      NotListedYet(u);
      users := users + {u};
      auths := auths + Block(u.authData);
      NewUserKeepsLists(u);
      NewUserKeepsNames(u);
      NewUserKeepsAuth(u);
      NewUserKeepsCounts(u);
    }

    lemma NotListedYet(u: User)
      requires ListsOk() && u !in users
      ensures u !in userList
    {
    }

    twostate predicate OnlyNew(u: User)
      reads this, users, groups, auths
    {
      && users == old(users) + {u} && u !in old(users) && auths == old(auths) + Block(u.authData) && Block(u.authData) !! old(auths)
      && u.refs == u.handles == 1 && !u.freed && u.group == null && u.groupName == None
      && (u.authType.Anonymous? <==> u.authData == null)
      && (u.authData != null ==> !u.authData.freed && Matches(u.authType, u.authData.value))
      && unchanged(`userList, `groupList, `groups) && unchanged(users) && unchanged(groups) && unchanged(auths)
    }

    twostate lemma NewUserKeepsLists(u: User)
      requires OnlyNew(u) && old(ListsOk()) && old(MembersOk())
      ensures ListsOk() && MembersOk()
    {
      hide Sorted;
    }

    twostate lemma NewUserKeepsNames(u: User)
      requires OnlyNew(u) && old(ListsOk()) && old(NamesOk()) && old(LinksOk()) && old(DeadOk())
      ensures NamesOk() && LinksOk() && DeadOk()
    {
      hide Sorted;
    }

    twostate lemma NewUserKeepsAuth(u: User)
      requires OnlyNew(u) && old(AuthOk())
      ensures AuthOk()
    {
    }

    twostate lemma NewUserKeepsCounts(u: User)
      requires OnlyNew(u) && old(ListsOk()) && old(GroupCountsOk()) && old(UserCountsOk(null, 0))
      ensures GroupCountsOk() && UserCountsOk(null, 0)
    {
      hide Sorted;
    }

    // ---- Reference counting ----

    /** A group that something points to has not been cleaned up. */
    lemma ReferencedGroupIsAlive(g: Group)
      requires GroupCountsOk() && MembersOk() && g in groups
      requires g in groupList || g.handles > 0 || exists u :: u in users && u.group == g
      ensures !g.freed && g.refs >= 1
    {
    }

    /** So the pointers of the users alone determine the members. */
    lemma MembersAre(g: Group)
      requires MembersOk() && g in groups
      ensures g.members == set u | u in users && u.group == g
    {
    }

    /** Between two quiet states, unchanged pointers mean unchanged counts. */
    twostate lemma SameLinksSameCounts()
      requires old(Valid()) && Valid()
      requires users == old(users) && groups == old(groups) && groupList == old(groupList)
      requires forall u | u in users :: u.group == old(u.group)
      requires forall g | g in groups :: g.handles == old(g.handles)
      ensures forall g | g in groups ::
                g.members == old(g.members) && g.refs == old(g.refs) && g.freed == old(g.freed)
    {
      hide Sorted, Directory;
      forall g | g in groups ensures g.members == old(g.members) {
        MembersAre(g);
        assert old(g.members) == set u | u in users && old(u.group) == g;
      }
    }

    method ReleaseGroup(g: Group)
      requires !g.freed && g.refs >= 1
      modifies g`refs, g`freed
      ensures g.refs == old(g.refs) - 1
      ensures g.freed <==> g.refs == 0
    {
      g.refs := g.refs - 1;
      if g.refs == 0 {
        g.freed := true;
      }
    }

    method FreeAuthData(authType: AuthType, a: AuthData?)
      requires a != null ==> !a.freed
      modifies Block(a)`freed
      ensures a != null ==> a.freed == !authType.Anonymous?
    {
      if !authType.Anonymous? && a != null {
        a.freed := true;
      }
    }

    /** The user gives up its group, which may be the group's end. */
    method LeaveGroup(u: User)
      requires GroupCountsOk() && MembersOk() && NamesOk() && u in users && !u.freed
      modifies u`group, u`groupName, groups`refs, groups`freed, groups`members
      ensures GroupCountsOk() && MembersOk() && NamesOk()
      ensures old(LinksOk()) ==> LinksOk()
      ensures old(DeadOk()) ==> DeadOk()
      ensures u.group == null && u.groupName == None
      ensures forall g | g in groups :: g.refs == old(g.refs) - if g == old(u.group) then 1 else 0
    {
      hide Sorted, Directory;
      var g := u.group;
      if g != null {
        ReferencedGroupIsAlive(g);
        ReleaseGroup(g);
        DropLink(u, g);
      }
    }

    method DropLink(u: User, g: Group)
      requires MembersOk() && NamesOk() && u in users && !u.freed && u.group == g
      modifies u`group, u`groupName, g`members
      ensures MembersOk() && NamesOk()
      ensures old(LinksOk()) ==> LinksOk()
      ensures old(DeadOk()) ==> DeadOk()
      ensures u.group == null && u.groupName == None && g.members == old(g.members) - {u} && u in old(g.members)
    {
      g.members := g.members - {u};
      u.group := null;
      u.groupName := None;
    }

    /** Hands back one reference to `u`; the last one cleans the user up, which hands back the user's
        reference to its group and frees its authentication data. */
    method ReleaseUser(u: User)
      requires ValidExcept(u, 1) && u in users
      modifies u`refs, u`freed, u`group, u`groupName, u`authType, u`authData
      modifies groups`refs, groups`freed, groups`members, Block(u.authData)`freed
      ensures Valid()
      ensures u.refs == old(u.refs) - 1
      ensures !u.freed ==> u.group == old(u.group) && u.groupName == old(u.groupName)
                           && u.authType == old(u.authType) && u.authData == old(u.authData)
      ensures old(u.authData) != null ==> old(u.authData).freed == u.freed
      ensures forall g | g in groups :: g.refs == old(g.refs) - if u.freed && g == old(u.group) then 1 else 0
    {
      u.refs := u.refs - 1;
      if u.refs == 0 {
        CleanupUser(u);
      }
    }

    /** A caller hands back its own reference. */
    method HandBackUser(u: User)
      requires Valid() && u in users && u.handles >= 1 && Block(u.authData) <= auths
      modifies u`handles, u`refs, u`freed, u`group, u`groupName, u`authType, u`authData
      modifies groups`refs, groups`freed, groups`members, Block(u.authData)`freed
      ensures Valid() && u.handles == old(u.handles) - 1
      ensures u.freed <==> u !in userList && u.handles == 0
      ensures !u.freed ==> u.group == old(u.group) && u.groupName == old(u.groupName)
                           && u.authType == old(u.authType) && u.authData == old(u.authData)
      ensures old(u.authData) != null ==> old(u.authData).freed == u.freed
    {
      hide ListsOk, AuthOk, DeadOk, NamesOk, MembersOk, GroupCountsOk, LinksOk;
      u.handles := u.handles - 1;
      ReleaseUser(u);
    }

    /** The pointers of the dead block are cleared, so that no invariant speaks of them any more. */
    method CleanupUser(u: User)
      requires CoreOk() && LastReferenceGone(u) && u in users && !u.freed
      modifies u`freed, u`group, u`groupName, u`authType, u`authData
      modifies groups`refs, groups`freed, groups`members, Block(u.authData)`freed
      ensures Valid() && u.freed
      ensures old(u.authData) != null ==> old(u.authData).freed
      ensures forall g | g in groups :: g.refs == old(g.refs) - if g == old(u.group) then 1 else 0
    {
      hide GroupCountsOk, MembersOk, NamesOk, LinksOk, AuthOk, DeadOk, ListsOk, UserCountsOk, LastReferenceGone;
      LeaveGroup(u);
      FreeUser(u);
    }

    method FreeUser(u: User)
      requires AuthOk() && LastReferenceGone(u) && u in users && u.group == null
      modifies u`freed, u`authType, u`authData, Block(u.authData)`freed
      ensures AuthOk() && UserCountsOk(null, 0) && u.freed
      ensures old(u.authData) != null ==> old(u.authData).freed
      ensures old(DeadOk()) ==> DeadOk()
    {
      hide AuthOk, DeadOk, UserCountsOk, LastReferenceGone;
      DropAuthData(u);
      FreeUserBlock(u);
    }

    ghost predicate LastReferenceGone(u: User)
      reads `users, `userList, users`refs, users`freed, users`handles
    {
      && u in users && !u.freed && u !in userList && u.refs == 0 && u.handles == 0
      && forall v | v in users && v != u ::
           && v.refs == (if v in userList then 1 else 0) + v.handles
           && (v.freed <==> v.refs == 0)
    }

    method FreeUserBlock(u: User)
      requires LastReferenceGone(u) && u.group == null && u.authData == null
      modifies u`freed
      ensures UserCountsOk(null, 0) && u.freed
      ensures old(DeadOk()) ==> DeadOk()
    {
      u.freed := true;
    }

    method DropAuthData(u: User)
      requires AuthOk() && u in users
      modifies u`authType, u`authData, Block(u.authData)`freed
      ensures AuthOk() && u.authType == Anonymous && u.authData == null
      ensures old(u.authData) != null ==> old(u.authData).freed
      ensures old(DeadOk()) ==> DeadOk()
    {
      FreeAuthData(u.authType, u.authData);
      u.authType, u.authData := Anonymous, null;
    }

    // ---- Look-up ----

    method AcGetUser(name: string) returns (u: User?)
      requires Valid()
      modifies users`refs, users`handles
      ensures Valid()
      ensures (u == null <==> Fold(name) !in UserMap())
      ensures u != null ==> u == UserMap()[Fold(name)] && u in userList && u in users && SameName(u.name, name)
      ensures forall v | v in users :: v.handles == old(v.handles) + if v == u then 1 else 0
    {
      var found, pos := FindSlot(userList, UserName, name);
      if !found {
        return null;
      }
      u := userList[pos];
      AddRefUser(u);
    }

    /** The caller takes one more reference. */
    method AddRefUser(u: User)
      requires Valid() && u in users && !u.freed
      modifies u`refs, u`handles
      ensures Valid() && u.handles == old(u.handles) + 1
    {
      u.refs := u.refs + 1;
      u.handles := u.handles + 1;
    }

    method AddRefGroup(g: Group)
      requires Valid() && g in groups && !g.freed
      modifies g`refs, g`handles
      ensures Valid() && g.handles == old(g.handles) + 1
    {
      g.refs := g.refs + 1;
      g.handles := g.handles + 1;
    }

    method AcGetGroup(name: string) returns (g: Group?)
      requires Valid()
      modifies groups`refs, groups`handles
      ensures Valid()
      ensures (g == null <==> Fold(name) !in GroupMap())
      ensures g != null ==> g == GroupMap()[Fold(name)] && g in groupList && g in groups && SameName(g.name, name)
      ensures forall h | h in groups :: h.handles == old(h.handles) + if h == g then 1 else 0
    {
      var found, pos := FindSlot(groupList, GroupName, name);
      if !found {
        return null;
      }
      g := groupList[pos];
      ReferencedGroupIsAlive(g);
      AddRefGroup(g);
    }

    /** ReleaseUser for a user that is listed: the list's own reference is left. */
    method ReleaseListedUser(u: User)
      requires Valid() && u in userList && u.handles >= 1
      modifies u`refs, u`handles
      ensures Valid() && u.handles == old(u.handles) - 1
    {
      u.handles := u.handles - 1;
      u.refs := u.refs - 1;
      if u.refs == 0 {
        assert false;
      }
    }

    method ReleaseListedGroup(g: Group)
      requires Valid() && g in groupList && g.handles >= 1
      modifies g`refs, g`handles
      ensures Valid() && g.handles == old(g.handles) - 1
    {
      g.handles := g.handles - 1;
      g.refs := g.refs - 1;
      if g.refs == 0 {
        assert false;
      }
    }

    method AcIsUser(name: string) returns (found: bool)
      requires Valid()
      modifies users`refs, users`handles
      ensures Valid() && found == (Fold(name) in UserMap())
      ensures forall u | u in users :: u.handles == old(u.handles)
    {
      var u := AcGetUser(name);
      if u == null {
        return false;
      }
      ReleaseListedUser(u);
      return true;
    }

    method AcIsGroup(name: string) returns (found: bool)
      requires Valid()
      modifies groups`refs, groups`handles
      ensures Valid() && found == (Fold(name) in GroupMap())
      ensures forall g | g in groups :: g.handles == old(g.handles)
    {
      var g := AcGetGroup(name);
      if g == null {
        return false;
      }
      ReleaseListedGroup(g);
      return true;
    }

    // ---- Addition and deletion ----

    method AcAddUser(u: User) returns (ok: bool)
      requires Valid() && u in users && u.handles >= 1
      requires u.group != null ==> u.group in groupList
      modifies this`userList, users`refs, users`handles
      ensures Valid()
      ensures ok <==> |old(userList)| < MAX_USERS && Fold(u.name) !in old(UserMap())
      ensures UserMap() == if ok then old(UserMap())[Fold(u.name) := u] else old(UserMap())
      ensures !ok ==> userList == old(userList)
      ensures ok ==> multiset(userList) == multiset(old(userList)) + multiset{u}
      ensures forall v | v in users :: v.handles == old(v.handles)
    {
      if |userList| >= MAX_USERS {
        return false;
      }
      var taken := AcIsUser(u.name);
      if taken {
        return false;
      }
      InsertUser(u);
      return true;
    }

    method InsertUser(u: User)
      requires Valid() && u in users && u.handles >= 1 && |userList| < MAX_USERS
      requires u.group != null ==> u.group in groupList
      requires Fold(u.name) !in UserMap()
      modifies this`userList, u`refs
      ensures Valid()
      ensures UserMap() == old(UserMap())[Fold(u.name) := u]
      ensures multiset(userList) == multiset(old(userList)) + multiset{u}
    {
      hide Sorted, Directory, AuthOk, DeadOk, NamesOk, MembersOk, GroupCountsOk, ListsOk, LinksOk, UserMap;
      EnlistUser(u);
      u.refs := u.refs + 1;
    }

    /** The sorted insertion alone; the list's reference is still to be counted. */
    method EnlistUser(u: User)
      requires ListsOk() && LinksOk() && u in users && |userList| < MAX_USERS
      requires u.group != null ==> u.group in groupList
      requires Fold(u.name) !in UserMap()
      modifies this`userList
      ensures ListsOk() && LinksOk()
      ensures UserMap() == old(UserMap())[Fold(u.name) := u]
      ensures u !in old(userList) && forall v :: v in userList <==> v == u || v in old(userList)
      ensures multiset(userList) == multiset(old(userList)) + multiset{u}
    {
      hide Sorted, Directory;
      userList := Insert(userList, UserName, u);
    }

    method AcAddGroup(g: Group) returns (ok: bool)
      requires Valid() && g in groups && g.handles >= 1
      modifies this`groupList, groups`refs, groups`handles
      ensures Valid()
      ensures ok <==> |old(groupList)| < MAX_GROUPS && Fold(g.name) !in old(GroupMap())
      ensures GroupMap() == if ok then old(GroupMap())[Fold(g.name) := g] else old(GroupMap())
      ensures !ok ==> groupList == old(groupList)
      ensures ok ==> multiset(groupList) == multiset(old(groupList)) + multiset{g}
      ensures forall h | h in groups :: h.handles == old(h.handles)
    {
      if |groupList| >= MAX_GROUPS {
        return false;
      }
      var taken := AcIsGroup(g.name);
      if taken {
        return false;
      }
      InsertGroup(g);
      return true;
    }

    method InsertGroup(g: Group)
      requires Valid() && g in groups && g.handles >= 1 && |groupList| < MAX_GROUPS
      requires Fold(g.name) !in GroupMap()
      modifies this`groupList, g`refs
      ensures Valid()
      ensures GroupMap() == old(GroupMap())[Fold(g.name) := g]
      ensures multiset(groupList) == multiset(old(groupList)) + multiset{g}
    {
      hide Sorted, Directory, AuthOk, DeadOk, NamesOk, MembersOk, UserCountsOk, ListsOk, LinksOk, GroupMap;
      EnlistGroup(g);
      g.refs := g.refs + 1;
    }

    method EnlistGroup(g: Group)
      requires ListsOk() && LinksOk() && g in groups && |groupList| < MAX_GROUPS
      requires Fold(g.name) !in GroupMap()
      modifies this`groupList
      ensures ListsOk() && LinksOk()
      ensures GroupMap() == old(GroupMap())[Fold(g.name) := g]
      ensures g !in old(groupList) && forall h :: h in groupList <==> h == g || h in old(groupList)
      ensures multiset(groupList) == multiset(old(groupList)) + multiset{g}
    {
      hide Sorted, Directory;
      groupList := Insert(groupList, GroupName, g);
    }

    method AcDeleteUser(name: string) returns (ok: bool)
      requires Valid()
      modifies `userList, users`refs, users`handles, users`freed, users`group, users`groupName, users`authType, users`authData
      modifies groups`refs, groups`freed, groups`members, auths`freed
      ensures Valid()
      ensures ok <==> Fold(name) in old(UserMap())
      ensures UserMap() == old(UserMap()) - {Fold(name)}
      ensures !ok ==> userList == old(userList)
      ensures ok ==> forall u | u in users && u == old(UserMap())[Fold(name)] ::
                       && multiset(old(userList)) == multiset(userList) + multiset{u}
                       && (u.freed <==> old(u.handles) == 0)
                       && forall a | a in auths :: a.freed == if a == old(u.authData) then u.freed else old(a.freed)
      ensures !ok ==> forall a | a in auths :: a.freed == old(a.freed)
      ensures forall v | v in users :: v.handles == old(v.handles)
      ensures forall v | v in users && !(ok && v == old(UserMap())[Fold(name)] && v.freed) ::
                v.group == old(v.group) && v.groupName == old(v.groupName)
                && v.authData == old(v.authData) && v.authType == old(v.authType)
      ensures forall v | v in users && !(ok && v == old(UserMap())[Fold(name)]) :: v.freed == old(v.freed)
    {
      hide *;
      var u := AcGetUser(name);
      if u == null {
        return false;
      }
      DropListedUser(u);
      return true;
    }

    /** Takes `u` off the list and hands back both the list's reference and the caller's. */
    method DropListedUser(u: User)
      requires Valid() && u in userList && u.handles >= 1 && u in users
      modifies `userList, u`refs, u`handles, u`freed, u`group, u`groupName, u`authType, u`authData
      modifies groups`refs, groups`freed, groups`members, auths`freed
      ensures Valid()
      ensures UserMap() == old(UserMap()) - {Fold(u.name)}
      ensures multiset(old(userList)) == multiset(userList) + multiset{u} && u !in userList
      ensures u.freed <==> u.handles == 0
      ensures u.handles == old(u.handles) - 1
      ensures !u.freed ==> u.group == old(u.group) && u.groupName == old(u.groupName)
                           && u.authType == old(u.authType) && u.authData == old(u.authData)
      ensures forall a | a in auths :: a.freed == if a == old(u.authData) then u.freed else old(a.freed)
    {
      OwnAuthListed(u);
      RemoveUser(u);
      hide Sorted, Directory, ListsOk, AuthOk, DeadOk, NamesOk, MembersOk, GroupCountsOk, LinksOk, UserCountsOk;
      HandBackUser(u);
    }

    lemma OwnAuthListed(u: User)
      requires AuthOk() && u in users
      ensures Block(u.authData) <= auths
    {
    }

    /** The list gives up its reference to `u`; the caller still has one. */
    method RemoveUser(u: User)
      requires Valid() && u in userList && u.handles >= 1
      modifies `userList, u`refs
      ensures Valid() && !u.freed
      ensures UserMap() == old(UserMap()) - {Fold(u.name)}
      ensures multiset(old(userList)) == multiset(userList) + multiset{u}
      ensures forall v :: v in userList <==> v != u && v in old(userList)
    {
      ListedUserIsKnown(u);
      hide Sorted, Directory, AuthOk, DeadOk, NamesOk, MembersOk, GroupCountsOk, ListsOk, LinksOk, UserMap;
      DelistUser(u);
      u.refs := u.refs - 1;
      if u.refs == 0 {
        assert false;
      }
    }

    lemma ListedUserIsKnown(u: User)
      requires ListsOk() && u in userList
      ensures u in users
    {
    }

    /** The removal from the list alone; the list's reference is still to be given up. */
    method DelistUser(u: User)
      requires ListsOk() && LinksOk() && u in userList
      modifies `userList
      ensures ListsOk() && LinksOk()
      ensures UserMap() == old(UserMap()) - {Fold(u.name)}
      ensures multiset(old(userList)) == multiset(userList) + multiset{u}
      ensures forall v :: v in userList <==> v != u && v in old(userList)
    {
      hide Sorted, Directory;
      var found;
      found, userList := Delete(userList, UserName, u);
    }

    // ---- Group membership ----

    method JoinUserToGroup(u: User, g: Group?)
      requires GroupCountsOk() && MembersOk() && NamesOk() && u in users && !u.freed
      requires g != null ==> g in groups && g.handles >= 1
      modifies u`group, u`groupName, groups`refs, groups`freed, groups`members
      ensures GroupCountsOk() && MembersOk() && NamesOk()
      ensures old(LinksOk()) && (g != null && u in userList ==> g in groupList) ==> LinksOk()
      ensures old(DeadOk()) ==> DeadOk()
      ensures u.group == g && u.groupName == if g == null then None else Some(g.name)
      ensures forall h | h in groups ::
                h.refs == old(h.refs) - (if h == old(u.group) then 1 else 0) + (if h == g then 1 else 0)
    {
      if g != null {
        LeaveGroup(u);
        EnterGroup(u, g);
      } else {
        LeaveGroup(u);
      }
    }

    method EnterGroup(u: User, g: Group)
      requires GroupCountsOk() && MembersOk() && NamesOk() && u in users && !u.freed && u.group == null
      requires g in groups && g.handles >= 1
      modifies u`group, u`groupName, g`refs, g`members
      ensures GroupCountsOk() && MembersOk() && NamesOk()
      ensures old(LinksOk()) && (u in userList ==> g in groupList) ==> LinksOk()
      ensures old(DeadOk()) ==> DeadOk()
      ensures u.group == g && u.groupName == Some(g.name)
      ensures g.refs == old(g.refs) + 1
    {
      u.groupName := Some(g.name);
      u.group := g;
      g.refs := g.refs + 1;
      g.members := g.members + {u};
    }

    // ---- Deletion of a group ----

    /** Deletes the group from the list and makes every listed member leave it. */
    method AcDeleteGroup(name: string) returns (ok: bool)
      requires Valid()
      modifies `groupList, users`group, users`groupName
      modifies groups`refs, groups`handles, groups`freed, groups`members
      ensures Valid()
      ensures ok <==> Fold(name) in old(GroupMap())
      ensures GroupMap() == old(GroupMap()) - {Fold(name)}
      ensures !ok ==> groupList == old(groupList)
      ensures forall g | g in groups :: g.handles == old(g.handles)
      ensures !ok ==> forall u | u in users :: u.group == old(u.group)
      ensures ok ==> forall g | g in groups && g == old(GroupMap())[Fold(name)] ::
                       && multiset(old(groupList)) == multiset(groupList) + multiset{g}
                       && forall u | u in users ::
                            u.group == if u in userList && old(u.group) == g then null else old(u.group)
    {
      hide *;
      var g := AcGetGroup(name);
      if g == null {
        return false;
      }
      DropListedGroup(g);
      return true;
    }

    method DropListedGroup(g: Group)
      requires Valid() && g in groupList && g in groups && g.handles >= 1
      modifies `groupList, users`group, users`groupName
      modifies groups`refs, g`handles, groups`freed, groups`members
      ensures Valid()
      ensures GroupMap() == old(GroupMap()) - {Fold(g.name)}
      ensures multiset(old(groupList)) == multiset(groupList) + multiset{g} && g !in groupList
      ensures g.handles == old(g.handles) - 1
      ensures forall u | u in users :: u.group == if u in userList && old(u.group) == g then null else old(u.group)
    {
      hide GroupCountsOk, ListsOk, AuthOk, DeadOk, NamesOk, MembersOk, UserCountsOk, LinksOk, LinksOkBut, GroupMap, UserMap;
      UnlistGroup(g);
      SweepMembers(g);
      ReleaseUnlistedGroup(g);
    }

    /** Listed users belong to listed groups, or to `g`, whose deletion is under way. */
    ghost predicate LinksOkBut(g: Group)
      reads `users, `userList, `groupList, users`group
    {
      forall u | u in users && u in userList :: u.group != null && u.group != g ==> u.group in groupList
    }

    method UnlistGroup(g: Group)
      requires ListsOk() && GroupCountsOk() && LinksOk() && g in groupList && g in groups && g.handles >= 1
      modifies `groupList, g`refs, g`freed
      ensures ListsOk() && GroupCountsOk() && LinksOkBut(g) && !g.freed
      ensures GroupMap() == old(GroupMap()) - {Fold(g.name)}
      ensures multiset(old(groupList)) == multiset(groupList) + multiset{g} && g !in groupList
    {
      hide Sorted, Directory;
      var found;
      found, groupList := Delete(groupList, GroupName, g);
      ReleaseGroup(g);
    }

    method SweepMembers(g: Group)
      requires GroupCountsOk() && MembersOk() && NamesOk() && UserCountsOk(null, 0) && LinksOkBut(g)
      requires ListsOk() && g in groups && g !in groupList && DeadOk()
      modifies users`group, users`groupName, groups`refs, groups`freed, groups`members
      ensures GroupCountsOk() && MembersOk() && NamesOk() && LinksOk() && DeadOk()
      ensures forall u | u in users :: u.group == if u in userList && old(u.group) == g then null else old(u.group)
    {
      hide GroupCountsOk, MembersOk, NamesOk, DeadOk;
      for i := 0 to |userList|
        invariant GroupCountsOk() && MembersOk() && NamesOk() && DeadOk()
        invariant forall u | u in users ::
                    u.group == if u in userList[..i] && old(u.group) == g then null else old(u.group)
      {
        var u := userList[i];
        if u.group == g {
          JoinUserToGroup(u, null);
        }
        assert userList[..i + 1] == userList[..i] + [u];
      }
      assert userList[..|userList|] == userList;
    }

    method ReleaseUnlistedGroup(g: Group)
      requires GroupCountsOk() && g in groups && g.handles >= 1
      modifies g`refs, g`freed, g`handles
      ensures GroupCountsOk() && g.handles == old(g.handles) - 1
    {
      g.handles := g.handles - 1;
      ReleaseGroup(g);
    }

    /** A caller hands back its own reference to a group that nothing else may hold. */
    method HandBackGroup(g: Group)
      requires Valid() && g in groups && g.handles >= 1
      modifies g`refs, g`freed, g`handles
      ensures Valid() && g.handles == old(g.handles) - 1
      ensures g.freed <==> g !in groupList && g.handles == 0 && |g.members| == 0
    {
      hide ListsOk, AuthOk, DeadOk, NamesOk, MembersOk, UserCountsOk, LinksOk;
      ReleaseUnlistedGroup(g);
    }

    // ---- Authentication data and policy of a user ----

    /** Takes over `authData` from the caller; the old data is freed. */
    method SetUserAuthData(u: User, authType: AuthType, authData: AuthData?)
      requires AuthOk() && u in users && !u.freed
      requires authData != null ==> authData !in auths && !authData.freed && Matches(authType, authData.value)
      requires authType.Anonymous? ==> authData == null
      modifies `auths, u`authType, u`authData, Block(authData)`value, Block(u.authData)`freed
      ensures AuthOk()
      ensures old(DeadOk()) ==> DeadOk()
      ensures !authType.Anonymous? && authData == null ==>
                u.authType == old(u.authType) && u.authData == old(u.authData) && auths == old(auths)
                && (u.authData != null ==> !u.authData.freed)
      ensures authType.Anonymous? || authData != null ==>
                u.authType == authType && u.authData == authData && auths == old(auths) + Block(authData)
                && (old(u.authData) != null ==> old(u.authData).freed)
      ensures authData != null ==>
                authData.value == (if old(u.authData) == null then old(authData.value)
                                   else StoredAuth(old(u.authType), old(u.authData.value), authType, old(authData.value)))
      ensures authData != null ==>
                match old(authData.value)
                case PasswordValue(key, ntlm) =>
                  && authData.value.PasswordValue? && authData.value.hashedKey == key
                  && (if old(u.authType).Password? && old(u.authData) != null && old(u.authData.value).PasswordValue?
                         && old(u.authData.value).hashedKey == key && (forall i | 0 <= i < |ntlm| :: ntlm[i] == 0)
                      then authData.value.ntlmHash == old(u.authData.value).ntlmHash
                      else authData.value.ntlmHash == ntlm)
                case _ => authData.value == old(authData.value)
    {
      if !authType.Anonymous? && authData == null {
        return;
      }
      if !u.authType.Anonymous? {
        if u.authType.Password? && authType.Password? {
          var oldValue, newValue := u.authData.value, authData.value;
          if oldValue.hashedKey == newValue.hashedKey {
            if IsZero(newValue.ntlmHash) {
              authData.value := newValue.(ntlmHash := oldValue.ntlmHash);
            }
          }
        }
        FreeAuthData(u.authType, u.authData);
      }
      u.authType := authType;
      u.authData := authData;
      auths := auths + Block(authData);
    }
  }
}
