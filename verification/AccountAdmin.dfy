/** The administration handlers for users and groups, on the account database of one hub. */
module AccountAdmin {
  import opened Text
  import opened NameList
  import opened Policy
  import opened Account

  datatype RetCode =
    | NoError | InvalidParameter | NotSupportedAuth | NotRsa1024 | Refused | InternalError | ObjectNotFound
    | TooManyUser | TooManyUsersCreated | UserAlreadyExists | GroupNotFound | GroupAlreadyExists | TooManyGroup

  /** The request and reply structure for one user; it owns copies of the data and the policy. */
  datatype RpcUser = RpcUser(
    name: NameText, groupName: NameText, realName: WideText, note: WideText,
    createdTime: nat, updatedTime: nat, expireTime: nat,
    authType: AuthType, auth: Option<AuthValue>, numLogin: nat, policy: Option<PolicyWords>)

  datatype RpcGroup = RpcGroup(name: NameText, realName: WideText, note: WideText, policy: Option<PolicyWords>)

  /** What a handler learns from outside the database: whether the session, the server mode or a hub
      option refuses the request (before and after the checks of the request itself), whether the
      name is not reserved, whether this kind of server keeps users at all, the limits of the hub, and
      the clock. */
  datatype Env = Env(
    refusedEarly: bool, refusedLate: bool, nameAllowed: bool, radiusDisabled: bool, serverFull: bool,
    keepsUsers: bool, maxUsers: nat, maxGroups: nat, now: nat)

  /** The capability `i_max_users_per_hub`. */
  function MaxUsersPerHub(env: Env): nat { if env.keepsUsers then MAX_USERS else 0 }

  /** The decoder of the request allocates the structure that goes with the type it read. */
  predicate WellFormed(t: RpcUser) { t.auth.Some? ==> Matches(t.authType, t.auth.value) }

  /** Any user may log in with the name "*" only through an external server. */
  function CheckStar(t: RpcUser): RetCode {
    if SameName(t.name, "*") && !t.authType.Radius? && !t.authType.Nt? then InvalidParameter else NoError
  }

  function CheckCert(t: RpcUser): RetCode {
    if !t.authType.UserCert? then NoError
    else if t.auth.None? || !t.auth.value.CertValue? || t.auth.value.cert.None? then InvalidParameter
    else if !t.auth.value.cert.value.compatible then NotRsa1024
    else NoError
  }

  function CheckUser(t: RpcUser, env: Env, creating: bool): RetCode {
    if IsEmptyStr(t.name) || !env.nameAllowed then InvalidParameter
    else if env.refusedEarly then Refused
    else if env.radiusDisabled && (t.authType.UserCert? || t.authType.Radius? || t.authType.RootCert? || t.authType.Nt?)
    then NotSupportedAuth
    else
      var first := if creating then CheckCert(t) else CheckStar(t);
      var second := if creating then CheckStar(t) else CheckCert(t);
      if first != NoError then first
      else if second != NoError then second
      else if env.refusedLate then Refused
      else NoError
  }

  /** Exactly which requests pass: the same for setting and for creating, where only the order of the checks differs. */
  lemma PassesExactlyIf(t: RpcUser, env: Env, creating: bool)
    ensures CheckUser(t, env, creating).NoError? <==>
              && (exists i :: 0 <= i < |t.name| && t.name[i] != ' ' && t.name[i] != '\t')
              && env.nameAllowed && !env.refusedEarly && !env.refusedLate
              && (env.radiusDisabled ==> !t.authType.UserCert? && !t.authType.Radius? && !t.authType.RootCert? && !t.authType.Nt?)
              && (SameName(t.name, "*") ==> t.authType.Radius? || t.authType.Nt?)
              && (t.authType.UserCert? ==> t.auth.Some? && t.auth.value.CertValue? && t.auth.value.cert.Some?
                                           && t.auth.value.cert.value.compatible)
  {
    hide SameName;
  }

  // ---- What can be observed of a user ----

  datatype UserView = UserView(
    realName: WideText, note: WideText, group: Group?, groupName: Option<NameText>,
    authType: AuthType, auth: Option<AuthValue>, createdTime: nat, updatedTime: nat, expireTime: nat,
    numLogin: nat, policy: Option<PolicyWords>)

  ghost function Observe(u: User): UserView
    reads u`realName, u`note, u`group, u`groupName, u`authType, u`authData, u`updatedTime, u`expireTime, u`numLogin, u`policy
    reads Block(u.authData)`value
  {
    UserView(u.realName, u.note, u.group, u.groupName, u.authType,
             if u.authData == null then None else Some(u.authData.value),
             u.createdTime, u.updatedTime, u.expireTime, u.numLogin, u.policy)
  }

  ghost function AuthOf(u: User): Option<AuthValue>
    reads u`authData, Block(u.authData)`value
  {
    if u.authData == null then None else Some(u.authData.value)
  }

  /** The reply of StGetUser. */
  function AsReply(name: NameText, v: UserView): RpcUser {
    RpcUser(name, if v.groupName.None? then "" else v.groupName.value, v.realName, v.note,
            v.createdTime, v.updatedTime, v.expireTime, v.authType, CopyAuthValue(v.auth, v.authType),
            v.numLogin, v.policy)
  }

  /** The authentication type and data that a request leaves behind. */
  function AuthAfter(authType: AuthType, auth: Option<AuthValue>, t: RpcUser): (AuthType, Option<AuthValue>) {
    var copy := CopyAuthValue(t.auth, t.authType);
    if !t.authType.Anonymous? && copy.None? then (authType, auth)
    else if copy.None? || auth.None? then (t.authType, copy)
    else (t.authType, Some(StoredAuth(authType, auth.value, t.authType, copy.value)))
  }

  /** The effect of a successful StSetUser that resolved the group name to `g`. */
  function AfterSet(v: UserView, t: RpcUser, g: Group?, now: nat): UserView {
    var (authType, auth) := AuthAfter(v.authType, v.auth, t);
    v.(realName := t.realName, note := t.note, group := g, groupName := if g == null then None else Some(g.name),
       authType := authType, auth := auth, updatedTime := now, expireTime := t.expireTime,
       policy := Overwrite(v.policy, t.policy))
  }

  /** The reply as a management tool may send it back: without the NTLM hash. */
  function Blanked(t: RpcUser): RpcUser {
    if t.auth.Some? && t.auth.value.PasswordValue?
    then t.(auth := Some(t.auth.value.(ntlmHash := seq(|t.auth.value.ntlmHash|, i => 0))))
    else t
  }

  /** Setting a user to what was read, blanked or not, changes nothing but the update time. */
  lemma SetOfGetIsIdentity(name: NameText, v: UserView, now: nat)
    requires v.groupName == if v.group == null then None else Some(v.group.name)
    requires v.auth.Some? ==> Matches(v.authType, v.auth.value)
    requires v.auth.None? <==> v.authType.Anonymous?
    ensures AfterSet(v, AsReply(name, v), v.group, now) == v.(updatedTime := now)
    ensures AfterSet(v, Blanked(AsReply(name, v)), v.group, now) == v.(updatedTime := now)
  {
    OverwriteWithSelf(v.policy);
    if v.auth.Some? && v.auth.value.PasswordValue? {
      var pw := v.auth.value;
      assert IsZero(seq(|pw.ntlmHash|, i => 0));
      assert pw.(ntlmHash := seq(|pw.ntlmHash|, i => 0)).(ntlmHash := pw.ntlmHash) == pw;
    }
  }

  /** The authentication data that a request with data leaves, given what was there: the request's own, but for
      an NTLM hash that comes as zeros with an unchanged password. */
  predicate HoldsNewAuth(was: Option<AuthValue>, request: AuthValue, now: AuthValue) {
    match request
    case PasswordValue(key, ntlm) =>
      && now.PasswordValue? && now.hashedKey == key
      && (if was.Some? && was.value.PasswordValue? && was.value.hashedKey == key && (forall i | 0 <= i < |ntlm| :: ntlm[i] == 0)
          then now.ntlmHash == was.value.ntlmHash
          else now.ntlmHash == ntlm)
    case _ => now == request
  }

  /** The policy that a request leaves: none, or its own, or of its own only the words of version 2. */
  predicate HoldsNewPolicy(was: Option<PolicyWords>, request: Option<PolicyWords>, now: Option<PolicyWords>) {
    if request.None? then now.None?
    else
      && now.Some? && now.value[..VER2_WORDS] == request.value[..VER2_WORDS]
      && now.value[VER2_WORDS..] == (if request.value[VER3_FLAG] != 0 || was.None? then request.value else was.value)[VER2_WORDS..]
  }

  /** Field by field, what a request does to a user. Without data for its type the authentication stays. */
  lemma SetStoresTheRequest(v: UserView, t: RpcUser, g: Group?, now: nat)
    requires (v.auth.Some? ==> Matches(v.authType, v.auth.value)) && WellFormed(t)
    ensures var w := AfterSet(v, t, g, now);
            && w.realName == t.realName && w.note == t.note && w.expireTime == t.expireTime
            && w.createdTime == v.createdTime && w.updatedTime == now && w.numLogin == v.numLogin
            && w.group == g && (g == null ==> w.groupName == None) && (g != null ==> w.groupName == Some(g.name))
            && HoldsNewPolicy(v.policy, t.policy, w.policy)
            && (t.authType.Anonymous? ==> w.authType.Anonymous? && w.auth.None?)
            && (!t.authType.Anonymous? && (t.auth.None? || t.authType.OtherType?) ==> w.authType == v.authType && w.auth == v.auth)
            && (!t.authType.Anonymous? && t.auth.Some? && !t.authType.OtherType? ==>
                  w.authType == t.authType && w.auth.Some? && HoldsNewAuth(v.auth, t.auth.value, w.auth.value))
  {
  }

  // ---- Handlers that read ----

  method CopyAuthData(v: Option<AuthValue>, t: AuthType) returns (copy: AuthData?)
    ensures copy == null <==> CopyAuthValue(v, t).None?
    ensures copy != null ==> fresh(copy) && !copy.freed && Some(copy.value) == CopyAuthValue(v, t)
  {
    if v.None? || t.Anonymous? || t.OtherType? {
      return null;
    }
    copy := new AuthData(v.value);
  }

  /** The reply, field by field. */
  ghost predicate Tells(t: RpcUser, name: NameText, u: User)
    reads u`realName, u`note, u`group, u`groupName, u`authType, u`authData, u`updatedTime, u`expireTime, u`numLogin, u`policy
    reads Block(u.authData)`value
  {
    && t.name == name && t.groupName == (if u.groupName.None? then "" else u.groupName.value)
    && t.realName == u.realName && t.note == u.note && t.createdTime == u.createdTime && t.updatedTime == u.updatedTime
    && t.expireTime == u.expireTime && t.numLogin == u.numLogin && t.policy == u.policy
    && t.authType == u.authType && t.auth == AuthOf(u)
  }

  lemma ReplyTells(db: HubDb, name: NameText, u: User)
    requires db.Valid() && u in db.userList
    ensures Tells(AsReply(name, Observe(u)), name, u)
  {
    UserFacts(db, u);
  }

  method StGetUser(db: HubDb, name: NameText, env: Env) returns (ret: RetCode, t: Option<RpcUser>)
    requires db.Valid()
    modifies db.users`refs, db.users`handles
    ensures db.Valid()
    ensures forall u | u in db.users :: u.handles == old(u.handles)
    ensures ret.NoError? <==> t.Some?
    ensures ret.NoError? <==> !IsEmptyStr(name) && env.nameAllowed && !env.refusedEarly && !env.refusedLate
                              && Fold(name) in db.UserMap()
    ensures t.Some? ==> forall u | u in db.users && u == db.UserMap()[Fold(name)] ::
              t.value == AsReply(name, Observe(u)) && Tells(t.value, name, u)
  {
    hide Sorted, Directory, IsEmptyStr, Tells;
    if IsEmptyStr(name) || !env.nameAllowed {
      return InvalidParameter, None;
    }
    if env.refusedEarly || env.refusedLate {
      return Refused, None;
    }
    var u := db.AcGetUser(name);
    if u == null {
      return ObjectNotFound, None;
    }
    t := Some(ReplyFor(name, u));
    db.ReleaseListedUser(u);
    ReplyTells(db, name, u);
    return NoError, t;
  }

  function ReplyFor(name: NameText, u: User): (t: RpcUser)
    reads u`realName, u`note, u`group, u`groupName, u`authType, u`authData, u`updatedTime, u`expireTime, u`numLogin, u`policy
    reads Block(u.authData)`value
    ensures t == AsReply(name, Observe(u))
  {
    RpcUser(name, if u.groupName.None? then "" else u.groupName.value, u.realName, u.note,
            u.createdTime, u.updatedTime, u.expireTime, u.authType,
            CopyAuthValue(if u.authData == null then None else Some(u.authData.value), u.authType),
            u.numLogin, u.policy)
  }

  // ---- Setting a user ----

  /** The group that a request names: none for the empty name. */
  ghost function NamedGroup(db: HubDb, groupName: NameText): Group?
    reads db`groupList
  {
    if groupName == "" || Fold(groupName) !in db.GroupMap() then null else db.GroupMap()[Fold(groupName)]
  }

  method ChangeGroup(db: HubDb, u: User, groupName: NameText) returns (found: bool)
    requires db.Valid() && u in db.users && !u.freed
    modifies u`group, u`groupName, db.groups`refs, db.groups`freed, db.groups`handles, db.groups`members
    ensures db.Valid()
    ensures found <==> groupName == "" || Fold(groupName) in db.GroupMap()
    ensures !found ==> u.group == old(u.group) && u.groupName == old(u.groupName)
    ensures found ==> u.group == NamedGroup(db, groupName)
                      && u.groupName == if u.group == null then None else Some(u.group.name)
    ensures forall g | g in db.groups :: g.handles == old(g.handles)
  {
    hide Sorted, Directory, Fold, HubDb.ListsOk, HubDb.AuthOk, HubDb.UserCountsOk;
    if |groupName| != 0 {
      var g := db.AcGetGroup(groupName);
      if g == null {
        return false;
      }
      hide HubDb.GroupCountsOk, HubDb.ListsOk, HubDb.MembersOk, HubDb.NamesOk, HubDb.LinksOk, HubDb.DeadOk, HubDb.AuthOk, HubDb.UserCountsOk;
      db.JoinUserToGroup(u, g);
      db.ReleaseListedGroup(g);
    } else {
      db.JoinUserToGroup(u, null);
    }
    return true;
  }

  method ChangeAuth(db: HubDb, u: User, t: RpcUser)
    requires db.AuthOk() && u in db.users && !u.freed && WellFormed(t)
    modifies db`auths, u`authType, u`authData, Block(u.authData)`freed
    ensures db.AuthOk()
    ensures old(db.DeadOk()) ==> db.DeadOk()
    ensures (u.authType, Observe(u).auth) == AuthAfter(old(u.authType), old(Observe(u).auth), t)
    ensures u.authData != old(u.authData) && old(u.authData) != null ==> old(u.authData).freed && !old(u.authData.freed)
    ensures db.auths == old(db.auths) + Block(u.authData) && (u.authData == old(u.authData) || fresh(Block(u.authData)))
  {
    var data := CopyAuthData(t.auth, t.authType);
    db.SetUserAuthData(u, t.authType, data);
  }

  method ChangeFields(db: HubDb, u: User, t: RpcUser, now: nat)
    requires db.AuthOk() && u in db.users && !u.freed && WellFormed(t)
    requires u.groupName == if u.group == null then None else Some(u.group.name)
    modifies db`auths, u`realName, u`note, u`authType, u`authData, u`expireTime, u`updatedTime, u`policy
    modifies Block(u.authData)`freed
    ensures db.AuthOk()
    ensures old(db.DeadOk()) ==> db.DeadOk()
    ensures Observe(u) == AfterSet(old(Observe(u)), t, u.group, now)
    ensures u.authData != old(u.authData) && old(u.authData) != null ==> old(u.authData).freed && !old(u.authData.freed)
    ensures db.auths == old(db.auths) + Block(u.authData) && (u.authData == old(u.authData) || fresh(Block(u.authData)))
  {
    hide Sorted, Directory, AuthAfter, Overwrite, WellFormed;
    hide HubDb.AuthOk, HubDb.DeadOk;
    u.realName, u.note := t.realName, t.note;
    ChangeAuth(db, u, t);
    u.expireTime, u.updatedTime := t.expireTime, now;
    u.policy := Overwrite(u.policy, t.policy);
  }

  /** The work of StSetUser on the user found, under the user's lock. */
  method SetFoundUser(db: HubDb, u: User, t: RpcUser, now: nat) returns (found: bool)
    requires db.Valid() && u in db.users && !u.freed && WellFormed(t) && Block(u.authData) <= db.auths
    requires u.groupName == if u.group == null then None else Some(u.group.name)
    modifies db`auths, u`group, u`groupName, u`realName, u`note, u`authType, u`authData
    modifies u`expireTime, u`updatedTime, u`policy
    modifies db.groups`refs, db.groups`freed, db.groups`handles, db.groups`members, Block(u.authData)`freed
    ensures db.Valid()
    ensures found <==> t.groupName == "" || Fold(t.groupName) in db.GroupMap()
    ensures Observe(u) == if found then AfterSet(old(Observe(u)), t, NamedGroup(db, t.groupName), now)
                          else old(Observe(u))
    ensures forall g | g in db.groups :: g.handles == old(g.handles)
    ensures u.authData != old(u.authData) && old(u.authData) != null ==> old(u.authData).freed && !old(u.authData.freed)
    ensures db.auths == old(db.auths) + Block(u.authData) && (u.authData == old(u.authData) || fresh(Block(u.authData)))
  {
    hide Sorted, Directory, AuthAfter, Fold, NamedGroup;
    hide HubDb.GroupCountsOk, HubDb.ListsOk, HubDb.MembersOk, HubDb.NamesOk, HubDb.LinksOk, HubDb.DeadOk, HubDb.AuthOk, HubDb.UserCountsOk;
    found := ChangeGroup(db, u, t.groupName);
    if found {
      ChangeFields(db, u, t, now);
    }
  }

  /** What StSetUser promises about the user itself, field by field, given what the user had before. */
  ghost predicate SetTo(db: HubDb, u: User, t: RpcUser, now: nat, oldType: AuthType, oldAuth: Option<AuthValue>,
                        oldPolicy: Option<PolicyWords>)
    reads db`groupList, u, Block(u.authData)
  {
    && u.realName == t.realName && u.note == t.note && u.expireTime == t.expireTime && u.updatedTime == now
    && u.group == (if t.groupName == "" || Fold(t.groupName) !in db.GroupMap() then null else db.GroupMap()[Fold(t.groupName)])
    && u.groupName == (if u.group == null then None else Some(u.group.name))
    && HoldsNewPolicy(oldPolicy, t.policy, u.policy)
    && (if t.authType.Anonymous? then u.authType.Anonymous? && u.authData == null
        else if t.auth.None? || t.authType.OtherType? then u.authType == oldType && AuthOf(u) == oldAuth
        else u.authType == t.authType && u.authData != null && HoldsNewAuth(oldAuth, t.auth.value, u.authData.value))
  }

  /** An update seen as a whole is one field by field. */
  lemma ViewIsSet(db: HubDb, u: User, t: RpcUser, now: nat, was: UserView)
    requires Observe(u) == AfterSet(was, t, NamedGroup(db, t.groupName), now) && WellFormed(t)
    requires was.auth.Some? ==> Matches(was.authType, was.auth.value)
    ensures SetTo(db, u, t, now, was.authType, was.auth, was.policy) && u.numLogin == was.numLogin
  {
    SetStoresTheRequest(was, t, NamedGroup(db, t.groupName), now);
    hide AfterSet, HoldsNewAuth, HoldsNewPolicy;
  }

  method StSetUser(db: HubDb, t: RpcUser, env: Env) returns (ret: RetCode)
    requires db.Valid() && WellFormed(t)
    modifies db`auths, db.users, db.auths`freed
    modifies db.groups`refs, db.groups`freed, db.groups`handles, db.groups`members
    ensures db.Valid()
    ensures forall u | u in db.users :: u.handles == old(u.handles)
    ensures forall g | g in db.groups :: g.handles == old(g.handles)
    ensures ret.NoError? <==> CheckUser(t, env, false).NoError? && Fold(t.name) in db.UserMap()
                              && (t.groupName == "" || Fold(t.groupName) in db.GroupMap())
    ensures forall u | u in db.users ::
              Observe(u) == if ret.NoError? && u == db.UserMap()[Fold(t.name)]
                            then AfterSet(old(Observe(u)), t, NamedGroup(db, t.groupName), env.now)
                            else old(Observe(u))
    ensures ret.NoError? ==> forall u | u in db.users && u == db.UserMap()[Fold(t.name)] ::
              SetTo(db, u, t, env.now, old(u.authType), old(AuthOf(u)), old(u.policy)) && u.numLogin == old(u.numLogin)
    ensures forall u | u in db.users && old(u.authData) != null && u.authData != old(u.authData) ::
              old(u.authData).freed && !old(u.authData.freed)
    ensures fresh(db.auths - old(db.auths))
  {
    hide Sorted, Directory, IsEmptyStr, CheckUser, AfterSet, NamedGroup, Fold, WellFormed, StoredAuth, CopyAuthValue, Matches;
    hide HubDb.GroupCountsOk, HubDb.ListsOk, HubDb.MembersOk, HubDb.NamesOk, HubDb.LinksOk, HubDb.DeadOk, HubDb.AuthOk, HubDb.UserCountsOk;
    ret := CheckUser(t, env, false);
    if !ret.NoError? {
      return;
    }
    var u := db.AcGetUser(t.name);
    if u == null {
      return ObjectNotFound;
    }
    var found := SetListedUser(db, u, t, env.now);
    if !found {
      ret := GroupNotFound;
    }
  }

  method SetListedUser(db: HubDb, u: User, t: RpcUser, now: nat) returns (found: bool)
    requires db.Valid() && WellFormed(t) && u in db.users && u in db.userList && u.handles >= 1
    modifies db`auths, u, db.auths`freed
    modifies db.groups`refs, db.groups`freed, db.groups`handles, db.groups`members
    ensures db.Valid()
    ensures found <==> t.groupName == "" || Fold(t.groupName) in db.GroupMap()
    ensures Observe(u) == if found then AfterSet(old(Observe(u)), t, NamedGroup(db, t.groupName), now)
                          else old(Observe(u))
    ensures forall g | g in db.groups :: g.handles == old(g.handles)
    ensures u.authData != old(u.authData) && old(u.authData) != null ==> old(u.authData).freed && !old(u.authData.freed)
    ensures u.handles == old(u.handles) - 1
    ensures fresh(db.auths - old(db.auths))
    ensures found ==> SetTo(db, u, t, now, old(u.authType), old(AuthOf(u)), old(u.policy)) && u.numLogin == old(u.numLogin)
  {
    hide Sorted, Directory, AfterSet, NamedGroup, Fold, WellFormed;
    UserFacts(db, u);
    hide HubDb.GroupCountsOk, HubDb.ListsOk, HubDb.MembersOk, HubDb.NamesOk, HubDb.LinksOk, HubDb.DeadOk, HubDb.AuthOk, HubDb.UserCountsOk;
    ghost var was := Observe(u);
    found := SetFoundUser(db, u, t, now);
    db.ReleaseListedUser(u);
    hide SetTo;
    if found {
      ViewIsSet(db, u, t, now, was);
    }
  }

  /** What the invariant says about one listed user. */
  lemma UserFacts(db: HubDb, u: User)
    requires db.Valid() && u in db.userList
    ensures u in db.users && !u.freed && u.refs >= 1
    ensures u.groupName == if u.group == null then None else Some(u.group.name)
    ensures u.group != null ==> u.group in db.groupList
    ensures Block(u.authData) <= db.auths && (u.authData != null ==> !u.authData.freed && Matches(u.authType, u.authData.value))
    ensures u.authData == null <==> u.authType.Anonymous?
  {
  }

  // ---- Creating a user ----

  /** What decides a creation under the database lock. The capability never lets a full list through. */
  function CreateVerdict(count: nat, env: Env, taken: bool, groupKnown: bool): (ret: RetCode)
    ensures ret.NoError? ==> count < MAX_USERS && !taken
  {
    if count >= MaxUsersPerHub(env) || (env.maxUsers != 0 && count >= env.maxUsers) then TooManyUser
    else if env.serverFull then TooManyUsersCreated
    else if taken then UserAlreadyExists
    else if !groupKnown then GroupNotFound
    else NoError
  }

  lemma CreatesExactlyIf(count: nat, env: Env, taken: bool, groupKnown: bool)
    ensures CreateVerdict(count, env, taken, groupKnown).NoError? <==>
              && env.keepsUsers && count < 10000 && (env.maxUsers == 0 || count < env.maxUsers)
              && !env.serverFull && !taken && groupKnown
  {
  }

  /** The critical section of StCreateUser. The result of AcAddUser is not looked at, and need not be. */
  method AddCreatedUser(db: HubDb, u: User, t: RpcUser, env: Env) returns (ret: RetCode)
    requires db.Valid() && u in db.users && u.handles == 1 && !u.freed && u.group == null && u.name == t.name
    requires u !in db.userList
    modifies db`userList, u`group, u`groupName, db.users`refs, db.users`handles
    modifies db.groups`refs, db.groups`freed, db.groups`handles, db.groups`members
    ensures db.Valid()
    ensures ret == CreateVerdict(|old(db.userList)|, env, Fold(t.name) in old(db.UserMap()),
                                 t.groupName == "" || Fold(t.groupName) in db.GroupMap())
    ensures db.UserMap() == if ret.NoError? then old(db.UserMap())[Fold(t.name) := u] else old(db.UserMap())
    ensures u in db.userList <==> ret.NoError?
    ensures ret.NoError? ==> u.group == NamedGroup(db, t.groupName)
    ensures u.groupName == if u.group == null then None else Some(u.group.name)
    ensures forall v | v in db.users :: v.handles == old(v.handles)
    ensures forall g | g in db.groups :: g.handles == old(g.handles)
  {
    hide Sorted, Directory, Fold, NamedGroup, HubDb.UserMap, HubDb.GroupMap;
    NewUserNames(db, u);
    if |db.userList| >= MaxUsersPerHub(env) || (env.maxUsers != 0 && |db.userList| >= env.maxUsers) {
      return TooManyUser;
    }
    if env.serverFull {
      return TooManyUsersCreated;
    }
    hide HubDb.GroupCountsOk, HubDb.ListsOk, HubDb.MembersOk, HubDb.NamesOk, HubDb.LinksOk, HubDb.DeadOk, HubDb.AuthOk, HubDb.UserCountsOk;
    var taken := db.AcIsUser(t.name);
    if taken {
      return UserAlreadyExists;
    }
    var found := ChangeGroup(db, u, t.groupName);
    if !found {
      return GroupNotFound;
    }
    NamedGroupIsListed(db, t.groupName);
    var added := db.AcAddUser(u);
    assert added && u in multiset(db.userList);
    return NoError;
  }

  lemma NewUserNames(db: HubDb, u: User)
    requires db.NamesOk() && u in db.users
    ensures u.groupName == if u.group == null then None else Some(u.group.name)
  {
  }

  lemma NamedGroupIsListed(db: HubDb, groupName: NameText)
    ensures NamedGroup(db, groupName) != null ==> NamedGroup(db, groupName) in db.groupList
  {
    if groupName != "" && Fold(groupName) in db.GroupMap() {
      DirectoryValues(db.groupList, GroupName, Fold(groupName));
    }
  }

  /** The object for a request, not yet listed; there is none if the data for the type is missing. */
  method MakeUser(db: HubDb, t: RpcUser, now: nat) returns (u: User?)
    requires db.Valid() && WellFormed(t)
    modifies db`users, db`auths
    ensures db.Valid()
    ensures u == null <==> !t.authType.Anonymous? && CopyAuthValue(t.auth, t.authType).None?
    ensures u == null ==> db.users == old(db.users) && db.auths == old(db.auths)
    ensures u != null ==> fresh(u) && db.users == old(db.users) + {u} && db.auths == old(db.auths) + Block(u.authData)
    ensures u != null ==> u.name == t.name && u.handles == 1 && u !in db.userList && !u.freed && u.group == null
                          && Block(u.authData) <= db.auths && fresh(Block(u.authData))
                          && Observe(u) == CreatedView(t, null, now)
  {
    hide HubDb.GroupCountsOk, HubDb.ListsOk, HubDb.MembersOk, HubDb.NamesOk, HubDb.LinksOk, HubDb.DeadOk, HubDb.AuthOk, HubDb.UserCountsOk;
    var data := CopyAuthData(t.auth, t.authType);
    u := db.NewUser(t.name, t.realName, t.note, t.authType, data, now);
    if u != null {
      u.expireTime := t.expireTime;
      u.policy := Overwrite(None, t.policy);
    }
  }

  twostate lemma SameView(u: User)
    requires u.group == old(u.group) && u.groupName == old(u.groupName) && u.authType == old(u.authType)
    requires u.authData == old(u.authData) && (u.authData != null ==> u.authData.value == old(u.authData.value))
    requires unchanged(u`realName, u`note, u`updatedTime, u`expireTime, u`numLogin, u`policy)
    ensures Observe(u) == old(Observe(u))
  {
  }

  /** What a user that got listed looks like. */
  method ListCreated(db: HubDb, u: User, t: RpcUser, env: Env) returns (ret: RetCode)
    requires db.Valid() && u in db.users && u.handles == 1 && !u.freed && u.group == null && u.name == t.name
    requires u !in db.userList && Observe(u) == CreatedView(t, null, env.now)
    modifies db`userList, u`group, u`groupName, db.users`refs, db.users`handles
    modifies db.groups`refs, db.groups`freed, db.groups`handles, db.groups`members
    ensures db.Valid()
    ensures ret == CreateVerdict(|old(db.userList)|, env, Fold(t.name) in old(db.UserMap()),
                                 t.groupName == "" || Fold(t.groupName) in db.GroupMap())
    ensures db.UserMap() == if ret.NoError? then old(db.UserMap())[Fold(t.name) := u] else old(db.UserMap())
    ensures u in db.userList <==> ret.NoError?
    ensures ret.NoError? ==> Observe(u) == CreatedView(t, NamedGroup(db, t.groupName), env.now)
    ensures forall v | v in db.users :: v.handles == old(v.handles)
    ensures forall g | g in db.groups :: g.handles == old(g.handles)
  {
    hide Sorted, Directory, Fold, CreateVerdict, NamedGroup, CopyAuthValue;
    hide HubDb.GroupCountsOk, HubDb.ListsOk, HubDb.MembersOk, HubDb.NamesOk, HubDb.LinksOk, HubDb.DeadOk, HubDb.AuthOk, HubDb.UserCountsOk;
    ret := AddCreatedUser(db, u, t, env);
  }

  /** Tries to list the new user and hands back the creator's reference: a user that was not listed is
      cleaned up. */
  method ListOrFree(db: HubDb, u: User, t: RpcUser, env: Env) returns (ret: RetCode)
    requires db.Valid() && u in db.users && u.handles == 1 && !u.freed && u.group == null && u.name == t.name
    requires u !in db.userList && Block(u.authData) <= db.auths && Observe(u) == CreatedView(t, null, env.now)
    modifies db`userList, u, db.users`refs, db.users`handles, Block(u.authData)`freed
    modifies db.groups`refs, db.groups`freed, db.groups`handles, db.groups`members
    ensures db.Valid()
    ensures ret == CreateVerdict(|old(db.userList)|, env, Fold(t.name) in old(db.UserMap()),
                                 t.groupName == "" || Fold(t.groupName) in db.GroupMap())
    ensures db.UserMap() == if ret.NoError? then old(db.UserMap())[Fold(t.name) := u] else old(db.UserMap())
    ensures ret.NoError? ==> Observe(u) == CreatedView(t, NamedGroup(db, t.groupName), env.now)
    ensures u.handles == 0 && (u.freed <==> !ret.NoError?)
    ensures old(u.authData) != null ==> old(u.authData).freed == u.freed
    ensures forall v | v in db.users && v != u :: v.handles == old(v.handles)
    ensures forall g | g in db.groups :: g.handles == old(g.handles)
  {
    hide *;
    ret := ListCreated(db, u, t, env);
    label listed:
    db.HandBackUser(u);
    if ret.NoError? {
      SameView@listed(u);
    }
  }

  /** What a created user holds, field by field. */
  ghost predicate CreatedFrom(db: HubDb, u: User, t: RpcUser, now: nat)
    reads db`groupList, u, Block(u.authData)
  {
    && u.name == t.name && u.realName == t.realName && u.note == t.note && u.expireTime == t.expireTime
    && u.createdTime == now && u.updatedTime == now && u.numLogin == 0 && u.policy == t.policy
    && u.group == (if t.groupName == "" || Fold(t.groupName) !in db.GroupMap() then null else db.GroupMap()[Fold(t.groupName)])
    && u.groupName == (if u.group == null then None else Some(u.group.name))
    && u.authType == t.authType && (t.authType.Anonymous? ==> u.authData == null)
    && (!t.authType.Anonymous? ==> u.authData != null && t.auth == Some(u.authData.value))
  }

  lemma ViewIsCreated(db: HubDb, u: User, t: RpcUser, now: nat)
    requires Observe(u) == CreatedView(t, NamedGroup(db, t.groupName), now) && u.name == t.name
    requires !t.authType.Anonymous? ==> CopyAuthValue(t.auth, t.authType).Some?
    ensures CreatedFrom(db, u, t, now)
  {
  }

  method StCreateUser(db: HubDb, t: RpcUser, env: Env) returns (ret: RetCode, ghost created: User?)
    requires db.Valid() && WellFormed(t)
    modifies db`userList, db`users, db`auths, db.users`refs, db.users`handles
    modifies db.groups`refs, db.groups`freed, db.groups`handles, db.groups`members
    ensures db.Valid()
    ensures ret == if !CheckUser(t, env, true).NoError? then CheckUser(t, env, true)
                   else if !t.authType.Anonymous? && CopyAuthValue(t.auth, t.authType).None? then InternalError
                   else CreateVerdict(|old(db.userList)|, env, Fold(t.name) in old(db.UserMap()),
                                      t.groupName == "" || Fold(t.groupName) in db.GroupMap())
    ensures created != null <==> ret.NoError?
    ensures created == null ==> db.UserMap() == old(db.UserMap())
    ensures created != null ==> (created in db.users && fresh(created)
                                 && db.UserMap() == old(db.UserMap())[Fold(t.name) := created]
                                 && Observe(created) == CreatedView(t, NamedGroup(db, t.groupName), env.now)
                                 && CreatedFrom(db, created, t, env.now))
    ensures old(db.users) <= db.users && fresh(db.auths - old(db.auths))
    ensures forall a | a in db.auths && a !in old(db.auths) :: a.freed <==> created == null
    ensures forall u | u in db.users && u !in old(db.users) :: fresh(u) && u.handles == 0 && (u.freed <==> u != created)
    ensures forall u | u in old(db.users) :: u.handles == old(u.handles)
    ensures forall g | g in db.groups :: g.handles == old(g.handles)
  {
    hide Sorted, Directory, Fold, CreateVerdict, NamedGroup, CheckUser, Observe, CreatedFrom;
    hide HubDb.GroupCountsOk, HubDb.ListsOk, HubDb.MembersOk, HubDb.NamesOk, HubDb.LinksOk, HubDb.DeadOk, HubDb.AuthOk, HubDb.UserCountsOk;
    created := null;
    ret := CheckUser(t, env, true);
    if !ret.NoError? {
      return;
    }
    var u := MakeUser(db, t, env.now);
    if u == null {
      return InternalError, null;
    }
    ret := ListOrFree(db, u, t, env);
    created := if ret.NoError? then u else null;
    if ret.NoError? {
      ViewIsCreated(db, u, t, env.now);
    }
  }

  ghost function CreatedView(t: RpcUser, g: Group?, now: nat): UserView {
    UserView(t.realName, t.note, g, if g == null then None else Some(g.name), t.authType,
             CopyAuthValue(t.auth, t.authType), now, now, t.expireTime, 0, t.policy)
  }

  // ---- Deleting and groups ----

  method StDeleteUser(db: HubDb, name: NameText, env: Env) returns (ret: RetCode)
    requires db.Valid()
    modifies db`userList, db.users`refs, db.users`handles, db.users`freed
    modifies db.users`group, db.users`groupName, db.users`authType, db.users`authData
    modifies db.groups`refs, db.groups`freed, db.groups`members, db.auths`freed
    ensures db.Valid()
    ensures ret.NoError? <==> !IsEmptyStr(name) && env.nameAllowed && !env.refusedEarly && !env.refusedLate
                              && Fold(name) in old(db.UserMap())
    ensures db.UserMap() == if ret.NoError? then old(db.UserMap()) - {Fold(name)} else old(db.UserMap())
    ensures forall u | u in db.users :: u.handles == old(u.handles)
    ensures forall u | u in db.users && !(ret.NoError? && u == old(db.UserMap())[Fold(name)]) ::
              u.freed == old(u.freed) && Observe(u) == old(Observe(u))
    ensures ret.NoError? ==> forall u | u in db.users && u == old(db.UserMap())[Fold(name)] ::
              && (u.freed <==> old(u.handles) == 0) && (!u.freed ==> Observe(u) == old(Observe(u)))
              && forall a | a in db.auths :: a.freed == if a == old(u.authData) then u.freed else old(a.freed)
    ensures !ret.NoError? ==> forall a | a in db.auths :: a.freed == old(a.freed)
  {
    hide Sorted, Directory, Fold, IsEmptyStr;
    hide HubDb.GroupCountsOk, HubDb.ListsOk, HubDb.MembersOk, HubDb.NamesOk, HubDb.LinksOk, HubDb.DeadOk, HubDb.AuthOk, HubDb.UserCountsOk;
    if IsEmptyStr(name) || !env.nameAllowed {
      return InvalidParameter;
    }
    if env.refusedEarly || env.refusedLate {
      return Refused;
    }
    var ok := db.AcDeleteUser(name);
    ret := if ok then NoError else ObjectNotFound;
  }

  method StDeleteGroup(db: HubDb, name: NameText, env: Env) returns (ret: RetCode)
    requires db.Valid()
    modifies db`groupList, db.users`group, db.users`groupName
    modifies db.groups`refs, db.groups`handles, db.groups`freed, db.groups`members
    ensures db.Valid()
    ensures ret.NoError? <==> !IsEmptyStr(name) && env.nameAllowed && !env.refusedEarly && !env.refusedLate
                              && Fold(name) in old(db.GroupMap())
    ensures db.GroupMap() == if ret.NoError? then old(db.GroupMap()) - {Fold(name)} else old(db.GroupMap())
    ensures forall g | g in db.groups :: g.handles == old(g.handles)
    ensures !ret.NoError? ==> forall u | u in db.users :: u.group == old(u.group)
    ensures ret.NoError? ==> forall g, u | g in db.groups && g == old(db.GroupMap())[Fold(name)] && u in db.users ::
                               u.group == if u in db.userList && old(u.group) == g then null else old(u.group)
  {
    hide Sorted, Directory, Fold, IsEmptyStr;
    hide HubDb.GroupCountsOk, HubDb.ListsOk, HubDb.MembersOk, HubDb.NamesOk, HubDb.LinksOk, HubDb.DeadOk, HubDb.AuthOk, HubDb.UserCountsOk;
    if IsEmptyStr(name) || !env.nameAllowed {
      return InvalidParameter;
    }
    if env.refusedEarly || env.refusedLate {
      return Refused;
    }
    var ok := db.AcDeleteGroup(name);
    ret := if ok then NoError else ObjectNotFound;
  }

  /** The number of groups is compared with the capability for users, which is the same number. */
  function CreateGroupVerdict(count: nat, env: Env): (ret: RetCode)
    ensures ret.NoError? ==> count < MAX_GROUPS
  {
    if count >= MaxUsersPerHub(env) || (env.maxGroups != 0 && count >= env.maxGroups) then TooManyGroup else NoError
  }

  lemma CreatesGroupExactlyIf(count: nat, env: Env)
    ensures CreateGroupVerdict(count, env).NoError? <==>
              env.keepsUsers && count < 10000 && (env.maxGroups == 0 || count < env.maxGroups)
  {
  }

  method StCreateGroup(db: HubDb, t: RpcGroup, env: Env) returns (ret: RetCode, ghost created: Group?)
    requires db.Valid()
    modifies db`groupList, db`groups, db.groups`refs, db.groups`handles
    ensures db.Valid()
    ensures ret == if IsEmptyStr(t.name) || !env.nameAllowed then InvalidParameter
                   else if env.refusedEarly || env.refusedLate then Refused
                   else if Fold(t.name) in old(db.GroupMap()) then GroupAlreadyExists
                   else CreateGroupVerdict(|old(db.groupList)|, env)
    ensures created != null <==> ret.NoError?
    ensures created == null ==> db.GroupMap() == old(db.GroupMap())
    ensures created != null ==> (created in db.groups && fresh(created)
                                 && db.GroupMap() == old(db.GroupMap())[Fold(t.name) := created]
                                 && created.name == t.name && created.realName == t.realName
                                 && created.note == t.note && created.policy == t.policy)
    ensures old(db.groups) <= db.groups
    ensures forall g | g in db.groups && g !in old(db.groups) :: fresh(g) && g.handles == 0 && (g.freed <==> g != created)
    ensures forall g | g in old(db.groups) :: g.handles == old(g.handles)
  {
    hide Sorted, Directory, Fold, IsEmptyStr, CreateGroupVerdict;
    hide HubDb.GroupCountsOk, HubDb.ListsOk, HubDb.MembersOk, HubDb.NamesOk, HubDb.LinksOk, HubDb.DeadOk, HubDb.AuthOk, HubDb.UserCountsOk;
    created := null;
    if IsEmptyStr(t.name) || !env.nameAllowed {
      return InvalidParameter, null;
    }
    if env.refusedEarly || env.refusedLate {
      return Refused, null;
    }
    var taken := db.AcIsGroup(t.name);
    if taken {
      return GroupAlreadyExists, null;
    }
    NonEmptyName(t.name);
    var g := db.NewGroup(t.name, t.realName, t.note);
    g.policy := Overwrite(None, t.policy);
    ret := ListOrFreeGroup(db, g, env);
    created := if ret.NoError? then g else null;
  }

  /** Lists the new group unless there are too many, and hands back the creator's reference. */
  method ListOrFreeGroup(db: HubDb, g: Group, env: Env) returns (ret: RetCode)
    requires db.Valid() && g in db.groups && g.handles == 1 && g !in db.groupList && g.members == {}
    requires Fold(g.name) !in db.GroupMap()
    modifies db`groupList, db.groups`refs, db.groups`handles, g`freed
    ensures db.Valid()
    ensures ret == CreateGroupVerdict(|old(db.groupList)|, env)
    ensures db.GroupMap() == if ret.NoError? then old(db.GroupMap())[Fold(g.name) := g] else old(db.GroupMap())
    ensures g.handles == 0 && (g.freed <==> !ret.NoError?)
    ensures forall h | h in db.groups && h != g :: h.handles == old(h.handles)
  {
    hide Sorted, Directory, Fold;
    hide HubDb.GroupCountsOk, HubDb.ListsOk, HubDb.MembersOk, HubDb.NamesOk, HubDb.LinksOk, HubDb.DeadOk, HubDb.AuthOk, HubDb.UserCountsOk;
    ret := NoError;
    if |db.groupList| >= MaxUsersPerHub(env) || (env.maxGroups != 0 && |db.groupList| >= env.maxGroups) {
      ret := TooManyGroup;
    } else {
      var added := db.AcAddGroup(g);
      assert added && g in multiset(db.groupList);
    }
    db.HandBackGroup(g);
  }

  lemma NonEmptyName(name: NameText)
    requires !IsEmptyStr(name)
    ensures name != ""
  {
  }
}
