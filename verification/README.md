# Verified model of the VPN server's account database and administration protocol

A Dafny model of the parts of the Cedar library whose correctness rests on interplay rather than on
single functions: which threads may touch what and when, who owns which reference, what a list
refines, what survives a trip. `dafny verify dfyconfig.toml` checks everything.

**The VPN Azure client** (`AzureProtocol`, `AzureSafety`, `AzureTheorems`, `AzureBackoff`,
`AzureSession`, `AzureDisable`, `AzureSetting`, `AzureRetry`, `AzureClient`). One main thread and any
number of configuration threads. Each critical section, each unlocked access to `Halt` or `IsEnabled` and
each blocking socket operation is one atomic step of a state machine; `AzureClient` gives the critical
sections as methods on the object's fields, each proved to be exactly one step.

**The account database of a hub** (`NameList`, `Policy`, `Account`, `AccountAdmin`, `AccountRuns`).
Users, groups and authentication data are heap objects with explicit counts and freed flags, in
name-sorted lists; the handlers for users and groups run on them. Ghost fields record the members of
a group and the references that callers at work hold. Every operation keeps one invariant: sorted
lists that refine a map keyed by case-folded name, exact counts, ownership, referential integrity.

**Data movement of the administration service.** `ServerSideInclude`, `Paths`, `PathLaws` and
`IncludeLaws`: the page expander against a grammar of pages, with the path arithmetic of its directives and
what it means for the components of a path. `AccessList`: access lists as PACK columns. `SessionGathering`:
sessions of a cluster while its member list changes. `LogDownload`: log files in blocks while the server
writes them. `HubEnumeration`: count, then fill, under the hub locks.

**The local bridge table** (`BridgeProtocol`, `BridgeSafety`, `BridgeTheorems`, `BridgeStop`,
`LocalBridges`). The two-phase add races with deletion and with hubs that are switched on and off line
or stopped.

What the proofs found, each stated by a member below:

- A client that is disabled between the main thread's test of the flag and its publication is served
  on, although the disabling call has finished; only the host name is compared again
  (`DisableCanBeMissed`, and exactly when a disabling call works: `DisableWorksExactlyIf`).
- A new proxy setting is missed in the same way between the snapshot and the publication
  (`SettingCanBeMissed`, and exactly when it takes effect: `SettingWorksExactlyIf`).
- The retry interval is 0 when the 32-bit retry counter wraps (`IntervalInRangeUnlessWrapped`,
  `IntervalCanBeZero`); that takes more than 244,000 years (`WrapTakesAges`).
- `StopHub` writes the off-line flag back without the lock. A hub stopped while on line is on line again
  without its bridges (`StopLosesBridge`, exactly when: `StoppingAlone`), and a hub that another thread
  has just switched on can end off line with its bridges running (`StopUndoesOnline`). When the write
  is harmless: `RestoreWorksExactlyIf`.
- The size of a log file is truncated to 32 bits before it is compared with the 32-bit maximum, so of
  a file of 4 GiB or more only its size modulo 2^32 arrives, and nothing of one whose size is a
  multiple of 2^32 (`UnchangedFileArrivesWhole`).
- Deleting a local bridge ignores the tap mode, so one call clears a hub and device only if it has no
  entry in each mode (`OneDeleteIsEnough`, and that it can have both: `BothModesHappen`).

Conventions. Locks of the library are re-entrant and mutually exclusive; a new object has one
reference; a freed object's identity is never used again. `StrCmpi` and the list operations are
modelled as the library implements them. Numbers are unbounded except where the code's width matters
(retry counter, ticks, file sizes, hub counters, PACK integers), where the wrap is written out. The
straight-line code of `OutRpcAccessEx` is cut into consecutive pieces.
`StEnumHub` locks hubs whose name and option pointer never change; all other fields of a hub may be
changed by other threads at any time and are sampled when they are read.

## Model

| member | source | states |
|---|---|---|
| `AzureTheorems.NeverServesStaleHost` | src/Cedar/AzureClient.c:418-440 | In every run of the main thread with any number of configuration threads: while it serves, its registered host name equals the current one ignoring case, or its socket is disconnected, or some thread holds a reference and is about to disconnect it |
| `AzureTheorems.NextStepDisconnects` | src/Cedar/AzureClient.c:597-602 | A thread counted as about to disconnect a socket does so in its very next step |
| `AzureTheorems.DisconnectedSessionEnds` | src/Cedar/AzureClient.c:116-250 | A session on a disconnected socket is over within two steps of the main thread, whatever other threads do in between |
| `AzureDisable.DisableWorksExactlyIf` | src/Cedar/AzureClient.c:282-425 | For every run and every disabling call that is about to take the lock, with nobody switching the client on again: in every continuation nobody is served any more unless cut off, if and only if at that moment the main thread is not on its way from the test of the flag to a publication that what it has read allows |
| `AzureDisable.DisablingSwitchesOff` | src/Cedar/AzureClient.c:581-594 | Outside that stretch the call leaves the client switched off: whatever is published is about to be disconnected or will meet the halt flag |
| `AzureDisable.StepStaysSwitchedOff` | src/Cedar/AzureClient.c:277-497 | No step of any thread, short of switching on again, ends that state |
| `AzureDisable.RunStaysSwitchedOff` | src/Cedar/AzureClient.c:277-497 | So no run does |
| `AzureDisable.MissedFrom` | src/Cedar/AzureClient.c:282-440 | From every state inside that stretch some run gets the client served on a socket that nobody will disconnect, the flag cleared all the while |
| `AzureDisable.ReachPublication` | src/Cedar/AzureClient.c:289-371 | From every such state some run reaches the publication |
| `AzureDisable.ReachService` | src/Cedar/AzureClient.c:371-440 | From a publication under the current name the main thread reaches the serving loop alone |
| `AzureDisable.StepKeepsPrivate` | src/Cedar/AzureClient.c:353-371 | A socket that is not published yet is known to nobody but the main thread |
| `AzureDisable.MissedCallReturns` | src/Cedar/AzureClient.c:581-605 | A call that comes too early has nothing to disconnect and is finished |
| `AzureDisable.DisableCanBeMissed` | src/Cedar/AzureClient.c:282-425 | And it happens: from every start a run in which the client is switched on and off again, all calls are finished, and the main thread is served on |
| `AzureDisable.ServeFrom` | src/Cedar/AzureClient.c:371-440 | From a publication on, a configuration with the host name that was read is all it takes to be served on a socket that nobody will disconnect |
| `AzureSetting.SettingWorksExactlyIf` | src/Cedar/AzureClient.c:289-440 | For every run and every call that is about to take the lock with a new proxy setting, with nobody changing the setting again: in every continuation nobody is served with another setting any more unless cut off, if and only if at that moment the main thread is not between a snapshot with another setting and a publication that what it has read allows |
| `AzureSetting.ChangingSettles` | src/Cedar/AzureClient.c:572-594 | Outside that stretch the call leaves whatever is published with another setting about to be disconnected, or to meet the halt flag |
| `AzureSetting.StepStaysSettled` | src/Cedar/AzureClient.c:277-497 | No step of any thread, short of another setting, ends that state |
| `AzureSetting.RunStaysSettled` | src/Cedar/AzureClient.c:277-497 | So no run does |
| `AzureSetting.SettingMissedFrom` | src/Cedar/AzureClient.c:312-440 | From every state inside that stretch some run gets the client served with the old setting, on a socket that nobody will disconnect |
| `AzureSetting.SettingCanBeMissed` | src/Cedar/AzureClient.c:291-371 | And it happens: from every start a run in which the setting is changed right after a snapshot and the main thread is served with the old one |
| `AzureTheorems.PublicationIsConsistent` | src/Cedar/AzureClient.c:371-377 | In every run `IsConnected`, `CurrentSock` and `ConnectingAzureIp` agree whenever the lock is free, and a published socket is alive and counted for the main thread |
| `AzureTheorems.NoSocketUsedAfterFree` | src/Cedar/AzureClient.c:587-602 | In every run no thread touches a freed socket, each count equals the number of holders, and a socket is freed exactly when nobody holds it |
| `AzureTheorems.AllSocketsReleased` | src/Cedar/AzureClient.c:474-475 | Once the main thread has stopped and no call holds a socket, every socket ever opened is disconnected and freed |
| `AzureTheorems.FreeCutsOffService` | src/Cedar/AzureClient.c:617-640 | After the critical section of `FreeAzureClient` the main thread serves only on a socket that is disconnected or about to be, and the call returns only when the main thread has stopped |
| `AzureTheorems.AtMostOnePublicationAfterHalt` | src/Cedar/AzureClient.c:494-497 | After `Halt` is set at most one socket is still published in any continuation, and none unless the thread was already between the loop test and the publication |
| `AzureTheorems.MainStopsAfterHalt` | src/Cedar/AzureClient.c:277-497 | After `Halt` is set nineteen steps of the main thread suffice to stop it, from any state |
| `AzureTheorems.IntervalInRangeUnlessWrapped` | src/Cedar/AzureClient.c:323-339 | The computed interval lies between 500 and 3600000 ms if and only if the 32-bit retry counter does not wrap to zero; when it wraps the interval is 0 |
| `AzureTheorems.BackoffIsQuadratic` | src/Cedar/AzureClient.c:323-339 | In every run, from the last reset of the counter on, the k-th firing comes at least 250*k*(k-1) ms after the first for k up to 3600, and the 64-bit sum does not overflow; what resets the counter is `TimerChangesExactlySo` |
| `AzureBackoff.BackoffSpansSessions` | src/Cedar/AzureClient.c:277-480 | However many sessions fail in between: in every run from any moment on without an event that resets the back-off, the k-th firing of the timer from then on comes at least 250*k*(k-1) ms after the first, for k up to 3600 |
| `AzureBackoff.TimerChangesExactlySo` | src/Cedar/AzureClient.c:289-339 | From any state, any step of any thread resets the back-off exactly if the snapshot finds a new relay address or host name, the address revision has changed, the client is switched off, or the session that has just ended had lasted an hour; what exactly each resets; a firing counts up and is recorded; nothing else touches the timer |
| `AzureBackoff.EstablishedWhenServed` | src/Cedar/AzureClient.c:434-438 | A session counts as established from the tick at which it begins to be served, and not before |
| `AzureBackoff.AttemptsAreFirings` | src/Cedar/AzureClient.c:323-343 | In every run without such an event each attempt to connect takes a firing of its own, but for one that may be under way |
| `AzureBackoff.AttemptsBackOff` | src/Cedar/AzureClient.c:277-480 | So m attempts more than that one take at least 250*m*(m-1) ms, however each session ends |
| `AzureBackoff.ConnectsExactlyWhenAsked` | src/Cedar/AzureClient.c:282-343 | A pass connects exactly if it has seen a new address, host name or address revision or the timer has fired, and there are an address and a host name; what it has seen once counts as seen |
| `AzureBackoff.WaitsAreThese` | src/Cedar/AzureClient.c:327-336 | The waits that the timer may choose after n firings are exactly those from half of min(1000*n, 3600000) ms up to, but not including, the whole, or 0 if the counter has wrapped |
| `AzureSession.ServedExactlyIfAllWorked` | src/Cedar/AzureClient.c:353-440 | In every run the client is served exactly if, since the last attempt to connect, the relay accepted, the parameters arrived, the host name was still the current one, the registration was answered and the client not halted, and no exchange has failed since |
| `AzureSession.StepKeepsPlace` | src/Cedar/AzureClient.c:353-440 | No step of any thread takes the main thread further into a session, or out of it, otherwise |
| `AzureTheorems.SumOfWaits` | src/Cedar/AzureClient.c:323-339 | The same bound from what the timer history keeps, by induction on the firings |
| `AzureTheorems.BackoffBeyondCap` | src/Cedar/AzureClient.c:331-332 | Past the cap the firings stay at least half an hour apart |
| `AzureRetry.IntervalCanBeZero` | src/Cedar/AzureClient.c:323-339 | There is a run whose interval is 0: the client is switched on, never gets an address, and the timer fires 2^32 times |
| `AzureRetry.WrapTakesAges` | src/Cedar/AzureClient.c:323-339 | In every run, when the counter is about to wrap for the first time, more than 244000 years have passed |
| `AzureRetry.Rounds` | src/Cedar/AzureClient.c:277-339 | Without an address the loop raises the counter by one an hour, as often as one likes |
| `AzureRetry.Pass` | src/Cedar/AzureClient.c:282-342 | One pass through the loop without an address fires the timer once it is due and changes nothing else |
| `AzureSafety.StepKeepsInv` | src/Cedar/AzureClient.c:256-517 | Every step of every thread keeps the protocol invariant: agreement of the fields, exact counts, host and halt guards, exact timer |
| `AzureSafety.RunKeepsInv` | src/Cedar/AzureClient.c:256-517 | Every run from a state with the invariant keeps it |
| `AzureSafety.EveryRunSafe` | src/Cedar/AzureClient.c:256-517 | The invariant holds, and no fault has happened, after every run from a new client |
| `AzureSafety.MainKeepsCounts` | src/Cedar/AzureClient.c:371-475 | Each step of the main thread keeps every socket count equal to its number of holders |
| `AzureSafety.CallerKeepsCounts` | src/Cedar/AzureClient.c:587-602 | Each step of a configuration thread does |
| `AzureSafety.MainKeepsHostGuard` | src/Cedar/AzureClient.c:418-440 | Publish before the second comparison: what the main thread keeps of the host-name guard |
| `AzureSafety.CallerKeepsGuards` | src/Cedar/AzureClient.c:562-595 | Compare and grab in one critical section: what the changer keeps of both guards |
| `AzureSafety.MainKeepsTimer` | src/Cedar/AzureClient.c:323-339 | A firing of the retry timer keeps the history exact: waits, interval range and counter |
| `AzureClient.Client.TakeSnapshot` | src/Cedar/AzureClient.c:289-312 | The section as code on the fields and locals: with any other threads and at any time, the whole state it leaves is the one the protocol step leads to |
| `AzureClient.Client.PollTimer` | src/Cedar/AzureClient.c:323-339 | The same for the turn of the retry timer |
| `AzureClient.Client.PublishSock` | src/Cedar/AzureClient.c:371-377 | The same for the publication |
| `AzureClient.Client.RecheckHostName` | src/Cedar/AzureClient.c:418-425 | The same for the second comparison of the host name, whose outcome decides in the protocol whether the name is registered |
| `AzureClient.Client.UnpublishSock` | src/Cedar/AzureClient.c:455-461 | The same for taking the publication back |
| `AzureClient.Client.ReleaseOwnSock` | src/Cedar/AzureClient.c:474-475 | The same for the release of the main thread's own reference |
| `AzureClient.Client.ApplyCurrentConfig` | src/Cedar/AzureClient.c:558-596 | The changer's section, for a new configuration or a new flag, is exactly the caller's step of the protocol |
| `AzureClient.Client.GrabForFree` | src/Cedar/AzureClient.c:619-628 | So is the section of `FreeAzureClient` |
| `AzureClient.Client.DisconnectGrabbedSock` | src/Cedar/AzureClient.c:598-600 | So is disconnecting what was grabbed, outside the lock |
| `AzureClient.Client.ReleaseGrabbedSock` | src/Cedar/AzureClient.c:601-602 | So is its release |
| `Text.StrCmpiZeroMeansSameName` | src/Mayaqua/Str.c:3612-3650 | The three-way comparison is zero exactly for names equal ignoring case |
| `Text.StrCmpiTransitive` | src/Mayaqua/Str.c:3612-3650 | It is transitive, as sorting needs |
| `Text.SameNameIgnoresCase` | src/Mayaqua/Str.c:3612-3650 | Two names are the same exactly if they are equally long and differ at most in the case of ASCII letters |
| `Text.StrCmpiIsAlphabetical` | src/Mayaqua/Str.c:3612-3650 | The order is decided at the first place where two names differ in more than case; a name sorts behind its own beginnings |
| `Text.StartsAndEnds` | src/Mayaqua/Str.c:2286-2353 | Beginnings and ends are compared ignoring case; nothing begins with the empty key |
| `NameList.FindSlot` | src/Mayaqua/Memory.c:1927-1986 | The binary search finds an entry exactly if the map keyed by folded names has it, and otherwise a place that keeps the list sorted |
| `NameList.Insert` | src/Mayaqua/Memory.c:1927-2002 | Insertion of a new name extends the map by it, keeps the order, adds one element |
| `NameList.Delete` | src/Mayaqua/Memory.c:2313-2353 | Deletion by identity removes exactly that key and that element |
| `NameList.InsertExtendsDirectory` | src/Mayaqua/Memory.c:1983-1998 | An insertion that keeps the order is a map update |
| `NameList.RemoveShrinksDirectory` | src/Mayaqua/Memory.c:2331-2335 | Removing one element is a map removal |
| `Policy.OverwriteClosedForm` | src/Cedar/Account.c:452-495 | After the last erase and any later calls, the first 22 words are the most recent policy's and all others those of the most recent base: the last policy of version 3, or the first one |
| `Policy.OverwriteFromEmpty` | src/Cedar/Account.c:452-495 | The same for calls on an empty target |
| `Policy.OverwriteWithSelf` | src/Cedar/Account.c:452-495 | Writing back the policy that was read changes nothing |
| `Policy.OverwriteAppends` | src/Cedar/Account.c:452-495 | A sequence of calls may be cut anywhere |
| `Policy.ClonePolicy` | src/Cedar/Account.c:436-449 | A fresh block with the same 39 words |
| `Policy.OverwritePolicy` | src/Cedar/Account.c:452-495 | The code on heap blocks leaves what the specification says, and never shares a block with its argument |
| `Account.HubDb.NewUser` | src/Cedar/Account.c:1273-1303 | A user with count 1 that owns its data; none if the type needs data and there is none |
| `Account.HubDb.NewGroup` | src/Cedar/Account.c:1347-1366 | A group with count 1 |
| `Account.HubDb.ReleaseGroup` | src/Cedar/Account.c:1306-1344 | One reference less; freed exactly when none is left |
| `Account.HubDb.ReleaseUser` | src/Cedar/Account.c:1173-1185 | One reference less; the last one cleans up, frees the data once and releases the group once |
| `Account.HubDb.HandBackUser` | src/Cedar/Account.c:1173-1185 | A caller's release keeps the whole invariant and frees the user exactly if it is not listed and nobody else holds it |
| `Account.HubDb.HandBackGroup` | src/Cedar/Account.c:1306-1318 | A caller's release frees the group exactly if it is not listed, has no members and nobody else holds it |
| `Account.HubDb.CleanupUser` | src/Cedar/Account.c:1188-1218 | Cleaning up frees the data, gives back exactly one reference to the user's group, and touches no other count |
| `Account.HubDb.FreeAuthData` | src/Cedar/Account.c:1221-1270 | Frees the structure that the type says is there, and none for anonymous users |
| `Account.HubDb.JoinUserToGroup` | src/Cedar/Account.c:923-972 | For a caller that holds its own reference to the new group: pointer, name and counts move together, the old group loses one, the new gains one, re-joining the same group included |
| `Account.HubDb.LeaveGroup` | src/Cedar/Account.c:959-970 | A user that leaves gives back one reference and loses pointer and name together |
| `Account.HubDb.EnterGroup` | src/Cedar/Account.c:947-950 | A user that enters takes one reference and the group's name |
| `Account.HubDb.AcGetUser` | src/Cedar/Account.c:1036-1054 | Finds a user exactly if the map keyed by folded names has it, and adds one reference |
| `Account.HubDb.AcGetGroup` | src/Cedar/Account.c:1015-1033 | The same for groups |
| `Account.HubDb.AcIsUser` | src/Cedar/Account.c:995-1012 | True exactly if the name is in the map; no reference stays behind |
| `Account.HubDb.AcIsGroup` | src/Cedar/Account.c:975-992 | The same for groups |
| `Account.HubDb.AcAddUser` | src/Cedar/Account.c:1148-1170 | Succeeds exactly if the list is below its maximum and the name absent in any letter case; then the map gains exactly that key and the list that element |
| `Account.HubDb.AcAddGroup` | src/Cedar/Account.c:1123-1145 | The same for groups |
| `Account.HubDb.AcDeleteUser` | src/Cedar/Account.c:1057-1080 | Succeeds exactly if the name is there; removes exactly that key, and frees the user and its data exactly if nobody else holds it; every other user, listed or not, keeps group, type and data |
| `Account.HubDb.DropListedUser` | src/Cedar/Account.c:1072-1077 | Both the list's and the look-up's reference are handed back |
| `Account.HubDb.AcDeleteGroup` | src/Cedar/Account.c:1083-1120 | Removes exactly that key; every listed member leaves the group, all other memberships stay, and the invariant with referential integrity holds again |
| `Account.HubDb.SweepMembers` | src/Cedar/Account.c:1104-1115 | The sweep over all users makes exactly the listed members of that group leave it |
| `Account.HubDb.UnlistGroup` | src/Cedar/Account.c:1099-1102 | Between delisting and sweep all but that group's members are still linked to listed groups |
| `Account.HubDb.SetUserAuthData` | src/Cedar/Account.c:801-842 | Stores the request's type, key, certificate or names and frees the old data, or does nothing if data is missing; the NTLM hash stored is the old one exactly if both are passwords with equal keys and the request's hash is zero, and else the request's |
| `Account.HubDb.MembersAre` | src/Cedar/Account.c:947-950 | The members of a group are exactly the users that point to it |
| `Account.HubDb.SameLinksSameCounts` | src/Cedar/Account.c:923-972 | Between two quiet states, unchanged pointers and handles mean unchanged group counts |
| `Account.HubDb.ReferencedGroupIsAlive` | src/Cedar/Account.c:1306-1344 | A group that is listed, held or pointed to is not freed |
| `AccountAdmin.CopyAuthData` | src/Cedar/Account.c:740-798 | A fresh deep copy, or none for anonymous and unknown types |
| `AccountAdmin.StGetUser` | src/Cedar/Admin.c:6048-6126 | Succeeds exactly for a permitted request for an existing name; each field of the reply is that of the user; leaves all counts as they were |
| `AccountAdmin.StSetUser` | src/Cedar/Admin.c:6129-6259 | Succeeds exactly if the checks pass, the user exists and the named group, if any, does; then exactly that user holds the request's names, note, expiry, group, authentication data (the NTLM hash of an unchanged password may stay) and policy (the words after the 22nd stay if the request is of version 2), the replaced data is freed once; otherwise nothing observable changes |
| `AccountAdmin.SetStoresTheRequest` | src/Cedar/Admin.c:6208-6240 | Field by field: what a user holds after a request, and what of the old user stays |
| `AccountAdmin.ViewIsSet` | src/Cedar/Admin.c:6208-6240 | A user that looks as specified holds the request, said of its own fields and data |
| `AccountAdmin.PassesExactlyIf` | src/Cedar/Admin.c:6139-6197 | The checks pass exactly for a name that is not blank and is allowed, with the rights, without an authentication type that is switched off, with RADIUS or NT for the user "*", and with a compatible certificate where one is needed |
| `AccountAdmin.ChangeGroup` | src/Cedar/Admin.c:6210-6227 | The group change of a request: found exactly if empty or listed, pointer and name agree, no handle stays behind |
| `AccountAdmin.SetFoundUser` | src/Cedar/Admin.c:6208-6242 | An unknown group leaves the user untouched |
| `AccountAdmin.SetOfGetIsIdentity` | src/Cedar/Admin.c:6089-6121 | What was read, blanked NTLM hash or not, changes nothing but the update time when applied |
| `AccountAdmin.StCreateUser` | src/Cedar/Admin.c:6262-6397 | The exact result code; success if and only if the user is now listed, and then each of its fields and its data are the request's; otherwise the map is as before and the user, if made, is freed with its data |
| `AccountAdmin.CreateVerdict` | src/Cedar/Admin.c:6350-6373 | What passes the limit, which is the list's own maximum or zero, never meets a full list or a taken name, so the unchecked addition cannot fail |
| `AccountAdmin.CreatesExactlyIf` | src/Cedar/Admin.c:6350-6373 | Exactly when a user is created: the edition keeps users, there are fewer than 10000 and than the hub's own limit, the server is not full, the name is free and the named group exists |
| `AccountAdmin.AddCreatedUser` | src/Cedar/Admin.c:6348-6390 | The critical section of creation: group first, then the list, which takes the user exactly on success |
| `AccountAdmin.ListOrFree` | src/Cedar/Admin.c:6348-6392 | Creation hands back its own reference, so the user is freed exactly if it was not listed |
| `AccountAdmin.ListCreated` | src/Cedar/Admin.c:6348-6387 | A created user that got listed has the fields of the request and the named group |
| `AccountAdmin.MakeUser` | src/Cedar/Admin.c:6337-6346 | The unlisted object carries every field of the request, or there is none if data is missing |
| `AccountAdmin.StDeleteUser` | src/Cedar/Admin.c:5992-6045 | Succeeds exactly for a permitted, existing name; removes exactly that key; the user and its data are freed exactly if nobody else holds it; no other user changes in any field |
| `AccountAdmin.StDeleteGroup` | src/Cedar/Admin.c:5633-5689 | Succeeds exactly for a permitted, existing name; exactly the listed members of that group leave it |
| `AccountAdmin.StCreateGroup` | src/Cedar/Admin.c:5833-5908 | The exact result code; success if and only if the group is now listed with all fields of the request; otherwise the map is as before and the group, if made, is freed |
| `AccountAdmin.CreateGroupVerdict` | src/Cedar/Admin.c:5886-5890 | The same for groups, whose number is compared with the limit for users: the two maxima are equal |
| `AccountAdmin.CreatesGroupExactlyIf` | src/Cedar/Admin.c:5886-5890 | Exactly when a group of a free name is created |
| `AccountAdmin.ListOrFreeGroup` | src/Cedar/Admin.c:5886-5898 | The new group is listed or freed, and the creator's reference handed back |
| `AccountRuns.StEnumGroup` | src/Cedar/Admin.c:5572-5625 | One row a group: its names, note, whether its policy denies access, and how many listed users point to it; all rows together with the users of no group account for every listed user |
| `AccountRuns.OccurrencesPartition` | src/Cedar/Admin.c:5603-5622 | Every listed user is counted for exactly one group or for none |
| `AccountRuns.GroupRow` | src/Cedar/Admin.c:5584-5622 | The inner loop counts the users that point to the group |
| `AccountRuns.OccurrencesAreIndices` | src/Cedar/Admin.c:5608-5620 | What the loop counts is the number of places in the user list whose user points to the group |
| `AccountRuns.RowDescribes` | src/Cedar/Admin.c:5590-5622 | So each field of a row is what the group and the user list say |
| `AccountRuns.ReapplyUser` | src/Cedar/Admin.c:6129-6259 | Setting a user to exactly what was read, blanked or not: if it succeeds only the update time changes, of that user alone; memberships, group counts and all other users stay; replaced data is freed once |
| `AccountRuns.ServeRequest` | src/Cedar/Admin.c:5633-6397 | Every request, whatever its outcome, keeps the database invariant, leaves no reference behind and takes none from other callers |
| `AccountRuns.Operate` | src/Cedar/Account.c:1015-1054 | So does any other caller that looks an object up and keeps it, or releases one it has kept |
| `AccountRuns.OperateAll` | src/Cedar/Account.c:923-1344 | So does every sequence of requests from the empty database on, with any number of callers that keep users and groups while others are served |
| `AccountRuns.CountsAreExact` | src/Cedar/Account.c:923-1344 | What that means after every such run: each count is the list's reference plus the unfreed members plus the references held, and exactly the objects with none are freed |
| `AccountRuns.ReferencesHold` | src/Cedar/Account.c:1083-1120 | Listed users belong to no group or to a listed one whose name they carry; users and groups are found under any spelling of their names |
| `ServerSideInclude.AdminWebProcessServerSideInclude` | src/Cedar/Admin.c:377-503 | For every text and file store the result is the recursive expansion; it terminates on cyclic includes too |
| `ServerSideInclude.ExpandText` | src/Cedar/Admin.c:406-498 | The scanning loop gives the concatenation of the expansions of the page's pieces |
| `ServerSideInclude.ReadDirective` | src/Cedar/Admin.c:411-438 | The hand-written scanner recognizes a directive at a byte exactly if the grammar has one there |
| `ServerSideInclude.SearchStrEx` | src/Mayaqua/Str.c:3035-3109 | The first occurrence at or after the start, or none |
| `ServerSideInclude.PageIsUnique` | src/Cedar/Admin.c:406-498 | A page has exactly one reading as literal bytes and directives |
| `ServerSideInclude.DirectiveIsUnique` | src/Cedar/Admin.c:411-438 | At most one directive begins at a byte |
| `IncludeLaws.WrittenIsRead` | src/Cedar/Admin.c:411-438 | What is written is read: the tag in any letter case, a quoted name shorter than 32 bytes, any filler and the first end tag are one directive for that name, whatever follows |
| `IncludeLaws.ReadIsWritten` | src/Cedar/Admin.c:411-438 | And nothing else is read as a directive |
| `ServerSideInclude.PiecesCoverThePage` | src/Cedar/Admin.c:406-498 | No byte of a page is lost, moved or read twice |
| `ServerSideInclude.IncludesStayUnderTheRoot` | src/Cedar/Admin.c:443-463 | Wherever a page and its directives point, every file read has the site's root as its first path component and no component ".." or "." |
| `IncludeLaws.RelativeInclude` | src/Cedar/Admin.c:447-463 | On a page of the site, a name without a leading slash names the file in the page's directory, or in the one that its leading ".." lead up to |
| `IncludeLaws.IncludeAboveTheRoot` | src/Cedar/Admin.c:447-463 | Leading ".." that lead out of the site name a file under its root again |
| `IncludeLaws.AbsoluteInclude` | src/Cedar/Admin.c:443-446 | A name with a leading slash names the file under the root, whatever the page |
| `IncludeLaws.IncludedText` | src/Cedar/Admin.c:467-480 | What takes the place of a directive: nothing for a missing file, the bytes of a file that is no page or lies at the depth limit, else the expansion of its text up to the first NUL; each without a byte-order mark |
| `Paths.NormalizePathW` | src/Mayaqua/FileIO.c:2060-2215 | The token stack of the code computes the specified normal form, whose components and text the laws of `PathLaws` describe |
| `PathLaws.NameIsAppended` | src/Mayaqua/FileIO.c:2172-2175 | A further name is one more component, behind all others |
| `PathLaws.ParentIsRemoved` | src/Mayaqua/FileIO.c:2165-2170 | ".." takes the last component away, unless that is a drive or the first name under a leading double separator, or there is none |
| `PathLaws.NameAndParentCancel` | src/Mayaqua/FileIO.c:2157-2176 | A name followed by ".." cancels: a/x/../rest and a/rest have the same normal form |
| `PathLaws.ParentOfNothing` | src/Mayaqua/FileIO.c:2165-2170 | ".." with nothing that it may take away changes nothing, whatever follows |
| `PathLaws.ParentAtTheRoot` | src/Mayaqua/FileIO.c:2165-2170 | Nor does it right behind the leading separator |
| `PathLaws.DotIsIgnored` | src/Mayaqua/FileIO.c:2161-2164 | "." changes nothing |
| `PathLaws.PlainPathIsKept` | src/Mayaqua/FileIO.c:2152-2206 | A path without "." and ".." keeps all its components in order |
| `PathLaws.NormalizedText` | src/Mayaqua/FileIO.c:2178-2212 | The text of a normal form: the remaining components joined by single separators of the system's kind, behind the separators or the drive that the path begins with |
| `PathLaws.AnchoredIs` | src/Mayaqua/FileIO.c:2081-2117 | What a leading dot or tilde stands for |
| `PathLaws.BlanksAreTrimmed` | src/Mayaqua/FileIO.c:2079 | Blanks around a path do not count |
| `Paths.NormalizedHasNoDots` | src/Mayaqua/FileIO.c:2060-2215 | No normalized path has a component that stands for a directory or its parent, on either kind of system, with any current and home directory, drive or leading separators |
| `Paths.StackHasNoDots` | src/Mayaqua/FileIO.c:2157-2176 | The stack never holds one |
| `Paths.TokensOfJoin` | src/Mayaqua/FileIO.c:2199-2206 | Joining names and taking the result apart again gives the names |
| `Paths.ConvertKeepsTokens` | src/Mayaqua/FileIO.c:2314-2331 | Changing the kind of separator does not change the components |
| `ServerSideInclude.PlainPageIsCopied` | src/Cedar/Admin.c:494-497 | A NUL-free page without directives is copied byte for byte at every depth |
| `ServerSideInclude.CyclicIncludeUnrollsToTheLimit` | src/Cedar/Admin.c:467-480 | The exact expansion of a page that includes itself: its surroundings once a level, the copy at the depth limit unexpanded |
| `AccessList.OutRpcAccessEx` | src/Cedar/Admin.c:13382-13450 | The entry's columns are written one after the other, each into its slot |
| `AccessList.PackAddIp32Ex` | src/Mayaqua/Pack.c:1258-1348 | An IPv4 address becomes four columns; the address that marks IPv6 ones is sent as such with zero contents |
| `AccessList.OutRpcEnumAccessList` | src/Cedar/Admin.c:13484-13502 | The columns built from a table are the encoding of its rows |
| `AccessList.InRpcEnumAccessList` | src/Cedar/Admin.c:13463-13483 | The table read back is the decoding of the columns, row by row |
| `AccessList.Pack.AddEx` | src/Mayaqua/Pack.c:1665-1707 | Adding a value makes a whole column the first time and fills one slot later, never another column |
| `AccessList.AddedIsRead` | src/Mayaqua/Pack.c:1665-1707 | Exactly when a value is taken, for any columns; it is then read back, and no other slot has changed |
| `AccessList.KeyAt` | src/Cedar/Admin.c:13390-13448 | The columns of an entry are written in order, each exactly once |
| `AccessList.NumbersAreInTheirColumns` | src/Cedar/Admin.c:13390-13440 | After encoding, the column of each number holds that number of each row, and no other |
| `AccessList.FlagsAreInTheirColumns` | src/Cedar/Admin.c:13392-13445 | The same for the flags |
| `AccessList.TextsAreInTheirColumns` | src/Cedar/Admin.c:13391-13445 | The same for note, names, URL and MAC addresses |
| `AccessList.AddressesAreInTheirColumns` | src/Cedar/Admin.c:13395-13450 | The same for the addresses: an IPv6 entry puts the marker into the IPv4 columns, an IPv4 entry zeros into the IPv6 ones |
| `AccessList.PutFillsColumn` | src/Mayaqua/Pack.c:1665-1707 | One addition moves exactly one column on by one row |
| `AccessList.PutRowKeepsHolds` | src/Cedar/Admin.c:13382-13450 | Writing a row keeps all earlier rows |
| `AccessList.ReadBack` | src/Mayaqua/Pack.c:1444-1459 | Every field of every row is read back as it was sent, and under no other type |
| `AccessList.ForeignColumnsAreRead` | src/Mayaqua/Pack.c:1078-1177 | What a reader makes of columns from anywhere: any number but zero is true, texts are cut to what fits, data counts only at its full size, and what is missing or of another kind reads as zero or empty |
| `AccessList.AddressesComeBack` | src/Mayaqua/Pack.c:1345-1420 | Every 32-bit address survives the four-column form, the one that marks IPv6 addresses included |
| `AccessList.RowComesBackCanonical` | src/Cedar/Admin.c:13323-13371 | A row comes back in canonical form |
| `AccessList.DecodeAfterEncode` | src/Cedar/Admin.c:13463-13502 | For lists of any length decoding the encoding gives each entry in canonical form, in order, with the number of entries recovered from one column |
| `AccessList.SecondTripIsIdentity` | src/Cedar/Admin.c:13463-13502 | A second trip is the identity; the first one is exactly for lists whose entries hold nothing outside what is sent |
| `SessionGathering.SiEnumSessionMain` | src/Cedar/Admin.c:5432-5505 | With the member list changing between rounds: each round visits the first member not visited, none twice, at the end all then listed have been; the table is the local rows and then the answers in visiting order; no more rounds than members ever seen |
| `SessionGathering.AdjoinRpcEnumSession` | src/Cedar/Admin.c:14430-14453 | The grown table is the old rows followed by all new ones |
| `SessionGathering.RowsOfVisit` | src/Cedar/Admin.c:5476-5486 | The rows of each visit follow those before it: none for the controller's own, the whole reply of any other member |
| `SessionGathering.ScanForNew` | src/Cedar/Admin.c:5467-5473 | The scan finds the first member not visited yet |
| `SessionGathering.StayingMemberIsVisitedOnce` | src/Cedar/Admin.c:5463-5499 | A member that stays listed is visited exactly once |
| `SessionGathering.NoneIsVisitedTwice` | src/Cedar/Admin.c:5471-5473 | No member is visited twice |
| `SessionGathering.QuietListIsVisitedInOrder` | src/Cedar/Admin.c:5463-5499 | If the list does not change its members are visited in its own order |
| `SessionGathering.VisitsAreFew` | src/Cedar/Admin.c:5463-5499 | The number of rounds is bounded by the number of members ever seen |
| `LogDownload.DownloadFileFromServer` | src/Cedar/Admin.c:2929-3006 | The result is all blocks read, in order, or nothing if a call failed, the callback cancelled or nothing was there; each report is the exact percentage of what has arrived; reports never decrease |
| `LogDownload.SiReadLocalLogFile` | src/Cedar/Admin.c:11467-11503 | One block from the offset exactly if the offset is below the size, full-sized unless it is the last |
| `LogDownload.UnchangedFileArrivesWhole` | src/Cedar/Admin.c:2944-3005 | For an unchanged file the handler returns exactly the file if and only if it is not empty and its size is below 2^32; it returns nothing if and only if the size is zero modulo 2^32; of a longer file it returns the size modulo 2^32, because `FileSize` truncates before it compares; the reads are as many as the blocks |
| `LogDownload.GrowingFileIsReturned` | src/Cedar/Admin.c:2944-3005 | For a file that only grows the handler returns it as the last call found it, or nothing if it was still empty |
| `LogDownload.UnchangedFrom` | src/Cedar/Admin.c:2944-3005 | The same from any offset, with the number of reads left |
| `LogDownload.GrowingFileArrivesWhole` | src/Cedar/Admin.c:2948-2996 | From any point on, what has arrived and what still does make up the file as the last call found it |
| `LogDownload.PercentNeverDecreases` | src/Cedar/Admin.c:2975-2981 | More bytes never mean a smaller percentage, nor one outside 0 to 100 |
| `LogDownload.PercentIsExact` | src/Cedar/Admin.c:2979-2981 | 100 exactly when everything has arrived, and below that the whole part of the exact quotient |
| `BridgeTheorems.EntriesStayDistinct` | src/Cedar/Bridge.c:293-312 | In every run no two entries share hub, device and tap mode |
| `BridgeTheorems.OneBridgeAnEntry` | src/Cedar/Bridge.c:355-371 | In every run a bridge runs only for a listed entry that says so, and alone for it: no interleaving of add and delete starts one for a removed entry or two for one entry |
| `BridgeTheorems.DeletedStaysDeleted` | src/Cedar/Bridge.c:250-263 | A deleted entry never comes back and none of its bridges ever runs again |
| `BridgeTheorems.DeletionDeletes` | src/Cedar/Bridge.c:239-268 | In every run, with any threads: the step of a deletion takes the first entry of that hub and device off the list, frees it and stops every bridge of it, and touches nothing else; without such an entry it changes nothing |
| `BridgeTheorems.DeleteStepDeletes` | src/Cedar/Bridge.c:244-265 | The same of a single step, from what the table keeps |
| `BridgeTheorems.AdditionAdds` | src/Cedar/Bridge.c:286-352 | In every run: the step of an addition adds exactly the entry asked for, at the end, without a bridge, unless its hub, device and tap mode are taken; then the thread goes on to the first hub of that name, unless that is dynamic or missing |
| `BridgeTheorems.AddStepAdds` | src/Cedar/Bridge.c:293-349 | The same of a single step |
| `BridgeTheorems.OfflineHubIsQuiet` | src/Cedar/Hub.c:6411-6579 | While nobody holds the online lock of a hub that is off line no bridge runs there, unless a StopHub has written the flag back wrongly; and on dynamic hubs none ever does |
| `BridgeTheorems.NoBridgeIsMissed` | src/Cedar/Bridge.c:355-371 | When all threads are done every entry whose hub is on line has its bridge running on that hub, however adds, deletes, hub switches and StopHub calls were interleaved, unless a StopHub has written the flag back wrongly |
| `BridgeStop.RestoreWorksExactlyIf` | src/Cedar/Hub.c:6420-6432 | The unlocked write that ends StopHub keeps both, in any run, if and only if it changes nothing, or the hub is just being switched on, or it writes off line and no listed entry of the hub has a bridge, or it writes on line and every listed entry of the hub has a bridge or a thread about to start it |
| `BridgeStop.UntouchedStaysSound` | src/Cedar/Hub.c:6411-6579 | A hub that no StopHub is called for keeps both in every run |
| `BridgeStop.StoppingAlone` | src/Cedar/Hub.c:6411-6433 | From any quiet state, a StopHub that nobody disturbs restores the flag, halts the hub, and leaves entries of an on-line hub without a bridge if and only if the hub was on line, not halted, not dynamic and had an entry; all its entries then have none |
| `BridgeStop.StopLosesBridge` | src/Cedar/Hub.c:6420-6432 | It happens: a run after which a hub is on line, all threads are done and its entry has no bridge |
| `BridgeStop.StopUndoesOnline` | src/Cedar/Hub.c:6420-6432 | And a run of StopHub against SetHubOnline after which a bridge runs on a hub that is off line, with nobody at work |
| `BridgeSafety.StopHubKeepsInv` | src/Cedar/Hub.c:6411-6433 | The three unlocked accesses of StopHub keep the invariant, with the hub marked if the write was harmful |
| `BridgeSafety.UnlockedStepKeepsOffline` | src/Cedar/Hub.c:6431 | A harmless write leaves no bridge running on an off-line hub |
| `BridgeSafety.UnlockedStepKeepsProvided` | src/Cedar/Hub.c:6431 | A harmless write leaves no entry of an on-line hub without provision |
| `BridgeTheorems.NextKeepsFreed` | src/Cedar/Bridge.c:250-263 | No step revives a freed entry |
| `BridgeSafety.NextKeepsInv` | src/Cedar/Bridge.c:229-379 | Every step of every thread keeps the invariant of the table, StopHub included |
| `BridgeSafety.RunKeepsInv` | src/Cedar/Bridge.c:229-379 | Every run keeps it |
| `BridgeSafety.AddEntryKeepsInv` | src/Cedar/Bridge.c:286-352 | The first phase of an add keeps it, and leaves a thread that will start the bridge |
| `BridgeSafety.NewEntryWillStart` | src/Cedar/Bridge.c:335-346 | A new entry with a hub to run on has a thread that will start its bridge there |
| `BridgeSafety.StartLockedKeepsInv` | src/Cedar/Bridge.c:355-374 | The second phase keeps it |
| `BridgeSafety.DeleteKeepsInv` | src/Cedar/Bridge.c:239-268 | Deletion keeps it |
| `BridgeSafety.OnlineLockedKeepsInv` | src/Cedar/Hub.c:6477-6498 | Starting all bridges of a hub keeps it |
| `BridgeSafety.OfflineLockedKeepsInv` | src/Cedar/Hub.c:6549-6563 | Stopping all bridges of a hub keeps it |
| `BridgeSafety.StartAllStarts` | src/Cedar/Hub.c:6483-6495 | The loop over the list starts a bridge for each entry of the hub that has none, and changes no other |
| `BridgeSafety.StopAllStops` | src/Cedar/Hub.c:6552-6561 | The loop over the list stops the bridge of each entry of the hub, and no other |
| `BridgeSafety.LockKeepsInv` | src/Cedar/Bridge.c:357-358 | Taking a hub's online lock keeps it |
| `BridgeSafety.UnlockKeepsInv` | src/Cedar/Bridge.c:373-375 | Releasing it, with or without a change of the hub's state, keeps it |
| `LocalBridges.BridgeTable.DeleteLocalBridge` | src/Cedar/Bridge.c:229-271 | Returns true exactly if some entry has that hub and device; then the first such entry, and no other, is off the list, has no bridge, and the bridge it had is stopped; all other entries and bridges are as before; the code is exactly the protocol's step |
| `LocalBridges.BridgeTable.RemoveEntry` | src/Cedar/Bridge.c:252-260 | Exactly that position leaves the list, its bridge is stopped, and the rest stays: the protocol's removal |
| `LocalBridges.BridgeTable.AddLocalBridgeEntry` | src/Cedar/Bridge.c:286-352 | Makes a new last entry exactly if there is none of that hub, device and effective tap mode, and finds the first hub of that name; the code is exactly the protocol's step |
| `LocalBridges.BridgeTable.StartLocalBridge` | src/Cedar/Bridge.c:358-374 | Starts a bridge exactly if the hub is on line and the entry is listed and has none: the protocol's step |
| `LocalBridges.BridgeTable.StartBridgesOf` | src/Cedar/Hub.c:6458-6499 | SetHubOnline under the lock, its loop over the list included, is exactly the protocol's step |
| `LocalBridges.BridgeTable.StopBridgesOf` | src/Cedar/Hub.c:6531-6563 | So is SetHubOffline under the lock |
| `LocalBridges.BridgeTable.NewBridge` | src/Cedar/Hub.c:6489-6493 | An entry without a bridge gets a running one of its own, any other keeps its bridge |
| `LocalBridges.BridgeTable.FreeBridge` | src/Cedar/Hub.c:6557-6559 | The bridge of the entry, and no other, is stopped |
| `LocalBridges.OneDeleteIsEnough` | src/Cedar/Bridge.c:244-265 | One deletion clears a hub and device exactly if it had no entry in each tap mode |
| `LocalBridges.BothModesHappen` | src/Cedar/Bridge.c:298-310 | A run after which a hub and device have an entry in each tap mode |
| `HubEnumeration.StEnumHub` | src/Cedar/Admin.c:8905-9032 | Every row is that of a hub that the caller may see (a server administrator all, another one those without options and the own one), every such hub has its row, and their numbers agree; each field of a row is that hub's sampled field, the three counts plus the sums over the equally named hubs of all other members, in 32 bits; every lock is held as often as before |
| `HubEnumeration.LockAndCount` | src/Cedar/Admin.c:8909-8932 | The first pass takes every lock once and counts the rows of the second |
| `HubEnumeration.FillAndUnlock` | src/Cedar/Admin.c:8934-8994 | The second pass fills exactly the counted rows, one for each hub that the caller may see, field by field, and releases every lock once |
| `HubEnumeration.RowsAreSeen` | src/Cedar/Admin.c:8935-9024 | Every row shows a hub that the caller may see, and every such hub has a row that shows it, sums included |
| `HubEnumeration.NumberOfRows` | src/Cedar/Admin.c:8909-8932 | There are as many rows as hubs that the caller may see |
| `HubEnumeration.RowsAreTheListedHubs` | src/Cedar/Admin.c:8935-8953 | Every listed hub has its row, after those of the hubs before it |
| `HubEnumeration.EveryRowIsAListedHub` | src/Cedar/Admin.c:8935-8953 | Every row is that of a listed hub |
| `HubEnumeration.RowsHoldTheSums` | src/Cedar/Admin.c:9002-9029 | Each row's session, MAC and IP counts are its own plus the totals of its name, in 32 bits; nothing else changes |
| `HubEnumeration.TotalsAreSums` | src/Cedar/Admin.c:9018-9023 | The totals of a name: zero for no hub, the hub's own three counts for one of that name, and additive, field by field |
| `HubEnumeration.ReportedAreTheOthersHubs` | src/Cedar/Admin.c:9002-9012 | What is added is every hub of every other member as often as it is listed there, and no hub of this server |
| `HubEnumeration.AddReported` | src/Cedar/Admin.c:9002-9029 | The triple loop adds every reported hub of every other member once |
| `HubEnumeration.AddRemoteHub` | src/Cedar/Admin.c:9014-9024 | One reported hub is added to exactly the rows of its name |

## Left out

- Sockets, SSL, HTTP, file access, hashing, certificates, random numbers and logging: their results are choices of the environment or parameters.
- The requests that `AcWaitForRequest` answers: serving is a loop that reads the halt flag and does I/O that may fail.
- The trigger counter of the DDNS client and the tick of its next query, which no other state of the client depends on.
- Freeing the client object itself after its main thread has ended.
- `GenRandInterval`: any value from the lower bound up to but not including the upper one; its distribution is not modelled.
- Overflow of the 64-bit tick counter: runs end before the clock comes within one hour of 2^64 ms.
- Texts longer than the buffers of the RPC structures, paths longer than the path buffers of the expander, and names with embedded NULs. In particular the theorem on paths does not cover a name cut off in the middle of a component.
- PathLaws.NameIsAppended: speaks, like the other laws on a component behind a path, of paths that end in a component, not in a separator or blank, and of no lone "~"; `ParentAtTheRoot`, `PlainPathIsKept`, `BlanksAreTrimmed` and `NormalizedText` speak of the others too.
- IncludeLaws.RelativeInclude: pages whose own path has no "." or "..", and names whose ".." all come first; that every other read stays under the root too is `IncludesStayUnderTheRoot`.
- Policy.OverwritePolicy: proved on heap blocks of its own, which must differ; the policies of users and groups in the account model are values.
- Account.HubDb.CleanupUser: clears the dead block's pointers, which the code leaves dangling; nothing reads them.
- Account.HubDb.JoinUserToGroup: asks that the caller holds its own reference to the new group, because re-joining the same group gives up the old reference first; all callers do.
- SessionGathering.SiEnumSessionMain: asks that only finitely many members ever show up, without which the loop need not end.
- LogDownload.GrowingFileArrivesWhole: asks that the file can be opened in every call and stays below 2^32 bytes; what happens to longer files is stated for unchanged ones.
- User locks and the locking order inside the account database: handlers run one after the other, as the database lock makes them, with references held by other callers.
- Traffic counters, MAC addresses in user notes, policy names and display strings, login and password checking: they would add only easy members.
- Refusals by session rights, server mode and hub options are two outcomes of the environment (before and after the checks of the request); the model does not tell their error codes apart, nor a missing hub.
- The bytes of a PACK on the wire, its JSON hints and big-endian machines; column names are an enumeration.
- The table of IP addresses, whose decoder reads one field without the row index, so that a round trip holds for the first row only.
- Log files of other cluster members, where a failed call looks like the end of the file.
- A file that changes between the size query and the read of the same call.
- Hubs that are created, renamed or removed while local bridges change: the set of hubs is fixed in the bridge model, and their names differ. So the unlocked first writes to `Offline` of a hub that is just being made are not in it.
- That an off-line hub has no bridges and an on-line one all of its own, after a StopHub: false of the code, see `StopLosesBridge` and `StopUndoesOnline`; when it holds is proved in `RestoreWorksExactlyIf` and `StoppingAlone`. A hub once marked stays marked, even if a later switch makes it right again.
- The order of names with bytes from 0x80 on where `char` is signed: it differs from the model's, names that count as equal do not.
- Sessions, links and SecureNAT of hubs that are switched on or off line; a bridge is only started and stopped.
- Remaining get and set handlers, scalar structures, RPC dispatch and the server farm's own protocol.
- `src/BuildUtil`: process launching and path handling.
