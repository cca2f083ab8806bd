# portal-conductor, modelled in Dafny

portal-conductor is the service that provisions and removes CyVerse user
accounts across an LDAP directory, an iRODS data store service, a Mailman
list server, the portal's PostgreSQL database and a job service. This project
models the sequential layer under its HTTP handlers and its stand-alone
deletion script. Each backend is a piece of abstract state:

- the directory is the `Directory` class: accounts by `uid` and group members by `cn`;
- the data store is the `DataStore` class: accounts, passwords, and an access list per collection;
- the list server is the `Mailman` class: subscribers by list;
- the portal database is the `PortalDb` class: for each user id, the tables still holding that user's rows, committed and pending;
- the job service client is the `Formation` class: a cached bearer token and its expiry.

Every backend records the calls it receives, in order, on a shared `Wire`.
A scenario fixes in advance which calls the transport refuses; everything
else the backends decide from their own state. Contracts can therefore state
which calls an operation makes, in what order, what changes, and that
nothing happens after a failure.

The model also covers the pure parts the service relies on:

- decoding and parsing LDAP attributes, and the validators for `uidNumber` and `shadowLastChange`;
- the entry `create_user` writes, proved to read back through `parse_user_attributes`;
- Python's `int()`, `str()`, `strip()`, `lower()` and string ordering, written out;
- configuration checks at start-up and in the deletion script;
- HTTP Basic authentication (section 2 of RFC 7617), with bcrypt checking passed in as a function.

Python's `bytes` and `str` are kept apart (`Value.Bytes` and `Value.Text`).
The directory hands back `bytes`, and several call sites use those values
undecoded. The two places where this changes behaviour are under
"## Findings".

## Model

| member | source | states |
|---|---|---|
| PyText.StripLeft | portal_ldap.py:284-299 | the result is a suffix of the input that does not start with whitespace, and everything removed is whitespace |
| PyText.StripRight | portal_ldap.py:284-299 | the result is a prefix of the input that does not end with whitespace, and everything removed is whitespace |
| PyText.Strip | portal_ldap.py:284-299 | `strip()` leaves no whitespace at either end |
| PyText.StripRemovesOnlySpace | portal_ldap.py:284-299 | `strip()` gives a slice of the input with only whitespace before and after it |
| PyText.StripTrimmed | portal_ldap.py:284-299 | text without surrounding whitespace is unchanged by `strip()` |
| PyText.NatToString | portal_ldap.py:116-148 | `str(n)` is a non-empty run of digits, with no leading zero unless n is 0 |
| PyText.IntToString | portal_ldap.py:116-148 | `str(n)` ends in a digit and starts with '-' exactly when n is negative |
| PyText.NatToStringValue | portal_ldap.py:116-148 | the digits of `str(n)` denote n |
| PyText.ParseDigitsOfNatToString | portal_ldap.py:284-299 | reading the digits of `str(n)` gives n back |
| PyText.ParseIntOfIntToString | portal_ldap.py:284-299 | `int(str(n)) == n` for every integer, negatives included |
| PyText.ParseIntRejects | test_portal_ldap.py:100-110 | `int()` refuses "not_a_number", "12345.67" and a doubled underscore |
| PyText.ParseIntSigned | test_portal_ldap.py:112-116 | `int("-1")` is -1 |
| PyText.ParseIntBlanks | portal_ldap.py:284-299 | `int(" 42 ")` is 42: surrounding blanks are ignored |
| PyText.ParseIntUnderscores | portal_ldap.py:284-299 | `int("1_000")` is 1000 |
| PyText.LowerNormalises | handlers/ldap_management.py:359 | `lower()` leaves no upper-case letter, changes no other character, and lowering twice is lowering once |
| PyText.RStrip | formation.py:22 | `rstrip(c)` removes exactly the trailing run of c |
| PyText.LessEqTotal | handlers/ldap_management.py:359 | any two strings are ordered one way or the other |
| PyText.LessEqTransitive | handlers/ldap_management.py:359 | string order is transitive |
| PyJson.GetOr | scripts/delete-user.py:144-159 | `value.get(key, default)` raises AttributeError exactly on a non-object, else gives the value or the default |
| PyJson.Index | main.py:99-118 | `value[key]` succeeds exactly for a present key of an object; otherwise KeyError or TypeError |
| LdapCodec.DecodeStrAttr | portal_ldap.py:269-281 | `None` exactly for a missing, None or empty attribute or an empty `str` first value; otherwise the decoded first value |
| LdapCodec.DecodeStrAttrExamples | test_portal_ldap.py:18-58 | missing, None, `[]` and `[""]` give None; `[b""]` gives ""; a bare value and a list give their first value |
| LdapCodec.DecodeIntAttr | portal_ldap.py:284-299 | None for a missing or empty attribute; otherwise `int()` of the decoded first value |
| LdapCodec.DecodeIntAttrOfWritten | test_portal_ldap.py:70-122 | any integer stored as `str(n)`, bare or in a list, `str` or bytes, reads back as n (0, -1 and 2^63-1 included) |
| LdapCodec.Items | portal_ldap.py:302-315 | the items a list attribute visits: never empty for a truthy value |
| LdapCodec.ListAttr | portal_ldap.py:302-315 | None exactly for a missing or empty attribute; otherwise every item decoded, same length and order |
| LdapCodec.DecodeListAttr | portal_ldap.py:302-315 | the decoding loop returns exactly `ListAttr` |
| LdapCodec.ListAttrOfWritten | test_portal_ldap.py:360-364 | a list written as byte strings reads back unchanged, empty strings kept |
| LdapCodec.ParseUserAttributes | portal_ldap.py:318-352 | None exactly for an empty result; otherwise the record read from the first entry |
| LdapCodec.ParseUserReadsFirstEntryOnly | portal_ldap.py:318-352 | results that share their first entry parse to the same record |
| LdapCodec.ParseGroupAttributes | portal_ldap.py:355-376 | the group name is the decoded `cn` |
| LdapCodec.GroupNameOfStoredCn | portal_ldap.py:355-376 | a `cn` stored as bytes parses to that name |
| LdapCodec.ValidateUidNumber | portal_ldap.py:51-59 | accepted exactly when `int()` reads the text as a number above 0, which is returned; otherwise ValueError |
| LdapCodec.ValidateUidNumberOfIntToString | portal_ldap.py:51-59 | `str(n)` is accepted exactly when n > 0, so "0" and negatives are refused |
| LdapCodec.ValidateShadowLastChange | portal_ldap.py:62-76 | an integer or text `int()` reads is accepted exactly when not negative; otherwise ValueError |
| LdapCodec.AddModlistAt | portal_ldap.py:116-148 | an attribute of the added entry is decided by its pair in the dict; empty values are left out |
| LdapCodec.UserEntryGet | portal_ldap.py:116-148 | the value each pair of `create_user`'s dict leaves in the entry |
| LdapCodec.UserEntryNames | portal_ldap.py:116-148 | `givenName` and `sn` hold the names as given, left out when empty |
| LdapCodec.UserEntryContact | portal_ldap.py:116-148 | `cn` is first + " " + last, and `mail` the address, each left out when empty |
| LdapCodec.UserEntryAffiliation | portal_ldap.py:116-148 | `departmentNumber`, `o` and `title` as given, left out when empty |
| LdapCodec.UserEntryAccount | portal_ldap.py:116-148 | `homeDirectory` is "/home/" + username, `loginShell` /bin/bash, and the fixed object classes |
| LdapCodec.UserEntryNumbers | portal_ldap.py:116-148 | `uidNumber` is `str` of the validated number, `gidNumber` 10013, `shadowLastChange` `str` of the day count |
| LdapCodec.UserEntryShadow | portal_ldap.py:116-148 | `shadowMin`/`shadowMax`/`shadowWarning`/`shadowInactive` are 1/730/10/10 |
| LdapCodec.ReadStoredText | portal_ldap.py:318-352 | the text fields parse back from what `create_user` stores |
| LdapCodec.ReadStoredNumber | portal_ldap.py:284-299 | a number stored as `str(n)` reads back as n |
| LdapCodec.ReadStoredNumbers | portal_ldap.py:318-352 | the number fields parse back from what `create_user` stores |
| LdapCodec.CreatedUserReadsBack | portal_ldap.py:116-148 | parsing the entry `create_user` writes gives back the request's data and the fixed template values |
| DataStore.NewClient | portal_datastore.py:17-18 | the client is built exactly when one positional argument, the service address, is given |
| DataStore.StartupClientAsWrittenRaises | main.py:154 | the five-argument construction raises TypeError whatever the configuration |
| DataStore.StartupClient | portal_datastore.py:17-18 | the one-argument construction from the service address succeeds and keeps that address |
| DataStore.DataStore.constructor | portal_datastore.py:35-147 | a data store with the given accounts and access lists |
| DataStore.DataStore.HealthCheck | portal_datastore.py:35-49 | one call; true exactly when the service is up and the call goes through; never raises |
| DataStore.DataStore.UserExists | portal_datastore.py:69-73 | one call; fails only on transport; the answer is membership in the accounts |
| DataStore.DataStore.CreateUser | portal_datastore.py:75-89 | one call; succeeds exactly for a new account; adds it and a home owned by it; no change on failure |
| DataStore.DataStore.ChangePassword | portal_datastore.py:117-131 | one call; succeeds exactly for an existing account; sets that password only |
| DataStore.DataStore.UserHome | portal_datastore.py:91-105 | one call; for an existing account gives its home path |
| DataStore.DataStore.Chmod | portal_datastore.py:133-147 | one call; for an existing path sets that principal's permission only |
| DataStore.DataStore.DeleteHome | portal_datastore.py:112-115 | one call; removes the user's home when it exists, nothing else |
| DataStore.DataStore.DeleteUser | portal_datastore.py:107-110 | one call; removes the account and its password, leaving the collections alone |
| Mailman.Mailman.constructor | mailman.py:19-46 | a list server with the given subscribers |
| Mailman.Mailman.AddMember | mailman.py:19-32 | one call; on an existing list adds the address; no change on failure |
| Mailman.Mailman.RemoveMember | mailman.py:34-46 | one call; on an existing list removes the address; no change on failure |
| Directory.MemberGroups | portal_ldap.py:77-87 | the groups listing a uid and only those, without repeats when the group list has none |
| Directory.Formatted | portal_ldap.py:209-234 | an f-string keeps a `str` and writes bytes as the `b'…'` literal |
| Directory.FormattedBytesDiffers | portal_ldap.py:209-234 | a formatted bytes value never equals its own text |
| Directory.SetAttr | portal_ldap.py:379-418 | one attribute of one account replaced; every other account and attribute unchanged |
| Directory.OnlyJoinedTrans | portal_ldap.py:151-206 | "uid only joined groups" composes across steps |
| Directory.Directory.constructor | portal_ldap.py:77-418 | a directory with the given accounts, groups and members |
| Directory.Directory.GroupsOf | portal_ldap.py:77-87 | exactly the groups listing the uid, without repeats |
| Directory.Directory.GroupEntriesNames | portal_ldap.py:77-98 | group entries carry their `cn` as bytes; decoding gives the names back |
| Directory.Directory.GetUser | portal_ldap.py:101-106 | one search; empty exactly when the account does not exist |
| Directory.Directory.GetUserGroups | portal_ldap.py:77-87 | one search; the entries of exactly the groups listing the uid |
| Directory.Directory.GetGroups | portal_ldap.py:90-98 | one search; the entries of every group, in the server's order |
| Directory.Directory.CreateUser | portal_ldap.py:116-148 | ValueError without a call when a validator refuses; otherwise one add of the template entry, which succeeds exactly for a new uid |
| Directory.Directory.AddAccount | portal_ldap.py:145-148 | one add; succeeds exactly for a new uid and stores the entry; no change on failure |
| Directory.Directory.ChangePassword | portal_ldap.py:243-244 | one password modify; succeeds exactly for an existing account and sets only its password |
| Directory.Directory.ShadowLastChange | portal_ldap.py:247-266 | ValueError without a call for a refused day count; otherwise replaces `shadowLastChange` with the validated count |
| Directory.Directory.ReplaceShadow | portal_ldap.py:247-266 | one modify; replaces only `shadowLastChange` |
| Directory.Directory.AddUserToGroup | portal_ldap.py:209-220 | one modify on the DN formatted from the group value; adds the uid to that group or fails without change |
| Directory.Directory.RemoveUserFromGroup | portal_ldap.py:223-234 | one modify on the DN formatted from the group value; removes the uid from that group or fails without change |
| Directory.Directory.DeleteUser | portal_ldap.py:237-240 | one delete; removes the account and leaves group members alone |
| Directory.Directory.ModifyUserAttribute | portal_ldap.py:379-418 | an empty value raises ValueError without a call; otherwise one modify replacing every value of the attribute |
| Directory.Directory.JoinUnlessMember | portal_ldap.py:190-196 | a fresh group search, then an add only when the uid is not yet a member: once the search goes through, exactly that trace; succeeds exactly when no call of it is refused and the group exists; only ever joins |
| Directory.Directory.EnsureAccount | portal_ldap.py:178-187 | a search; an existing account is left alone with no further call; otherwise it is created and given its password; succeeds exactly when no call of that plan is refused and the account existed or the request passes the checks |
| Directory.Directory.CreateWithPassword | portal_ldap.py:179-185 | create the account, then set its password; succeeds exactly when the request passes the checks and neither call is refused |
| Directory.Directory.JoinIfGiven | portal_ldap.py:190-204 | no call for an empty group name; otherwise join unless already a member, succeeding exactly when no call is refused and the group exists |
| Directory.Directory.JoinDefaultGroups | portal_ldap.py:189-204 | the everyone group's calls, then the community group's, as a prefix of that plan; succeeds exactly when no call is refused and each given group exists; an already provisioned account makes no add |
| Directory.Directory.CreateUserWithGroups | portal_ldap.py:151-206 | the account plan, then the group plan, as a prefix of that trace; the username exactly when no call is refused, the account existed or the request passes the checks, and each given group exists; then the account is in every given group; a provisioned account is untouched, costs only searches and succeeds unless a search is refused |
| PortalDb.RemoveUnreferenced | scripts/delete-user.py:312-371 | deleting rows nothing refers to keeps every reference intact |
| PortalDb.FindAccount | scripts/delete-user.py:167-230 | a live account whose name matches ignoring case; None exactly when no live account matches |
| PortalDb.FindAccountIgnoresCase | scripts/delete-user.py:215 | names equal after lower-casing find the same account |
| PortalDb.PortalDb.constructor | scripts/delete-user.py:272-383 | a database whose committed and pending rows agree |
| PortalDb.PortalDb.LookupUser | scripts/delete-user.py:167-230 | one query; fails only on transport; otherwise the account `FindAccount` gives |
| PortalDb.PortalDb.Execute | scripts/delete-user.py:307-369 | one DELETE in the open transaction; fails on transport or when rows still refer to the table; on success only that table is dropped for the user |
| PortalDb.PortalDb.Commit | scripts/delete-user.py:370 | makes the pending rows permanent, or fails leaving the committed rows |
| PortalDb.PortalDb.Rollback | scripts/delete-user.py:379-380 | discards the pending rows |
| DeleteUserScript.MissingFields | scripts/delete-user.py:135-164 | the names of exactly the falsy required fields, in order; fails exactly when a section is not an object |
| DeleteUserScript.MissingFieldsInOrder | scripts/delete-user.py:135-164 | the missing names follow the order of the checked fields, each falsy field exactly once |
| DeleteUserScript.ValidateConfig | scripts/delete-user.py:135-164 | accepts exactly when no field is missing; otherwise the error lists every missing field |
| DeleteUserScript.NoneMissingIffAllTruthy | scripts/delete-user.py:161-164 | nothing is reported missing exactly when every field is truthy |
| DeleteUserScript.ValidateConfigAcceptsIffComplete | scripts/delete-user.py:135-164 | the configuration is accepted exactly when all 14 required fields are truthy |
| DeleteUserScript.MissingFieldsReadsOnlyTheirSections | scripts/delete-user.py:135-164 | only the sections of the checked fields matter |
| DeleteUserScript.ValidateConfigIgnoresMailman | scripts/delete-user.py:135-164 | whatever the Mailman section holds, the verdict is the same |
| DeleteUserScript.RequiredSections | scripts/delete-user.py:144-159 | every required field is in the ldap, irods or portal_db section |
| DeleteUserScript.TableAt | scripts/delete-user.py:300-369 | the table deleted at each position, inverse to `Position` |
| DeleteUserScript.PositionIndexes | scripts/delete-user.py:300-369 | every table is deleted by exactly one of the 16 steps |
| DeleteUserScript.ReferencesDeletedFirst | scripts/delete-user.py:312-371 | each table's rows go before the rows they refer to; `account_user` goes last |
| DeleteUserScript.SubqueriesReadLaterTables | scripts/delete-user.py:312-359 | a step that finds rows through a parent table runs before that parent is deleted |
| DeleteUserScript.ParentSteps | scripts/delete-user.py:312-359 | steps 4, 5 and 13 go through a parent table; every other step deletes by a user column |
| DeleteUserScript.RunStep | scripts/delete-user.py:307-380 | one DELETE of the plan; on failure the transaction is rolled back |
| DeleteUserScript.NothingRefersToStep | scripts/delete-user.py:312-371 | when a step runs, no table still to be deleted refers to its table, so no step fails on a foreign key |
| DeleteUserScript.LeftStep | scripts/delete-user.py:300-369 | each step takes its own table off the tables left |
| DeleteUserScript.DeleteLegacyRows | scripts/delete-user.py:300-310 | the legacy tables, one DELETE each, stopping at the first failure |
| DeleteUserScript.DeleteRequestLogs | scripts/delete-user.py:312-329 | the two request logs through their parent requests |
| DeleteUserScript.DeleteCoreRows | scripts/delete-user.py:331-344 | the core tables, one DELETE each |
| DeleteUserScript.DeleteAccountRows | scripts/delete-user.py:346-369 | organizers, list subscriptions, addresses, then the account row |
| DeleteUserScript.RunTwoSteps | scripts/delete-user.py:307-369 | two consecutive steps of the plan, stopping at the first failure |
| DeleteUserScript.CommitDeletions | scripts/delete-user.py:368-380 | commit after the last step: every row of the user gone, or a rollback |
| DeleteUserScript.DeleteFromPortalDatabase | scripts/delete-user.py:272-383 | dry run: no call, no change; otherwise the 16 DELETEs in order and a commit, leaving the user no rows, or a rollback leaving every row; outside a dry run it succeeds exactly when no call of the plan is refused |
| DeleteUserScript.ListRemovalsExactly | scripts/delete-user.py:254-266 | an address is removed from exactly its lists that are present and named |
| DeleteUserScript.RemovalsExactly | scripts/delete-user.py:247-266 | the removals of all addresses are those of each address |
| DeleteUserScript.After | mailman.py:34-46 | applying removals never adds or drops a list |
| DeleteUserScript.AfterOnlyRemoves | mailman.py:34-46 | removals never add a subscriber |
| DeleteUserScript.AfterRemovesAll | scripts/delete-user.py:254-266 | when the server accepts every removal, each address is off each list it was removed from |
| DeleteUserScript.AfterConcat | scripts/delete-user.py:247-266 | removing in two runs equals removing once |
| DeleteUserScript.RemoveAddress | scripts/delete-user.py:247-268 | no call for an address without lists; one removal per named list, a failure logged and skipped; no call in a dry run |
| DeleteUserScript.RemoveAddressAt | scripts/delete-user.py:247-268 | one turn of the address loop extends the calls and the lists as the specification says |
| DeleteUserScript.DeleteFromMailingLists | scripts/delete-user.py:233-269 | no call without addresses or in a dry run; otherwise exactly the removals of every address, whatever fails |
| DeleteUserScript.DeleteFromDatastore | scripts/delete-user.py:386-408 | an existence check, then for an existing account the home and then the account; nothing more in a dry run or for an absent account; the calls made are a prefix of that plan; success exactly when none is refused and the home exists |
| DeleteUserScript.DataStoreAcceptsCalls | scripts/delete-user.py:386-408 | the data store phase is accepted exactly when its existence check, home removal and account removal are each accepted and the home exists |
| DeleteUserScript.WithoutMemberAt | scripts/delete-user.py:431-436 | leaving a list of groups takes the uid off those and changes no other group |
| DeleteUserScript.Unlisted | scripts/delete-user.py:423-444 | every group keeps all its members except the uid, which no group lists any more |
| DeleteUserScript.WithoutMemberEverywhere | scripts/delete-user.py:423-444 | leaving exactly the groups that list the uid takes it off every group |
| DeleteUserScript.LeaveGroup | scripts/delete-user.py:431-436 | one turn of the group loop with the decoded name; it succeeds for a group still listing the account unless the removal is refused |
| DeleteUserScript.LeaveGroups | scripts/delete-user.py:431-436 | the group loop: each group in order, stopping at the first failure; the calls made are a prefix of the removals; for distinct groups that list the account it succeeds exactly when no removal is refused |
| DeleteUserScript.DeleteAccount | scripts/delete-user.py:425-442 | the group search; unless a dry run, leave every group and then delete the account; the calls made are a prefix of that plan, and for an existing account it succeeds exactly when no call of the plan is refused |
| DeleteUserScript.LeaveAllAndDelete | scripts/delete-user.py:431-442 | the removals and then the account delete; for distinct groups and an existing account it succeeds exactly when none of these calls is refused |
| DeleteUserScript.DeleteFromLdap | scripts/delete-user.py:411-444 | an absent account: one search and no change; otherwise off every group and deleted; a dry run changes nothing; the calls made are a prefix of the phase's plan, and it succeeds exactly when no call of that plan is refused |
| DeleteUserScript.ListsAndDataStore | scripts/delete-user.py:487-498 | the list phase only when the list server is configured and the user has addresses, then the data store phase; every list call precedes every data store call; it succeeds exactly when no data store call is refused and the home to delete exists |
| DeleteUserScript.DirectoryAndDatabase | scripts/delete-user.py:500-508 | the directory phase, then the database phase; the database is only called after the whole directory plan has succeeded; it succeeds exactly when no call of either plan is refused |
| DeleteUserScript.DeleteUser | scripts/delete-user.py:447-518 | an absent user or a failed lookup: False after the lookup alone, nothing changed; True only for a found account, which is then gone from the data store, the directory and its groups, the database and its mailing lists; a dry run issues only reads and changes nothing; True exactly when the lookup is answered, the account is found, the home to delete exists and no call outside the mailing list phase is refused, and then the calls are the lookup and the four phases' plans in order |
| UserManagement.CreateAccount | handlers/user_management.py:51-56 | create the account, then set its password; succeeds exactly when both go through |
| UserManagement.JoinGroups | handlers/user_management.py:58-68 | add to the everyone group, then the community group, with no membership check |
| UserManagement.CreateLdapAccount | handlers/user_management.py:51-68 | the four directory steps in order, stopping at the first failure |
| UserManagement.CreateDsAccount | handlers/user_management.py:70-76 | health check whose answer is ignored, then create and set the password |
| UserManagement.GrantHome | handlers/user_management.py:78-95 | home lookup, then "own" for the ipcservices user and then the admin user |
| UserManagement.CreateDataStoreAccount | handlers/user_management.py:70-95 | the data store steps; on success both service principals own the user's home |
| UserManagement.AddUser | handlers/user_management.py:22-107 | all ten steps in order; success returns the username; any failure is 500 with earlier steps kept; an existing account or membership fails |
| UserManagement.ChangePassword | handlers/user_management.py:111-136 | directory password, then `shadowLastChange`, then the data store password; an earlier failure stops the later writes |
| UserManagement.DeleteUserAsWritten | handlers/user_management.py:140-171 | as written: for an account in a group the first removal targets a `b'…'` DN, fails, and the account is never deleted |
| UserManagement.DeleteUser | handlers/user_management.py:140-171 | with decoded names: off every group, then deleted; the data store is not touched |
| LdapManagement.CreateLdapUser | handlers/ldap_management.py:19-81 | `create_ldap_user_with_groups` with the configured groups; the username exactly when that succeeds, 500 otherwise; a repeat call on a provisioned account answers with the username unless a search is refused |
| LdapManagement.MessagesDiffer | handlers/ldap_management.py:104-117 | the "added" and "already" messages differ |
| LdapManagement.AddUserToLdapGroupAsWritten | handlers/ldap_management.py:85-121 | as written: always adds; an account already in the group gets 500 |
| LdapManagement.AddToGroup | handlers/ldap_management.py:107-112 | the add branch: one add; success message or 500 |
| LdapManagement.RawNamesAreBytes | handlers/ldap_management.py:104-107 | no `str` group name is among the raw `cn` values |
| LdapManagement.AddUserToLdapGroup | handlers/ldap_management.py:85-121 | with decoded names: adds only when not a member; success either way, with the matching message |
| LdapManagement.GetUserLdapInfo | handlers/ldap_management.py:183-279 | one search; 404 for an absent account, 500 for a failed search; otherwise the parsed record |
| LdapManagement.CheckUserExistsInLdap | handlers/ldap_management.py:370-401 | one search; exists exactly when the account does; 500 on failure |
| LdapManagement.ModifyUserLdapAttribute | handlers/ldap_management.py:405-467 | 404 without a modify for an absent account, 400 for an empty value, 500 for a failed modify; otherwise one attribute replaced |
| LdapManagement.GroupInfo | handlers/ldap_management.py:345-355 | the response record keeps the group's name |
| LdapManagement.NamedGroups | handlers/ldap_management.py:343-356 | only records with a non-empty name are kept |
| LdapManagement.Filled | handlers/ldap_management.py:347 | exactly the non-empty names |
| LdapManagement.NamedGroupsNames | handlers/ldap_management.py:343-356 | over bytes `cn` entries, the kept names are exactly the non-empty ones, in order |
| LdapManagement.CollectGroups | handlers/ldap_management.py:343-356 | the collection loop returns `NamedGroups` |
| LdapManagement.Insert | handlers/ldap_management.py:359 | insertion adds one record to the multiset |
| LdapManagement.InsertSorted | handlers/ldap_management.py:359 | insertion keeps the list sorted by lower-cased name |
| LdapManagement.SortByName | handlers/ldap_management.py:359 | the sort is a permutation |
| LdapManagement.SortByNameSorted | handlers/ldap_management.py:359 | the result is sorted by lower-cased name |
| LdapManagement.SortByNameNames | handlers/ldap_management.py:359 | sorting permutes the names |
| LdapManagement.GetLdapGroups | handlers/ldap_management.py:283-366 | one search; 500 on failure; otherwise the named groups of the directory, sorted by lower-cased name, a permutation of the kept ones |
| LdapManagement.NamedGroupsOfDirectory | handlers/ldap_management.py:341-356 | the groups listed are exactly the directory's groups with non-empty names |
| FormationApi.BaseUrl | formation.py:21 | ends with "/", extends the address by at most one character, and keeps an address already ending with "/" |
| FormationApi.BaseUrlIdempotent | formation.py:21 | normalising twice equals normalising once |
| FormationApi.EndpointJoinsOnce | formation.py:22-39 | the token endpoint is the stripped Keycloak address + "/realms/" + realm + "/protocol/openid-connect/token" |
| FormationApi.RefreshError | formation.py:41-70 | a transport failure, a missing access token, or the HTTP status |
| FormationApi.ApiOutcome | formation.py:95-153 | success exactly for a 2xx answer; otherwise the status is the error |
| FormationApi.Formation.constructor | formation.py:13-31 | no token, expiry 0, base and Keycloak addresses normalised |
| FormationApi.Formation.RefreshToken | formation.py:41-79 | one token request; a grant sets the token and the expiry from `exp`, or 0 without it; a refusal changes nothing |
| FormationApi.Formation.EnsureValidToken | formation.py:81-93 | refreshes exactly when now ≥ expiry − 60; otherwise no request and no change |
| FormationApi.Formation.Authorized | formation.py:95-153 | ensure a valid token, then one request carrying it as a Bearer header |
| FormationApi.Formation.GetAppParameters | formation.py:95-111 | token first, then the GET for the app; no request to the API when the refresh fails |
| FormationApi.Formation.LaunchAnalysis | formation.py:113-136 | token first, then the POST of the submission |
| FormationApi.Formation.GetAnalysisStatus | formation.py:138-153 | token first, then the GET for the analysis |
| FormationApi.ZeroExpiryRefreshes | formation.py:81-93 | with expiry 0, as for a new client or an undecodable token, the next call refreshes |
| FormationApi.FreshTokenKept | formation.py:86-93 | a held token is renewed exactly when now + 60 ≥ its expiry |
| Auth.AuthenticateUser | handlers/auth.py:52-84 | disabled: true; enabled without a configured name or hash: false; otherwise true exactly when the name matches and the password verifies |
| Auth.ChallengeQuotesRealm | handlers/auth.py:111-119 | the challenge is `Basic realm="…"` and the realm can be read back from it |
| Auth.Rejection | handlers/auth.py:111-119 | 401 with exactly the `WWW-Authenticate` header |
| Auth.GetCurrentUser | handlers/auth.py:87-119 | disabled: "anonymous"; otherwise the supplied name exactly when authentication passes, else 401 with the challenge |
| Auth.GetOptionalUser | handlers/auth.py:122-143 | None without credentials or when authentication fails; otherwise the user |
| Auth.UnconfiguredRejectsEveryone | handlers/auth.py:71-76 | enabled without a configured name, every caller is refused |
| MainApp.EnvConfig | main.py:33-62 | the configuration read from the environment has the four sections, each from its own variables |
| MainApp.LdapSection | main.py:35-42 | the six LDAP keys |
| MainApp.IrodsSection | main.py:43-51 | the seven iRODS keys |
| MainApp.TerrainSection | main.py:52-56 | the three Terrain keys |
| MainApp.MailmanSection | main.py:57-61 | the three Mailman keys; `enabled` from MAILMAN_ENABLED |
| MainApp.Lookup | main.py:99-118 | `config[section][key]` succeeds exactly for a present section |
| MainApp.EnvDefaults | main.py:40-53 | unset variables give community "community", admin "rodsadmin", ipcservices "ipcservices", Terrain "http://terrain/" |
| MainApp.EnvMailmanFlag | main.py:58 | the list server is on exactly when MAILMAN_ENABLED lower-cased is "1", "true" or "yes"; off when unset |
| MainApp.MailmanFlagSpellings | main.py:58 | "True", "YES" and "1" turn it on; "on", "" and "false" do not |
| MainApp.LookupAll | main.py:99-118 | every required value looked up, in order, or the first lookup error |
| MainApp.FirstFalsy | main.py:120-123 | the first position whose value is falsy; None exactly when all are truthy |
| MainApp.FirstUnsetField | main.py:120-123 | the check loop names the first falsy field |
| MainApp.ValidateConfig | main.py:97-126 | the method computes `Validation` |
| MainApp.ValidationAccepts | main.py:97-126 | start-up goes ahead exactly when every always-required value, and the Mailman values when enabled, are truthy |
| MainApp.ValidationNamesFirstUnset | main.py:120-123 | a refusal names a required field that is falsy, with every earlier field truthy; a Mailman field is only named when Mailman is enabled |
| MainApp.ValidationStopsAtFirst | main.py:120-123 | with the first field unset, start-up stops there |
| MainApp.EnvFieldsFound | main.py:33-62 | every key the validation looks up exists in an environment configuration |
| MainApp.EnvConfigKeys | main.py:33-62 | each required key of each section is present |
| MainApp.EnvValidationNeverRaises | main.py:97-126 | an environment configuration never makes validation raise a lookup error |
| MainApp.EmptyEnvStops | main.py:97-126 | with nothing set, start-up stops at `ldap.url` |
| MainApp.EmptyLdapUrl | main.py:36 | with nothing set, the LDAP address is "" |
| MainApp.AddAddrToList | main.py:401-431 | disabled: no call and echo; enabled: one subscription, echoed on success |
| MainApp.RemoveAddrFromList | main.py:373-400 | disabled: no call and echo; enabled: one removal, echoed on success |
| MainApp.AddToMailingList | main.py:572-608 | disabled: 503 without a call; enabled: one subscription, 500 on failure |
| MainApp.RemoveFromMailingList | main.py:609-645 | disabled: 503 without a call; enabled: one removal, 500 on failure |
| MainApp.SendEmail | main.py:681-715 | 400 without contacting the relay when both bodies are empty; otherwise one delivery, 500 on failure |

## Left out

- Transports: the LDAP connection, HTTP to the data store, list server, job service and Terrain, PostgreSQL and SMTP. Each backend is abstract state plus a record of calls. A refused call is an error the scenario chooses in advance.
- Response bodies: the JSON of the job service and the HTML of the list server's roster pages are not modelled.
- Terrain: `terrain.py` and the job-limit endpoint are one-call pass-throughs.
- Thin handlers: the data store, mailing list and e-mail handler modules only forward calls. The model covers the copies in `main.py` that gate them.
- Group listing for a user: `get_user_ldap_groups` (handlers/ldap_management.py:125-149, main.py:474-497) only lists raw `cn` values.
- Removing a user from one group: `remove_user_from_ldap_group` (handlers/ldap_management.py:153-179, main.py:504-529) is one call to `remove_user_from_group`, which is modelled.
- `register_datastore_service`: a one-call pass-through to the data store.
- Password checking: bcrypt is the function parameter `verify`.
- Auth.AuthenticateUser: compares the user name with `==`. `secrets.compare_digest` raises TypeError when a name holds a non-ASCII character (handlers/auth.py:79), so such a request fails with an error instead of being refused; constant-time comparison is not modelled either.
- Token decoding: the JWT `exp` claim reaches the model already decoded, or absent when decoding fails.
- Time: the clock is an integer parameter `now`. The day count since the epoch is an input.
- Concurrency: the lock in `formation.py` and the thread in `start_dual.py` are left out. `_ensure_valid_token` is modelled single-threaded.
- Configuration I/O: reading `config.json`, the deletion script's own `load_config`, and the dependency setters and getters are left out. Start-up takes a configuration value.
- Exit codes: `sys.exit(1)` is an error result naming the field.
- Data store state: the `DataStore` class takes the service's accounts and access lists as given; how the client is built is in the Findings below.
- DataStore.HomePath: `user_home` returns whatever path the service reports (portal_datastore.py:91-105). The model assumes the service's layout `/<zone>/home/<user>`.
- LDAP filter and DN escaping: portal_ldap.py puts user and group names into search filters and DNs as they are (lines 25, 83, 102, 148, 218 and 239). The model looks names up exactly. A name holding `*`, `(`, `)`, `\` or `,` behaves in the model as a plain name; in the source, `get_user("*")` matches any account.
- Database connection: `psycopg2.connect` is not modelled. The deletion script connects even in a dry run (scripts/delete-user.py:285-292), and a failed connection raises, so the source's dry run can fail where the model's cannot.
- Directory.Formatted: a `bytes` value is written as `b'…'` with one character per byte. Python's escaping of quotes, backslashes and non-printable bytes in that literal is not modelled.
- Text encoding: UTF-8 decoding is the identity on text, apart from keeping `bytes` and `str` apart.
- Lower-casing: `lower()` is ASCII only.
- Number parsing: `int()` accepts only ASCII digits and ASCII whitespace.
- Response records: `kinds.py` records appear only as far as the endpoints fill them. Logging and `print` are left out.
- LdapManagement.SortByName: the contract states sortedness and permutation, not the stability of Python's sort.
- DeleteUserScript.DeleteUser: the whole call trace is stated for a successful run. For a failed run, the calls are stated phase by phase by the methods it calls. The exception text of a failed phase is not modelled.
- UserManagement.AddUser: the value returned by `health_check` is ignored by the source, and by the model.
- PortalDb.FindAccount: the lookup query's join with email addresses and lists reaches the model already grouped by address. The contract does not say which of several matching live accounts is returned.
- Auth.GetCurrentUser: a missing `Authorization` header is answered by the web framework, so the model starts from decoded credentials.

## Findings

| source | as written | input that shows it | evidently intended | confidence | as-written member | corrected member |
|---|---|---|---|---|---|---|
| handlers/user_management.py:164 (same at main.py:357) | the group name is the raw first `cn` value, which python-ldap returns as `bytes`, so `remove_user_from_group` formats the DN `cn=b'everyone',ou=Groups,…` | deleting any account that belongs to the group `everyone` | decode the name first, as scripts/delete-user.py:432 does, so the account leaves each group and is then deleted | not executed | UserManagement.DeleteUserAsWritten | UserManagement.DeleteUser |
| handlers/ldap_management.py:104-107 (same at main.py:448-451) | the membership test looks for the `str` group name among raw `bytes` `cn` values, never finds it, and always adds | adding an account to a group it already belongs to: the directory rejects the duplicate value and the answer is 500 | decode the names, so an existing member gets "already in group" and success | not executed | LdapManagement.AddUserToLdapGroupAsWritten | LdapManagement.AddUserToLdapGroup |
| main.py:154 (same at scripts/delete-user.py:565-571) | the data store client is built with five positional arguments (iRODS host, port, user, password, zone), but `DataStore.__init__` takes only `api_url` (portal_datastore.py:17-18) | any configuration: `main.py` raises TypeError at import, and the deletion script at start | build the client from the data store service's address | not executed | DataStore.StartupClientAsWritten | DataStore.StartupClient |
