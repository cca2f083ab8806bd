/** The endpoints under `/ldap`: account provisioning, joining a group,
    reading an account's record, listing the groups, the existence check and
    the change of a single attribute. Each maps the directory's answer to a
    response or to an HTTP error: 404 for an account the search does not
    find, 400 for an empty attribute value, 500 for anything else. */
module LdapManagement {
  import opened Wrappers
  import opened Calls
  import opened LdapCodec
  import opened Directory
  import opened Http
  import PyText

  /** `kinds.GenericResponse` */
  datatype GenericResponse = GenericResponse(success: bool, message: string)

  /** `kinds.UserExistsResponse` */
  datatype UserExistsResponse = UserExistsResponse(username: string, found: bool)

  /** `kinds.UserLDAPInfo`: the account name and its parsed record. */
  datatype UserLdapInfo = UserLdapInfo(username: string, record: UserAttributes)

  /** `kinds.LDAPGroupInfo`: a group record whose name is known. */
  datatype LdapGroupInfo = LdapGroupInfo(
    name: string,
    gidNumber: Option<int>,
    displayName: Option<string>,
    description: Option<string>,
    sambaGroupType: Option<int>,
    sambaSid: Option<string>,
    objectClasses: Option<seq<string>>)

  // ---------------------------------------------------------------------
  // Provisioning

  /** `create_ldap_user`: provision the account idempotently with the
      configured default groups; any failure answers 500. */
  method CreateLdapUser(dir: Directory, today: int, user: CreateUserRequest, everyone: Option<string>, community: Option<string>)
    returns (r: Result<string, HttpError>)
    requires dir.Valid()
    modifies dir, dir.wire
    ensures dir.Valid()
    ensures r.Ok? ==> r.value == user.username && dir.Provisioned(user.username, everyone, community)
    ensures r.Err? ==> r.error == Status(InternalError)
    ensures OnlyJoined(old(dir.members), dir.members, user.username)
    ensures old(user.username in dir.people) ==> dir.people == old(dir.people)
    ensures old(dir.Provisioned(user.username, everyone, community)) ==>
      dir.people == old(dir.people) && dir.members == old(dir.members) && ReadOnlySince(old(dir.wire.sent), dir.wire.sent)
    ensures var plan := EnsurePlan(old(user.username in dir.people), today, user)
                        + DefaultJoinPlan(old(dir.members), user.username, everyone, community);
      && old(dir.wire.sent) <= dir.wire.sent <= old(dir.wire.sent) + plan
      && (r.Ok? ==> dir.wire.sent == old(dir.wire.sent) + plan)
      && (r.Ok? <==> NoneRefused(plan, dir.wire.refusing) && (old(user.username in dir.people) || AccountValid(today, user))
                     && Joinable(old(dir.members), everyone) && Joinable(old(dir.members), community))
    ensures (old(dir.Provisioned(user.username, everyone, community))
             && SearchUser(user.username) !in dir.wire.refusing && SearchUserGroups(user.username) !in dir.wire.refusing) ==> r.Ok?
  {
    var created := dir.CreateUserWithGroups(today, user, everyone, community);
    if created.Err? {
      return Err(Status(InternalError));
    }
    return Ok(user.username);
  }

  // ---------------------------------------------------------------------
  // Joining a group

  function AddedMessage(username: string, groupname: string): string {
    "User " + username + " added to group " + groupname
  }

  function AlreadyMessage(username: string, groupname: string): string {
    "User " + username + " already in group " + groupname
  }

  /** The two messages never coincide, so a caller can tell the branches apart. */
  lemma MessagesDiffer(username: string, groupname: string)
    ensures AddedMessage(username, groupname) != AlreadyMessage(username, groupname)
  {
    var prefix := "User " + username + " ";
    assert AddedMessage(username, groupname)[|prefix|] == 'a';
    assert AlreadyMessage(username, groupname)[..|prefix| + 2] == prefix + "al";
    assert AddedMessage(username, groupname)[..|prefix| + 2] == prefix + "ad";
  }

  /** `add_user_to_ldap_group` as written: the membership test looks for the
      requested name, a `str`, among the raw `cn` values of the account's
      groups, which are `bytes`, so it never finds it and the add is always
      made. For an account already in the group the add is rejected by the
      directory and the answer is 500 instead of "already in group". */
  method AddUserToLdapGroupAsWritten(dir: Directory, username: string, groupname: string)
    returns (r: Result<GenericResponse, HttpError>)
    requires dir.Valid()
    modifies dir, dir.wire
    ensures dir.Valid() && dir.people == old(dir.people)
    ensures r.Ok? ==> r.value == GenericResponse(true, AddedMessage(username, groupname))
    ensures r.Err? ==> r.error == Status(InternalError)
    ensures SearchUserGroups(username) !in dir.wire.refusing ==>
      dir.wire.sent == old(dir.wire.sent) + [SearchUserGroups(username), AddMember(groupname, username)]
    ensures groupname in old(dir.members) && username in old(dir.members)[groupname] ==>
      r.Err? && dir.members == old(dir.members)
  {
    ghost var start := dir.wire.sent;
    var found := dir.GetUserGroups(username);
    if found.Err? {
      return Err(Status(InternalError));
    }
    RawNamesAreBytes(dir, username, groupname);
    AppendPair(start, [SearchUserGroups(username)], [AddMember(groupname, username)]);
    var current := RawCns(found.value);
    if Text(groupname) !in current {
      r := AddToGroup(dir, username, groupname);
    } else {
      return Ok(GenericResponse(true, AlreadyMessage(username, groupname)));
    }
  }

  /** The add branch of `add_user_to_ldap_group`: add the account to the
      group by name, 500 when the directory refuses. */
  method AddToGroup(dir: Directory, username: string, groupname: string)
    returns (r: Result<GenericResponse, HttpError>)
    requires dir.Valid()
    modifies dir, dir.wire
    ensures dir.Valid() && dir.people == old(dir.people)
    ensures dir.wire.sent == old(dir.wire.sent) + [AddMember(groupname, username)]
    ensures r.Ok? <==> AddMember(groupname, username) !in dir.wire.refusing
                       && groupname in old(dir.members) && username !in old(dir.members)[groupname]
    ensures r.Ok? ==> r.value == GenericResponse(true, AddedMessage(username, groupname))
                      && dir.members == old(dir.members)[groupname := old(dir.members)[groupname] + {username}]
    ensures r.Err? ==> r.error == Status(InternalError) && dir.members == old(dir.members)
  {
    var added := dir.AddUserToGroup(username, Text(groupname));
    if added.Err? {
      return Err(Status(InternalError));
    }
    return Ok(GenericResponse(true, AddedMessage(username, groupname)));
  }

  /** The raw `cn` values of a group search are bytes, so no text group
      name is ever among them. */
  lemma RawNamesAreBytes(dir: Directory, username: string, groupname: string)
    requires dir.Valid()
    ensures Text(groupname) !in RawCns(dir.GroupEntries(dir.GroupsOf(username)))
  {
    dir.GroupEntriesNames(dir.GroupsOf(username));
  }

  /** `add_user_to_ldap_group` with the group names decoded before the
      membership test: the add is made only for an account not yet in the
      group, and success is reported either way. */
  method AddUserToLdapGroup(dir: Directory, username: string, groupname: string)
    returns (r: Result<GenericResponse, HttpError>)
    requires dir.Valid()
    modifies dir, dir.wire
    ensures dir.Valid() && dir.people == old(dir.people)
    ensures r.Err? ==> r.error == Status(InternalError) && dir.members == old(dir.members)
    ensures r.Ok? ==> r.value.success && groupname in dir.members && username in dir.members[groupname]
    ensures var already := groupname in old(dir.members) && username in old(dir.members)[groupname];
      && (already ==> dir.members == old(dir.members) && ReadOnlySince(old(dir.wire.sent), dir.wire.sent))
      && (already && SearchUserGroups(username) !in dir.wire.refusing ==>
            r == Ok(GenericResponse(true, AlreadyMessage(username, groupname))))
      && (!already && r.Ok? ==>
            && r.value.message == AddedMessage(username, groupname)
            && dir.members == old(dir.members)[groupname := old(dir.members)[groupname] + {username}])
    ensures r.Ok? <==>
      SearchUserGroups(username) !in dir.wire.refusing
      && groupname in old(dir.members)
      && (username in old(dir.members)[groupname] || AddMember(groupname, username) !in dir.wire.refusing)
  {
    ghost var start := dir.wire.sent;
    var found := dir.GetUserGroups(username);
    if found.Err? {
      return Err(Status(InternalError));
    }
    ReadOnlySinceOne(start, SearchUserGroups(username));
    dir.GroupEntriesNames(dir.GroupsOf(username));
    var current := DecodedCns(found.value);
    if groupname !in current {
      r := AddToGroup(dir, username, groupname);
    } else {
      return Ok(GenericResponse(true, AlreadyMessage(username, groupname)));
    }
  }

  // ---------------------------------------------------------------------
  // Reading an account

  /** `get_user_ldap_info`: the parsed record of the account. An empty search
      answers 404; a failed search answers 500. */
  method GetUserLdapInfo(dir: Directory, username: string) returns (r: Result<UserLdapInfo, HttpError>)
    modifies dir.wire
    ensures dir.wire.sent == old(dir.wire.sent) + [SearchUser(username)]
    ensures r.Ok? <==> SearchUser(username) !in dir.wire.refusing && username in dir.people
    ensures r.Ok? ==> r.value == UserLdapInfo(username, ReadUser(dir.people[username]))
    ensures SearchUser(username) in dir.wire.refusing ==> r == Err(Status(InternalError))
    ensures SearchUser(username) !in dir.wire.refusing && username !in dir.people ==> r == Err(Status(NotFoundStatus))
  {
    var found := dir.GetUser(username);
    if found.Err? {
      return Err(Status(InternalError));
    }
    var result := found.value;
    if result == [] {
      return Err(Status(NotFoundStatus));
    }
    var record := ParseUserAttributes(result);
    if record.None? {
      return Err(Status(NotFoundStatus));
    }
    return Ok(UserLdapInfo(username, record.value));
  }

  /** `check_user_exists_in_ldap`: whether the search finds the account. */
  method CheckUserExistsInLdap(dir: Directory, username: string) returns (r: Result<UserExistsResponse, HttpError>)
    modifies dir.wire
    ensures dir.wire.sent == old(dir.wire.sent) + [SearchUser(username)]
    ensures r.Ok? <==> SearchUser(username) !in dir.wire.refusing
    ensures r.Ok? ==> r.value.username == username && (r.value.found <==> username in dir.people)
    ensures r.Err? ==> r.error == Status(InternalError)
  {
    var found := dir.GetUser(username);
    if found.Err? {
      return Err(Status(InternalError));
    }
    return Ok(UserExistsResponse(username, found.value != []));
  }

  // ---------------------------------------------------------------------
  // Changing an attribute

  function UpdatedMessage(username: string, attribute: string): string {
    "Updated attribute '" + attribute + "' for user '" + username + "'"
  }

  /** `modify_user_ldap_attribute`: 404 without a modify for an account the
      search does not find, 400 for an empty value, 500 for a failed call. */
  method ModifyUserLdapAttribute(dir: Directory, username: string, attribute: string, value: string)
    returns (r: Result<GenericResponse, HttpError>)
    modifies dir, dir.wire
    ensures dir.members == old(dir.members)
    ensures SearchUser(username) in dir.wire.refusing ==>
      r == Err(Status(InternalError)) && dir.people == old(dir.people) && dir.wire.sent == old(dir.wire.sent) + [SearchUser(username)]
    ensures SearchUser(username) !in dir.wire.refusing && username !in old(dir.people) ==>
      r == Err(Status(NotFoundStatus)) && dir.people == old(dir.people) && dir.wire.sent == old(dir.wire.sent) + [SearchUser(username)]
    ensures SearchUser(username) !in dir.wire.refusing && username in old(dir.people) && value == "" ==>
      r == Err(Status(BadRequest)) && dir.people == old(dir.people) && dir.wire.sent == old(dir.wire.sent) + [SearchUser(username)]
    ensures r.Ok? <==>
      SearchUser(username) !in dir.wire.refusing && username in old(dir.people) && value != ""
      && ReplaceAttribute(username, attribute) !in dir.wire.refusing
    ensures r.Ok? ==>
      && r.value == GenericResponse(true, UpdatedMessage(username, attribute))
      && dir.people == SetAttr(old(dir.people), username, attribute, Many([Bytes(value)]))
    ensures r.Err? ==> dir.people == old(dir.people)
  {
    var found := dir.GetUser(username);
    if found.Err? {
      return Err(Status(InternalError));
    }
    if found.value == [] {
      return Err(Status(NotFoundStatus));
    }
    var modified := dir.ModifyUserAttribute(username, attribute, value);
    if modified.Err? {
      if modified.error == ValueError {
        return Err(Status(BadRequest));
      }
      return Err(Status(InternalError));
    }
    return Ok(GenericResponse(true, UpdatedMessage(username, attribute)));
  }

  // ---------------------------------------------------------------------
  // Listing the groups

  /** A parsed group record is kept when its name is present and non-empty. */
  predicate Named(a: GroupAttributes) {
    a.name.Some? && a.name.value != ""
  }

  function GroupInfo(a: GroupAttributes): (g: LdapGroupInfo)
    requires Named(a)
    ensures g.name == a.name.value
  {
    LdapGroupInfo(a.name.value, a.gidNumber, a.displayName, a.description, a.sambaGroupType, a.sambaSid, a.objectClasses)
  }

  /** The records of the named groups among `entries`, in search order. */
  function NamedGroups(entries: seq<SearchEntry>): (r: seq<LdapGroupInfo>)
    ensures |r| <= |entries|
    ensures forall i :: 0 <= i < |r| ==> r[i].name != ""
  {
    if entries == [] then []
    else
      var rest := NamedGroups(entries[..|entries| - 1]);
      var a := ParseGroupAttributes(entries[|entries| - 1]);
      if Named(a) then rest + [GroupInfo(a)] else rest
  }

  /** The names of a list of group records. */
  function Names(gs: seq<LdapGroupInfo>): (r: seq<string>)
    ensures |r| == |gs| && forall i :: 0 <= i < |gs| ==> r[i] == gs[i].name
  {
    seq(|gs|, i requires 0 <= i < |gs| => gs[i].name)
  }

  /** The non-empty names among `cns`, in order. */
  function Filled(cns: seq<string>): (r: seq<string>)
    ensures forall n :: n in r <==> n in cns && n != ""
  {
    if cns == [] then []
    else if cns[|cns| - 1] == "" then Filled(cns[..|cns| - 1])
    else Filled(cns[..|cns| - 1]) + [cns[|cns| - 1]]
  }

  /** Over entries whose `cn` is stored as bytes, the records kept are those
      of the groups with a non-empty name, in the same order. */
  lemma {:induction false} NamedGroupsNames(entries: seq<SearchEntry>, cns: seq<string>)
    requires |entries| == |cns|
    requires forall i :: 0 <= i < |cns| ==> "cn" in entries[i].attrs && entries[i].attrs["cn"] == Many([Bytes(cns[i])])
    ensures Names(NamedGroups(entries)) == Filled(cns)
  {
    if entries != [] {
      var n := |entries| - 1;
      NamedGroupsNames(entries[..n], cns[..n]);
      GroupNameOfStoredCn(entries[n], cns[n]);
      var rest := NamedGroups(entries[..n]);
      if cns[n] != "" {
        assert Names(rest + [GroupInfo(ParseGroupAttributes(entries[n]))]) == Names(rest) + [cns[n]];
      }
    }
  }

  /** The collection loop of `get_ldap_groups`: parse each entry in turn and
      append the records that carry a name. */
  method CollectGroups(entries: seq<SearchEntry>) returns (groups: seq<LdapGroupInfo>)
    ensures groups == NamedGroups(entries)
  {
    groups := [];
    for i := 0 to |entries|
      invariant groups == NamedGroups(entries[..i])
    {
      assert entries[..i + 1][..i] == entries[..i];
      var attrs := ParseGroupAttributes(entries[i]);
      if attrs.name.Some? && attrs.name.value != "" {
        groups := groups + [GroupInfo(attrs)];
      }
    }
    assert entries[..|entries|] == entries;
  }

  /** The sort key: the lower-cased name. */
  function Key(g: LdapGroupInfo): string {
    PyText.Lower(g.name)
  }

  predicate SortedByName(gs: seq<LdapGroupInfo>) {
    forall i, j :: 0 <= i < j < |gs| ==> PyText.LessEq(Key(gs[i]), Key(gs[j]))
  }

  /** Insert `g` into a sorted list, before the first record whose key is
      not below its own. */
  function Insert(g: LdapGroupInfo, gs: seq<LdapGroupInfo>): (r: seq<LdapGroupInfo>)
    ensures multiset(r) == multiset(gs) + multiset{g}
  {
    if gs == [] then [g]
    else if PyText.LessEq(Key(g), Key(gs[0])) then [g] + gs
    else
      assert gs == [gs[0]] + gs[1..];
      [gs[0]] + Insert(g, gs[1..])
  }

  lemma {:induction false} InsertSorted(g: LdapGroupInfo, gs: seq<LdapGroupInfo>)
    requires SortedByName(gs)
    ensures SortedByName(Insert(g, gs))
  {
    if gs == [] {
    } else if PyText.LessEq(Key(g), Key(gs[0])) {
      LowerBound(g, gs);
      ConsSorted(g, gs);
    } else {
      PyText.LessEqTotal(Key(g), Key(gs[0]));
      InsertSorted(g, gs[1..]);
      InsertBounded(Key(gs[0]), g, gs[1..]);
      ConsSorted(gs[0], Insert(g, gs[1..]));
    }
  }

  /** A record whose key is at most every key of a sorted list can go in front. */
  lemma ConsSorted(x: LdapGroupInfo, rest: seq<LdapGroupInfo>)
    requires SortedByName(rest)
    requires forall k :: 0 <= k < |rest| ==> PyText.LessEq(Key(x), Key(rest[k]))
    ensures SortedByName([x] + rest)
  {
    var r := [x] + rest;
    forall i, j | 0 <= i < j < |r|
      ensures PyText.LessEq(Key(r[i]), Key(r[j]))
    {
      assert r[j] == rest[j - 1];
      if i > 0 {
        assert r[i] == rest[i - 1];
      }
    }
  }

  /** A key at most the first key of a sorted list is at most all of them. */
  lemma LowerBound(g: LdapGroupInfo, gs: seq<LdapGroupInfo>)
    requires SortedByName(gs) && gs != [] && PyText.LessEq(Key(g), Key(gs[0]))
    ensures forall k :: 0 <= k < |gs| ==> PyText.LessEq(Key(g), Key(gs[k]))
  {
    forall k | 0 < k < |gs|
      ensures PyText.LessEq(Key(g), Key(gs[k]))
    {
      PyText.LessEqTransitive(Key(g), Key(gs[0]), Key(gs[k]));
    }
  }

  /** Inserting a record keeps a lower bound on the keys that bounds it too. */
  lemma InsertBounded(b: string, g: LdapGroupInfo, gs: seq<LdapGroupInfo>)
    requires PyText.LessEq(b, Key(g))
    requires forall k :: 0 <= k < |gs| ==> PyText.LessEq(b, Key(gs[k]))
    ensures forall k :: 0 <= k < |Insert(g, gs)| ==> PyText.LessEq(b, Key(Insert(g, gs)[k]))
  {
    var r := Insert(g, gs);
    forall k | 0 <= k < |r|
      ensures PyText.LessEq(b, Key(r[k]))
    {
      var x := r[k];
      assert x in multiset(r);
      assert x == g || x in multiset(gs);
      if x != g {
        var m :| 0 <= m < |gs| && gs[m] == x;
      }
    }
  }

  /** `groups_list.sort(key=lambda g: g.name.lower())` */
  function SortByName(gs: seq<LdapGroupInfo>): (r: seq<LdapGroupInfo>)
    ensures multiset(r) == multiset(gs)
  {
    if gs == [] then []
    else
      assert gs == [gs[0]] + gs[1..];
      Insert(gs[0], SortByName(gs[1..]))
  }

  lemma {:induction false} SortByNameSorted(gs: seq<LdapGroupInfo>)
    ensures SortedByName(SortByName(gs))
  {
    if gs != [] {
      SortByNameSorted(gs[1..]);
      InsertSorted(gs[0], SortByName(gs[1..]));
    }
  }

  /** `get_ldap_groups`: the named groups of the directory, ordered by
      lower-cased name; a failed search answers 500. */
  method GetLdapGroups(dir: Directory) returns (r: Result<seq<LdapGroupInfo>, HttpError>)
    requires dir.Valid()
    modifies dir.wire
    ensures dir.wire.sent == old(dir.wire.sent) + [SearchGroups]
    ensures r.Ok? <==> SearchGroups !in dir.wire.refusing
    ensures r.Err? ==> r.error == Status(InternalError)
    ensures r.Ok? ==>
      && SortedByName(r.value)
      && multiset(r.value) == multiset(NamedGroups(dir.GroupEntries(dir.order)))
      && multiset(Names(r.value)) == multiset(Filled(dir.order))
  {
    var found := dir.GetGroups();
    if found.Err? {
      return Err(Status(InternalError));
    }
    var entries := found.value;
    NamedGroupsOfDirectory(dir);
    if entries == [] {
      return Ok([]);
    }
    var groups := CollectGroups(entries);
    var sorted := SortByName(groups);
    SortByNameSorted(groups);
    SortByNameNames(groups);
    return Ok(sorted);
  }

  /** The groups the directory lists are kept exactly when their name is non-empty. */
  lemma NamedGroupsOfDirectory(dir: Directory)
    requires dir.Valid()
    ensures Names(NamedGroups(dir.GroupEntries(dir.order))) == Filled(dir.order)
  {
    var entries := dir.GroupEntries(dir.order);
    forall i | 0 <= i < |dir.order|
      ensures "cn" in entries[i].attrs && entries[i].attrs["cn"] == Many([Bytes(dir.order[i])])
    {
      assert dir.order[i] in dir.groupAttrs;
      assert Get(dir.groupAttrs[dir.order[i]], "cn") == Many([Bytes(dir.order[i])]);
    }
    NamedGroupsNames(entries, dir.order);
  }

  lemma NamesCons(x: LdapGroupInfo, gs: seq<LdapGroupInfo>)
    ensures Names([x] + gs) == [x.name] + Names(gs)
  {
  }

  lemma {:induction false} InsertNames(g: LdapGroupInfo, gs: seq<LdapGroupInfo>)
    ensures multiset(Names(Insert(g, gs))) == multiset(Names(gs)) + multiset{g.name}
  {
    if gs == [] {
      NamesCons(g, []);
    } else if PyText.LessEq(Key(g), Key(gs[0])) {
      NamesCons(g, gs);
    } else {
      InsertNames(g, gs[1..]);
      NamesCons(gs[0], Insert(g, gs[1..]));
      NamesCons(gs[0], gs[1..]);
      assert gs == [gs[0]] + gs[1..];
    }
  }

  /** Sorting permutes the names. */
  lemma {:induction false} SortByNameNames(gs: seq<LdapGroupInfo>)
    ensures multiset(Names(SortByName(gs))) == multiset(Names(gs))
  {
    if gs != [] {
      SortByNameNames(gs[1..]);
      InsertNames(gs[0], SortByName(gs[1..]));
      NamesCons(gs[0], gs[1..]);
      assert gs == [gs[0]] + gs[1..];
    }
  }
}
