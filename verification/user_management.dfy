/** The user endpoints under `/users`: account creation across the
    directory and the data store, a password change, and removal of the
    directory account. Each is a fixed sequence of backend calls with no
    rollback: the first call that fails ends the request and the calls
    before it stay done. */
module UserManagement {
  import opened Wrappers
  import opened Calls
  import opened LdapCodec
  import opened Directory
  import opened DataStore
  import opened Http
  import DeleteUserScript

  // ---------------------------------------------------------------------
  // Account creation

  /** The directory calls of `add_user`, in order. */
  function LdapSteps(username: string, everyone: string, community: string): seq<Call> {
    [AddEntry(username), SetPassword(username), AddMember(everyone, username), AddMember(community, username)]
  }

  /** The data store calls of `add_user`, in order, for the home `home`. */
  function DataStoreSteps(username: string, ipcservices: string, admin: string, home: string): seq<Call> {
    [Calls.HealthCheck, CreateDsUser(username), SetDsPassword(username), Calls.UserHome(username),
     Calls.Chmod(ipcservices, "own", home), Calls.Chmod(admin, "own", home)]
  }

  /** Steps 1 and 2 of `add_user` go through: the request is valid, the
      account is new, and neither call is refused. */
  predicate AccountAccepted(user: CreateUserRequest, days: int, people: map<string, AttrMap>, refusing: set<Call>) {
    && ValidateUidNumber(user.userUid).Ok? && days >= 0
    && user.username !in people
    && AddEntry(user.username) !in refusing && SetPassword(user.username) !in refusing
  }

  /** Steps 3 and 4 of `add_user` go through: both groups exist and do not
      list the account yet, and neither add is refused. Adding the same
      group twice fails on the second add. */
  predicate GroupsAccepted(username: string, everyone: string, community: string,
                           members: map<string, set<string>>, refusing: set<Call>) {
    && everyone in members && username !in members[everyone]
    && community in members && username !in members[community] && community != everyone
    && AddMember(everyone, username) !in refusing && AddMember(community, username) !in refusing
  }

  /** The directory half of `add_user` goes through. */
  predicate LdapAccepted(user: CreateUserRequest, days: int, everyone: string, community: string,
                         people: map<string, AttrMap>, members: map<string, set<string>>, refusing: set<Call>) {
    AccountAccepted(user, days, people, refusing) && GroupsAccepted(user.username, everyone, community, members, refusing)
  }

  /** The data store half of `add_user` goes through: the account is new
      and the transport refuses none of the calls that raise. The health
      check is not among them: its answer is never looked at. */
  predicate DataStoreAccepted(username: string, ipcservices: string, admin: string, zone: string,
                              users: set<string>, refusing: set<Call>) {
    && username !in users
    && CreateDsUser(username) !in refusing && SetDsPassword(username) !in refusing
    && Calls.UserHome(username) !in refusing
    && Calls.Chmod(ipcservices, "own", HomePath(zone, username)) !in refusing
    && Calls.Chmod(admin, "own", HomePath(zone, username)) !in refusing
  }

  /** Steps 1 and 2 of `add_user`: create the account, then set its password. */
  method CreateAccount(dir: Directory, user: CreateUserRequest, days: int) returns (r: Result<(), Fault>)
    requires dir.Valid()
    modifies dir, dir.wire
    ensures dir.Valid() && dir.members == old(dir.members)
    ensures old(dir.wire.sent) <= dir.wire.sent
    ensures r.Ok? <==> AccountAccepted(user, days, old(dir.people), dir.wire.refusing)
    ensures r.Ok? ==>
      && dir.wire.sent == old(dir.wire.sent) + [AddEntry(user.username), SetPassword(user.username)]
      && dir.people == SetAttr(old(dir.people)[user.username := UserEntry(user, ValidateUidNumber(user.userUid).value, days)],
                               user.username, "userPassword", Many([Bytes(user.password)]))
  {
    ghost var sent0 := dir.wire.sent;
    var _ :- dir.CreateUser(Days(days), user);
    var _ :- dir.ChangePassword(user.username, user.password);
    assert dir.wire.sent == sent0 + [AddEntry(user.username), SetPassword(user.username)];
    return Ok(());
  }

  /** Steps 3 and 4 of `add_user`: add the account to the everyone group,
      then to the community group, whether or not it is already there. */
  method JoinGroups(dir: Directory, username: string, everyone: string, community: string) returns (r: Result<(), Fault>)
    requires dir.Valid()
    modifies dir, dir.wire
    ensures dir.Valid() && dir.people == old(dir.people)
    ensures old(dir.wire.sent) <= dir.wire.sent
    ensures r.Ok? <==> GroupsAccepted(username, everyone, community, old(dir.members), dir.wire.refusing)
    ensures r.Ok? ==>
      && dir.wire.sent == old(dir.wire.sent) + [AddMember(everyone, username), AddMember(community, username)]
      && dir.members == old(dir.members)[everyone := old(dir.members)[everyone] + {username}]
                                        [community := old(dir.members)[community] + {username}]
  {
    ghost var sent0, members0 := dir.wire.sent, dir.members;
    assert Formatted(Text(everyone)) == everyone && Formatted(Text(community)) == community;
    var _ :- dir.AddUserToGroup(username, Text(everyone));
    assert community in members0 ==>
      dir.members[community] == if community == everyone then members0[everyone] + {username} else members0[community];
    var _ :- dir.AddUserToGroup(username, Text(community));
    assert dir.wire.sent == sent0 + [AddMember(everyone, username), AddMember(community, username)];
    return Ok(());
  }

  /** Steps 1 to 4 of `add_user`. */
  method CreateLdapAccount(dir: Directory, user: CreateUserRequest, days: int, everyone: string, community: string)
    returns (r: Result<(), Fault>)
    requires dir.Valid()
    modifies dir, dir.wire
    ensures dir.Valid()
    ensures old(dir.wire.sent) <= dir.wire.sent
    ensures r.Ok? <==> LdapAccepted(user, days, everyone, community, old(dir.people), old(dir.members), dir.wire.refusing)
    ensures AccountAccepted(user, days, old(dir.people), dir.wire.refusing) ==> user.username in dir.people
    ensures r.Ok? ==>
      && dir.wire.sent == old(dir.wire.sent) + LdapSteps(user.username, everyone, community)
      && user.username in dir.members[everyone] && user.username in dir.members[community]
  {
    ghost var sent0 := dir.wire.sent;
    var _ :- CreateAccount(dir, user, days);
    ghost var sent1 := dir.wire.sent;
    r := JoinGroups(dir, user.username, everyone, community);
    if r.Ok? {
      var u := user.username;
      AppendPair(sent0, [AddEntry(u), SetPassword(u)], [AddMember(everyone, u), AddMember(community, u)]);
      assert [AddEntry(u), SetPassword(u)] + [AddMember(everyone, u), AddMember(community, u)] == LdapSteps(u, everyone, community);
    }
  }

  /** `principal` holds "own" in the access list `acl`. */
  predicate Owns(acl: map<string, string>, principal: string) {
    principal in acl && acl[principal] == "own"
  }

  /** Steps 5 to 7 of `add_user`: the health check, whose answer is
      ignored, then the data store account and its password. */
  method CreateDsAccount(ds: DataStore, username: string, password: string) returns (r: Result<(), Fault>)
    modifies ds, ds.wire
    ensures ds.acls == old(ds.acls) || ds.acls == old(ds.acls)[HomePath(ds.zone, username) := map[username := "own"]]
    ensures old(ds.wire.sent) <= ds.wire.sent
    ensures r.Ok? <==> username !in old(ds.users) && CreateDsUser(username) !in ds.wire.refusing && SetDsPassword(username) !in ds.wire.refusing
    ensures r.Ok? ==>
      && ds.wire.sent == old(ds.wire.sent) + [Calls.HealthCheck, CreateDsUser(username), SetDsPassword(username)]
      && ds.users == old(ds.users) + {username}
      && ds.passwords == old(ds.passwords)[username := password]
      && ds.acls == old(ds.acls)[HomePath(ds.zone, username) := map[username := "own"]]
  {
    ghost var sent0 := ds.wire.sent;
    var _ := ds.HealthCheck();
    var _ :- ds.CreateUser(username);
    var _ :- ds.ChangePassword(username, password);
    assert ds.wire.sent == sent0 + [Calls.HealthCheck, CreateDsUser(username), SetDsPassword(username)];
    return Ok(());
  }

  /** Steps 8 to 10 of `add_user`: look the home up, then give "own" on it
      to the services account and then to the administrator. */
  method GrantHome(ds: DataStore, username: string, ipcservices: string, admin: string) returns (r: Result<(), Fault>)
    modifies ds, ds.wire
    ensures ds.users == old(ds.users) && ds.passwords == old(ds.passwords)
    ensures old(ds.wire.sent) <= ds.wire.sent
    ensures r.Ok? <==>
      var home := HomePath(ds.zone, username);
      && username in old(ds.users) && home in old(ds.acls) && Calls.UserHome(username) !in ds.wire.refusing
      && Calls.Chmod(ipcservices, "own", home) !in ds.wire.refusing && Calls.Chmod(admin, "own", home) !in ds.wire.refusing
    ensures r.Ok? ==>
      var home := HomePath(ds.zone, username);
      && ds.wire.sent == old(ds.wire.sent) + [Calls.UserHome(username), Calls.Chmod(ipcservices, "own", home), Calls.Chmod(admin, "own", home)]
      && ds.acls == old(ds.acls)[home := old(ds.acls)[home][ipcservices := "own"][admin := "own"]]
  {
    ghost var sent0 := ds.wire.sent;
    var home :- ds.UserHome(username);
    var _ :- ds.Chmod(ipcservices, "own", home);
    var _ :- ds.Chmod(admin, "own", home);
    assert ds.wire.sent == sent0 + [Calls.UserHome(username), Calls.Chmod(ipcservices, "own", home), Calls.Chmod(admin, "own", home)];
    return Ok(());
  }

  /** Steps 5 to 10 of `add_user`. */
  method CreateDataStoreAccount(ds: DataStore, username: string, password: string, ipcservices: string, admin: string)
    returns (r: Result<(), Fault>)
    modifies ds, ds.wire
    ensures old(ds.wire.sent) <= ds.wire.sent
    ensures r.Ok? <==> DataStoreAccepted(username, ipcservices, admin, ds.zone, old(ds.users), ds.wire.refusing)
    ensures r.Ok? ==>
      var home := HomePath(ds.zone, username);
      && ds.wire.sent == old(ds.wire.sent) + DataStoreSteps(username, ipcservices, admin, home)
      && ds.users == old(ds.users) + {username}
      && ds.passwords == old(ds.passwords)[username := password]
      && ds.acls == old(ds.acls)[home := map[username := "own"][ipcservices := "own"][admin := "own"]]
    ensures r.Ok? ==>
      var home := HomePath(ds.zone, username);
      home in ds.acls && Owns(ds.acls[home], username) && Owns(ds.acls[home], ipcservices) && Owns(ds.acls[home], admin)
  {
    ghost var sent0 := ds.wire.sent;
    var _ :- CreateDsAccount(ds, username, password);
    r := GrantHome(ds, username, ipcservices, admin);
    if r.Ok? {
      var home := HomePath(ds.zone, username);
      AppendPair(sent0, [Calls.HealthCheck, CreateDsUser(username), SetDsPassword(username)],
                 [Calls.UserHome(username), Calls.Chmod(ipcservices, "own", home), Calls.Chmod(admin, "own", home)]);
      assert [Calls.HealthCheck, CreateDsUser(username), SetDsPassword(username)]
        + [Calls.UserHome(username), Calls.Chmod(ipcservices, "own", home), Calls.Chmod(admin, "own", home)]
        == DataStoreSteps(username, ipcservices, admin, home);
    }
  }

  /** `add_user`: the directory steps, then the data store steps. Any
      failure answers 500 and leaves the steps already done in place. */
  method AddUser(dir: Directory, ds: DataStore, user: CreateUserRequest, days: int,
                 everyone: string, community: string, ipcservices: string, admin: string)
    returns (r: Result<string, HttpError>)
    requires dir.Valid() && ds.wire == dir.wire
    modifies dir, ds, dir.wire
    ensures dir.Valid()
    ensures old(dir.wire.sent) <= dir.wire.sent
    ensures r.Ok? <==>
      && LdapAccepted(user, days, everyone, community, old(dir.people), old(dir.members), dir.wire.refusing)
      && DataStoreAccepted(user.username, ipcservices, admin, ds.zone, old(ds.users), dir.wire.refusing)
    ensures r.Ok? ==> r.value == user.username
    ensures r.Err? ==> r.error == Status(InternalError)
    ensures r.Ok? ==>
      dir.wire.sent == old(dir.wire.sent) + LdapSteps(user.username, everyone, community)
        + DataStoreSteps(user.username, ipcservices, admin, HomePath(ds.zone, user.username))
    ensures r.Ok? ==>
      && user.username in dir.people
      && user.username in dir.members[everyone] && user.username in dir.members[community]
      && user.username in ds.users
      && var home := HomePath(ds.zone, user.username);
      && home in ds.acls
      && Owns(ds.acls[home], user.username) && Owns(ds.acls[home], ipcservices) && Owns(ds.acls[home], admin)
    ensures r.Err? && LdapAccepted(user, days, everyone, community, old(dir.people), old(dir.members), dir.wire.refusing) ==>
      user.username in dir.people
    ensures !LdapAccepted(user, days, everyone, community, old(dir.people), old(dir.members), dir.wire.refusing) ==>
      ds.users == old(ds.users) && ds.passwords == old(ds.passwords) && ds.acls == old(ds.acls)
  {
    var ldap := CreateLdapAccount(dir, user, days, everyone, community);
    if ldap.Err? {
      return Err(Status(InternalError));
    }
    var store := CreateDataStoreAccount(ds, user.username, user.password, ipcservices, admin);
    if store.Err? {
      return Err(Status(InternalError));
    }
    return Ok(user.username);
  }

  // ---------------------------------------------------------------------
  // Password change

  /** `change_password` goes through: the account exists in the directory
      and holds a shadowLastChange value, the day count is valid, the
      account exists in the data store, and no call is refused. */
  predicate PasswordAccepted(username: string, days: int, people: map<string, AttrMap>, dsUsers: set<string>,
                             refusing: set<Call>) {
    && username in people && Holds(people[username], "shadowLastChange") && days >= 0
    && username in dsUsers
    && SetPassword(username) !in refusing && ReplaceShadowLastChange(username, days) !in refusing
    && SetDsPassword(username) !in refusing
  }

  /** `change_password`: the directory password, then shadowLastChange set
      to today's day count, then the data store password. Nothing catches a
      failure: the first one ends the request (the framework answers 500)
      and the later writes are not made. */
  method ChangePassword(dir: Directory, ds: DataStore, username: string, password: string, days: int)
    returns (r: Result<string, Fault>)
    requires ds.wire == dir.wire
    modifies dir, ds, dir.wire
    ensures dir.members == old(dir.members)
    ensures old(dir.wire.sent) <= dir.wire.sent
    ensures r.Ok? <==> PasswordAccepted(username, days, old(dir.people), old(ds.users), dir.wire.refusing)
    ensures r.Ok? ==>
      && r.value == username
      && dir.wire.sent == old(dir.wire.sent) + [SetPassword(username), ReplaceShadowLastChange(username, days), SetDsPassword(username)]
      && dir.people == SetAttr(SetAttr(old(dir.people), username, "userPassword", Many([Bytes(password)])),
                               username, "shadowLastChange", Many([Bytes(PyText.IntToString(days))]))
      && ds.passwords == old(ds.passwords)[username := password]
    ensures SetPassword(username) in dir.wire.refusing || username !in old(dir.people) ==>
      && dir.wire.sent == old(dir.wire.sent) + [SetPassword(username)]
      && dir.people == old(dir.people) && ds.passwords == old(ds.passwords)
    ensures r.Err? ==> ds.passwords == old(ds.passwords)
  {
    ghost var start, people0 := dir.wire.sent, dir.people;
    var changed := dir.ChangePassword(username, password);
    if changed.Err? {
      return Err(changed.error);
    }
    assert Get(dir.people[username], "shadowLastChange") == Get(people0[username], "shadowLastChange");
    var shadow := dir.ShadowLastChange(Days(days), username);
    if shadow.Err? {
      return Err(shadow.error);
    }
    var stored := ds.ChangePassword(username, password);
    AppendAssoc(start, [SetPassword(username)], [ReplaceShadowLastChange(username, days)], [SetDsPassword(username)]);
    assert [SetPassword(username)] + [ReplaceShadowLastChange(username, days)] + [SetDsPassword(username)]
        == [SetPassword(username), ReplaceShadowLastChange(username, days), SetDsPassword(username)];
    if stored.Err? {
      return Err(stored.error);
    }
    return Ok(username);
  }

  // ---------------------------------------------------------------------
  // Account removal

  /** `delete_user` as written: the group name passed to
      `remove_user_from_group` is the raw first `cn` value of each group
      entry, which the directory returns as bytes, so the DN is formatted
      from the literal `b'…'` text. For an account in at least one group
      (and no group named like that literal) the first removal fails, the
      request ends, and the account is never deleted. */
  method DeleteUserAsWritten(dir: Directory, username: string) returns (r: Result<string, Fault>)
    requires dir.Valid()
    modifies dir, dir.wire
    ensures dir.Valid()
    ensures r.Ok? ==> r.value == username && dir.people == old(dir.people) - {username}
    ensures var groups := old(dir.GroupsOf(username));
      groups != [] && Formatted(Bytes(groups[0])) !in old(dir.members) ==>
        r.Err? && dir.people == old(dir.people) && dir.members == old(dir.members)
  {
    ghost var groups := dir.GroupsOf(username);
    ghost var misses := groups != [] && Formatted(Bytes(groups[0])) !in dir.members;
    var userGroups :- dir.GetUserGroups(username);
    dir.GroupEntriesNames(groups);
    var raw := RawCns(userGroups);
    for i := 0 to |raw|
      invariant dir.Valid() && dir.people == old(dir.people)
      invariant misses ==> i == 0 && dir.members == old(dir.members)
    {
      var _ :- dir.RemoveUserFromGroup(username, raw[i]);
    }
    var _ :- dir.DeleteUser(username);
    return Ok(username);
  }

  /** `delete_user` with each group name decoded before it is formatted into
      the DN, as the deletion script does: the account leaves every group
      listing it and is then deleted. The data store is not touched. */
  method DeleteUser(dir: Directory, username: string) returns (r: Result<string, Fault>)
    requires dir.Valid()
    modifies dir, dir.wire
    ensures dir.Valid()
    ensures old(dir.wire.sent) <= dir.wire.sent
    ensures r.Ok? ==>
      && r.value == username
      && dir.wire.sent == old(dir.wire.sent) + DeleteUserScript.DirectoryDeletions(true, old(dir.GroupsOf(username)), username, false)
      && dir.people == old(dir.people) - {username}
      && dir.members == DeleteUserScript.Unlisted(old(dir.members), username)
    ensures r.Ok? ==> old(username in dir.people)
  {
    var _ :- DeleteUserScript.DeleteAccount(dir, username, false);
    return Ok(username);
  }
}
