/** The iRODS data store service as the service sees it through
    `portal_datastore.DataStore`: accounts, their passwords, and the access
    control list of every collection path. Each method is one HTTP request;
    a refused request or an error status raises. */
module DataStore {
  import opened Wrappers
  import opened Calls

  /** The home collection the service creates for `user` in `zone`. */
  function HomePath(zone: string, user: string): (r: string)
    ensures r == "/" + zone + "/home/" + user
  {
    "/" + zone + "/home/" + user
  }

  /** Why Python refuses a call before the callee runs: the number of
      positional arguments does not fit the parameters. */
  datatype CallError = TypeError(positional: nat)

  /** `DataStore(*args)`: `__init__(self, api_url)` binds exactly one
      positional argument, the base URL of the data store service; any
      other number raises before a client exists. */
  function NewClient(args: seq<string>): (r: Result<string, CallError>)
    ensures r.Ok? <==> |args| == 1
    ensures r.Ok? ==> r.value == args[0]
    ensures r.Err? ==> r.error.positional == |args|
  {
    if |args| == 1 then Ok(args[0]) else Err(TypeError(|args|))
  }

  /** Start-up as written in `main.py` and the deletion script: the iRODS
      host, port, user, password and zone are passed positionally. */
  function StartupClientAsWritten(host: string, port: string, user: string, password: string, zone: string)
    : Result<string, CallError>
  {
    NewClient([host, port, user, password, zone])
  }

  /** Whatever the configuration holds, that call raises TypeError. */
  lemma StartupClientAsWrittenRaises(host: string, port: string, user: string, password: string, zone: string)
    ensures StartupClientAsWritten(host, port, user, password, zone) == Err(TypeError(5))
  {
  }

  /** Start-up as intended: the one-argument construction from the
      service's address succeeds and keeps that address. */
  function StartupClient(apiUrl: string): (r: Result<string, CallError>)
    ensures r == Ok(apiUrl)
  {
    NewClient([apiUrl])
  }

  class DataStore {
    const wire: Wire
    const zone: string
    /** Whether the health endpoint answers with a status below 400. */
    const healthy: bool
    var users: set<string>
    var passwords: map<string, string>
    /** The permission each principal holds, for every existing collection. */
    var acls: map<string, map<string, string>>

    constructor (wire: Wire, zone: string, healthy: bool, users: set<string>, acls: map<string, map<string, string>>)
      ensures this.wire == wire && this.zone == zone && this.healthy == healthy
      ensures this.users == users && passwords == map[] && this.acls == acls
    {
      this.wire := wire;
      this.zone := zone;
      this.healthy := healthy;
      this.users := users;
      passwords := map[];
      this.acls := acls;
    }

    /** `health_check`: never raises; a refused request reads as unhealthy. */
    method HealthCheck() returns (up: bool)
      modifies wire
      ensures wire.sent == old(wire.sent) + [Calls.HealthCheck]
      ensures up <==> healthy && Calls.HealthCheck !in wire.refusing
    {
      var refused := wire.Send(Calls.HealthCheck);
      up := !refused && healthy;
    }

    /** `user_exists` */
    method UserExists(user: string) returns (r: Result<bool, Fault>)
      modifies wire
      ensures wire.sent == old(wire.sent) + [Calls.UserExists(user)]
      ensures r.Err? <==> Calls.UserExists(user) in wire.refusing
      ensures r.Err? ==> r.error == Unreachable
      ensures r.Ok? ==> (r.value <==> user in users)
    {
      var refused := wire.Send(Calls.UserExists(user));
      if refused {
        return Err(Unreachable);
      }
      return Ok(user in users);
    }

    /** `create_user`: the service creates the account and its home
        collection, owned by the account. */
    method CreateUser(user: string) returns (r: Result<(), Fault>)
      modifies this, wire
      ensures wire.sent == old(wire.sent) + [CreateDsUser(user)]
      ensures r.Ok? <==> CreateDsUser(user) !in wire.refusing && user !in old(users)
      ensures r.Ok? ==>
        && users == old(users) + {user} && passwords == old(passwords)
        && acls == old(acls)[HomePath(zone, user) := map[user := "own"]]
      ensures r.Err? ==>
        && users == old(users) && passwords == old(passwords) && acls == old(acls)
        && r.error in {Unreachable, Conflict}
    {
      var refused := wire.Send(CreateDsUser(user));
      if refused {
        return Err(Unreachable);
      }
      if user in users {
        return Err(Conflict);
      }
      users := users + {user};
      acls := acls[HomePath(zone, user) := map[user := "own"]];
      return Ok(());
    }

    /** `change_password` */
    method ChangePassword(user: string, password: string) returns (r: Result<(), Fault>)
      modifies this, wire
      ensures wire.sent == old(wire.sent) + [SetDsPassword(user)]
      ensures users == old(users) && acls == old(acls)
      ensures r.Ok? <==> SetDsPassword(user) !in wire.refusing && user in old(users)
      ensures r.Ok? ==> passwords == old(passwords)[user := password]
      ensures r.Err? ==> passwords == old(passwords) && r.error in {Unreachable, NotFound}
    {
      var refused := wire.Send(SetDsPassword(user));
      if refused {
        return Err(Unreachable);
      }
      if user !in users {
        return Err(NotFound);
      }
      passwords := passwords[user := password];
      return Ok(());
    }

    /** `user_home`: the `home` field of the answer. */
    method UserHome(user: string) returns (r: Result<string, Fault>)
      modifies wire
      ensures wire.sent == old(wire.sent) + [Calls.UserHome(user)]
      ensures r.Ok? <==> Calls.UserHome(user) !in wire.refusing && user in users
      ensures r.Ok? ==> r.value == HomePath(zone, user)
      ensures r.Err? ==> r.error in {Unreachable, NotFound}
    {
      var refused := wire.Send(Calls.UserHome(user));
      if refused {
        return Err(Unreachable);
      }
      if user !in users {
        return Err(NotFound);
      }
      return Ok(HomePath(zone, user));
    }

    /** `chmod`: give `principal` the permission `permission` on `path`. */
    method Chmod(principal: string, permission: string, path: string) returns (r: Result<(), Fault>)
      modifies this, wire
      ensures wire.sent == old(wire.sent) + [Calls.Chmod(principal, permission, path)]
      ensures users == old(users) && passwords == old(passwords)
      ensures r.Ok? <==> Calls.Chmod(principal, permission, path) !in wire.refusing && path in old(acls)
      ensures r.Ok? ==> acls == old(acls)[path := old(acls)[path][principal := permission]]
      ensures r.Err? ==> acls == old(acls) && r.error in {Unreachable, NotFound}
    {
      var refused := wire.Send(Calls.Chmod(principal, permission, path));
      if refused {
        return Err(Unreachable);
      }
      if path !in acls {
        return Err(NotFound);
      }
      acls := acls[path := acls[path][principal := permission]];
      return Ok(());
    }

    /** `delete_home`: remove the account's home collection. */
    method DeleteHome(user: string) returns (r: Result<(), Fault>)
      modifies this, wire
      ensures wire.sent == old(wire.sent) + [Calls.DeleteHome(user)]
      ensures users == old(users) && passwords == old(passwords)
      ensures r.Ok? <==> Calls.DeleteHome(user) !in wire.refusing && HomePath(zone, user) in old(acls)
      ensures r.Ok? ==> acls == old(acls) - {HomePath(zone, user)}
      ensures r.Err? ==> acls == old(acls) && r.error in {Unreachable, NotFound}
    {
      var refused := wire.Send(Calls.DeleteHome(user));
      if refused {
        return Err(Unreachable);
      }
      if HomePath(zone, user) !in acls {
        return Err(NotFound);
      }
      acls := acls - {HomePath(zone, user)};
      return Ok(());
    }

    /** `delete_user`: remove the account; its home is not touched. */
    method DeleteUser(user: string) returns (r: Result<(), Fault>)
      modifies this, wire
      ensures wire.sent == old(wire.sent) + [DeleteDsUser(user)]
      ensures acls == old(acls)
      ensures r.Ok? <==> DeleteDsUser(user) !in wire.refusing && user in old(users)
      ensures r.Ok? ==> users == old(users) - {user} && passwords == old(passwords) - {user}
      ensures r.Err? ==> users == old(users) && passwords == old(passwords) && r.error in {Unreachable, NotFound}
    {
      var refused := wire.Send(DeleteDsUser(user));
      if refused {
        return Err(Unreachable);
      }
      if user !in users {
        return Err(NotFound);
      }
      users := users - {user};
      passwords := passwords - {user};
      return Ok(());
    }
  }
}
