/** HTTP Basic authentication of the service's callers (section 2 of RFC 7617)
    against one configured account. Password checking against the stored
    bcrypt hash is a parameter: `verify(password, hash)`. */
module Auth {
  import opened Wrappers
  import opened Http

  /** The `auth` section of the configuration; `None` for an absent key.
      `enabled` is `Some(false)` for any value Python treats as false. */
  datatype AuthConfig = AuthConfig(
    enabled: Option<bool>,
    username: Option<string>,
    password: Option<string>,
    realm: Option<string>)

  /** The credentials of a request's `Authorization: Basic` header. */
  datatype Credentials = Credentials(username: string, password: string)

  const DefaultRealm := "Portal Conductor API"
  const Anonymous := "anonymous"

  /** Authentication is on unless the configuration turns it off. */
  predicate Enabled(config: AuthConfig) {
    config.enabled != Some(false)
  }

  /** A configured value Python treats as true: present and non-empty. */
  predicate Set(value: Option<string>) {
    value.Some? && value.value != ""
  }

  /** `authenticate_user` */
  function AuthenticateUser(config: AuthConfig, verify: (string, string) -> bool, username: string, password: string): (ok: bool)
    ensures !Enabled(config) ==> ok
    ensures Enabled(config) && !(Set(config.username) && Set(config.password)) ==> !ok
    ensures Enabled(config) ==>
      (ok <==> Set(config.username) && Set(config.password)
               && username == config.username.value && verify(password, config.password.value))
  {
    if !Enabled(config) then true
    else if !Set(config.username) || !Set(config.password) then false
    else
      var usernameMatch := username == config.username.value;
      var passwordMatch := verify(password, config.password.value);
      usernameMatch && passwordMatch
  }

  /** The `WWW-Authenticate` challenge for `realm`. */
  function Challenge(realm: string): string {
    "Basic realm=\"" + realm + "\""
  }

  /** The challenge carries the realm between quotes after the scheme name,
      so the realm can be read back from it. */
  lemma ChallengeQuotesRealm(realm: string)
    ensures var c := Challenge(realm);
      && |c| == |realm| + 14
      && c[..13] == "Basic realm=\"" && c[|c| - 1] == '"'
      && c[13..|c| - 1] == realm
  {
    var c := Challenge(realm);
    assert c == "Basic realm=\"" + realm + "\"";
  }

  function RealmOf(config: AuthConfig): string {
    if config.realm.Some? then config.realm.value else DefaultRealm
  }

  /** The 401 answer to failed credentials. */
  function Rejection(config: AuthConfig): (e: HttpError)
    ensures e.status == Unauthorized
    ensures e.headers.Keys == {"WWW-Authenticate"} && e.headers["WWW-Authenticate"] == Challenge(RealmOf(config))
  {
    HttpError(Unauthorized, map["WWW-Authenticate" := Challenge(RealmOf(config))])
  }

  /** `get_current_user`: the caller's name, "anonymous" when authentication
      is off, or a 401 with a Basic challenge. */
  function GetCurrentUser(config: AuthConfig, verify: (string, string) -> bool, credentials: Credentials)
    : (r: Result<string, HttpError>)
    ensures !Enabled(config) ==> r == Ok(Anonymous)
    ensures Enabled(config) ==>
      (r.Ok? <==> AuthenticateUser(config, verify, credentials.username, credentials.password))
    ensures Enabled(config) && r.Ok? ==> r.value == credentials.username
    ensures r.Err? ==> r.error.status == Unauthorized && r.error.headers == map["WWW-Authenticate" := Challenge(RealmOf(config))]
  {
    if !Enabled(config) then Ok(Anonymous)
    else if !AuthenticateUser(config, verify, credentials.username, credentials.password) then Err(Rejection(config))
    else Ok(credentials.username)
  }

  /** `get_optional_user`: like `get_current_user`, but no credentials or
      failed ones give `None` instead of an error. */
  function GetOptionalUser(config: AuthConfig, verify: (string, string) -> bool, credentials: Option<Credentials>)
    : (r: Option<string>)
    ensures credentials.None? ==> r.None?
    ensures credentials.Some? ==>
      (r.Some? <==> GetCurrentUser(config, verify, credentials.value).Ok?)
    ensures r.Some? ==> r == Some(GetCurrentUser(config, verify, credentials.value).value)
  {
    if credentials.None? then None
    else
      match GetCurrentUser(config, verify, credentials.value)
      case Ok(user) => Some(user)
      case Err(_) => None
  }

  /** With authentication on but no account configured, every caller is
      turned away, whatever the password checker says. */
  lemma UnconfiguredRejectsEveryone(config: AuthConfig, verify: (string, string) -> bool, credentials: Credentials)
    requires Enabled(config) && !Set(config.username)
    ensures GetCurrentUser(config, verify, credentials) == Err(Rejection(config))
    ensures GetOptionalUser(config, verify, Some(credentials)) == None
  {
  }
}
