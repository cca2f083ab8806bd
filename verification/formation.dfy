/** The job service client: a cached bearer token obtained with the OAuth 2.0
    client credentials grant (section 4.4 of RFC 6749) and renewed a fixed
    buffer before the expiry its JWT `exp` claim (section 4.1.4 of RFC 7519)
    announces. Time is whole seconds since the epoch; the token service's and
    the job service's answers are parameters of the calls that receive them. */
module FormationApi {
  import opened Wrappers
  import PyText

  /** `base_url`: the API address with exactly one trailing "/" added when it has none. */
  function BaseUrl(apiUrl: string): (r: string)
    ensures r != [] && r[|r| - 1] == '/'
    ensures apiUrl <= r && |r| <= |apiUrl| + 1
    ensures apiUrl != [] && apiUrl[|apiUrl| - 1] == '/' ==> r == apiUrl
  {
    if apiUrl != [] && apiUrl[|apiUrl| - 1] == '/' then apiUrl else apiUrl + "/"
  }

  /** Normalising an address that is already normalised changes nothing. */
  lemma BaseUrlIdempotent(apiUrl: string)
    ensures BaseUrl(BaseUrl(apiUrl)) == BaseUrl(apiUrl)
  {
    var b := BaseUrl(apiUrl);
    assert b[|b| - 1] == '/';
  }

  /** The Keycloak token endpoint of `realm`. */
  function TokenEndpoint(keycloakUrl: string, realm: string): string {
    keycloakUrl + "/realms/" + realm + "/protocol/openid-connect/token"
  }

  /** With the Keycloak address stripped of trailing slashes, the endpoint
      starts with that address followed by a single "/". */
  lemma EndpointJoinsOnce(keycloakUrl: string, realm: string)
    ensures var k := PyText.RStrip(keycloakUrl, '/');
      var e := TokenEndpoint(k, realm);
      && k <= e && e[|k|] == '/' && (k == [] || e[|k| - 1] != '/')
      && e[|k|..|k| + 8] == "/realms/"
  {
    var k := PyText.RStrip(keycloakUrl, '/');
    var e := TokenEndpoint(k, realm);
    assert e == k + ("/realms/" + realm + "/protocol/openid-connect/token");
  }

  /** The form body of a client credentials grant. */
  function CredentialsForm(clientId: string, clientSecret: string): seq<(string, string)> {
    [("grant_type", "client_credentials"), ("client_id", clientId), ("client_secret", clientSecret)]
  }

  /** The requests the client issues. */
  datatype Request =
    | TokenRequest(endpoint: string, form: seq<(string, string)>)
    | ApiRequest(verb: string, path: seq<string>, authorization: string)

  /** What the token service answers: nothing (the transport failed) or a
      status with the `access_token` of its JSON body, when there is one, and
      the `exp` claim of that token, when it decodes and carries one. */
  datatype TokenReply =
    | TokenUnreachable
    | TokenAnswer(status: int, accessToken: Option<string>, exp: Option<int>)

  /** What the job service answers to a request. The JSON body is not modelled. */
  datatype ApiReply = ApiUnreachable | ApiAnswer(status: int)

  datatype FormationError = Transport | HttpStatus(code: int) | MissingAccessToken

  /** `raise_for_status` passes only 2xx answers. */
  predicate IsSuccess(status: int) { 200 <= status < 300 }

  /** The token service grants a token. */
  predicate Granted(reply: TokenReply) {
    reply.TokenAnswer? && IsSuccess(reply.status) && reply.accessToken.Some?
  }

  /** Why a refresh fails. */
  function RefreshError(reply: TokenReply): (e: FormationError)
    requires !Granted(reply)
    ensures e == Transport <==> reply.TokenUnreachable?
    ensures e == MissingAccessToken <==> reply.TokenAnswer? && IsSuccess(reply.status)
  {
    match reply
    case TokenUnreachable => Transport
    case TokenAnswer(status, _, _) => if IsSuccess(status) then MissingAccessToken else HttpStatus(status)
  }

  /** Why a request to the job service fails, if it does. */
  function ApiOutcome(reply: ApiReply): (r: Result<(), FormationError>)
    ensures r.Ok? <==> reply.ApiAnswer? && IsSuccess(reply.status)
    ensures r.Err? && reply.ApiAnswer? ==> r.error == HttpStatus(reply.status)
  {
    match reply
    case ApiUnreachable => Err(Transport)
    case ApiAnswer(status) => if IsSuccess(status) then Ok(()) else Err(HttpStatus(status))
  }

  /** The `Authorization` header value for a held token. */
  function Bearer(token: string): string {
    "Bearer " + token
  }

  class Formation {
    const baseUrl: string
    const keycloakUrl: string
    const realm: string
    const clientId: string
    const clientSecret: string
    /** Seconds before the expiry at which the token is renewed. */
    const refreshBuffer: int
    var token: Option<string>
    /** The token's expiry, in seconds since the epoch; 0 when unknown. */
    var tokenExpiry: int
    /** Every request issued so far, in order. */
    var sent: seq<Request>

    /** No token is held without a refresh having set one, so an absent
        token always comes with expiry 0. */
    predicate Valid()
      reads this
    {
      refreshBuffer == 60 && (token.None? ==> tokenExpiry == 0)
    }

    constructor (apiUrl: string, keycloakUrl: string, realm: string, clientId: string, clientSecret: string)
      ensures Valid()
      ensures baseUrl == BaseUrl(apiUrl) && this.keycloakUrl == PyText.RStrip(keycloakUrl, '/')
      ensures this.realm == realm && this.clientId == clientId && this.clientSecret == clientSecret
      ensures token == None && tokenExpiry == 0 && sent == []
    {
      baseUrl := BaseUrl(apiUrl);
      this.keycloakUrl := PyText.RStrip(keycloakUrl, '/');
      this.realm := realm;
      this.clientId := clientId;
      this.clientSecret := clientSecret;
      token := None;
      tokenExpiry := 0;
      refreshBuffer := 60;
      sent := [];
    }

    /** The token request this client sends. */
    function TokenRequestOf(): Request {
      TokenRequest(TokenEndpoint(keycloakUrl, realm), CredentialsForm(clientId, clientSecret))
    }

    /** At time `now` the token is due for renewal. */
    predicate NeedsRefresh(now: int)
      reads this
    {
      now >= tokenExpiry - refreshBuffer
    }

    /** `_refresh_token`: request a token; on a grant, hold it and its
        decoded expiry (0 when the token does not decode or has no `exp`);
        otherwise keep the old token and expiry and fail. */
    method RefreshToken(reply: TokenReply) returns (r: Result<(), FormationError>)
      requires Valid()
      modifies this
      ensures Valid()
      ensures sent == old(sent) + [TokenRequestOf()]
      ensures r.Ok? <==> Granted(reply)
      ensures r.Ok? ==> token == reply.accessToken && tokenExpiry == (if reply.exp.Some? then reply.exp.value else 0)
      ensures r.Err? ==> token == old(token) && tokenExpiry == old(tokenExpiry) && r.error == RefreshError(reply)
    {
      sent := sent + [TokenRequestOf()];
      if reply.TokenUnreachable? {
        return Err(Transport);
      }
      if !IsSuccess(reply.status) {
        return Err(HttpStatus(reply.status));
      }
      if reply.accessToken.None? {
        return Err(MissingAccessToken);
      }
      token := reply.accessToken;
      tokenExpiry := if reply.exp.Some? then reply.exp.value else 0;
      return Ok(());
    }

    /** `_ensure_valid_token`: the fast path returns while a token is held
        and not yet due; otherwise the second test, which does not look at
        the token, refreshes exactly when it is due. So a refresh happens
        exactly when the token is due, whether or not one is held. */
    method EnsureValidToken(now: nat, reply: TokenReply) returns (r: Result<(), FormationError>)
      requires Valid()
      modifies this
      ensures Valid()
      ensures old(NeedsRefresh(now)) ==>
        && sent == old(sent) + [TokenRequestOf()]
        && (r.Ok? <==> Granted(reply))
        && (r.Ok? ==> token == reply.accessToken && tokenExpiry == (if reply.exp.Some? then reply.exp.value else 0))
        && (r.Err? ==> token == old(token) && tokenExpiry == old(tokenExpiry))
      ensures !old(NeedsRefresh(now)) ==>
        r.Ok? && sent == old(sent) && token == old(token) && tokenExpiry == old(tokenExpiry)
      ensures r.Ok? ==> token.Some?
    {
      if token.Some? && token.value != "" && now < tokenExpiry - refreshBuffer {
        return Ok(());
      }
      if now >= tokenExpiry - refreshBuffer {
        r := RefreshToken(reply);
      } else {
        r := Ok(());
      }
    }

    /** The request `verb path` as the three API methods make it: a valid
        token first, then the request with that token as a bearer credential
        (section 2.1 of RFC 6750). */
    method Authorized(now: nat, reply: TokenReply, verb: string, path: seq<string>, answer: ApiReply)
      returns (r: Result<(), FormationError>)
      requires Valid()
      modifies this
      ensures Valid()
      ensures var refresh := if old(NeedsRefresh(now)) then [TokenRequestOf()] else [];
        if old(NeedsRefresh(now)) && !Granted(reply) then
          && r == Err(RefreshError(reply))
          && sent == old(sent) + refresh
          && token == old(token) && tokenExpiry == old(tokenExpiry)
        else
          && token.Some?
          && sent == old(sent) + refresh + [ApiRequest(verb, path, Bearer(token.value))]
          && r == ApiOutcome(answer)
      ensures old(NeedsRefresh(now)) && Granted(reply) ==>
        token == reply.accessToken && tokenExpiry == (if reply.exp.Some? then reply.exp.value else 0)
      ensures !old(NeedsRefresh(now)) ==> token == old(token) && tokenExpiry == old(tokenExpiry)
    {
      var valid := EnsureValidToken(now, reply);
      if valid.Err? {
        r := Err(RefreshError(reply));
        return;
      }
      sent := sent + [ApiRequest(verb, path, Bearer(token.value))];
      r := ApiOutcome(answer);
    }

    /** `get_app_parameters` */
    method GetAppParameters(now: nat, reply: TokenReply, systemId: string, appId: string, answer: ApiReply)
      returns (r: Result<(), FormationError>)
      requires Valid()
      modifies this
      ensures Valid()
      ensures !(old(NeedsRefresh(now)) && !Granted(reply)) ==>
        && token.Some?
        && sent == old(sent) + (if old(NeedsRefresh(now)) then [TokenRequestOf()] else [])
                  + [ApiRequest("GET", ["apps", systemId, appId, "parameters"], Bearer(token.value))]
        && r == ApiOutcome(answer)
      ensures old(NeedsRefresh(now)) && !Granted(reply) ==>
        r == Err(RefreshError(reply)) && sent == old(sent) + [TokenRequestOf()]
    {
      r := Authorized(now, reply, "GET", ["apps", systemId, appId, "parameters"], answer);
    }

    /** `launch_analysis`; the submission body is not modelled. */
    method LaunchAnalysis(now: nat, reply: TokenReply, systemId: string, appId: string, answer: ApiReply)
      returns (r: Result<(), FormationError>)
      requires Valid()
      modifies this
      ensures Valid()
      ensures !(old(NeedsRefresh(now)) && !Granted(reply)) ==>
        && token.Some?
        && sent == old(sent) + (if old(NeedsRefresh(now)) then [TokenRequestOf()] else [])
                  + [ApiRequest("POST", ["app", "launch", systemId, appId], Bearer(token.value))]
        && r == ApiOutcome(answer)
      ensures old(NeedsRefresh(now)) && !Granted(reply) ==>
        r == Err(RefreshError(reply)) && sent == old(sent) + [TokenRequestOf()]
    {
      r := Authorized(now, reply, "POST", ["app", "launch", systemId, appId], answer);
    }

    /** `get_analysis_status` */
    method GetAnalysisStatus(now: nat, reply: TokenReply, analysisId: string, answer: ApiReply)
      returns (r: Result<(), FormationError>)
      requires Valid()
      modifies this
      ensures Valid()
      ensures !(old(NeedsRefresh(now)) && !Granted(reply)) ==>
        && token.Some?
        && sent == old(sent) + (if old(NeedsRefresh(now)) then [TokenRequestOf()] else [])
                  + [ApiRequest("GET", ["apps", "analyses", analysisId, "status"], Bearer(token.value))]
        && r == ApiOutcome(answer)
      ensures old(NeedsRefresh(now)) && !Granted(reply) ==>
        r == Err(RefreshError(reply)) && sent == old(sent) + [TokenRequestOf()]
    {
      r := Authorized(now, reply, "GET", ["apps", "analyses", analysisId, "status"], answer);
    }
  }

  /** With expiry 0 (a new client, or a token whose expiry did not decode)
      the token is due at any time since the epoch, so the next request
      starts with a token request. */
  lemma ZeroExpiryRefreshes(f: Formation, now: nat)
    requires f.Valid() && f.tokenExpiry == 0
    ensures f.NeedsRefresh(now)
  {
  }

  /** A token granted with an expiry more than the buffer ahead is not renewed
      until that buffer is reached. */
  lemma FreshTokenKept(f: Formation, now: nat, exp: int)
    requires f.Valid() && f.tokenExpiry == exp
    ensures f.NeedsRefresh(now) <==> now + 60 >= exp
  {
  }
}
