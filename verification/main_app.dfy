/** The service's own start-up and the endpoints it defines outside the
    routers: reading the configuration from the environment when no file is
    given, refusing to start without the required settings, the mailing list
    endpoints that depend on the list server being enabled, and the e-mail
    endpoint. */
module MainApp {
  import opened Wrappers
  import opened PyText
  import opened PyJson
  import opened Calls
  import opened Http
  import Mailman
  import DeleteUserScript
  import LdapManagement

  // ---------------------------------------------------------------------
  // Configuration from the environment

  /** `os.environ.get(name, default)` */
  function EnvGet(env: map<string, string>, name: string, default: string): string {
    if name in env then env[name] else default
  }

  /** `value.lower() in ["1", "true", "yes"]` */
  predicate IsYes(value: string) {
    Lower(value) in ["1", "true", "yes"]
  }

  /** The configuration `load_config` builds from the environment. */
  function EnvConfig(env: map<string, string>): (c: Json)
    ensures c.JObj? && c.fields.Keys == {"ldap", "irods", "terrain", "mailman"}
    ensures c.fields["ldap"] == LdapSection(env) && c.fields["irods"] == IrodsSection(env)
    ensures c.fields["terrain"] == TerrainSection(env) && c.fields["mailman"] == MailmanSection(env)
  {
    JObj(map[
      "ldap" := LdapSection(env),
      "irods" := IrodsSection(env),
      "terrain" := TerrainSection(env),
      "mailman" := MailmanSection(env)])
  }

  function LdapSection(env: map<string, string>): (s: Json)
    ensures s.JObj? && s.fields.Keys == {"url", "user", "password", "base_dn", "community_group", "everyone_group"}
  {
    JObj(map[
      "url" := JStr(EnvGet(env, "LDAP_URL", "")),
      "user" := JStr(EnvGet(env, "LDAP_USER", "")),
      "password" := JStr(EnvGet(env, "LDAP_PASSWORD", "")),
      "base_dn" := JStr(EnvGet(env, "LDAP_BASE_DN", "")),
      "community_group" := JStr(EnvGet(env, "LDAP_COMMUNITY_GROUP", "community")),
      "everyone_group" := JStr(EnvGet(env, "LDAP_EVERYONE_GROUP", ""))])
  }

  function IrodsSection(env: map<string, string>): (s: Json)
    ensures s.JObj? && s.fields.Keys == {"host", "port", "user", "password", "zone", "admin_user", "ipcservices_user"}
  {
    JObj(map[
      "host" := JStr(EnvGet(env, "IRODS_HOST", "")),
      "port" := JStr(EnvGet(env, "IRODS_PORT", "")),
      "user" := JStr(EnvGet(env, "IRODS_USER", "")),
      "password" := JStr(EnvGet(env, "IRODS_PASSWORD", "")),
      "zone" := JStr(EnvGet(env, "IRODS_ZONE", "")),
      "admin_user" := JStr(EnvGet(env, "DS_ADMIN_USER", "rodsadmin")),
      "ipcservices_user" := JStr(EnvGet(env, "IPCSERVICES_USER", "ipcservices"))])
  }

  function TerrainSection(env: map<string, string>): (s: Json)
    ensures s.JObj? && s.fields.Keys == {"url", "user", "password"}
  {
    JObj(map[
      "url" := JStr(EnvGet(env, "TERRAIN_URL", "http://terrain/")),
      "user" := JStr(EnvGet(env, "TERRAIN_USER", "")),
      "password" := JStr(EnvGet(env, "TERRAIN_PASSWORD", ""))])
  }

  function MailmanSection(env: map<string, string>): (s: Json)
    ensures s.JObj? && s.fields.Keys == {"enabled", "url", "password"}
    ensures s.fields["enabled"] == JBool(IsYes(EnvGet(env, "MAILMAN_ENABLED", "false")))
  {
    JObj(map[
      "enabled" := JBool(IsYes(EnvGet(env, "MAILMAN_ENABLED", "false"))),
      "url" := JStr(EnvGet(env, "MAILMAN_URL", "")),
      "password" := JStr(EnvGet(env, "MAILMAN_PASSWORD", ""))])
  }

  /** `config[section][key]` */
  function Lookup(config: Json, field: (string, string)): (r: Result<Json, LookupError>)
    ensures r.Ok? <==> config.JObj? && field.0 in config.fields
                       && config.fields[field.0].JObj? && field.1 in config.fields[field.0].fields
    ensures r.Ok? ==> r.value == config.fields[field.0].fields[field.1]
  {
    var section :- Index(config, field.0);
    Index(section, field.1)
  }

  /** Unset variables fall back to the documented defaults. */
  lemma EnvDefaults()
    ensures var c := EnvConfig(map[]);
      && Lookup(c, ("ldap", "community_group")) == Ok(JStr("community"))
      && Lookup(c, ("ldap", "everyone_group")) == Ok(JStr(""))
      && Lookup(c, ("irods", "admin_user")) == Ok(JStr("rodsadmin"))
      && Lookup(c, ("irods", "ipcservices_user")) == Ok(JStr("ipcservices"))
      && Lookup(c, ("terrain", "url")) == Ok(JStr("http://terrain/"))
  {
  }

  /** The list server is on exactly when MAILMAN_ENABLED says yes, in any
      letter case; unset, it stays off. */
  lemma EnvMailmanFlag(env: map<string, string>)
    ensures Lookup(EnvConfig(env), EnabledField) == Ok(JBool(IsYes(EnvGet(env, "MAILMAN_ENABLED", "false"))))
    ensures "MAILMAN_ENABLED" !in env ==> Lookup(EnvConfig(env), EnabledField) == Ok(JBool(false))
  {
    assert Lower("false") == "false";
  }

  /** "True" turns the list server on; "on" is not one of the accepted words. */
  lemma MailmanFlagSpellings()
    ensures IsYes("True") && IsYes("YES") && IsYes("1")
    ensures !IsYes("on") && !IsYes("") && !IsYes("false")
  {
    assert Lower("True") == "true";
    assert Lower("YES") == "yes";
    assert Lower("1") == "1";
    assert Lower("on") == "on";
    assert Lower("false") == "false";
  }

  // ---------------------------------------------------------------------
  // Start-up validation

  /** The settings the service always requires, in the order it checks them. */
  const BaseFields: seq<(string, string)> := [
    ("ldap", "url"), ("ldap", "user"), ("ldap", "password"), ("ldap", "base_dn"), ("ldap", "everyone_group"),
    ("irods", "host"), ("irods", "port"), ("irods", "user"), ("irods", "password"), ("irods", "zone"),
    ("terrain", "user"), ("terrain", "password")]

  /** The settings required only with the list server enabled. */
  const MailmanFields: seq<(string, string)> := [("mailman", "url"), ("mailman", "password")]

  const EnabledField := ("mailman", "enabled")

  /** The list of `(name, value)` pairs `validate_config` builds: every value
      is looked up in order, and the first lookup that fails raises. */
  function LookupAll(config: Json, fields: seq<(string, string)>): (r: Result<seq<(string, Json)>, LookupError>)
    ensures r.Ok? <==> forall i :: 0 <= i < |fields| ==> Lookup(config, fields[i]).Ok?
    ensures r.Ok? ==> |r.value| == |fields|
    ensures r.Ok? ==> forall i :: 0 <= i < |fields| ==>
      r.value[i] == (DeleteUserScript.FieldName(fields[i]), Lookup(config, fields[i]).value)
  {
    if fields == [] then Ok([])
    else
      var v :- Lookup(config, fields[0]);
      var rest :- LookupAll(config, fields[1..]);
      assert forall i :: 0 < i < |fields| ==> fields[i] == fields[1..][i - 1];
      Ok([(DeleteUserScript.FieldName(fields[0]), v)] + rest)
  }

  /** The position of the first pair whose value Python treats as false. */
  function FirstFalsy(required: seq<(string, Json)>): (r: Option<nat>)
    ensures r.None? <==> forall j :: 0 <= j < |required| ==> required[j].1.Truthy()
    ensures r.Some? ==> r.value < |required| && !required[r.value].1.Truthy()
    ensures r.Some? ==> forall j :: 0 <= j < r.value ==> required[j].1.Truthy()
  {
    if required == [] then None
    else
      var n := |required| - 1;
      var earlier := FirstFalsy(required[..n]);
      assert forall j :: 0 <= j < n ==> required[..n][j] == required[j];
      if earlier.Some? then earlier
      else if !required[n].1.Truthy() then Some(n)
      else None
  }

  datatype StartupError =
    | Raised(error: LookupError)   // a lookup raised: the process stops with a traceback
    | Unset(field: string)         // `sys.exit(1)` after naming the field

  /** What `validate_config` does with `config`, for the always-required
      settings `base` and the list server's settings `extra`. */
  function ValidationOf(config: Json, base: seq<(string, string)>, extra: seq<(string, string)>): Result<(), StartupError> {
    match LookupAll(config, base)
    case Err(e) => Err(Raised(e))
    case Ok(found) =>
      match Lookup(config, EnabledField)
      case Err(e) => Err(Raised(e))
      case Ok(flag) =>
        match (if flag.Truthy() then LookupAll(config, extra) else Ok([]))
        case Err(e) => Err(Raised(e))
        case Ok(more) =>
          var required := found + more;
          match FirstFalsy(required)
          case Some(k) => Err(Unset(required[k].0))
          case None => Ok(())
  }

  function Validation(config: Json): Result<(), StartupError> {
    ValidationOf(config, BaseFields, MailmanFields)
  }

  /** The check loop of `validate_config`: the name of the first pair whose
      value is empty or false, if any. */
  method FirstUnsetField(required: seq<(string, Json)>) returns (r: Option<string>)
    ensures r.None? <==> FirstFalsy(required).None?
    ensures r.Some? ==> r.value == required[FirstFalsy(required).value].0
  {
    for i := 0 to |required|
      invariant FirstFalsy(required[..i]).None?
    {
      assert required[..i + 1][..i] == required[..i];
      if !required[i].1.Truthy() {
        return Some(required[i].0);
      }
    }
    assert required[..|required|] == required;
    return None;
  }

  /** `validate_config`: look every required value up, add the list server's
      settings when it is enabled, then stop at the first value that is
      empty or false. */
  method ValidateConfig(config: Json) returns (r: Result<(), StartupError>)
    ensures r == Validation(config)
  {
    var base := LookupAll(config, BaseFields);
    if base.Err? {
      return Err(Raised(base.error));
    }
    var required := base.value;
    var flag := Lookup(config, EnabledField);
    if flag.Err? {
      return Err(Raised(flag.error));
    }
    if flag.value.Truthy() {
      var more := LookupAll(config, MailmanFields);
      if more.Err? {
        return Err(Raised(more.error));
      }
      required := required + more.value;
    } else {
      assert required + [] == required;
    }
    var unset := FirstUnsetField(required);
    if unset.Some? {
      return Err(Unset(unset.value));
    }
    return Ok(());
  }

  /** Start-up goes ahead exactly when every always-required value and the
      enabled flag can be looked up and are set, and, with the list server
      enabled, so are its own settings; without it they are never looked at. */
  lemma ValidationAccepts(config: Json, base: seq<(string, string)>, extra: seq<(string, string)>)
    ensures ValidationOf(config, base, extra).Ok? <==>
      && (forall i :: 0 <= i < |base| ==> Lookup(config, base[i]).Ok? && Lookup(config, base[i]).value.Truthy())
      && Lookup(config, EnabledField).Ok?
      && (Lookup(config, EnabledField).value.Truthy() ==>
            forall i :: 0 <= i < |extra| ==> Lookup(config, extra[i]).Ok? && Lookup(config, extra[i]).value.Truthy())
  {
    var found := LookupAll(config, base);
    var flag := Lookup(config, EnabledField);
    if found.Ok? && flag.Ok? {
      var more := if flag.value.Truthy() then LookupAll(config, extra) else Ok([]);
      if more.Ok? {
        var required := found.value + more.value;
        assert forall i :: 0 <= i < |base| ==> required[i] == found.value[i];
        if flag.value.Truthy() {
          assert forall i :: 0 <= i < |extra| ==> required[|base| + i] == more.value[i];
        }
      }
    }
  }

  /** A start-up refused for an unset value names the first required setting,
      in list order, whose value is empty or false. */
  lemma ValidationNamesFirstUnset(config: Json, base: seq<(string, string)>, extra: seq<(string, string)>, name: string)
    requires ValidationOf(config, base, extra) == Err(Unset(name))
    ensures exists k :: (0 <= k < |base + extra| &&
      name == DeleteUserScript.FieldName((base + extra)[k]) &&
      Lookup(config, (base + extra)[k]).Ok? && !Lookup(config, (base + extra)[k]).value.Truthy() &&
      (k >= |base| ==> Lookup(config, EnabledField).value.Truthy()) &&
      forall j :: 0 <= j < k ==> Lookup(config, (base + extra)[j]).Ok? && Lookup(config, (base + extra)[j]).value.Truthy())
  {
    var k := FirstUnsetAt(config, base, extra, name);
  }

  /** The position `ValidationNamesFirstUnset` promises, found. */
  lemma FirstUnsetAt(config: Json, base: seq<(string, string)>, extra: seq<(string, string)>, name: string) returns (k: nat)
    requires ValidationOf(config, base, extra) == Err(Unset(name))
    ensures k < |base + extra| && name == DeleteUserScript.FieldName((base + extra)[k])
    ensures Lookup(config, (base + extra)[k]).Ok? && !Lookup(config, (base + extra)[k]).value.Truthy()
    ensures k >= |base| ==> Lookup(config, EnabledField).value.Truthy()
    ensures forall j :: 0 <= j < k ==> Lookup(config, (base + extra)[j]).Ok? && Lookup(config, (base + extra)[j]).value.Truthy()
  {
    var found, flag, rest, more;
    found, flag, rest, more, k := UnsetLookups(config, base, extra, name);
    LookupAllConcat(config, base, rest, found, more);
    assert forall j :: 0 <= j < |base + rest| ==> (base + rest)[j] == (base + extra)[j];
  }

  /** What `ValidationOf` looked up before it named `name` as unset. */
  lemma UnsetLookups(config: Json, base: seq<(string, string)>, extra: seq<(string, string)>, name: string)
    returns (found: seq<(string, Json)>, flag: Json, rest: seq<(string, string)>, more: seq<(string, Json)>, k: nat)
    requires ValidationOf(config, base, extra) == Err(Unset(name))
    ensures LookupAll(config, base) == Ok(found) && Lookup(config, EnabledField) == Ok(flag)
    ensures rest == (if flag.Truthy() then extra else []) && LookupAll(config, rest) == Ok(more)
    ensures FirstFalsy(found + more) == Some(k) && name == (found + more)[k].0
  {
    found := LookupAll(config, base).value;
    flag := Lookup(config, EnabledField).value;
    rest := if flag.Truthy() then extra else [];
    more := LookupAll(config, rest).value;
    k := FirstFalsy(found + more).value;
  }

  /** Looking up `a + b` pair by pair gives the lookups of `a`, then those of `b`. */
  lemma LookupAllConcat(config: Json, a: seq<(string, string)>, b: seq<(string, string)>,
                        x: seq<(string, Json)>, y: seq<(string, Json)>)
    requires LookupAll(config, a) == Ok(x) && LookupAll(config, b) == Ok(y)
    ensures |x + y| == |a + b|
    ensures forall j :: 0 <= j < |a + b| ==>
      Lookup(config, (a + b)[j]).Ok? && (x + y)[j] == (DeleteUserScript.FieldName((a + b)[j]), Lookup(config, (a + b)[j]).value)
  {
    forall j | 0 <= j < |a + b|
      ensures Lookup(config, (a + b)[j]).Ok? && (x + y)[j] == (DeleteUserScript.FieldName((a + b)[j]), Lookup(config, (a + b)[j]).value)
    {
      if j >= |a| {
        assert (x + y)[j] == y[j - |a|] && (a + b)[j] == b[j - |a|];
      } else {
        assert (x + y)[j] == x[j] && (a + b)[j] == a[j];
      }
    }
  }

  /** Each key `validate_config` looks up is present in a configuration read
      from the environment. */
  lemma EnvFieldsFound(env: map<string, string>)
    ensures LookupAll(EnvConfig(env), BaseFields).Ok?
    ensures Lookup(EnvConfig(env), EnabledField).Ok?
    ensures LookupAll(EnvConfig(env), MailmanFields).Ok?
  {
    EnvConfigKeys(env);
  }

  lemma EnvConfigKeys(env: map<string, string>)
    ensures var c := EnvConfig(env);
      && (forall i :: 0 <= i < |BaseFields| ==> Lookup(c, BaseFields[i]).Ok?)
      && Lookup(c, EnabledField).Ok?
      && (forall i :: 0 <= i < |MailmanFields| ==> Lookup(c, MailmanFields[i]).Ok?)
  {
  }

  /** A configuration read from the environment never makes start-up raise. */
  lemma EnvValidationNeverRaises(env: map<string, string>)
    ensures Validation(EnvConfig(env)).Err? ==> Validation(EnvConfig(env)).error.Unset?
  {
    EnvFieldsFound(env);
  }

  /** With the list server off and every value present, a first setting
      that is empty or false is the one start-up names. */
  lemma ValidationStopsAtFirst(config: Json, base: seq<(string, string)>, extra: seq<(string, string)>)
    requires base != [] && LookupAll(config, base).Ok?
    requires Lookup(config, EnabledField).Ok? && !Lookup(config, EnabledField).value.Truthy()
    requires !Lookup(config, base[0]).value.Truthy()
    ensures ValidationOf(config, base, extra) == Err(Unset(DeleteUserScript.FieldName(base[0])))
  {
    var found := LookupAll(config, base).value;
    assert found + [] == found;
    assert !found[0].1.Truthy();
  }

  /** With nothing set in the environment, start-up stops at the LDAP address. */
  lemma EmptyEnvStops()
    ensures Validation(EnvConfig(map[])) == Err(Unset("ldap.url"))
  {
    EnvFieldsFound(map[]);
    EnvMailmanFlag(map[]);
    EmptyLdapUrl();
    ValidationStopsAtFirst(EnvConfig(map[]), BaseFields, MailmanFields);
  }

  lemma EmptyLdapUrl()
    ensures Lookup(EnvConfig(map[]), BaseFields[0]) == Ok(JStr(""))
    ensures DeleteUserScript.FieldName(BaseFields[0]) == "ldap.url"
  {
  }

  // ---------------------------------------------------------------------
  // Mailing list endpoints

  /** `kinds.EmailListResponse` */
  datatype EmailListResponse = EmailListResponse(list: string, email: string)

  /** `add_addr_to_list`: subscribe the address when the list server is
      enabled, and echo the request either way. A failed subscription is not
      caught and ends the request with 500. */
  method AddAddrToList(mailman: Mailman.Mailman, enabled: bool, list: string, addr: string)
    returns (r: Result<EmailListResponse, Fault>)
    modifies mailman, mailman.wire
    ensures !enabled ==> r == Ok(EmailListResponse(list, addr)) && mailman.lists == old(mailman.lists)
                         && mailman.wire.sent == old(mailman.wire.sent)
    ensures enabled ==>
      && mailman.wire.sent == old(mailman.wire.sent) + [Subscribe(list, addr)]
      && (r.Ok? <==> Subscribe(list, addr) !in mailman.wire.refusing && list in old(mailman.lists))
      && (r.Ok? ==> r.value == EmailListResponse(list, addr) && mailman.lists == old(mailman.lists)[list := old(mailman.lists)[list] + {addr}])
      && (r.Err? ==> mailman.lists == old(mailman.lists))
  {
    if enabled {
      var _ :- mailman.AddMember(list, addr);
    }
    return Ok(EmailListResponse(list, addr));
  }

  /** `remove_addr_from_list`: unsubscribe the address when the list server
      is enabled, and echo the request either way. */
  method RemoveAddrFromList(mailman: Mailman.Mailman, enabled: bool, list: string, addr: string)
    returns (r: Result<EmailListResponse, Fault>)
    modifies mailman, mailman.wire
    ensures !enabled ==> r == Ok(EmailListResponse(list, addr)) && mailman.lists == old(mailman.lists)
                         && mailman.wire.sent == old(mailman.wire.sent)
    ensures enabled ==>
      && mailman.wire.sent == old(mailman.wire.sent) + [Unsubscribe(list, addr)]
      && (r.Ok? <==> Unsubscribe(list, addr) !in mailman.wire.refusing && list in old(mailman.lists))
      && (r.Ok? ==> r.value == EmailListResponse(list, addr) && mailman.lists == old(mailman.lists)[list := old(mailman.lists)[list] - {addr}])
      && (r.Err? ==> mailman.lists == old(mailman.lists))
  {
    if enabled {
      var _ :- mailman.RemoveMember(list, addr);
    }
    return Ok(EmailListResponse(list, addr));
  }

  /** `add_to_mailing_list`: 503 without a call when the list server is
      disabled, 500 when the subscription fails. */
  method AddToMailingList(mailman: Mailman.Mailman, enabled: bool, listname: string, email: string)
    returns (r: Result<LdapManagement.GenericResponse, HttpError>)
    modifies mailman, mailman.wire
    ensures !enabled ==> r == Err(Status(Unavailable)) && mailman.lists == old(mailman.lists)
                         && mailman.wire.sent == old(mailman.wire.sent)
    ensures enabled ==>
      && mailman.wire.sent == old(mailman.wire.sent) + [Subscribe(listname, email)]
      && (r.Ok? <==> Subscribe(listname, email) !in mailman.wire.refusing && listname in old(mailman.lists))
      && (r.Ok? ==> r.value == LdapManagement.GenericResponse(true, "Added " + email + " to mailing list " + listname)
                    && mailman.lists == old(mailman.lists)[listname := old(mailman.lists)[listname] + {email}])
      && (r.Err? ==> r.error == Status(InternalError) && mailman.lists == old(mailman.lists))
  {
    if !enabled {
      return Err(Status(Unavailable));
    }
    var added := mailman.AddMember(listname, email);
    if added.Err? {
      return Err(Status(InternalError));
    }
    return Ok(LdapManagement.GenericResponse(true, "Added " + email + " to mailing list " + listname));
  }

  /** `remove_from_mailing_list`: 503 without a call when the list server is
      disabled, 500 when the removal fails. */
  method RemoveFromMailingList(mailman: Mailman.Mailman, enabled: bool, listname: string, email: string)
    returns (r: Result<LdapManagement.GenericResponse, HttpError>)
    modifies mailman, mailman.wire
    ensures !enabled ==> r == Err(Status(Unavailable)) && mailman.lists == old(mailman.lists)
                         && mailman.wire.sent == old(mailman.wire.sent)
    ensures enabled ==>
      && mailman.wire.sent == old(mailman.wire.sent) + [Unsubscribe(listname, email)]
      && (r.Ok? <==> Unsubscribe(listname, email) !in mailman.wire.refusing && listname in old(mailman.lists))
      && (r.Ok? ==> r.value == LdapManagement.GenericResponse(true, "Removed " + email + " from mailing list " + listname)
                    && mailman.lists == old(mailman.lists)[listname := old(mailman.lists)[listname] - {email}])
      && (r.Err? ==> r.error == Status(InternalError) && mailman.lists == old(mailman.lists))
  {
    if !enabled {
      return Err(Status(Unavailable));
    }
    var removed := mailman.RemoveMember(listname, email);
    if removed.Err? {
      return Err(Status(InternalError));
    }
    return Ok(LdapManagement.GenericResponse(true, "Removed " + email + " from mailing list " + listname));
  }

  // ---------------------------------------------------------------------
  // E-mail

  /** `kinds.EmailRequest`, with the recipients already a list; the subject,
      sender and blind copies travel to the mail relay unchanged. */
  datatype EmailRequest = EmailRequest(to: seq<string>, subject: string, textBody: Option<string>, htmlBody: Option<string>)

  /** A body Python treats as present: given and non-empty. */
  predicate HasBody(body: Option<string>) {
    body.Some? && body.value != ""
  }

  /** `send_email`: 400 before contacting the relay when neither body is
      given; otherwise one delivery attempt, 500 when it fails. */
  method SendEmail(wire: Wire, request: EmailRequest) returns (r: Result<LdapManagement.GenericResponse, HttpError>)
    modifies wire
    ensures !HasBody(request.textBody) && !HasBody(request.htmlBody) ==>
      r == Err(Status(BadRequest)) && wire.sent == old(wire.sent)
    ensures HasBody(request.textBody) || HasBody(request.htmlBody) ==>
      && wire.sent == old(wire.sent) + [SendMail(request.to)]
      && (r.Ok? <==> SendMail(request.to) !in wire.refusing)
      && (r.Ok? ==> r.value == LdapManagement.GenericResponse(true, "Email sent successfully"))
      && (r.Err? ==> r.error == Status(InternalError))
  {
    if !HasBody(request.textBody) && !HasBody(request.htmlBody) {
      return Err(Status(BadRequest));
    }
    var refused := wire.Send(SendMail(request.to));
    if refused {
      return Err(Status(InternalError));
    }
    return Ok(LdapManagement.GenericResponse(true, "Email sent successfully"));
  }
}
