/** The directory's data as the service sees it: raw attribute maps from the
    LDAP client, their decoding into plain values, the parsed user and group
    records, the checks on numeric input, and the entry `create_user` writes. */
module LdapCodec {
  import opened Wrappers
  import opened PyText
  import opened Calls

  /** One attribute value: the LDAP client hands back `bytes`; callers and
      tests may also hold `str`. `Bytes(t)` stands for the UTF-8 encoding of `t`. */
  datatype Value = Bytes(data: string) | Text(text: string) {
    predicate Truthy() { if Bytes? then data != [] else text != [] }

    /** `value.decode('utf-8')` for bytes, the value itself for a `str`. */
    function Decoded(): string { if Bytes? then data else text }
  }

  /** What `attrs.get(name)` holds: nothing, a list of values, or a bare value. */
  datatype AttrValue = Null | Many(items: seq<Value>) | One(item: Value) {
    predicate Truthy() {
      match this
      case Null => false
      case Many(items) => items != []
      case One(v) => v.Truthy()
    }

    /** `attr_value[0] if isinstance(attr_value, list) else attr_value` */
    function First(): Value
      requires Truthy()
    {
      if Many? then items[0] else item
    }
  }

  type AttrMap = map<string, AttrValue>

  /** One result of a search: the entry's DN and its attributes. */
  datatype SearchEntry = SearchEntry(dn: string, attrs: AttrMap)

  /** `attrs.get(name)` */
  function Get(attrs: AttrMap, name: string): AttrValue {
    if name in attrs then attrs[name] else Null
  }

  /** The stored form of a list of byte strings. */
  function AllBytes(texts: seq<string>): (r: AttrValue)
    ensures r.Many? && |r.items| == |texts|
    ensures forall i :: 0 <= i < |texts| ==> r.items[i] == Bytes(texts[i])
  {
    Many(seq(|texts|, i requires 0 <= i < |texts| => Bytes(texts[i])))
  }

  /** The decoded first value of a string attribute. An empty `bytes` value
      decodes to "", but an empty `str` value gives `None`. */
  function DecodeStrAttr(attrs: AttrMap, name: string): (r: Option<string>)
    ensures r.None? <==> !Get(attrs, name).Truthy() || Get(attrs, name).First() == Text("")
    ensures r.Some? ==> r.value == Get(attrs, name).First().Decoded()
  {
    var a := Get(attrs, name);
    if !a.Truthy() then None
    else match a.First()
      case Bytes(b) => Some(b)
      case Text(s) => if s == "" then None else Some(s)
  }

  /** The first value of an integer attribute, read with `int()`; `None` when
      the attribute is missing or `int()` refuses the text. */
  function DecodeIntAttr(attrs: AttrMap, name: string): (r: Option<int>)
    ensures !Get(attrs, name).Truthy() ==> r.None?
    ensures Get(attrs, name).Truthy() ==> r == ParseInt(Get(attrs, name).First().Decoded())
  {
    var a := Get(attrs, name);
    if !a.Truthy() then None else ParseInt(a.First().Decoded())
  }

  /** What `for item in attr_value` visits, with each item already in the
      form `str(item)` would give: a list yields its values, a bare `str`
      its characters, and a bare `bytes` value its byte values as integers
      (so their decimal text). */
  function Items(a: AttrValue): (r: seq<Value>)
    requires a.Truthy()
    ensures r != []
  {
    match a
    case Many(items) => items
    case One(Text(s)) => seq(|s|, i requires 0 <= i < |s| => Text([s[i]]))
    case One(Bytes(b)) => seq(|b|, i requires 0 <= i < |b| => Text(IntToString(b[i] as int)))
  }

  /** Every item of a list attribute, decoded, in order, empty ones included;
      `None` when the attribute is missing or empty. */
  function ListAttr(attrs: AttrMap, name: string): (r: Option<seq<string>>)
    ensures r.None? <==> !Get(attrs, name).Truthy()
    ensures r.Some? ==> |r.value| == |Items(Get(attrs, name))|
    ensures r.Some? ==> forall i :: 0 <= i < |r.value| ==> r.value[i] == Items(Get(attrs, name))[i].Decoded()
  {
    var a := Get(attrs, name);
    if !a.Truthy() then None
    else
      var items := Items(a);
      Some(seq(|items|, i requires 0 <= i < |items| => items[i].Decoded()))
  }

  /** The decoding loop of a list attribute. */
  method DecodeListAttr(attrs: AttrMap, name: string) returns (r: Option<seq<string>>)
    ensures r == ListAttr(attrs, name)
  {
    var a := Get(attrs, name);
    if !a.Truthy() {
      return None;
    }
    var items := Items(a);
    var result: seq<string> := [];
    for i := 0 to |items|
      invariant |result| == i
      invariant forall k :: 0 <= k < i ==> result[k] == items[k].Decoded()
    {
      result := result + [items[i].Decoded()];
    }
    assert result == ListAttr(attrs, name).value;
    r := if result != [] then Some(result) else None;
  }

  /** A list written as byte strings reads back unchanged, empty strings kept. */
  lemma ListAttrOfWritten(attrs: AttrMap, name: string, texts: seq<string>)
    requires Get(attrs, name) == AllBytes(texts) && texts != []
    ensures ListAttr(attrs, name) == Some(texts)
  {
    var r := ListAttr(attrs, name);
    assert r.Some?;
    assert r.value == texts;
  }

  /** The decoders' answers on the shapes the LDAP client and callers produce. */
  lemma DecodeStrAttrExamples(name: string)
    ensures DecodeStrAttr(map[], name) == None
    ensures DecodeStrAttr(map[name := Null], name) == None
    ensures DecodeStrAttr(map[name := Many([])], name) == None
    ensures DecodeStrAttr(map[name := Many([Text("")])], name) == None
    ensures DecodeStrAttr(map[name := Many([Bytes("")])], name) == Some("")
    ensures DecodeStrAttr(map[name := One(Bytes("John"))], name) == Some("John")
    ensures DecodeStrAttr(map[name := Many([Bytes("John"), Bytes("Jack")])], name) == Some("John")
  {
  }

  /** An integer written with `str()` reads back as itself, whichever shape holds it. */
  lemma {:induction false} DecodeIntAttrOfWritten(attrs: AttrMap, name: string, n: int)
    requires name in attrs
    requires attrs[name] in {Many([Bytes(IntToString(n))]), Many([Text(IntToString(n))]), One(Bytes(IntToString(n)))}
    ensures DecodeIntAttr(attrs, name) == Some(n)
  {
    ParseIntOfIntToString(n);
  }

  /** The user record `parse_user_attributes` builds. */
  datatype UserAttributes = UserAttributes(
    uidNumber: Option<int>,
    gidNumber: Option<int>,
    givenName: Option<string>,
    surname: Option<string>,
    commonName: Option<string>,
    email: Option<string>,
    department: Option<string>,
    organization: Option<string>,
    title: Option<string>,
    homeDirectory: Option<string>,
    loginShell: Option<string>,
    shadowLastChange: Option<int>,
    shadowMin: Option<int>,
    shadowMax: Option<int>,
    shadowWarning: Option<int>,
    shadowInactive: Option<int>,
    objectClasses: Option<seq<string>>)

  function ReadUser(attrs: AttrMap): UserAttributes {
    UserAttributes(
      DecodeIntAttr(attrs, "uidNumber"),
      DecodeIntAttr(attrs, "gidNumber"),
      DecodeStrAttr(attrs, "givenName"),
      DecodeStrAttr(attrs, "sn"),
      DecodeStrAttr(attrs, "cn"),
      DecodeStrAttr(attrs, "mail"),
      DecodeStrAttr(attrs, "departmentNumber"),
      DecodeStrAttr(attrs, "o"),
      DecodeStrAttr(attrs, "title"),
      DecodeStrAttr(attrs, "homeDirectory"),
      DecodeStrAttr(attrs, "loginShell"),
      DecodeIntAttr(attrs, "shadowLastChange"),
      DecodeIntAttr(attrs, "shadowMin"),
      DecodeIntAttr(attrs, "shadowMax"),
      DecodeIntAttr(attrs, "shadowWarning"),
      DecodeIntAttr(attrs, "shadowInactive"),
      ListAttr(attrs, "objectClass"))
  }

  /** The parsed record of a user search: `None` for no result, otherwise the
      record of the FIRST entry only. */
  function ParseUserAttributes(results: seq<SearchEntry>): (r: Option<UserAttributes>)
    ensures r.None? <==> results == []
    ensures r.Some? ==> r.value == ReadUser(results[0].attrs)
  {
    if results == [] then None else Some(ReadUser(results[0].attrs))
  }

  /** Entries after the first one never influence the parsed record. */
  lemma ParseUserReadsFirstEntryOnly(a: seq<SearchEntry>, b: seq<SearchEntry>)
    requires a != [] && b != [] && a[0].attrs == b[0].attrs
    ensures ParseUserAttributes(a) == ParseUserAttributes(b)
  {
  }

  /** The group record `parse_group_attributes` builds. */
  datatype GroupAttributes = GroupAttributes(
    name: Option<string>,
    gidNumber: Option<int>,
    displayName: Option<string>,
    description: Option<string>,
    sambaGroupType: Option<int>,
    sambaSid: Option<string>,
    objectClasses: Option<seq<string>>)

  function ParseGroupAttributes(entry: SearchEntry): (r: GroupAttributes)
    ensures r.name == DecodeStrAttr(entry.attrs, "cn")
  {
    var attrs := entry.attrs;
    GroupAttributes(
      DecodeStrAttr(attrs, "cn"),
      DecodeIntAttr(attrs, "gidNumber"),
      DecodeStrAttr(attrs, "displayName"),
      DecodeStrAttr(attrs, "description"),
      DecodeIntAttr(attrs, "sambaGroupType"),
      DecodeStrAttr(attrs, "sambaSID"),
      ListAttr(attrs, "objectClass"))
  }

  /** A group entry whose `cn` was stored as bytes yields that name. */
  lemma GroupNameOfStoredCn(entry: SearchEntry, cn: string)
    requires "cn" in entry.attrs && entry.attrs["cn"] == Many([Bytes(cn)])
    ensures ParseGroupAttributes(entry).name == Some(cn)
  {
  }

  /** A uidNumber from the caller: `int(text)`, which must be positive. */
  function ValidateUidNumber(text: string): (r: Result<int, Fault>)
    ensures r.Ok? <==> ParseInt(text).Some? && ParseInt(text).value > 0
    ensures r.Ok? ==> ParseInt(text) == Some(r.value)
    ensures r.Err? ==> r.error == ValueError
  {
    match ParseInt(text)
    case None => Err(ValueError)
    case Some(n) => if n <= 0 then Err(ValueError) else Ok(n)
  }

  /** `str(n)` passes the uidNumber check exactly when `n` is positive, and
      the check gives `n` back. */
  lemma {:induction false} ValidateUidNumberOfIntToString(n: int)
    ensures ValidateUidNumber(IntToString(n)) == if n > 0 then Ok(n) else Err(ValueError)
  {
    ParseIntOfIntToString(n);
  }

  /** A day count as given: an integer, or text that `int()` must read. */
  datatype DayCount = Days(n: int) | DaysText(text: string)

  /** A shadowLastChange day count, which must not be negative. */
  function ValidateShadowLastChange(days: DayCount): (r: Result<int, Fault>)
    ensures r.Ok? ==> r.value >= 0
    ensures days.Days? ==> (r.Ok? <==> days.n >= 0) && (r.Ok? ==> r.value == days.n)
    ensures days.DaysText? ==> (r.Ok? <==> ParseInt(days.text).Some? && ParseInt(days.text).value >= 0)
    ensures days.DaysText? && r.Ok? ==> ParseInt(days.text) == Some(r.value)
    ensures r.Err? ==> r.error == ValueError
  {
    var n :- match days
      case Days(n) => Ok(n)
      case DaysText(s) => if ParseInt(s).Some? then Ok(ParseInt(s).value) else Err(ValueError);
    if n < 0 then Err(ValueError) else Ok(n)
  }

  /** The body of a user-creation request. */
  datatype CreateUserRequest = CreateUserRequest(
    firstName: string,
    lastName: string,
    email: string,
    username: string,
    userUid: string,
    password: string,
    department: string,
    organization: string,
    title: string)

  const UserGidNumber: int := 10013

  /** A value of the dict handed to the add-modlist step: a list of byte
      strings or a single byte string. */
  datatype DictValue = BytesList(texts: seq<string>) | Single(b: string) {
    /** The add-modlist step keeps a value with at least one item; iterating a
        single byte string visits its bytes, so only an empty one is dropped. */
    predicate Kept() { if BytesList? then texts != [] else b != "" }

    function Stored(): AttrValue { if BytesList? then AllBytes(texts) else Many([Bytes(b)]) }
  }

  /** The entry an add of `dict`'s attributes creates: every kept attribute,
      the last pair winning when a name repeats. */
  function AddModlist(dict: seq<(string, DictValue)>): AttrMap {
    if dict == [] then map[]
    else
      var m := AddModlist(dict[..|dict| - 1]);
      var (k, v) := dict[|dict| - 1];
      if v.Kept() then m[k := v.Stored()] else m - {k}
  }

  /** An attribute's value after the add is decided by its last pair. */
  lemma {:induction false} AddModlistAt(dict: seq<(string, DictValue)>, i: nat, k: string)
    requires i < |dict| && dict[i].0 == k
    requires forall j :: i < j < |dict| ==> dict[j].0 != k
    ensures Get(AddModlist(dict), k) == if dict[i].1.Kept() then dict[i].1.Stored() else Null
  {
    if i < |dict| - 1 {
      AddModlistAt(dict[..|dict| - 1], i, k);
    }
  }

  const UserObjectClasses: seq<string> := ["posixAccount", "shadowAccount", "inetOrgPerson"]

  /** The dict `create_user` builds, in its order. */
  function UserDict(user: CreateUserRequest, uidNumber: int, days: int): seq<(string, DictValue)> {
    [("objectClass", BytesList(UserObjectClasses)),
     ("givenName", Single(user.firstName)),
     ("sn", Single(user.lastName)),
     ("cn", Single(user.firstName + " " + user.lastName)),
     ("uid", Single(user.username)),
     ("userPassword", Single(user.password)),
     ("mail", Single(user.email)),
     ("departmentNumber", Single(user.department)),
     ("o", Single(user.organization)),
     ("title", Single(user.title)),
     ("homeDirectory", Single("/home/" + user.username)),
     ("loginShell", Single("/bin/bash")),
     ("gidNumber", Single("10013")),
     ("uidNumber", Single(IntToString(uidNumber))),
     ("shadowLastChange", Single(IntToString(days))),
     ("shadowMin", Single("1")),
     ("shadowMax", Single("730")),
     ("shadowInactive", Single("10")),
     ("shadowWarning", Single("10"))]
  }

  /** The entry `create_user` adds. */
  function UserEntry(user: CreateUserRequest, uidNumber: int, days: int): AttrMap {
    AddModlist(UserDict(user, uidNumber, days))
  }

  function NonEmpty(s: string): Option<string> {
    if s == "" then None else Some(s)
  }

  /** How a single-valued attribute of `create_user`'s entry ends up: left out when empty. */
  function Stored(s: string): AttrValue {
    if s == "" then Null else Many([Bytes(s)])
  }

  /** What `attrs.get(k)` holds for the `i`-th pair of `create_user`'s dict. */
  lemma UserEntryGet(user: CreateUserRequest, uidNumber: int, days: int, i: nat, k: string)
    requires i < 19 && UserDict(user, uidNumber, days)[i].0 == k
    requires forall j :: i < j < 19 ==> UserDict(user, uidNumber, days)[j].0 != k
    ensures var v := UserDict(user, uidNumber, days)[i].1;
      Get(UserEntry(user, uidNumber, days), k) == if v.BytesList? then v.Stored() else Stored(v.b)
  {
    AddModlistAt(UserDict(user, uidNumber, days), i, k);
  }

  lemma UserEntryNames(user: CreateUserRequest, uidNumber: int, days: int)
    ensures var e := UserEntry(user, uidNumber, days);
      && Get(e, "givenName") == Stored(user.firstName)
      && Get(e, "sn") == Stored(user.lastName)
  {
    UserEntryGet(user, uidNumber, days, 1, "givenName");
    UserEntryGet(user, uidNumber, days, 2, "sn");
  }

  lemma UserEntryContact(user: CreateUserRequest, uidNumber: int, days: int)
    ensures var e := UserEntry(user, uidNumber, days);
      && Get(e, "cn") == Stored(user.firstName + " " + user.lastName)
      && Get(e, "mail") == Stored(user.email)
  {
    UserEntryGet(user, uidNumber, days, 3, "cn");
    UserEntryGet(user, uidNumber, days, 6, "mail");
  }

  lemma UserEntryAffiliation(user: CreateUserRequest, uidNumber: int, days: int)
    ensures var e := UserEntry(user, uidNumber, days);
      && Get(e, "departmentNumber") == Stored(user.department)
      && Get(e, "o") == Stored(user.organization)
      && Get(e, "title") == Stored(user.title)
  {
    UserEntryGet(user, uidNumber, days, 7, "departmentNumber");
    UserEntryGet(user, uidNumber, days, 8, "o");
    UserEntryGet(user, uidNumber, days, 9, "title");
  }

  lemma UserEntryAccount(user: CreateUserRequest, uidNumber: int, days: int)
    ensures var e := UserEntry(user, uidNumber, days);
      && Get(e, "homeDirectory") == Stored("/home/" + user.username)
      && Get(e, "loginShell") == Stored("/bin/bash")
      && Get(e, "objectClass") == AllBytes(UserObjectClasses)
  {
    UserEntryGet(user, uidNumber, days, 10, "homeDirectory");
    UserEntryGet(user, uidNumber, days, 11, "loginShell");
    UserEntryGet(user, uidNumber, days, 0, "objectClass");
  }

  lemma UserEntryNumbers(user: CreateUserRequest, uidNumber: int, days: int)
    ensures var e := UserEntry(user, uidNumber, days);
      && Get(e, "uidNumber") == Stored(IntToString(uidNumber))
      && Get(e, "gidNumber") == Stored("10013")
      && Get(e, "shadowLastChange") == Stored(IntToString(days))
  {
    UserEntryGet(user, uidNumber, days, 13, "uidNumber");
    UserEntryGet(user, uidNumber, days, 12, "gidNumber");
    UserEntryGet(user, uidNumber, days, 14, "shadowLastChange");
  }

  lemma UserEntryShadow(user: CreateUserRequest, uidNumber: int, days: int)
    ensures var e := UserEntry(user, uidNumber, days);
      && Get(e, "shadowMin") == Stored("1")
      && Get(e, "shadowMax") == Stored("730")
      && Get(e, "shadowWarning") == Stored("10")
      && Get(e, "shadowInactive") == Stored("10")
  {
    UserEntryGet(user, uidNumber, days, 15, "shadowMin");
    UserEntryGet(user, uidNumber, days, 16, "shadowMax");
    UserEntryGet(user, uidNumber, days, 18, "shadowWarning");
    UserEntryGet(user, uidNumber, days, 17, "shadowInactive");
  }

  /** The text fields read from any attribute map holding what `create_user` stores. */
  lemma ReadStoredText(attrs: AttrMap, user: CreateUserRequest)
    requires && Get(attrs, "givenName") == Stored(user.firstName)
             && Get(attrs, "sn") == Stored(user.lastName)
             && Get(attrs, "cn") == Stored(user.firstName + " " + user.lastName)
             && Get(attrs, "mail") == Stored(user.email)
             && Get(attrs, "departmentNumber") == Stored(user.department)
             && Get(attrs, "o") == Stored(user.organization)
             && Get(attrs, "title") == Stored(user.title)
             && Get(attrs, "homeDirectory") == Stored("/home/" + user.username)
             && Get(attrs, "loginShell") == Stored("/bin/bash")
             && Get(attrs, "objectClass") == AllBytes(UserObjectClasses)
    ensures var u := ReadUser(attrs);
      && u.givenName == NonEmpty(user.firstName)
      && u.surname == NonEmpty(user.lastName)
      && u.commonName == Some(user.firstName + " " + user.lastName)
      && u.email == NonEmpty(user.email)
      && u.department == NonEmpty(user.department)
      && u.organization == NonEmpty(user.organization)
      && u.title == NonEmpty(user.title)
      && u.homeDirectory == Some("/home/" + user.username)
      && u.loginShell == Some("/bin/bash")
      && u.objectClasses == Some(UserObjectClasses)
  {
    ListAttrOfWritten(attrs, "objectClass", UserObjectClasses);
  }

  /** A number stored as `str(n)` reads back as `n`. */
  lemma {:induction false} ReadStoredNumber(attrs: AttrMap, name: string, n: int)
    requires Get(attrs, name) == Stored(IntToString(n))
    ensures DecodeIntAttr(attrs, name) == Some(n)
  {
    ParseIntOfIntToString(n);
  }

  /** The number fields read from any attribute map holding what `create_user` stores. */
  lemma {:induction false} ReadStoredNumbers(attrs: AttrMap, uidNumber: int, days: int)
    requires && Get(attrs, "uidNumber") == Stored(IntToString(uidNumber))
             && Get(attrs, "gidNumber") == Stored("10013")
             && Get(attrs, "shadowLastChange") == Stored(IntToString(days))
             && Get(attrs, "shadowMin") == Stored("1")
             && Get(attrs, "shadowMax") == Stored("730")
             && Get(attrs, "shadowWarning") == Stored("10")
             && Get(attrs, "shadowInactive") == Stored("10")
    ensures var u := ReadUser(attrs);
      && u.uidNumber == Some(uidNumber)
      && u.gidNumber == Some(10013)
      && u.shadowLastChange == Some(days)
      && u.shadowMin == Some(1)
      && u.shadowMax == Some(730)
      && u.shadowWarning == Some(10)
      && u.shadowInactive == Some(10)
  {
    assert IntToString(1) == "1";
    assert IntToString(730) == "730" by {
      assert NatToString(73) == "73";
    }
    assert IntToString(10) == "10";
    assert IntToString(UserGidNumber) == "10013" by {
      assert NatToString(1001) == "1001" by {
        assert NatToString(100) == "100";
      }
    }
    ReadStoredNumber(attrs, "uidNumber", uidNumber);
    ReadStoredNumber(attrs, "gidNumber", UserGidNumber);
    ReadStoredNumber(attrs, "shadowLastChange", days);
    ReadStoredNumber(attrs, "shadowMin", 1);
    ReadStoredNumber(attrs, "shadowMax", 730);
    ReadStoredNumber(attrs, "shadowWarning", 10);
    ReadStoredNumber(attrs, "shadowInactive", 10);
  }

  /** Reading back the entry `create_user` writes gives the request's data,
      the validated uidNumber and day count, and the fixed POSIX and shadow
      settings; an empty field of the request reads back as missing. */
  lemma CreatedUserReadsBack(user: CreateUserRequest, uidNumber: int, days: int)
    ensures ReadUser(UserEntry(user, uidNumber, days)) == UserAttributes(
      Some(uidNumber), Some(10013),
      NonEmpty(user.firstName), NonEmpty(user.lastName), Some(user.firstName + " " + user.lastName),
      NonEmpty(user.email), NonEmpty(user.department), NonEmpty(user.organization), NonEmpty(user.title),
      Some("/home/" + user.username), Some("/bin/bash"),
      Some(days), Some(1), Some(730), Some(10), Some(10),
      Some(UserObjectClasses))
  {
    UserEntryNames(user, uidNumber, days);
    UserEntryContact(user, uidNumber, days);
    UserEntryAffiliation(user, uidNumber, days);
    UserEntryAccount(user, uidNumber, days);
    UserEntryNumbers(user, uidNumber, days);
    UserEntryShadow(user, uidNumber, days);
    ReadStoredText(UserEntry(user, uidNumber, days), user);
    ReadStoredNumbers(UserEntry(user, uidNumber, days), uidNumber, days);
  }
}
