/** The LDAP directory behind the portal, and the operations `portal_ldap`
    performs on it through one connection. Accounts live under
    `ou=People` keyed by `uid`; POSIX groups live under `ou=Groups` keyed by
    `cn`, their `memberUid` values held apart from their other attributes. */
module Directory {
  import opened Wrappers
  import opened PyText
  import opened Calls
  import opened LdapCodec

  predicate Distinct<T(==)>(s: seq<T>) {
    forall i, j :: 0 <= i < j < |s| ==> s[i] != s[j]
  }

  /** The groups of `order` that list `uid` as a member, in `order`'s order. */
  function MemberGroups(order: seq<string>, members: map<string, set<string>>, uid: string): (r: seq<string>)
    requires forall cn :: cn in order ==> cn in members
    ensures forall cn :: cn in r <==> cn in order && uid in members[cn]
    ensures Distinct(order) ==> Distinct(r)
  {
    if order == [] then []
    else
      var rest := MemberGroups(order[1..], members, uid);
      assert forall cn :: cn in rest ==> cn in order[1..];
      if uid in members[order[0]] then [order[0]] + rest else rest
  }

  /** The text an f-string makes of a value: a `str` as it is, `bytes` as its
      literal `b'…'`. */
  function Formatted(v: Value): (r: string)
    ensures v.Text? ==> r == v.text
    ensures v.Bytes? ==> |r| == |v.data| + 3 && r[..2] == "b'"
  {
    if v.Bytes? then "b'" + v.data + "'" else v.text
  }

  /** A `bytes` value formatted into a DN never gives its own text back. */
  lemma FormattedBytesDiffers(b: string)
    ensures Formatted(Bytes(b)) != b
  {
  }

  /** A search entry with a `cn` list, as a group search returns it. */
  predicate HasCn(e: SearchEntry) {
    "cn" in e.attrs && e.attrs["cn"].Many? && e.attrs["cn"].items != []
  }

  /** `g[1]["cn"][0]` */
  function FirstCn(e: SearchEntry): Value
    requires HasCn(e)
  {
    e.attrs["cn"].items[0]
  }

  /** `[g[1]["cn"][0] for g in entries]`: each entry's first `cn` value, undecoded. */
  function RawCns(entries: seq<SearchEntry>): (r: seq<Value>)
    requires forall i :: 0 <= i < |entries| ==> HasCn(entries[i])
    ensures |r| == |entries|
    ensures forall i :: 0 <= i < |entries| ==> r[i] == FirstCn(entries[i])
  {
    seq(|entries|, i requires 0 <= i < |entries| && HasCn(entries[i]) => FirstCn(entries[i]))
  }

  /** Each entry's first `cn` value, decoded to text. */
  function DecodedCns(entries: seq<SearchEntry>): (r: seq<string>)
    requires forall i :: 0 <= i < |entries| ==> HasCn(entries[i])
    ensures |r| == |entries|
    ensures forall i :: 0 <= i < |entries| ==> r[i] == FirstCn(entries[i]).Decoded()
  {
    seq(|entries|, i requires 0 <= i < |entries| && HasCn(entries[i]) => FirstCn(entries[i]).Decoded())
  }

  /** A non-empty name, as `if group:` accepts it. */
  predicate Given(group: Option<string>) {
    group.Some? && group.value != ""
  }

  /** Whether attribute `name` holds a value in `attrs`. */
  predicate Holds(attrs: AttrMap, name: string) {
    Get(attrs, name).Truthy()
  }

  /** The only change from `before` to `after` is `uid` joining some groups. */
  predicate OnlyJoined(before: map<string, set<string>>, after: map<string, set<string>>, uid: string) {
    && after.Keys == before.Keys
    && forall cn :: cn in after ==> after[cn] == before[cn] || after[cn] == before[cn] + {uid}
  }

  lemma OnlyJoinedStep(m: map<string, set<string>>, m': map<string, set<string>>, cn: string, uid: string)
    requires m' == m || (cn in m && m' == m[cn := m[cn] + {uid}])
    ensures OnlyJoined(m, m', uid)
  {
  }

  lemma OnlyJoinedTrans(a: map<string, set<string>>, b: map<string, set<string>>, c: map<string, set<string>>, uid: string)
    requires OnlyJoined(a, b, uid) && OnlyJoined(b, c, uid)
    ensures OnlyJoined(a, c, uid)
  {
    forall cn | cn in c
      ensures c[cn] == a[cn] || c[cn] == a[cn] + {uid}
    {
      if b[cn] == a[cn] + {uid} && c[cn] == b[cn] + {uid} {
        assert c[cn] == a[cn] + {uid};
      }
    }
  }

  /** `group` exists and lists `uid` among its members. */
  predicate Listed(members: map<string, set<string>>, uid: string, group: string) {
    group in members && uid in members[group]
  }

  /** A given group exists. */
  predicate Joinable(members: map<string, set<string>>, group: Option<string>) {
    Given(group) ==> group.value in members
  }

  /** The calls of one join when every one goes through: a fresh search of
      the account's groups, then the add unless it is already a `member`. */
  function JoinPlan(uid: string, group: string, member: bool): seq<Call> {
    [SearchUserGroups(uid)] + (if member then [] else [AddMember(group, uid)])
  }

  /** The calls of one `if group:` block: none for a missing or empty name. */
  function JoinPlanOf(members: map<string, set<string>>, uid: string, group: Option<string>): seq<Call> {
    if Given(group) then JoinPlan(uid, group.value, Listed(members, uid, group.value)) else []
  }

  /** The calls of both `if group:` blocks, everyone first. Once the
      everyone group is joined, a community group of the same name finds the
      account already listed. */
  function DefaultJoinPlan(members: map<string, set<string>>, uid: string, everyone: Option<string>, community: Option<string>): seq<Call> {
    JoinPlanOf(members, uid, everyone)
    + (if Given(community)
       then JoinPlan(uid, community.value, Listed(members, uid, community.value) || (Given(everyone) && everyone.value == community.value))
       else [])
  }

  /** The request passes `create_user`'s checks for an account dated `today`. */
  predicate AccountValid(today: int, user: CreateUserRequest) {
    ValidateUidNumber(user.userUid).Ok? && today >= 0
  }

  /** The calls of creating a new account when every one goes through: the
      add and the password, or none when the request fails the checks. */
  function CreatePlan(today: int, user: CreateUserRequest): seq<Call> {
    if AccountValid(today, user) then [AddEntry(user.username), SetPassword(user.username)] else []
  }

  /** The calls of the account half when every one goes through: a search,
      then the creation of an account the search did not find. */
  function EnsurePlan(existed: bool, today: int, user: CreateUserRequest): seq<Call> {
    [SearchUser(user.username)] + (if existed then [] else CreatePlan(today, user))
  }

  /** For an account already in every given group, joining them issues
      only group searches. */
  lemma {:induction false} ListedJoinsOnlySearch(members: map<string, set<string>>, uid: string, everyone: Option<string>, community: Option<string>)
    requires Given(everyone) ==> Listed(members, uid, everyone.value)
    requires Given(community) ==> Listed(members, uid, community.value)
    ensures forall i :: 0 <= i < |DefaultJoinPlan(members, uid, everyone, community)| ==>
      DefaultJoinPlan(members, uid, everyone, community)[i] == SearchUserGroups(uid)
  {
    var first := JoinPlanOf(members, uid, everyone);
    var second := if Given(community) then JoinPlan(uid, community.value, true) else [];
    assert first == [] || first == [SearchUserGroups(uid)];
    assert second == [] || second == [SearchUserGroups(uid)];
    assert DefaultJoinPlan(members, uid, everyone, community) == first + second;
  }

  /** For an account that exists and is already in every given group, the
      whole provisioning plan is accepted when neither search is refused. */
  lemma ProvisionedPlanAccepted(members: map<string, set<string>>, today: int, user: CreateUserRequest,
                                everyone: Option<string>, community: Option<string>, refusing: set<Call>)
    requires Given(everyone) ==> Listed(members, user.username, everyone.value)
    requires Given(community) ==> Listed(members, user.username, community.value)
    requires SearchUser(user.username) !in refusing && SearchUserGroups(user.username) !in refusing
    ensures NoneRefused(EnsurePlan(true, today, user) + DefaultJoinPlan(members, user.username, everyone, community), refusing)
  {
    ListedJoinsOnlySearch(members, user.username, everyone, community);
    NoneRefusedOne(SearchUser(user.username), refusing);
    NoneRefusedAppend(EnsurePlan(true, today, user), DefaultJoinPlan(members, user.username, everyone, community), refusing);
  }

  /** After the everyone block joined (or found) the account, the account is
      listed in a group exactly when it was before or the group is the
      everyone group. */
  lemma JoinedListing(before: map<string, set<string>>, after: map<string, set<string>>, uid: string, everyone: Option<string>, cn: string)
    requires after == before || (Given(everyone) && everyone.value in before && after == before[everyone.value := before[everyone.value] + {uid}])
    requires Given(everyone) ==> Listed(after, uid, everyone.value)
    ensures Listed(after, uid, cn) <==> Listed(before, uid, cn) || (Given(everyone) && everyone.value == cn)
    ensures after.Keys == before.Keys
  {
  }

  /** The everyone block's plan begins the plan of both blocks, and is
      accepted when the whole plan is. */
  lemma DefaultJoinPlanBegins(members: map<string, set<string>>, uid: string,
                              everyone: Option<string>, community: Option<string>, refusing: set<Call>)
    ensures JoinPlanOf(members, uid, everyone) <= DefaultJoinPlan(members, uid, everyone, community)
    ensures NoneRefused(DefaultJoinPlan(members, uid, everyone, community), refusing) ==>
      NoneRefused(JoinPlanOf(members, uid, everyone), refusing)
  {
    var first := JoinPlanOf(members, uid, everyone);
    var plan := DefaultJoinPlan(members, uid, everyone, community);
    assert plan[..|first|] == first;
    NoneRefusedAppend(first, plan[|first|..], refusing);
    assert plan == first + plan[|first|..];
  }

  /** The plan of both blocks is the everyone block's plan from the state
      before, followed by the community block's plan from the state the
      everyone block left. */
  lemma JoinBothBlocks(before: map<string, set<string>>, between: map<string, set<string>>, uid: string,
                       everyone: Option<string>, community: Option<string>, refusing: set<Call>)
    requires between == before || (Given(everyone) && everyone.value in before && between == before[everyone.value := before[everyone.value] + {uid}])
    requires Given(everyone) ==> Listed(between, uid, everyone.value)
    ensures DefaultJoinPlan(before, uid, everyone, community) == JoinPlanOf(before, uid, everyone) + JoinPlanOf(between, uid, community)
    ensures NoneRefused(DefaultJoinPlan(before, uid, everyone, community), refusing) <==>
      NoneRefused(JoinPlanOf(before, uid, everyone), refusing) && NoneRefused(JoinPlanOf(between, uid, community), refusing)
    ensures Joinable(between, community) == Joinable(before, community)
  {
    if Given(community) {
      JoinedListing(before, between, uid, everyone, community.value);
    }
    NoneRefusedAppend(JoinPlanOf(before, uid, everyone), JoinPlanOf(between, uid, community), refusing);
  }

  /** `people` with attribute `name` of account `uid` replaced by `v`. */
  function SetAttr(people: map<string, AttrMap>, uid: string, name: string, v: AttrValue): (r: map<string, AttrMap>)
    requires uid in people
    ensures r.Keys == people.Keys
    ensures Get(r[uid], name) == v
    ensures forall k :: k in people && k != uid ==> r[k] == people[k]
    ensures forall a :: a != name ==> Get(r[uid], a) == Get(people[uid], a)
  {
    people[uid := people[uid][name := v]]
  }

  class Directory {
    const wire: Wire
    const baseDn: string
    /** The attributes of each group other than `memberUid`, by `cn`. */
    const groupAttrs: map<string, AttrMap>
    /** The order the server lists groups in. */
    const order: seq<string>
    /** The accounts under `ou=People`, by `uid`. */
    var people: map<string, AttrMap>
    /** The `memberUid` values of each group, by `cn`. */
    var members: map<string, set<string>>

    ghost predicate Valid()
      reads this
    {
      && Distinct(order)
      && (forall cn :: cn in order <==> cn in groupAttrs)
      && members.Keys == groupAttrs.Keys
      && (forall cn :: cn in groupAttrs ==> Get(groupAttrs[cn], "cn") == Many([Bytes(cn)]))
      && (forall cn :: cn in groupAttrs ==> "memberUid" !in groupAttrs[cn])
    }

    constructor (wire: Wire, baseDn: string, order: seq<string>, groupAttrs: map<string, AttrMap>,
                 people: map<string, AttrMap>, members: map<string, set<string>>)
      requires Distinct(order) && (forall cn :: cn in order <==> cn in groupAttrs)
      requires members.Keys == groupAttrs.Keys
      requires forall cn :: cn in groupAttrs ==> Get(groupAttrs[cn], "cn") == Many([Bytes(cn)])
      requires forall cn :: cn in groupAttrs ==> "memberUid" !in groupAttrs[cn]
      ensures Valid()
      ensures this.wire == wire && this.baseDn == baseDn && this.order == order
      ensures this.groupAttrs == groupAttrs && this.people == people && this.members == members
    {
      this.wire := wire;
      this.baseDn := baseDn;
      this.order := order;
      this.groupAttrs := groupAttrs;
      this.people := people;
      this.members := members;
    }

    function UserDn(uid: string): string {
      "uid=" + uid + ",ou=People," + baseDn
    }

    function GroupDn(cn: string): string {
      "cn=" + cn + ",ou=Groups," + baseDn
    }

    /** The groups listing `uid` as a member, in the server's order. */
    function GroupsOf(uid: string): (r: seq<string>)
      reads this
      requires Valid()
      ensures Distinct(r)
      ensures forall cn :: cn in r <==> cn in members && uid in members[cn]
    {
      MemberGroups(order, members, uid)
    }

    /** What a search for the user `uid` returns. */
    function UserResult(uid: string): seq<SearchEntry>
      reads this
    {
      if uid in people then [SearchEntry(UserDn(uid), people[uid])] else []
    }

    /** What a group search returns for the groups `cns`, without `memberUid`. */
    function GroupEntries(cns: seq<string>): (r: seq<SearchEntry>)
      requires forall cn :: cn in cns ==> cn in groupAttrs
      ensures |r| == |cns|
      ensures forall i :: 0 <= i < |cns| ==> r[i] == SearchEntry(GroupDn(cns[i]), groupAttrs[cns[i]])
    {
      seq(|cns|, i requires 0 <= i < |cns| && cns[i] in groupAttrs => SearchEntry(GroupDn(cns[i]), groupAttrs[cns[i]]))
    }

    /** The group entries carry their `cn` as bytes, so decoding the names
        gives back exactly the groups searched for, and the raw names are
        those groups' bytes. */
    lemma GroupEntriesNames(cns: seq<string>)
      requires Valid()
      requires forall cn :: cn in cns ==> cn in groupAttrs
      ensures forall i :: 0 <= i < |cns| ==> HasCn(GroupEntries(cns)[i])
      ensures DecodedCns(GroupEntries(cns)) == cns
      ensures forall i :: 0 <= i < |cns| ==> RawCns(GroupEntries(cns))[i] == Bytes(cns[i])
    {
      var es := GroupEntries(cns);
      forall i | 0 <= i < |cns|
        ensures HasCn(es[i]) && FirstCn(es[i]) == Bytes(cns[i])
      {
        assert Get(groupAttrs[cns[i]], "cn") == Many([Bytes(cns[i])]);
      }
    }

    /** `get_user`: search for the account `uid`. */
    method GetUser(uid: string) returns (r: Result<seq<SearchEntry>, Fault>)
      modifies wire
      ensures wire.sent == old(wire.sent) + [SearchUser(uid)]
      ensures r.Err? <==> SearchUser(uid) in wire.refusing
      ensures r.Err? ==> r.error == Unreachable
      ensures r.Ok? ==> r.value == UserResult(uid) && (r.value == [] <==> uid !in people)
    {
      var refused := wire.Send(SearchUser(uid));
      if refused {
        return Err(Unreachable);
      }
      return Ok(UserResult(uid));
    }

    /** `get_user_groups`: the groups listing `uid` as a member. */
    method GetUserGroups(uid: string) returns (r: Result<seq<SearchEntry>, Fault>)
      requires Valid()
      modifies wire
      ensures wire.sent == old(wire.sent) + [SearchUserGroups(uid)]
      ensures r.Err? <==> SearchUserGroups(uid) in wire.refusing
      ensures r.Err? ==> r.error == Unreachable
      ensures r.Ok? ==> r.value == GroupEntries(GroupsOf(uid))
    {
      var refused := wire.Send(SearchUserGroups(uid));
      if refused {
        return Err(Unreachable);
      }
      return Ok(GroupEntries(GroupsOf(uid)));
    }

    /** `get_groups`: every group, in the server's order. */
    method GetGroups() returns (r: Result<seq<SearchEntry>, Fault>)
      requires Valid()
      modifies wire
      ensures wire.sent == old(wire.sent) + [SearchGroups]
      ensures r.Err? <==> SearchGroups in wire.refusing
      ensures r.Err? ==> r.error == Unreachable
      ensures r.Ok? ==> r.value == GroupEntries(order)
    {
      var refused := wire.Send(SearchGroups);
      if refused {
        return Err(Unreachable);
      }
      return Ok(GroupEntries(order));
    }

    /** `create_user`: validate the uidNumber and day count, then add the
        account entry. Invalid input raises ValueError before any call. */
    method CreateUser(days: DayCount, user: CreateUserRequest) returns (r: Result<(), Fault>)
      modifies this, wire
      ensures members == old(members)
      ensures ValidateUidNumber(user.userUid).Err? || ValidateShadowLastChange(days).Err? ==>
        r == Err(ValueError) && wire.sent == old(wire.sent) && people == old(people)
      ensures ValidateUidNumber(user.userUid).Ok? && ValidateShadowLastChange(days).Ok? ==>
        && wire.sent == old(wire.sent) + [AddEntry(user.username)]
        && (r.Ok? <==> AddEntry(user.username) !in wire.refusing && user.username !in old(people))
        && (r.Ok? ==> people == old(people)[user.username := UserEntry(user, ValidateUidNumber(user.userUid).value, ValidateShadowLastChange(days).value)])
        && (r.Err? ==> people == old(people) && r.error in {Unreachable, AlreadyExists})
    {
      var uidNumber :- ValidateUidNumber(user.userUid);
      var lastChange :- ValidateShadowLastChange(days);
      r := AddAccount(user.username, UserEntry(user, uidNumber, lastChange));
    }

    /** The LDAP add of the account entry `entry` for `uid`. */
    method AddAccount(uid: string, entry: AttrMap) returns (r: Result<(), Fault>)
      modifies this, wire
      ensures members == old(members)
      ensures wire.sent == old(wire.sent) + [AddEntry(uid)]
      ensures r.Ok? <==> AddEntry(uid) !in wire.refusing && uid !in old(people)
      ensures r.Ok? ==> people == old(people)[uid := entry]
      ensures r.Err? ==> people == old(people) && r.error in {Unreachable, AlreadyExists}
    {
      var refused := wire.Send(AddEntry(uid));
      if refused {
        return Err(Unreachable);
      }
      if uid in people {
        return Err(AlreadyExists);
      }
      people := people[uid := entry];
      return Ok(());
    }

    /** `change_password`: the password modify extended operation on the account. */
    method ChangePassword(uid: string, password: string) returns (r: Result<(), Fault>)
      modifies this, wire
      ensures members == old(members)
      ensures wire.sent == old(wire.sent) + [SetPassword(uid)]
      ensures r.Ok? <==> SetPassword(uid) !in wire.refusing && uid in old(people)
      ensures r.Ok? ==> people == SetAttr(old(people), uid, "userPassword", Many([Bytes(password)]))
      ensures r.Err? ==> people == old(people) && r.error in {Unreachable, NoSuchObject}
    {
      var refused := wire.Send(SetPassword(uid));
      if refused {
        return Err(Unreachable);
      }
      if uid !in people {
        return Err(NoSuchObject);
      }
      people := SetAttr(people, uid, "userPassword", Many([Bytes(password)]));
      return Ok(());
    }

    /** `shadow_last_change`: validate the day count, then delete every
        shadowLastChange value and add the new one in a single modify. The
        delete fails when the account holds no value. */
    method ShadowLastChange(days: DayCount, uid: string) returns (r: Result<(), Fault>)
      modifies this, wire
      ensures members == old(members)
      ensures ValidateShadowLastChange(days).Err? ==>
        r == Err(ValueError) && wire.sent == old(wire.sent) && people == old(people)
      ensures ValidateShadowLastChange(days).Ok? ==>
        var n := ValidateShadowLastChange(days).value;
        && wire.sent == old(wire.sent) + [ReplaceShadowLastChange(uid, n)]
        && (r.Ok? <==> ReplaceShadowLastChange(uid, n) !in wire.refusing && uid in old(people)
                       && Holds(old(people)[uid], "shadowLastChange"))
        && (r.Ok? ==> people == SetAttr(old(people), uid, "shadowLastChange", Many([Bytes(IntToString(n))])))
        && (r.Err? ==> people == old(people) && r.error in {Unreachable, NoSuchObject, NoSuchAttribute})
    {
      var n :- ValidateShadowLastChange(days);
      r := ReplaceShadow(uid, n);
    }

    /** The modify that deletes every shadowLastChange value of `uid` and
        adds `n`. */
    method ReplaceShadow(uid: string, n: int) returns (r: Result<(), Fault>)
      modifies this, wire
      ensures members == old(members)
      ensures wire.sent == old(wire.sent) + [ReplaceShadowLastChange(uid, n)]
      ensures r.Ok? <==> ReplaceShadowLastChange(uid, n) !in wire.refusing && uid in old(people)
                         && Holds(old(people)[uid], "shadowLastChange")
      ensures r.Ok? ==> people == SetAttr(old(people), uid, "shadowLastChange", Many([Bytes(IntToString(n))]))
      ensures r.Err? ==> people == old(people) && r.error in {Unreachable, NoSuchObject, NoSuchAttribute}
    {
      var refused := wire.Send(ReplaceShadowLastChange(uid, n));
      if refused {
        return Err(Unreachable);
      }
      if uid !in people {
        return Err(NoSuchObject);
      }
      if !Holds(people[uid], "shadowLastChange") {
        return Err(NoSuchAttribute);
      }
      people := SetAttr(people, uid, "shadowLastChange", Many([Bytes(IntToString(n))]));
      return Ok(());
    }

    /** `add_user_to_group`: add `uid` to the `memberUid` values of the group
        whose DN is formatted from `group`. */
    method AddUserToGroup(uid: string, group: Value) returns (r: Result<(), Fault>)
      requires Valid()
      modifies this, wire
      ensures Valid() && people == old(people)
      ensures wire.sent == old(wire.sent) + [AddMember(Formatted(group), uid)]
      ensures var cn := Formatted(group);
        && (r.Ok? <==> AddMember(cn, uid) !in wire.refusing && cn in old(members) && uid !in old(members)[cn])
        && (r.Ok? ==> members == old(members)[cn := old(members)[cn] + {uid}])
        && (r.Err? ==> members == old(members) && r.error in {Unreachable, NoSuchObject, ValueExists})
        && (r.Err? && cn in old(members) && uid in old(members)[cn] && AddMember(cn, uid) !in wire.refusing ==> r.error == ValueExists)
    {
      var cn := Formatted(group);
      var refused := wire.Send(AddMember(cn, uid));
      if refused {
        return Err(Unreachable);
      }
      if cn !in members {
        return Err(NoSuchObject);
      }
      if uid in members[cn] {
        return Err(ValueExists);
      }
      members := members[cn := members[cn] + {uid}];
      return Ok(());
    }

    /** `remove_user_from_group`: delete `uid` from the `memberUid` values of
        the group whose DN is formatted from `group`. */
    method RemoveUserFromGroup(uid: string, group: Value) returns (r: Result<(), Fault>)
      requires Valid()
      modifies this, wire
      ensures Valid() && people == old(people)
      ensures wire.sent == old(wire.sent) + [RemoveMember(Formatted(group), uid)]
      ensures var cn := Formatted(group);
        && (r.Ok? <==> RemoveMember(cn, uid) !in wire.refusing && cn in old(members) && uid in old(members)[cn])
        && (r.Ok? ==> members == old(members)[cn := old(members)[cn] - {uid}])
        && (r.Err? ==> members == old(members) && r.error in {Unreachable, NoSuchObject, NoSuchAttribute})
        && (r.Err? && RemoveMember(cn, uid) !in wire.refusing && cn !in old(members) ==> r.error == NoSuchObject)
    {
      var cn := Formatted(group);
      var refused := wire.Send(RemoveMember(cn, uid));
      if refused {
        return Err(Unreachable);
      }
      if cn !in members {
        return Err(NoSuchObject);
      }
      if uid !in members[cn] {
        return Err(NoSuchAttribute);
      }
      members := members[cn := members[cn] - {uid}];
      return Ok(());
    }

    /** `delete_user`: delete the account entry. Group memberships are not
        touched: a `memberUid` naming a deleted account stays behind. */
    method DeleteUser(uid: string) returns (r: Result<(), Fault>)
      modifies this, wire
      ensures members == old(members) && (old(Valid()) ==> Valid())
      ensures wire.sent == old(wire.sent) + [DeleteEntry(uid)]
      ensures r.Ok? <==> DeleteEntry(uid) !in wire.refusing && uid in old(people)
      ensures r.Ok? ==> people == old(people) - {uid}
      ensures r.Err? ==> people == old(people) && r.error in {Unreachable, NoSuchObject}
    {
      var refused := wire.Send(DeleteEntry(uid));
      if refused {
        return Err(Unreachable);
      }
      if uid !in people {
        return Err(NoSuchObject);
      }
      people := people - {uid};
      return Ok(());
    }

    /** `modify_user_attribute`: replace every value of `attribute` with
        `value`. An empty value raises ValueError before any call. */
    method ModifyUserAttribute(uid: string, attribute: string, value: string) returns (r: Result<(), Fault>)
      modifies this, wire
      ensures members == old(members)
      ensures value == "" ==> r == Err(ValueError) && wire.sent == old(wire.sent) && people == old(people)
      ensures value != "" ==>
        && wire.sent == old(wire.sent) + [ReplaceAttribute(uid, attribute)]
        && (r.Ok? <==> ReplaceAttribute(uid, attribute) !in wire.refusing && uid in old(people))
        && (r.Ok? ==> people == SetAttr(old(people), uid, attribute, Many([Bytes(value)])))
        && (r.Err? ==> people == old(people) && r.error in {Unreachable, NoSuchObject})
    {
      if value == "" {
        return Err(ValueError);
      }
      var refused := wire.Send(ReplaceAttribute(uid, attribute));
      if refused {
        return Err(Unreachable);
      }
      if uid !in people {
        return Err(NoSuchObject);
      }
      people := SetAttr(people, uid, attribute, Many([Bytes(value)]));
      return Ok(());
    }

    /** The account exists and belongs to each given default group. */
    ghost predicate Provisioned(uid: string, everyone: Option<string>, community: Option<string>)
      reads this
    {
      && uid in people
      && (Given(everyone) ==> Listed(members, uid, everyone.value))
      && (Given(community) ==> Listed(members, uid, community.value))
    }

    /** Add `uid` to `group` unless a fresh search shows it is already a
        member. The add of a non-member fails only when it is refused or the
        group does not exist. */
    method JoinUnlessMember(uid: string, group: string) returns (r: Result<(), Fault>)
      requires Valid()
      modifies this, wire
      ensures Valid() && people == old(people)
      ensures r.Ok? ==> Listed(members, uid, group)
      ensures members == old(members) || (group in old(members) && members == old(members)[group := old(members)[group] + {uid}])
      ensures OnlyJoined(old(members), members, uid)
      ensures var plan := JoinPlan(uid, group, old(Listed(members, uid, group)));
        && old(wire.sent) <= wire.sent <= old(wire.sent) + plan
        && (SearchUserGroups(uid) !in wire.refusing ==> wire.sent == old(wire.sent) + plan)
        && (r.Ok? <==> NoneRefused(plan, wire.refusing) && group in old(members))
      ensures old(Listed(members, uid, group)) ==>
        members == old(members) && ReadOnlySince(old(wire.sent), wire.sent)
    {
      ghost var plan := JoinPlan(uid, group, Listed(members, uid, group));
      NoneRefusedAppend([SearchUserGroups(uid)], plan[1..], wire.refusing);
      assert plan == [SearchUserGroups(uid)] + plan[1..];
      NoneRefusedOne(SearchUserGroups(uid), wire.refusing);
      var found := GetUserGroups(uid);
      if found.Err? {
        return Err(found.error);
      }
      GroupEntriesNames(GroupsOf(uid));
      var names := DecodedCns(found.value);
      assert names == GroupsOf(uid);
      ghost var before := members;
      OnlyJoinedStep(before, before, group, uid);
      if group !in names {
        var added := AddUserToGroup(uid, Text(group));
        NoneRefusedOne(AddMember(group, uid), wire.refusing);
        if added.Err? {
          return Err(added.error);
        }
        OnlyJoinedStep(before, members, group, uid);
      } else {
        ReadOnlySinceOne(old(wire.sent), SearchUserGroups(uid));
      }
      return Ok(());
    }

    /** Create the account and set its password unless a search finds it. */
    method EnsureAccount(today: int, user: CreateUserRequest) returns (r: Result<(), Fault>)
      requires Valid()
      modifies this, wire
      ensures Valid() && members == old(members)
      ensures r.Ok? ==> user.username in people
      ensures old(user.username in people) ==> people == old(people) && wire.sent == old(wire.sent) + [SearchUser(user.username)]
      ensures r.Ok? && old(user.username !in people) ==>
        var uidNumber := ValidateUidNumber(user.userUid);
        && uidNumber.Ok? && today >= 0
        && people == SetAttr(old(people)[user.username := UserEntry(user, uidNumber.value, today)], user.username, "userPassword", Many([Bytes(user.password)]))
      ensures var plan := EnsurePlan(old(user.username in people), today, user);
        && old(wire.sent) <= wire.sent <= old(wire.sent) + plan
        && (r.Ok? ==> wire.sent == old(wire.sent) + plan)
        && (r.Ok? <==> NoneRefused(plan, wire.refusing) && (old(user.username in people) || AccountValid(today, user)))
    {
      ghost var search := SearchUser(user.username);
      ghost var existed := user.username in people;
      ghost var rest := if existed then [] else CreatePlan(today, user);
      assert EnsurePlan(existed, today, user) == [search] + rest;
      NoneRefusedAppend([search], rest, wire.refusing);
      NoneRefusedOne(search, wire.refusing);
      var found := GetUser(user.username);
      if found.Err? {
        return Err(found.error);
      }
      AppendPair(old(wire.sent), [search], rest);
      if found.value == [] {
        r := CreateWithPassword(today, user);
      } else {
        assert wire.sent == old(wire.sent) + [search] + [];
        r := Ok(());
      }
    }

    /** The creating branch of `create_ldap_user_with_groups`: add the
        account dated `today`, then set its password. */
    method CreateWithPassword(today: int, user: CreateUserRequest) returns (r: Result<(), Fault>)
      requires Valid() && user.username !in people
      modifies this, wire
      ensures Valid() && members == old(members)
      ensures r.Ok? ==>
        var uidNumber := ValidateUidNumber(user.userUid);
        && uidNumber.Ok? && today >= 0
        && people == SetAttr(old(people)[user.username := UserEntry(user, uidNumber.value, today)], user.username, "userPassword", Many([Bytes(user.password)]))
      ensures var plan := CreatePlan(today, user);
        && old(wire.sent) <= wire.sent <= old(wire.sent) + plan
        && (r.Ok? ==> wire.sent == old(wire.sent) + plan)
        && (r.Ok? <==> NoneRefused(plan, wire.refusing) && AccountValid(today, user))
    {
      ghost var t, add, pass := wire.sent, AddEntry(user.username), SetPassword(user.username);
      PrefixSteps(t, [add], [pass]);
      var created := CreateUser(Days(today), user);
      if created.Err? {
        if AccountValid(today, user) {
          assert CreatePlan(today, user) == [add] + [pass];
          NoneRefusedAppend([add], [pass], wire.refusing);
          NoneRefusedOne(add, wire.refusing);
        } else {
          assert wire.sent == t + [] && CreatePlan(today, user) == [];
        }
        return Err(created.error);
      }
      assert AccountValid(today, user) && wire.sent == t + [add];
      assert CreatePlan(today, user) == [add] + [pass];
      NoneRefusedAppend([add], [pass], wire.refusing);
      NoneRefusedOne(add, wire.refusing);
      NoneRefusedOne(pass, wire.refusing);
      var changed := ChangePassword(user.username, user.password);
      assert wire.sent == t + [add] + [pass];
      if changed.Err? {
        return Err(changed.error);
      }
      return Ok(());
    }

    /** One `if group:` block of `create_ldap_user_with_groups`: join
        `group` unless it is empty, missing or already held. */
    method JoinIfGiven(uid: string, group: Option<string>) returns (r: Result<(), Fault>)
      requires Valid()
      modifies this, wire
      ensures Valid() && people == old(people)
      ensures OnlyJoined(old(members), members, uid)
      ensures members == old(members)
        || (Given(group) && group.value in old(members) && members == old(members)[group.value := old(members)[group.value] + {uid}])
      ensures !Given(group) ==> r.Ok? && members == old(members) && wire.sent == old(wire.sent)
      ensures r.Ok? && Given(group) ==> Listed(members, uid, group.value)
      ensures var plan := JoinPlanOf(old(members), uid, group);
        && old(wire.sent) <= wire.sent <= old(wire.sent) + plan
        && (r.Ok? ==> wire.sent == old(wire.sent) + plan)
        && (r.Ok? <==> NoneRefused(plan, wire.refusing) && Joinable(old(members), group))
      ensures Given(group) && old(Listed(members, uid, group.value)) ==>
        members == old(members) && ReadOnlySince(old(wire.sent), wire.sent)
    {
      if Given(group) {
        assert JoinPlan(uid, group.value, Listed(members, uid, group.value))[0] == SearchUserGroups(uid);
        r := JoinUnlessMember(uid, group.value);
      } else {
        OnlyJoinedStep(members, members, "", uid);
        assert wire.sent == old(wire.sent) + [];
        r := Ok(());
      }
    }

    /** The group half of `create_ldap_user_with_groups`: the everyone
        group, then the community group. */
    method JoinDefaultGroups(uid: string, everyone: Option<string>, community: Option<string>) returns (r: Result<(), Fault>)
      requires Valid()
      modifies this, wire
      ensures Valid() && people == old(people)
      ensures r.Ok? ==>
        && (Given(everyone) ==> Listed(members, uid, everyone.value))
        && (Given(community) ==> Listed(members, uid, community.value))
      ensures OnlyJoined(old(members), members, uid)
      ensures var plan := DefaultJoinPlan(old(members), uid, everyone, community);
        && old(wire.sent) <= wire.sent <= old(wire.sent) + plan
        && (r.Ok? ==> wire.sent == old(wire.sent) + plan)
        && (r.Ok? <==> NoneRefused(plan, wire.refusing) && Joinable(old(members), everyone) && Joinable(old(members), community))
      ensures old(Provisioned(uid, everyone, community)) ==>
        members == old(members) && ReadOnlySince(old(wire.sent), wire.sent)
    {
      ghost var start, before := wire.sent, members;
      ghost var plan := DefaultJoinPlan(before, uid, everyone, community);
      ghost var first := JoinPlanOf(before, uid, everyone);
      var joined := JoinIfGiven(uid, everyone);
      ghost var middle, between := wire.sent, members;
      if joined.Err? {
        DefaultJoinPlanBegins(before, uid, everyone, community, wire.refusing);
        PrefixOfLonger(start, first, plan, wire.sent);
        return Err(joined.error);
      }
      JoinBothBlocks(before, between, uid, everyone, community, wire.refusing);
      ghost var second := JoinPlanOf(between, uid, community);
      r := JoinIfGiven(uid, community);
      PrefixOfSecond(start, first, second, wire.sent);
      AppendPair(start, first, second);
      OnlyJoinedTrans(before, between, members, uid);
      if r.Ok? && Given(everyone) {
        assert Listed(members, uid, everyone.value);
      }
      if old(Provisioned(uid, everyone, community)) {
        ReadOnlySinceTrans(start, middle, wire.sent);
      }
    }

    /** `create_ldap_user_with_groups`: create the account and set its
        password unless a search finds it, then add it to each given default
        group it is not yet a member of. */
    method CreateUserWithGroups(today: int, user: CreateUserRequest, everyone: Option<string>, community: Option<string>)
      returns (r: Result<string, Fault>)
      requires Valid()
      modifies this, wire
      ensures Valid()
      ensures r.Ok? ==> r.value == user.username && Provisioned(user.username, everyone, community)
      ensures old(user.username in people) ==> people == old(people)
      ensures r.Ok? && old(user.username !in people) ==>
        var uidNumber := ValidateUidNumber(user.userUid);
        && uidNumber.Ok? && today >= 0
        && people == SetAttr(old(people)[user.username := UserEntry(user, uidNumber.value, today)], user.username, "userPassword", Many([Bytes(user.password)]))
      ensures OnlyJoined(old(members), members, user.username)
      ensures var plan := EnsurePlan(old(user.username in people), today, user) + DefaultJoinPlan(old(members), user.username, everyone, community);
        && old(wire.sent) <= wire.sent <= old(wire.sent) + plan
        && (r.Ok? ==> wire.sent == old(wire.sent) + plan)
        && (r.Ok? <==> NoneRefused(plan, wire.refusing) && (old(user.username in people) || AccountValid(today, user))
                       && Joinable(old(members), everyone) && Joinable(old(members), community))
      ensures old(Provisioned(user.username, everyone, community)) ==>
        people == old(people) && members == old(members) && ReadOnlySince(old(wire.sent), wire.sent)
      ensures (old(Provisioned(user.username, everyone, community))
               && SearchUser(user.username) !in wire.refusing && SearchUserGroups(user.username) !in wire.refusing) ==> r.Ok?
    {
      ghost var start := wire.sent;
      ghost var wasProvisioned := Provisioned(user.username, everyone, community);
      ghost var account := EnsurePlan(user.username in people, today, user);
      ghost var joins := DefaultJoinPlan(members, user.username, everyone, community);
      NoneRefusedAppend(account, joins, wire.refusing);
      if wasProvisioned && SearchUser(user.username) !in wire.refusing && SearchUserGroups(user.username) !in wire.refusing {
        ProvisionedPlanAccepted(members, today, user, everyone, community, wire.refusing);
      }
      var ensured := EnsureAccount(today, user);
      if wasProvisioned {
        ReadOnlySinceOne(start, SearchUser(user.username));
      }
      if ensured.Err? {
        PrefixOfLonger(start, account, account + joins, wire.sent);
        return Err(ensured.error);
      }
      ghost var middle := wire.sent;
      if wasProvisioned {
        assert Provisioned(user.username, everyone, community);
      }
      var joined := JoinDefaultGroups(user.username, everyone, community);
      PrefixOfSecond(start, account, joins, wire.sent);
      AppendPair(start, account, joins);
      if wasProvisioned {
        ReadOnlySinceTrans(start, middle, wire.sent);
      }
      if joined.Err? {
        return Err(joined.error);
      }
      return Ok(user.username);
    }
  }
}
