/** The stand-alone account deletion script: checking its configuration,
    then removing a portal user from the mailing lists, the data store, the
    directory and the portal database, in that order. Progress messages are
    not modelled; `dryRun` runs every check and issues no change. */
module DeleteUserScript {
  import opened Wrappers
  import opened PyText
  import opened PyJson
  import opened Calls
  import opened LdapCodec
  import opened Directory
  import opened DataStore
  import Mailman
  import opened PortalDb

  // ---------------------------------------------------------------------
  // Configuration

  /** The fields the script cannot run without, in the order it checks them. */
  const RequiredFields: seq<(string, string)> := [
    ("ldap", "url"), ("ldap", "user"), ("ldap", "password"), ("ldap", "base_dn"),
    ("irods", "host"), ("irods", "port"), ("irods", "user"), ("irods", "password"), ("irods", "zone"),
    ("portal_db", "host"), ("portal_db", "port"), ("portal_db", "name"), ("portal_db", "user"),
    ("portal_db", "password")]

  function FieldName(field: (string, string)): string {
    field.0 + "." + field.1
  }

  /** `config.get(section, {}).get(key)` */
  function FieldValue(config: Json, field: (string, string)): Result<Json, LookupError> {
    var section :- GetOr(config, field.0, JObj(map[]));
    GetOr(section, field.1, JNull)
  }

  /** The names of the fields whose value is missing or falsy, in order.
      Every value is looked up before any is tested, so a section that is
      not a dict raises whatever the other fields hold. */
  function MissingFields(config: Json, fields: seq<(string, string)>): (r: Result<seq<string>, LookupError>)
    ensures r.Err? <==> exists i :: 0 <= i < |fields| && FieldValue(config, fields[i]).Err?
    ensures r.Ok? ==> |r.value| <= |fields|
    ensures r.Ok? ==> forall n :: n in r.value <==>
      exists i :: 0 <= i < |fields| && FieldName(fields[i]) == n && !FieldValue(config, fields[i]).value.Truthy()
  {
    if fields == [] then Ok([])
    else
      var v :- FieldValue(config, fields[0]);
      var rest :- MissingFields(config, fields[1..]);
      assert forall i :: 0 < i < |fields| ==> fields[i] == fields[1..][i - 1];
      Ok(if v.Truthy() then rest else [FieldName(fields[0])] + rest)
  }

  /** `idx` lists, in increasing order, exactly the positions of `fields`
      whose value is falsy, and `names` holds their names in that order. */
  predicate FalsyPositions(config: Json, fields: seq<(string, string)>, names: seq<string>, idx: seq<nat>) {
    && |idx| == |names|
    && (forall a, b :: 0 <= a < b < |idx| ==> idx[a] < idx[b])
    && (forall a :: 0 <= a < |idx| ==> idx[a] < |fields| && names[a] == FieldName(fields[idx[a]]))
    && (forall i :: 0 <= i < |fields| ==> (i in idx <==> Falsy(config, fields[i])))
  }

  /** The value of `field` was read and is falsy. */
  predicate Falsy(config: Json, field: (string, string)) {
    FieldValue(config, field).Ok? && !FieldValue(config, field).value.Truthy()
  }

  /** The missing fields are reported in the order the fields are checked,
      each falsy field once. */
  lemma MissingFieldsInOrder(config: Json, fields: seq<(string, string)>)
    requires MissingFields(config, fields).Ok?
    ensures exists idx :: FalsyPositions(config, fields, MissingFields(config, fields).value, idx)
  {
    var idx := MissingPositions(config, fields);
  }

  /** The positions of the missing fields, by induction on the fields. */
  lemma {:induction false} MissingPositions(config: Json, fields: seq<(string, string)>) returns (idx: seq<nat>)
    requires MissingFields(config, fields).Ok?
    ensures FalsyPositions(config, fields, MissingFields(config, fields).value, idx)
  {
    if fields == [] {
      idx := [];
    } else {
      MissingFieldsStep(config, fields);
      var rest := MissingFields(config, fields[1..]).value;
      var tail := MissingPositions(config, fields[1..]);
      FalsyPositionsCons(config, fields, rest, tail);
      idx := if Falsy(config, fields[0]) then [0] + Shifted(tail) else Shifted(tail);
    }
  }

  /** One step of `MissingFields`: the first field, then the others. */
  lemma MissingFieldsStep(config: Json, fields: seq<(string, string)>)
    requires fields != [] && MissingFields(config, fields).Ok?
    ensures FieldValue(config, fields[0]).Ok? && MissingFields(config, fields[1..]).Ok?
    ensures MissingFields(config, fields).value ==
      if Falsy(config, fields[0]) then [FieldName(fields[0])] + MissingFields(config, fields[1..]).value
      else MissingFields(config, fields[1..]).value
  {
  }

  function Shifted(idx: seq<nat>): (r: seq<nat>)
    ensures |r| == |idx| && forall j :: 0 <= j < |idx| ==> r[j] == idx[j] + 1
  {
    seq(|idx|, j requires 0 <= j < |idx| => idx[j] + 1)
  }

  lemma FalsyPositionsCons(config: Json, fields: seq<(string, string)>, rest: seq<string>, idx: seq<nat>)
    requires fields != [] && FieldValue(config, fields[0]).Ok?
    requires FalsyPositions(config, fields[1..], rest, idx)
    ensures !Falsy(config, fields[0]) ==> FalsyPositions(config, fields, rest, Shifted(idx))
    ensures Falsy(config, fields[0]) ==>
      FalsyPositions(config, fields, [FieldName(fields[0])] + rest, [0] + Shifted(idx))
  {
    ShiftedPositions(config, fields, rest, idx);
    if Falsy(config, fields[0]) {
      PrependPosition(config, fields, rest, Shifted(idx));
    }
  }

  /** Dropping the first field moves every listed position down by one. */
  lemma ShiftedPositions(config: Json, fields: seq<(string, string)>, rest: seq<string>, idx: seq<nat>)
    requires fields != []
    requires FalsyPositions(config, fields[1..], rest, idx)
    ensures |Shifted(idx)| == |rest|
    ensures forall a, b :: 0 <= a < b < |idx| ==> Shifted(idx)[a] < Shifted(idx)[b]
    ensures forall a :: 0 <= a < |idx| ==> 0 < Shifted(idx)[a] < |fields| && rest[a] == FieldName(fields[Shifted(idx)[a]])
    ensures forall i :: 0 < i < |fields| ==> (i in Shifted(idx) <==> Falsy(config, fields[i]))
    ensures !Falsy(config, fields[0]) ==> FalsyPositions(config, fields, rest, Shifted(idx))
  {
    var sh := Shifted(idx);
    forall a | 0 <= a < |idx|
      ensures 0 < sh[a] < |fields| && rest[a] == FieldName(fields[sh[a]])
    {
      assert fields[sh[a]] == fields[1..][idx[a]];
    }
    forall i | 0 < i < |fields|
      ensures i in sh <==> Falsy(config, fields[i])
    {
      assert fields[i] == fields[1..][i - 1];
      if i - 1 in idx {
        var j :| 0 <= j < |idx| && idx[j] == i - 1;
        assert sh[j] == i;
      }
    }
  }

  /** A falsy first field is listed before all the others. */
  lemma PrependPosition(config: Json, fields: seq<(string, string)>, rest: seq<string>, sh: seq<nat>)
    requires fields != [] && Falsy(config, fields[0])
    requires |sh| == |rest|
    requires forall a, b :: 0 <= a < b < |sh| ==> sh[a] < sh[b]
    requires forall a :: 0 <= a < |sh| ==> 0 < sh[a] < |fields| && rest[a] == FieldName(fields[sh[a]])
    requires forall i :: 0 < i < |fields| ==> (i in sh <==> Falsy(config, fields[i]))
    ensures FalsyPositions(config, fields, [FieldName(fields[0])] + rest, [0] + sh)
  {
    PrependIncreasing(sh);
    var full := [0] + sh;
    var names := [FieldName(fields[0])] + rest;
    forall i | 0 <= i < |fields|
      ensures i in full <==> Falsy(config, fields[i])
    {
      assert i in full <==> i == 0 || i in sh;
    }
    forall a | 0 < a < |full|
      ensures full[a] < |fields| && names[a] == FieldName(fields[full[a]])
    {
      assert full[a] == sh[a - 1] && names[a] == rest[a - 1];
    }
  }

  /** Position 0 before positive increasing positions keeps them increasing. */
  lemma PrependIncreasing(sh: seq<nat>)
    requires forall a :: 0 <= a < |sh| ==> 0 < sh[a]
    requires forall a, b :: 0 <= a < b < |sh| ==> sh[a] < sh[b]
    ensures forall a, b :: 0 <= a < b < |[0] + sh| ==> ([0] + sh)[a] < ([0] + sh)[b]
  {
    var full := [0] + sh;
    forall a, b | 0 <= a < b < |full|
      ensures full[a] < full[b]
    {
      assert full[b] == sh[b - 1];
      if a > 0 {
        assert full[a] == sh[a - 1];
      }
    }
  }

  datatype ConfigError =
    | Unreadable(error: LookupError)
    | Missing(fields: seq<string>)
  {
    /** The text of the ValueError raised for missing fields. */
    function Message(): string
      requires Missing?
    {
      "Missing required configuration fields: " + Join(", ", fields)
    }
  }

  /** `validate_config` */
  function ValidateConfig(config: Json): (r: Result<(), ConfigError>)
    ensures r.Err? && r.error.Missing? ==> r.error.fields != [] && MissingFields(config, RequiredFields) == Ok(r.error.fields)
    ensures r.Err? && r.error.Unreadable? ==> MissingFields(config, RequiredFields).Err?
    ensures r.Ok? <==> MissingFields(config, RequiredFields) == Ok([])
  {
    match MissingFields(config, RequiredFields)
    case Err(e) => Err(Unreadable(e))
    case Ok(missing) => if missing == [] then Ok(()) else Err(Missing(missing))
  }

  /** No field is reported missing exactly when every field is truthy. */
  lemma NoneMissingIffAllTruthy(config: Json, fields: seq<(string, string)>)
    requires MissingFields(config, fields).Ok?
    ensures MissingFields(config, fields).value == [] <==>
      forall i :: 0 <= i < |fields| ==> FieldValue(config, fields[i]).value.Truthy()
  {
    var missing := MissingFields(config, fields).value;
    if missing != [] {
      assert missing[0] in missing;
    }
  }

  /** The configuration is accepted exactly when every required field is
      present and truthy. */
  lemma ValidateConfigAcceptsIffComplete(config: Json)
    requires MissingFields(config, RequiredFields).Ok?
    ensures ValidateConfig(config).Ok? <==>
      forall i :: 0 <= i < |RequiredFields| ==> FieldValue(config, RequiredFields[i]).value.Truthy()
  {
    NoneMissingIffAllTruthy(config, RequiredFields);
  }

  /** Two configurations that differ only outside the sections of `fields`. */
  predicate AgreeOn(config: Json, other: Json, fields: seq<(string, string)>) {
    && config.JObj? == other.JObj?
    && (config.JObj? ==> forall i :: 0 <= i < |fields| ==>
          (fields[i].0 in config.fields <==> fields[i].0 in other.fields)
          && (fields[i].0 in config.fields ==> config.fields[fields[i].0] == other.fields[fields[i].0]))
  }

  lemma {:induction false} MissingFieldsReadsOnlyTheirSections(config: Json, other: Json, fields: seq<(string, string)>)
    requires AgreeOn(config, other, fields)
    ensures MissingFields(config, fields) == MissingFields(other, fields)
  {
    if fields != [] {
      assert AgreeOn(config, other, fields[1..]) by {
        forall i | 0 <= i < |fields[1..]|
          ensures fields[1..][i] == fields[i + 1]
        {
        }
      }
      MissingFieldsReadsOnlyTheirSections(config, other, fields[1..]);
    }
  }

  /** Two configurations with the same sections, holding the same values,
      except perhaps the `mailman` section. */
  ghost predicate SameOutsideMailman(config: Json, other: Json) {
    && config.JObj? && other.JObj?
    && (forall k :: k != "mailman" ==> (k in config.fields <==> k in other.fields))
    && (forall k :: k != "mailman" && k in config.fields ==> config.fields[k] == other.fields[k])
  }

  /** The Mailman section is never required: whatever it holds, the verdict
      is the same. */
  lemma ValidateConfigIgnoresMailman(config: Json, other: Json)
    requires SameOutsideMailman(config, other)
    ensures ValidateConfig(config) == ValidateConfig(other)
  {
    RequiredSectionsAgree(config, other);
    MissingFieldsReadsOnlyTheirSections(config, other, RequiredFields);
  }

  /** No required field lives in the Mailman section. */
  lemma RequiredSectionsAgree(config: Json, other: Json)
    requires SameOutsideMailman(config, other)
    ensures AgreeOn(config, other, RequiredFields)
  {
    RequiredSections();
    forall i | 0 <= i < |RequiredFields|
      ensures RequiredFields[i].0 != "mailman"
    {
      assert RequiredFields[i].0 in {"ldap", "irods", "portal_db"};
    }
  }

  /** The sections of the required fields. */
  lemma RequiredSections()
    ensures forall i :: 0 <= i < |RequiredFields| ==> RequiredFields[i].0 in {"ldap", "irods", "portal_db"}
  {
  }

  // ---------------------------------------------------------------------
  // Portal database

  const LegacyTables: seq<Table> := [
    DjangoCyverseAuthToken, DjangoAdminLog,
    WardenAtmosphereInternationalRequest, WardenAtmosphereStudentRequest]

  const CoreTables: seq<Table> := [
    AccountPasswordReset, AccountPasswordResetRequest, ApiUserService, ApiFormSubmission,
    ApiWorkshopEnrollmentRequest, ApiAccessRequest]

  function ByUserSteps(tables: seq<Table>): (r: seq<DbStep>)
    ensures |r| == |tables|
    ensures forall i :: 0 <= i < |tables| ==> r[i] == ByUser(tables[i], "user_id")
  {
    seq(|tables|, i requires 0 <= i < |tables| => ByUser(tables[i], "user_id"))
  }

  /** The DELETEs of the database phase, in the order they run. */
  const DeletionSteps: seq<DbStep> :=
    ByUserSteps(LegacyTables)
    + [ ByParent(ApiWorkshopEnrollmentRequestLog, "workshop_enrollment_request_id", ApiWorkshopEnrollmentRequest),
        ByParent(ApiAccessRequestLog, "access_request_id", ApiAccessRequest) ]
    + ByUserSteps(CoreTables)
    + [ ByUser(ApiWorkshopOrganizer, "organizer_id"),
        ByParent(ApiEmailAddressMailingList, "email_address_id", AccountEmailAddress),
        ByUser(AccountEmailAddress, "user_id"),
        ByUser(AccountUser, "id") ]

  function StepCalls(steps: seq<DbStep>): (r: seq<Call>)
    ensures |r| == |steps|
    ensures forall i :: 0 <= i < |steps| ==> r[i] == SqlDelete(steps[i])
  {
    seq(|steps|, i requires 0 <= i < |steps| => SqlDelete(steps[i]))
  }

  /** Every call of the database phase when nothing fails. */
  const DeletionPlan: seq<Call> := StepCalls(DeletionSteps) + [Commit]

  /** The step that deletes each table. */
  function Position(t: Table): nat {
    match t
    case DjangoCyverseAuthToken => 0
    case DjangoAdminLog => 1
    case WardenAtmosphereInternationalRequest => 2
    case WardenAtmosphereStudentRequest => 3
    case ApiWorkshopEnrollmentRequestLog => 4
    case ApiAccessRequestLog => 5
    case AccountPasswordReset => 6
    case AccountPasswordResetRequest => 7
    case ApiUserService => 8
    case ApiFormSubmission => 9
    case ApiWorkshopEnrollmentRequest => 10
    case ApiAccessRequest => 11
    case ApiWorkshopOrganizer => 12
    case ApiEmailAddressMailingList => 13
    case AccountEmailAddress => 14
    case AccountUser => 15
  }

  /** The table deleted at each position: the inverse of `Position`. */
  function TableAt(k: nat): (t: Table)
    requires k < 16
    ensures Position(t) == k
  {
    [ DjangoCyverseAuthToken, DjangoAdminLog,
      WardenAtmosphereInternationalRequest, WardenAtmosphereStudentRequest,
      ApiWorkshopEnrollmentRequestLog, ApiAccessRequestLog,
      AccountPasswordReset, AccountPasswordResetRequest, ApiUserService, ApiFormSubmission,
      ApiWorkshopEnrollmentRequest, ApiAccessRequest,
      ApiWorkshopOrganizer, ApiEmailAddressMailingList, AccountEmailAddress, AccountUser ][k]
  }

  lemma StepTablesHead()
    ensures |DeletionSteps| == 16
    ensures forall k :: 0 <= k < 6 ==> DeletionSteps[k].table == TableAt(k)
  {
    assert forall k :: 0 <= k < 4 ==> DeletionSteps[k] == ByUser(LegacyTables[k], "user_id");
  }

  lemma StepTablesTail()
    ensures |DeletionSteps| == 16
    ensures forall k :: 6 <= k < 16 ==> DeletionSteps[k].table == TableAt(k)
  {
    assert forall k :: 6 <= k < 12 ==> DeletionSteps[k] == ByUser(CoreTables[k - 6], "user_id");
  }

  /** Every table is deleted by exactly one step, the one at its position. */
  lemma PositionIndexes()
    ensures |DeletionSteps| == 16
    ensures forall t :: Position(t) < 16 && DeletionSteps[Position(t)].table == t
    ensures forall k :: 0 <= k < 16 ==> Position(DeletionSteps[k].table) == k
  {
    StepTablesHead();
    StepTablesTail();
    forall t
      ensures Position(t) < 16 && DeletionSteps[Position(t)].table == t
    {
      assert TableAt(Position(t)) == t;
    }
  }

  /** Rows are deleted before the rows they refer to: request logs before
      their requests, list subscriptions before their email addresses, and
      the user's own row after everything else. */
  lemma ReferencesDeletedFirst()
    ensures forall t :: References(t).Some? ==> Position(t) < Position(References(t).value)
    ensures forall t :: t != AccountUser ==> Position(t) < Position(AccountUser)
  {
  }

  /** A step that finds its rows through a parent table goes through the
      table those rows refer to, which is deleted later. */
  lemma SubqueriesReadLaterTables()
    ensures forall k :: 0 <= k < |DeletionSteps| && DeletionSteps[k].ByParent? ==>
      References(DeletionSteps[k].table) == Some(DeletionSteps[k].parent)
      && k < Position(DeletionSteps[k].parent)
  {
    ParentSteps();
  }

  /** Steps 4, 5 and 13 go through a parent table; all others by a column. */
  lemma ParentSteps()
    ensures |DeletionSteps| == 16
    ensures DeletionSteps[4] == ByParent(ApiWorkshopEnrollmentRequestLog, "workshop_enrollment_request_id", ApiWorkshopEnrollmentRequest)
    ensures DeletionSteps[5] == ByParent(ApiAccessRequestLog, "access_request_id", ApiAccessRequest)
    ensures DeletionSteps[13] == ByParent(ApiEmailAddressMailingList, "email_address_id", AccountEmailAddress)
    ensures forall k :: 0 <= k < 16 && k != 4 && k != 5 && k != 13 ==> DeletionSteps[k].ByUser?
  {
    assert forall k :: 0 <= k < 4 ==> DeletionSteps[k] == ByUser(LegacyTables[k], "user_id");
    assert forall k :: 6 <= k < 12 ==> DeletionSteps[k] == ByUser(CoreTables[k - 6], "user_id");
  }

  /** The tables of `held` that the steps from `k` on still delete. */
  function Left(held: set<Table>, k: nat): (r: set<Table>)
    ensures forall t :: t in r <==> t in held && Position(t) >= k
  {
    set t | t in held && Position(t) >= k
  }

  /** The rows of every user after the first `k` steps for user `u`. */
  function Removed(rows: map<int, set<Table>>, u: int, k: nat): map<int, set<Table>> {
    if u in rows then rows[u := Left(rows[u], k)] else rows
  }

  /** The database was rolled back after the first `k` calls of the plan,
      the last of them refused. */
  predicate RolledBackAt(before: seq<Call>, after: seq<Call>, refusing: set<Call>, k: nat) {
    0 < k <= |DeletionPlan| && after == before + DeletionPlan[..k] + [Rollback] && DeletionPlan[k - 1] in refusing
  }

  /** The first `k` calls of the plan for user `u` have run and succeeded. */
  ghost predicate At(db: PortalDb, start: map<int, set<Table>>, u: int, trace: seq<Call>, k: nat)
    reads db, db.wire
  {
    && k <= |DeletionPlan| && db.Valid() && db.rows == start && db.pending == Removed(start, u, k)
    && db.wire.sent == trace + DeletionPlan[..k] && NoneRefused(DeletionPlan[..k], db.wire.refusing)
  }

  /** Some call of the plan was refused and the transaction rolled back. */
  ghost predicate Failed(db: PortalDb, start: map<int, set<Table>>, trace: seq<Call>)
    reads db, db.wire
  {
    && db.Valid() && db.rows == start && db.pending == start
    && exists k :: RolledBackAt(trace, db.wire.sent, db.wire.refusing, k)
  }

  /** Run step `k` of the plan; on failure roll back. No step ever fails
      for a foreign key: whatever refers to its rows is already gone. */
  method RunStep(db: PortalDb, u: int, k: nat, step: DbStep, ghost start: map<int, set<Table>>, ghost trace: seq<Call>)
    returns (r: Result<(), Fault>)
    requires k < |DeletionSteps| && step == DeletionSteps[k]
    requires At(db, start, u, trace, k)
    modifies db, db.wire
    ensures r.Ok? ==> At(db, start, u, trace, k + 1)
    ensures r.Err? ==> r.error == Unreachable && Failed(db, start, trace)
  {
    PlanStep(k, step);
    assert !Referenced(db.Pending(u), step.table) by {
      if u in start {
        NothingRefersToStep(start[u], k, step);
      }
    }
    r := db.Execute(u, step);
    if r.Err? {
      db.Rollback();
      assert RolledBackAt(trace, db.wire.sent, db.wire.refusing, k + 1);
    } else {
      NoneRefusedAppend(DeletionPlan[..k], [SqlDelete(step)], db.wire.refusing);
      if u in start {
        LeftStep(start[u], k, step);
      }
    }
  }

  /** Call `k` of the plan deletes with step `k`. */
  lemma PlanStep(k: nat, step: DbStep)
    requires k < |DeletionSteps| && step == DeletionSteps[k]
    ensures k + 1 < |DeletionPlan| && DeletionPlan[k] == SqlDelete(step)
    ensures DeletionPlan[..k + 1] == DeletionPlan[..k] + [SqlDelete(step)]
  {
    assert DeletionPlan[k] == SqlDelete(step);
  }

  /** Nothing the steps from `k` on still have to delete refers to the rows
      step `k` deletes. */
  lemma NothingRefersToStep(held: set<Table>, k: nat, step: DbStep)
    requires k < |DeletionSteps| && step == DeletionSteps[k]
    ensures !Referenced(Left(held, k), step.table)
  {
    PositionIndexes();
    ReferencesDeletedFirst();
  }

  /** Step `k` takes its own table off the tables left at `k`. */
  lemma LeftStep(held: set<Table>, k: nat, step: DbStep)
    requires k < |DeletionSteps| && step == DeletionSteps[k]
    ensures Left(held, k) - {step.table} == Left(held, k + 1)
  {
    PositionIndexes();
    forall t ensures t in Left(held, k) - {step.table} <==> t in Left(held, k + 1) {
      assert Position(t) == k ==> t == step.table;
    }
  }

  /** The legacy tables, one DELETE each by `user_id`. */
  method DeleteLegacyRows(db: PortalDb, u: int, ghost start: map<int, set<Table>>, ghost trace: seq<Call>)
    returns (r: Result<(), Fault>)
    requires At(db, start, u, trace, 0)
    modifies db, db.wire
    ensures r.Ok? ==> At(db, start, u, trace, |LegacyTables|)
    ensures r.Err? ==> r.error == Unreachable && Failed(db, start, trace)
  {
    for i := 0 to |LegacyTables|
      invariant At(db, start, u, trace, i)
    {
      r := RunStep(db, u, i, ByUser(LegacyTables[i], "user_id"), start, trace);
      if r.Err? {
        return;
      }
    }
    return Ok(());
  }

  /** The logs of the user's enrollment and access requests. */
  method DeleteRequestLogs(db: PortalDb, u: int, ghost start: map<int, set<Table>>, ghost trace: seq<Call>)
    returns (r: Result<(), Fault>)
    requires At(db, start, u, trace, 4)
    modifies db, db.wire
    ensures r.Ok? ==> At(db, start, u, trace, 6)
    ensures r.Err? ==> r.error == Unreachable && Failed(db, start, trace)
  {
    r := RunTwoSteps(db, u, 4, start, trace);
  }

  /** The core tables, one DELETE each by `user_id`. */
  method DeleteCoreRows(db: PortalDb, u: int, ghost start: map<int, set<Table>>, ghost trace: seq<Call>)
    returns (r: Result<(), Fault>)
    requires At(db, start, u, trace, 6)
    modifies db, db.wire
    ensures r.Ok? ==> At(db, start, u, trace, 6 + |CoreTables|)
    ensures r.Err? ==> r.error == Unreachable && Failed(db, start, trace)
  {
    for i := 0 to |CoreTables|
      invariant At(db, start, u, trace, 6 + i)
    {
      r := RunStep(db, u, 6 + i, ByUser(CoreTables[i], "user_id"), start, trace);
      if r.Err? {
        return;
      }
    }
    return Ok(());
  }

  /** Workshop organizers, list subscriptions, email addresses and finally
      the user's own row. */
  method DeleteAccountRows(db: PortalDb, u: int, ghost start: map<int, set<Table>>, ghost trace: seq<Call>)
    returns (r: Result<(), Fault>)
    requires At(db, start, u, trace, 12)
    modifies db, db.wire
    ensures r.Ok? ==> At(db, start, u, trace, 16)
    ensures r.Err? ==> r.error == Unreachable && Failed(db, start, trace)
  {
    r := RunTwoSteps(db, u, 12, start, trace);
    if r.Err? {
      return;
    }
    r := RunTwoSteps(db, u, 14, start, trace);
  }

  /** Steps `k` and `k + 1` of the plan, stopping at the first failure. */
  method RunTwoSteps(db: PortalDb, u: int, k: nat, ghost start: map<int, set<Table>>, ghost trace: seq<Call>)
    returns (r: Result<(), Fault>)
    requires k + 2 <= |DeletionSteps|
    requires At(db, start, u, trace, k)
    modifies db, db.wire
    ensures r.Ok? ==> At(db, start, u, trace, k + 2)
    ensures r.Err? ==> r.error == Unreachable && Failed(db, start, trace)
  {
    r := RunStep(db, u, k, DeletionSteps[k], start, trace);
    if r.Err? {
      return;
    }
    r := RunStep(db, u, k + 1, DeletionSteps[k + 1], start, trace);
  }

  /** `delete_user_from_portal_database`: every DELETE in one transaction,
      then commit; on any failure roll back and raise. A dry run issues no
      statement at all. */
  method DeleteFromPortalDatabase(db: PortalDb, userId: int, dryRun: bool) returns (r: Result<(), Fault>)
    requires db.Valid() && db.pending == db.rows
    modifies db, db.wire
    ensures db.Valid() && db.pending == db.rows
    ensures dryRun ==> r.Ok? && db.wire.sent == old(db.wire.sent) && db.rows == old(db.rows)
    ensures !dryRun && r.Ok? ==>
      && db.wire.sent == old(db.wire.sent) + DeletionPlan
      && db.rows == if userId in old(db.rows) then old(db.rows)[userId := {}] else old(db.rows)
    ensures !dryRun && r.Err? ==>
      && r.error == Unreachable && db.rows == old(db.rows)
      && exists k :: RolledBackAt(old(db.wire.sent), db.wire.sent, db.wire.refusing, k)
    ensures !dryRun ==> (r.Ok? <==> NoneRefused(DeletionPlan, db.wire.refusing))
  {
    if dryRun {
      return Ok(());
    }
    ghost var start, trace := db.rows, db.wire.sent;
    assert Removed(start, userId, 0) == start by {
      if userId in start {
        assert Left(start[userId], 0) == start[userId];
      }
    }
    r := DeleteLegacyRows(db, userId, start, trace);
    if r.Err? {
      return;
    }
    r := DeleteRequestLogs(db, userId, start, trace);
    if r.Err? {
      return;
    }
    r := DeleteCoreRows(db, userId, start, trace);
    if r.Err? {
      return;
    }
    r := DeleteAccountRows(db, userId, start, trace);
    if r.Err? {
      return;
    }
    r := CommitDeletions(db, userId, start, trace);
  }

  /** The end of the transaction: commit the sixteen DELETEs, or roll them
      back when the commit fails. */
  method CommitDeletions(db: PortalDb, u: int, ghost start: map<int, set<Table>>, ghost trace: seq<Call>)
    returns (r: Result<(), Fault>)
    requires At(db, start, u, trace, 16)
    modifies db, db.wire
    ensures db.Valid() && db.pending == db.rows
    ensures r.Ok? ==> db.wire.sent == trace + DeletionPlan && db.rows == if u in start then start[u := {}] else start
    ensures r.Ok? ==> NoneRefused(DeletionPlan, db.wire.refusing)
    ensures r.Err? ==> r.error == Unreachable && Failed(db, start, trace)
  {
    assert DeletionPlan[..16] + [Commit] == DeletionPlan;
    r := db.Commit();
    if r.Err? {
      db.Rollback();
      assert RolledBackAt(trace, db.wire.sent, db.wire.refusing, 17);
      return;
    }
    NoneRefusedAppend(DeletionPlan[..16], [Commit], db.wire.refusing);
    assert db.rows == if u in start then start[u := {}] else start by {
      if u in start {
        assert Left(start[u], 16) == {};
      }
    }
  }

  // ---------------------------------------------------------------------
  // Mailing lists

  /** A list entry the script acts on: present, with a non-empty name. */
  predicate Named(entry: Option<ListRef>) {
    entry.Some? && entry.value.listName.Some? && entry.value.listName.value != ""
  }

  /** An email entry the script looks into: present, with some list. */
  predicate HasLists(entry: Option<EmailRecord>) {
    entry.Some? && entry.value.mailingLists.Some? && entry.value.mailingLists.value != []
  }

  /** The removals for one address: one per named list, in order. */
  function ListRemovals(email: string, lists: seq<Option<ListRef>>): seq<Call> {
    if lists == [] then []
    else
      var rest := ListRemovals(email, lists[..|lists| - 1]);
      var entry := lists[|lists| - 1];
      if Named(entry) then rest + [Unsubscribe(entry.value.listName.value, email)] else rest
  }

  /** An address is removed from exactly its named lists. */
  lemma {:induction false} ListRemovalsExactly(email: string, lists: seq<Option<ListRef>>)
    ensures forall c :: c in ListRemovals(email, lists) <==>
      exists j :: 0 <= j < |lists| && Named(lists[j]) && c == Unsubscribe(lists[j].value.listName.value, email)
  {
    if lists != [] {
      var init := lists[..|lists| - 1];
      ListRemovalsExactly(email, init);
      assert forall j :: 0 <= j < |init| ==> init[j] == lists[j];
    }
  }

  function EmailRemovals(entry: Option<EmailRecord>): seq<Call> {
    if HasLists(entry) then ListRemovals(entry.value.email, entry.value.mailingLists.value) else []
  }

  /** The removals for every address, in order. */
  function Removals(emails: seq<Option<EmailRecord>>): seq<Call> {
    if emails == [] then []
    else Removals(emails[..|emails| - 1]) + EmailRemovals(emails[|emails| - 1])
  }

  /** The removals of all addresses are those of each address. */
  lemma {:induction false} RemovalsExactly(emails: seq<Option<EmailRecord>>)
    ensures forall c :: c in Removals(emails) <==> exists i :: 0 <= i < |emails| && c in EmailRemovals(emails[i])
  {
    if emails != [] {
      var init := emails[..|emails| - 1];
      RemovalsExactly(init);
      assert forall i :: 0 <= i < |init| ==> init[i] == emails[i];
    }
  }

  /** The subscribers of every list after one call, as the list server applies it. */
  function Apply(lists: map<string, set<string>>, c: Call, refusing: set<Call>): map<string, set<string>> {
    if c.Unsubscribe? && c !in refusing && c.list in lists then lists[c.list := lists[c.list] - {c.email}] else lists
  }

  /** The subscribers of every list after the calls `calls`. */
  function After(lists: map<string, set<string>>, calls: seq<Call>, refusing: set<Call>): (r: map<string, set<string>>)
    ensures r.Keys == lists.Keys
  {
    if calls == [] then lists
    else Apply(After(lists, calls[..|calls| - 1], refusing), calls[|calls| - 1], refusing)
  }

  /** Unsubscribing only ever removes: no list appears or gains a member. */
  lemma {:induction false} AfterOnlyRemoves(lists: map<string, set<string>>, calls: seq<Call>, refusing: set<Call>)
    ensures After(lists, calls, refusing).Keys == lists.Keys
    ensures forall l :: l in lists ==> After(lists, calls, refusing)[l] <= lists[l]
  {
    if calls != [] {
      AfterOnlyRemoves(lists, calls[..|calls| - 1], refusing);
    }
  }

  /** When the server accepts every removal, each address is off each list
      it was removed from. */
  lemma {:induction false} AfterRemovesAll(lists: map<string, set<string>>, calls: seq<Call>, refusing: set<Call>)
    requires forall c :: c in calls ==> c !in refusing
    ensures forall c :: c in calls && c.Unsubscribe? && c.list in lists ==> c.email !in After(lists, calls, refusing)[c.list]
  {
    if calls != [] {
      var init := calls[..|calls| - 1];
      assert forall c :: c in init ==> c in calls;
      AfterRemovesAll(lists, init, refusing);
      AfterOnlyRemoves(lists, init, refusing);
      forall c | c in calls && c.Unsubscribe? && c.list in lists
        ensures c.email !in After(lists, calls, refusing)[c.list]
      {
        if c != calls[|calls| - 1] {
          assert c in init by {
            var i :| 0 <= i < |calls| && calls[i] == c;
            assert init[i] == c;
          }
        }
      }
    }
  }

  lemma AfterAppend(lists: map<string, set<string>>, calls: seq<Call>, c: Call, refusing: set<Call>)
    ensures After(lists, calls + [c], refusing) == Apply(After(lists, calls, refusing), c, refusing)
  {
    assert (calls + [c])[..|calls|] == calls;
  }

  lemma {:induction false} AfterConcat(lists: map<string, set<string>>, a: seq<Call>, b: seq<Call>, refusing: set<Call>)
    ensures After(lists, a + b, refusing) == After(After(lists, a, refusing), b, refusing)
  {
    if b == [] {
      assert a + b == a;
    } else {
      var init := b[..|b| - 1];
      assert (a + b)[..|a + b| - 1] == a + init;
      AfterConcat(lists, a, init, refusing);
    }
  }

  /** The removals of a dry run or of a run without addresses: none. */
  function IssuedRemovals(emails: Option<seq<Option<EmailRecord>>>, dryRun: bool): seq<Call> {
    if dryRun || emails.None? then [] else Removals(emails.value)
  }

  /** One address of `delete_user_from_mailing_lists`: skipped without
      lists, otherwise removed from each named list in turn; a failed
      removal is logged and the loop goes on. */
  method RemoveAddress(api: Mailman.Mailman, entry: Option<EmailRecord>, dryRun: bool)
    modifies api, api.wire
    ensures api.wire.sent == old(api.wire.sent) + if dryRun then [] else EmailRemovals(entry)
    ensures api.lists == After(old(api.lists), if dryRun then [] else EmailRemovals(entry), api.wire.refusing)
  {
    if !HasLists(entry) {
      return;
    }
    var email := entry.value.email;
    var lists := entry.value.mailingLists.value;
    ghost var issued: seq<Call> := [];
    for j := 0 to |lists|
      invariant issued == if dryRun then [] else ListRemovals(email, lists[..j])
      invariant api.wire.sent == old(api.wire.sent) + issued
      invariant api.lists == After(old(api.lists), issued, api.wire.refusing)
    {
      assert lists[..j + 1][..j] == lists[..j];
      var ml := lists[j];
      if !Named(ml) {
        continue;
      }
      var name := ml.value.listName.value;
      if !dryRun {
        AfterAppend(old(api.lists), issued, Unsubscribe(name, email), api.wire.refusing);
        issued := issued + [Unsubscribe(name, email)];
        var _ := api.RemoveMember(name, email);
      }
    }
    assert lists[..|lists|] == lists;
  }

  /** The removals issued for the addresses `entries`. */
  function IssuedFor(entries: seq<Option<EmailRecord>>, dryRun: bool): seq<Call> {
    if dryRun then [] else Removals(entries)
  }

  /** One turn of the address loop: the address `entries[i]`, after the
      addresses `entries[..i]`. */
  method RemoveAddressAt(api: Mailman.Mailman, entries: seq<Option<EmailRecord>>, i: nat, dryRun: bool,
                         ghost lists0: map<string, set<string>>, ghost sent0: seq<Call>)
    requires i < |entries|
    requires api.wire.sent == sent0 + IssuedFor(entries[..i], dryRun)
    requires api.lists == After(lists0, IssuedFor(entries[..i], dryRun), api.wire.refusing)
    modifies api, api.wire
    ensures api.wire.sent == sent0 + IssuedFor(entries[..i + 1], dryRun)
    ensures api.lists == After(lists0, IssuedFor(entries[..i + 1], dryRun), api.wire.refusing)
  {
    assert entries[..i + 1][..i] == entries[..i];
    ghost var issued := IssuedFor(entries[..i], dryRun);
    ghost var added := if dryRun then [] else EmailRemovals(entries[i]);
    assert IssuedFor(entries[..i + 1], dryRun) == issued + added;
    RemoveAddress(api, entries[i], dryRun);
    AfterConcat(lists0, issued, added, api.wire.refusing);
  }

  /** `delete_user_from_mailing_lists`: nothing without addresses; otherwise
      every address in turn, whether or not it is subscribed. */
  method DeleteFromMailingLists(api: Mailman.Mailman, emails: Option<seq<Option<EmailRecord>>>, dryRun: bool)
    modifies api, api.wire
    ensures api.wire.sent == old(api.wire.sent) + IssuedRemovals(emails, dryRun)
    ensures api.lists == After(old(api.lists), IssuedRemovals(emails, dryRun), api.wire.refusing)
  {
    if emails.None? || emails.value == [] {
      return;
    }
    var entries := emails.value;
    for i := 0 to |entries|
      invariant api.wire.sent == old(api.wire.sent) + IssuedFor(entries[..i], dryRun)
      invariant api.lists == After(old(api.lists), IssuedFor(entries[..i], dryRun), api.wire.refusing)
    {
      RemoveAddressAt(api, entries, i, dryRun, old(api.lists), old(api.wire.sent));
    }
    assert entries[..|entries|] == entries;
  }

  // ---------------------------------------------------------------------
  // Data store

  /** The calls of the data store phase after the existence check. */
  function DataStoreDeletions(existed: bool, username: string, dryRun: bool): seq<Call> {
    if existed && !dryRun then [Calls.DeleteHome(username), DeleteDsUser(username)] else []
  }

  /** Every call of the data store phase, for an account that `existed`. */
  function DataStorePlan(existed: bool, username: string, dryRun: bool): seq<Call> {
    [Calls.UserExists(username)] + DataStoreDeletions(existed, username, dryRun)
  }

  /** The data store phase succeeds: no call of it is refused, and the home
      it deletes is there. */
  predicate DataStoreAccepts(existed: bool, homeExists: bool, username: string, dryRun: bool, refusing: set<Call>) {
    NoneRefused(DataStorePlan(existed, username, dryRun), refusing) && (existed && !dryRun ==> homeExists)
  }

  /** The success of the data store phase, call by call. */
  lemma DataStoreAcceptsCalls(existed: bool, homeExists: bool, username: string, dryRun: bool, refusing: set<Call>)
    ensures DataStoreAccepts(existed, homeExists, username, dryRun, refusing) <==>
      && Calls.UserExists(username) !in refusing
      && (existed && !dryRun ==>
            Calls.DeleteHome(username) !in refusing && homeExists && DeleteDsUser(username) !in refusing)
  {
    var plan := DataStorePlan(existed, username, dryRun);
    assert plan[0] == Calls.UserExists(username);
    if existed && !dryRun {
      assert plan[1] == Calls.DeleteHome(username) && plan[2] == DeleteDsUser(username) && |plan| == 3;
    } else {
      assert |plan| == 1;
    }
  }

  /** `delete_user_from_datastore`: if the account exists, delete its home,
      then the account. */
  method DeleteFromDatastore(ds: DataStore, username: string, dryRun: bool) returns (r: Result<(), Fault>)
    modifies ds, ds.wire
    ensures old(ds.wire.sent) <= ds.wire.sent <= old(ds.wire.sent) + DataStorePlan(old(username in ds.users), username, dryRun)
    ensures r.Ok? ==>
      ds.wire.sent == old(ds.wire.sent) + [Calls.UserExists(username)] + DataStoreDeletions(old(username in ds.users), username, dryRun)
    ensures r.Ok? && old(username in ds.users) && !dryRun ==>
      && ds.users == old(ds.users) - {username} && ds.passwords == old(ds.passwords) - {username}
      && ds.acls == old(ds.acls) - {HomePath(ds.zone, username)}
    ensures r.Ok? && (dryRun || old(username !in ds.users)) ==>
      ds.users == old(ds.users) && ds.passwords == old(ds.passwords) && ds.acls == old(ds.acls)
    ensures r.Ok? && !dryRun ==> ds.users == old(ds.users) - {username}
    ensures dryRun ==>
      && ds.users == old(ds.users) && ds.passwords == old(ds.passwords) && ds.acls == old(ds.acls)
      && ReadOnlySince(old(ds.wire.sent), ds.wire.sent)
    ensures r.Ok? <==>
      && Calls.UserExists(username) !in ds.wire.refusing
      && (old(username in ds.users) && !dryRun ==>
            && Calls.DeleteHome(username) !in ds.wire.refusing && HomePath(ds.zone, username) in old(ds.acls)
            && DeleteDsUser(username) !in ds.wire.refusing)
  {
    var found :- ds.UserExists(username);
    ReadOnlySinceOne(old(ds.wire.sent), Calls.UserExists(username));
    if found {
      if !dryRun {
        var _ :- ds.DeleteHome(username);
      }
      if !dryRun {
        var _ :- ds.DeleteUser(username);
      }
    }
    return Ok(());
  }

  // ---------------------------------------------------------------------
  // Directory

  function GroupRemovals(groups: seq<string>, uid: string): (r: seq<Call>)
    ensures |r| == |groups|
    ensures forall i :: 0 <= i < |groups| ==> r[i] == RemoveMember(groups[i], uid)
  {
    seq(|groups|, i requires 0 <= i < |groups| => RemoveMember(groups[i], uid))
  }

  /** The calls of the directory phase after the account search. */
  function DirectoryDeletions(existed: bool, groups: seq<string>, uid: string, dryRun: bool): seq<Call> {
    if !existed then []
    else if dryRun then [SearchUserGroups(uid)]
    else [SearchUserGroups(uid)] + GroupRemovals(groups, uid) + [DeleteEntry(uid)]
  }

  /** Every call of the directory phase, for an account that `existed` in
      the groups `groups`. */
  function DirectoryPlan(existed: bool, groups: seq<string>, uid: string, dryRun: bool): seq<Call> {
    [SearchUser(uid)] + DirectoryDeletions(existed, groups, uid, dryRun)
  }

  lemma GroupRemovalsPrefix(groups: seq<string>, j: nat, uid: string)
    requires j <= |groups|
    ensures GroupRemovals(groups[..j], uid) == GroupRemovals(groups, uid)[..j]
  {
  }

  /** The members of every group after removing `uid` from each group of
      `groups` in turn. */
  function WithoutMember(members: map<string, set<string>>, groups: seq<string>, uid: string): map<string, set<string>> {
    if groups == [] then members
    else
      var m := WithoutMember(members, groups[..|groups| - 1], uid);
      var cn := groups[|groups| - 1];
      if cn in m then m[cn := m[cn] - {uid}] else m
  }

  /** Removing `uid` from the groups `groups` removes it from those and
      changes no other group. */
  lemma {:induction false} WithoutMemberAt(members: map<string, set<string>>, groups: seq<string>, uid: string)
    ensures WithoutMember(members, groups, uid).Keys == members.Keys
    ensures forall cn :: cn in members ==>
      WithoutMember(members, groups, uid)[cn] == if cn in groups then members[cn] - {uid} else members[cn]
  {
    if groups != [] {
      var init := groups[..|groups| - 1];
      WithoutMemberAt(members, init, uid);
      assert forall cn :: cn in groups <==> cn in init || cn == groups[|groups| - 1];
    }
  }

  /** One turn of the group loop: remove `username` from the group
      `names[i]`, having left the groups `names[..i]` already. */
  method LeaveGroup(dir: Directory, username: string, names: seq<string>, i: nat,
                    ghost before: map<string, set<string>>, ghost sent0: seq<Call>)
    returns (r: Result<(), Fault>)
    requires i < |names|
    requires dir.Valid() && dir.members == WithoutMember(before, names[..i], username)
    requires dir.wire.sent == sent0 + GroupRemovals(names[..i], username)
    modifies dir, dir.wire
    ensures dir.Valid() && dir.people == old(dir.people)
    ensures dir.wire.sent == sent0 + GroupRemovals(names[..i + 1], username)
    ensures r.Ok? ==> dir.members == WithoutMember(before, names[..i + 1], username)
    ensures r.Ok? ==> RemoveMember(names[i], username) !in dir.wire.refusing
    ensures (names[i] in before && username in before[names[i]] && names[i] !in names[..i]
      && RemoveMember(names[i], username) !in dir.wire.refusing) ==> r.Ok?
  {
    WithoutMemberAt(before, names[..i], username);
    assert names[..i + 1][..i] == names[..i];
    assert GroupRemovals(names[..i + 1], username) == GroupRemovals(names[..i], username) + [RemoveMember(names[i], username)];
    var cn := names[i];
    assert Formatted(Text(cn)) == cn;
    ghost var m := dir.members;
    r := dir.RemoveUserFromGroup(username, Text(cn));
    if r.Ok? {
      assert dir.members == m[cn := m[cn] - {username}];
    }
  }

  /** The group loop of `delete_user_from_ldap`: remove `username` from
      each group named in `names`, in order, stopping at the first failure. */
  method LeaveGroups(dir: Directory, username: string, names: seq<string>)
    returns (r: Result<(), Fault>)
    requires dir.Valid()
    modifies dir, dir.wire
    ensures dir.Valid() && dir.people == old(dir.people)
    ensures old(dir.wire.sent) <= dir.wire.sent <= old(dir.wire.sent) + GroupRemovals(names, username)
    ensures r.Ok? ==> dir.members == WithoutMember(old(dir.members), names, username)
    ensures r.Ok? ==> dir.wire.sent == old(dir.wire.sent) + GroupRemovals(names, username)
    ensures r.Ok? ==> NoneRefused(GroupRemovals(names, username), dir.wire.refusing)
    ensures ListsMember(old(dir.members), names, username) && NoneRefused(GroupRemovals(names, username), dir.wire.refusing)
      ==> r.Ok?
  {
    for i := 0 to |names|
      invariant dir.Valid() && dir.people == old(dir.people)
      invariant dir.members == WithoutMember(old(dir.members), names[..i], username)
      invariant dir.wire.sent == old(dir.wire.sent) + GroupRemovals(names[..i], username)
      invariant NoneRefused(GroupRemovals(names[..i], username), dir.wire.refusing)
    {
      r := LeaveGroup(dir, username, names, i, old(dir.members), old(dir.wire.sent));
      if r.Err? {
        GroupRemovalsPrefix(names, i + 1, username);
        PrefixAppend(old(dir.wire.sent), GroupRemovals(names, username), i + 1);
        ListedRemovalAccepted(old(dir.members), names, username, dir.wire.refusing, i);
        return;
      }
      assert GroupRemovals(names[..i + 1], username) == GroupRemovals(names[..i], username) + [RemoveMember(names[i], username)];
      NoneRefusedAppend(GroupRemovals(names[..i], username), [RemoveMember(names[i], username)], dir.wire.refusing);
    }
    assert names[..|names|] == names;
    return Ok(());
  }

  /** When every group of `names` lists `uid` once and no removal is
      refused, the removal from `names[i]` finds the account still listed. */
  lemma ListedRemovalAccepted(before: map<string, set<string>>, names: seq<string>, uid: string,
                              refusing: set<Call>, i: nat)
    requires i < |names|
    ensures ListsMember(before, names, uid) && NoneRefused(GroupRemovals(names, uid), refusing) ==>
      names[i] in before && uid in before[names[i]] && names[i] !in names[..i]
      && RemoveMember(names[i], uid) !in refusing
  {
    assert GroupRemovals(names, uid)[i] == RemoveMember(names[i], uid);
    assert names[i] in names;
  }

  lemma PrefixAppend(t: seq<Call>, calls: seq<Call>, j: nat)
    requires j <= |calls|
    ensures t + calls[..j] <= t + calls
  {
    assert (t + calls)[..|t| + j] == t + calls[..j];
  }

  /** `groups` names each group listing `uid` once, and no other group. */
  predicate ListsMember(members: map<string, set<string>>, groups: seq<string>, uid: string) {
    Distinct(groups) && forall cn :: cn in groups ==> cn in members && uid in members[cn]
  }

  /** Every group's members without `uid`. */
  function Unlisted(members: map<string, set<string>>, uid: string): (r: map<string, set<string>>)
    ensures r.Keys == members.Keys
    ensures forall cn :: cn in r ==> uid !in r[cn] && r[cn] + ({uid} * members[cn]) == members[cn]
  {
    map cn | cn in members :: members[cn] - {uid}
  }

  /** Leaving exactly the groups that list `uid` takes it off every group. */
  lemma WithoutMemberEverywhere(members: map<string, set<string>>, groups: seq<string>, uid: string)
    requires forall cn :: cn in groups <==> cn in members && uid in members[cn]
    ensures WithoutMember(members, groups, uid) == Unlisted(members, uid)
  {
    WithoutMemberAt(members, groups, uid);
    forall cn | cn in members
      ensures WithoutMember(members, groups, uid)[cn] == Unlisted(members, uid)[cn]
    {
      if cn !in groups {
        assert uid !in members[cn];
      }
    }
  }

  /** The account branch of `delete_user_from_ldap`: search the groups
      listing the account, leave each one by its decoded name, then delete
      the account. A dry run only searches. */
  method DeleteAccount(dir: Directory, username: string, dryRun: bool) returns (r: Result<(), Fault>)
    requires dir.Valid()
    modifies dir, dir.wire
    ensures dir.Valid()
    ensures old(dir.wire.sent) <= dir.wire.sent
      <= old(dir.wire.sent) + DirectoryDeletions(true, old(dir.GroupsOf(username)), username, dryRun)
    ensures r.Ok? ==> dir.wire.sent == old(dir.wire.sent) + DirectoryDeletions(true, old(dir.GroupsOf(username)), username, dryRun)
    ensures r.Ok? && !dryRun ==>
      dir.people == old(dir.people) - {username} && dir.members == Unlisted(old(dir.members), username)
    ensures dryRun ==>
      dir.people == old(dir.people) && dir.members == old(dir.members) && ReadOnlySince(old(dir.wire.sent), dir.wire.sent)
    ensures r.Ok? && !dryRun ==> old(username in dir.people)
    ensures old(username in dir.people) ==>
      (r.Ok? <==> NoneRefused(DirectoryDeletions(true, old(dir.GroupsOf(username)), username, dryRun), dir.wire.refusing))
  {
    ghost var groups := dir.GroupsOf(username);
    ghost var removals := GroupRemovals(groups, username) + [DeleteEntry(username)];
    AccountPlan(groups, username, dryRun, dir.wire.refusing);
    var found := dir.GetUserGroups(username);
    if found.Err? {
      return Err(found.error);
    }
    var userGroups := found.value;
    ReadOnlySinceOne(old(dir.wire.sent), SearchUserGroups(username));
    dir.GroupEntriesNames(groups);
    var names := DecodedCns(userGroups);
    if dryRun {
      return Ok(());
    }
    r := LeaveAllAndDelete(dir, username, names);
    Calls.AppendPair(old(dir.wire.sent), [SearchUserGroups(username)], removals);
  }

  /** The account branch's plan: the group search, then (unless a dry run)
      the removals and the account delete; it is accepted exactly when the
      search and the rest are. */
  lemma AccountPlan(groups: seq<string>, uid: string, dryRun: bool, refusing: set<Call>)
    ensures DirectoryDeletions(true, groups, uid, dryRun) ==
      [SearchUserGroups(uid)] + if dryRun then [] else GroupRemovals(groups, uid) + [DeleteEntry(uid)]
    ensures NoneRefused(DirectoryDeletions(true, groups, uid, dryRun), refusing) <==>
      SearchUserGroups(uid) !in refusing
      && (!dryRun ==> NoneRefused(GroupRemovals(groups, uid) + [DeleteEntry(uid)], refusing))
  {
    var rest := if dryRun then [] else GroupRemovals(groups, uid) + [DeleteEntry(uid)];
    NoneRefusedAppend([SearchUserGroups(uid)], rest, refusing);
    assert [SearchUserGroups(uid)][0] == SearchUserGroups(uid);
  }

  /** Leave every group in `names`, which are exactly the groups listing
      `username`, then delete the account. */
  method LeaveAllAndDelete(dir: Directory, username: string, names: seq<string>) returns (r: Result<(), Fault>)
    requires dir.Valid()
    requires forall cn :: cn in names <==> cn in dir.members && username in dir.members[cn]
    modifies dir, dir.wire
    ensures dir.Valid()
    ensures old(dir.wire.sent) <= dir.wire.sent <= old(dir.wire.sent) + (GroupRemovals(names, username) + [DeleteEntry(username)])
    ensures r.Ok? ==> dir.wire.sent == old(dir.wire.sent) + GroupRemovals(names, username) + [DeleteEntry(username)]
    ensures r.Ok? ==>
      dir.people == old(dir.people) - {username} && dir.members == Unlisted(old(dir.members), username)
      && old(username in dir.people)
    ensures Distinct(names) && old(username in dir.people) ==>
      (r.Ok? <==> NoneRefused(GroupRemovals(names, username) + [DeleteEntry(username)], dir.wire.refusing))
  {
    ghost var members0 := dir.members;
    NoneRefusedAppend(GroupRemovals(names, username), [DeleteEntry(username)], dir.wire.refusing);
    assert Distinct(names) ==> ListsMember(members0, names, username);
    assert NoneRefused([DeleteEntry(username)], dir.wire.refusing) <==> DeleteEntry(username) !in dir.wire.refusing by {
      assert [DeleteEntry(username)][0] == DeleteEntry(username);
    }
    r := LeaveGroups(dir, username, names);
    if r.Err? {
      return;
    }
    WithoutMemberEverywhere(members0, names, username);
    r := dir.DeleteUser(username);
  }

  /** `delete_user_from_ldap`: if the account exists, remove it from every
      group a search lists it in, then delete it. */
  method DeleteFromLdap(dir: Directory, username: string, dryRun: bool) returns (r: Result<(), Fault>)
    requires dir.Valid()
    modifies dir, dir.wire
    ensures dir.Valid()
    ensures old(dir.wire.sent) <= dir.wire.sent
    ensures r.Ok? ==>
      dir.wire.sent == old(dir.wire.sent) + [SearchUser(username)]
        + DirectoryDeletions(old(username in dir.people), old(dir.GroupsOf(username)), username, dryRun)
    ensures r.Ok? && !dryRun && old(username in dir.people) ==>
      dir.people == old(dir.people) - {username} && dir.members == Unlisted(old(dir.members), username)
    ensures r.Ok? && old(username !in dir.people) ==> dir.people == old(dir.people) && dir.members == old(dir.members)
    ensures r.Ok? && !dryRun ==> dir.people == old(dir.people) - {username}
    ensures dryRun ==>
      dir.people == old(dir.people) && dir.members == old(dir.members) && ReadOnlySince(old(dir.wire.sent), dir.wire.sent)
    ensures dir.wire.sent <= old(dir.wire.sent)
      + DirectoryPlan(old(username in dir.people), old(dir.GroupsOf(username)), username, dryRun)
    ensures r.Ok? <==>
      NoneRefused(DirectoryPlan(old(username in dir.people), old(dir.GroupsOf(username)), username, dryRun), dir.wire.refusing)
  {
    ghost var rest := DirectoryDeletions(old(username in dir.people), dir.GroupsOf(username), username, dryRun);
    NoneRefusedAppend([SearchUser(username)], rest, dir.wire.refusing);
    assert DirectoryPlan(username in dir.people, dir.GroupsOf(username), username, dryRun) == [SearchUser(username)] + rest;
    assert NoneRefused([SearchUser(username)], dir.wire.refusing) <==> SearchUser(username) !in dir.wire.refusing by {
      assert [SearchUser(username)][0] == SearchUser(username);
    }
    var found := dir.GetUser(username);
    if found.Err? {
      return Err(found.error);
    }
    var existing := found.value;
    ReadOnlySinceOne(old(dir.wire.sent), SearchUser(username));
    if existing == [] {
      return Ok(());
    }
    ghost var afterSearch := dir.wire.sent;
    r := DeleteAccount(dir, username, dryRun);
    Calls.AppendPair(old(dir.wire.sent), [SearchUser(username)], rest);
    if dryRun {
      ReadOnlySinceTrans(old(dir.wire.sent), afterSearch, dir.wire.sent);
    }
  }

  // ---------------------------------------------------------------------
  // The whole deletion

  /** `if email_api and user_emails`: the list server is configured and the
      account has at least one address. */
  predicate MailingPhaseRuns(listServer: bool, emails: Option<seq<Option<EmailRecord>>>) {
    listServer && emails.Some? && emails.value != []
  }

  /** Every call of the mailing list phase. */
  function ListPlan(listServer: bool, emails: Option<seq<Option<EmailRecord>>>, dryRun: bool): seq<Call> {
    if MailingPhaseRuns(listServer, emails) then IssuedRemovals(emails, dryRun) else []
  }

  /** Phases 1 and 2 of `delete_user`: the list server (when configured
      and the account has addresses), then the data store. Every call to
      the list server comes before every call to the data store, and only
      the data store phase can fail. */
  method ListsAndDataStore(ds: DataStore, mailman: Mailman.Mailman?, username: string,
                           emails: Option<seq<Option<EmailRecord>>>, dryRun: bool) returns (ok: bool)
    requires mailman != null ==> mailman.wire == ds.wire
    modifies ds, ds.wire, mailman
    ensures old(ds.wire.sent) <= ds.wire.sent
    ensures ok && !dryRun ==> ds.users == old(ds.users) - {username}
    ensures mailman != null && !dryRun ==>
      mailman.lists == After(old(mailman.lists),
        if MailingPhaseRuns(true, emails) then Removals(emails.value) else [], ds.wire.refusing)
    ensures dryRun ==>
      && ReadOnlySince(old(ds.wire.sent), ds.wire.sent)
      && ds.users == old(ds.users) && ds.acls == old(ds.acls) && ds.passwords == old(ds.passwords)
      && (mailman != null ==> mailman.lists == old(mailman.lists))
    ensures old(ds.wire.sent) + ListPlan(mailman != null, emails, dryRun) <= ds.wire.sent
      <= old(ds.wire.sent) + ListPlan(mailman != null, emails, dryRun) + DataStorePlan(old(username in ds.users), username, dryRun)
    ensures ok ==>
      ds.wire.sent == old(ds.wire.sent) + ListPlan(mailman != null, emails, dryRun) + DataStorePlan(old(username in ds.users), username, dryRun)
    ensures ok <==> DataStoreAccepts(old(username in ds.users), HomePath(ds.zone, username) in old(ds.acls),
      username, dryRun, ds.wire.refusing)
    ensures ok && !dryRun ==>
      && ds.acls == (if old(username in ds.users) then old(ds.acls) - {HomePath(ds.zone, username)} else old(ds.acls))
      && ds.passwords == (if old(username in ds.users) then old(ds.passwords) - {username} else old(ds.passwords))
  {
    ghost var existed := username in ds.users;
    DataStoreAcceptsCalls(existed, HomePath(ds.zone, username) in ds.acls, username, dryRun, ds.wire.refusing);
    if mailman != null && MailingPhaseRuns(true, emails) {
      DeleteFromMailingLists(mailman, emails, dryRun);
    }
    ghost var sent1 := ds.wire.sent;
    assert sent1 == old(ds.wire.sent) + ListPlan(mailman != null, emails, dryRun);
    assert old(ds.wire.sent) <= sent1 && (dryRun ==> sent1 == old(ds.wire.sent));
    var stored := DeleteFromDatastore(ds, username, dryRun);
    Calls.AppendPair(sent1, [Calls.UserExists(username)], DataStoreDeletions(existed, username, dryRun));
    ok := stored.Ok?;
  }

  /** Every call of the portal database phase: none in a dry run. */
  function DatabasePlan(dryRun: bool): seq<Call> {
    if dryRun then [] else DeletionPlan
  }

  /** Phases 3 and 4 of `delete_user`: the directory, then the portal
      database. The directory's group memberships are only cleared for a
      name that has an account entry. Every directory call comes before
      every database call, and the run succeeds exactly when no call of
      either plan is refused. */
  method DirectoryAndDatabase(db: PortalDb, dir: Directory, username: string, userId: int, dryRun: bool)
    returns (ok: bool)
    requires db.Valid() && db.pending == db.rows && dir.Valid() && dir.wire == db.wire
    modifies db, db.wire, dir
    ensures db.Valid() && db.pending == db.rows && dir.Valid()
    ensures old(db.wire.sent) <= db.wire.sent
    ensures ok && !dryRun ==>
      && dir.people == old(dir.people) - {username}
      && dir.members == (if username in old(dir.people) then Unlisted(old(dir.members), username) else old(dir.members))
      && db.rows == (if userId in old(db.rows) then old(db.rows)[userId := {}] else old(db.rows))
    ensures dryRun ==>
      && ReadOnlySince(old(db.wire.sent), db.wire.sent)
      && dir.people == old(dir.people) && dir.members == old(dir.members) && db.rows == old(db.rows)
    ensures var plan := DirectoryPlan(old(username in dir.people), old(dir.GroupsOf(username)), username, dryRun);
      && (ok ==> db.wire.sent == old(db.wire.sent) + plan + DatabasePlan(dryRun))
      && (!ok ==> db.wire.sent <= old(db.wire.sent) + plan
                  || exists k :: RolledBackAt(old(db.wire.sent) + plan, db.wire.sent, db.wire.refusing, k))
    ensures ok <==>
      && NoneRefused(DirectoryPlan(old(username in dir.people), old(dir.GroupsOf(username)), username, dryRun), db.wire.refusing)
      && NoneRefused(DatabasePlan(dryRun), db.wire.refusing)
  {
    ghost var plan := DirectoryPlan(username in dir.people, dir.GroupsOf(username), username, dryRun);
    Calls.AppendPair(db.wire.sent, [SearchUser(username)], plan[1..]);
    assert plan == [SearchUser(username)] + plan[1..];
    var directory := DeleteFromLdap(dir, username, dryRun);
    if directory.Err? {
      return false;
    }
    ghost var sent1 := db.wire.sent;
    assert sent1 == old(db.wire.sent) + plan;
    var database := DeleteFromPortalDatabase(db, userId, dryRun);
    if database.Err? {
      ghost var k :| RolledBackAt(sent1, db.wire.sent, db.wire.refusing, k);
      return false;
    }
    return true;
  }

  /** `delete_user`: look the account up in the portal database, then run
      the four phases in order; the first phase to fail ends the run with
      `false`. An account that is not there, or a lookup that fails, ends
      the run before anything else is called. The run returns `true`
      exactly when the account is found and no call outside the mailing
      list phase is refused (and the home the data store phase deletes is
      there). */
  method DeleteUser(db: PortalDb, dir: Directory, ds: DataStore, mailman: Mailman.Mailman?,
                    username: string, dryRun: bool) returns (ok: bool)
    requires db.Valid() && db.pending == db.rows && dir.Valid()
    requires dir.wire == db.wire && ds.wire == db.wire && (mailman != null ==> mailman.wire == db.wire)
    modifies db, db.wire, dir, ds, mailman
    ensures db.Valid() && db.pending == db.rows && dir.Valid()
    ensures old(db.wire.sent) + [Calls.LookupUser(username)] <= db.wire.sent
    ensures Calls.LookupUser(username) in db.wire.refusing || FindAccount(db.accounts, old(db.rows), username).None? ==>
      && !ok && db.wire.sent == old(db.wire.sent) + [Calls.LookupUser(username)]
      && ds.users == old(ds.users) && dir.people == old(dir.people) && db.rows == old(db.rows)
      && (mailman != null ==> mailman.lists == old(mailman.lists))
    ensures ok ==> FindAccount(db.accounts, old(db.rows), username).Some?
    ensures ok && !dryRun ==>
      && var account := FindAccount(db.accounts, old(db.rows), username).value;
      && ds.users == old(ds.users) - {username}
      && dir.people == old(dir.people) - {username}
      && dir.members == (if username in old(dir.people) then Unlisted(old(dir.members), username) else old(dir.members))
      && db.rows == old(db.rows)[account.id := {}]
      && (mailman != null ==> mailman.lists == After(old(mailman.lists),
            if MailingPhaseRuns(true, account.emails) then Removals(account.emails.value) else [], db.wire.refusing))
    ensures dryRun ==>
      && ReadOnlySince(old(db.wire.sent), db.wire.sent)
      && ds.users == old(ds.users) && ds.acls == old(ds.acls) && ds.passwords == old(ds.passwords)
      && dir.people == old(dir.people) && dir.members == old(dir.members) && db.rows == old(db.rows)
      && (mailman != null ==> mailman.lists == old(mailman.lists))
    ensures ok && !dryRun ==>
      && ds.acls == (if old(username in ds.users) then old(ds.acls) - {HomePath(ds.zone, username)} else old(ds.acls))
      && ds.passwords == (if old(username in ds.users) then old(ds.passwords) - {username} else old(ds.passwords))
    ensures ok <==>
      && Calls.LookupUser(username) !in db.wire.refusing
      && FindAccount(db.accounts, old(db.rows), username).Some?
      && DataStoreAccepts(old(username in ds.users), HomePath(ds.zone, username) in old(ds.acls), username, dryRun, db.wire.refusing)
      && NoneRefused(DirectoryPlan(old(username in dir.people), old(dir.GroupsOf(username)), username, dryRun), db.wire.refusing)
      && NoneRefused(DatabasePlan(dryRun), db.wire.refusing)
    ensures ok ==>
      && var account := FindAccount(db.accounts, old(db.rows), username).value;
      && db.wire.sent == old(db.wire.sent) + [Calls.LookupUser(username)]
        + ListPlan(mailman != null, account.emails, dryRun)
        + DataStorePlan(old(username in ds.users), username, dryRun)
        + DirectoryPlan(old(username in dir.people), old(dir.GroupsOf(username)), username, dryRun)
        + DatabasePlan(dryRun)
  {
    var found := db.LookupUser(username);
    ReadOnlySinceOne(old(db.wire.sent), Calls.LookupUser(username));
    if found.Err? || found.value.None? {
      return false;
    }
    var account := found.value.value;
    ghost var sent1 := db.wire.sent;
    ghost var groups := dir.GroupsOf(username);
    ok := ListsAndDataStore(ds, mailman, username, account.emails, dryRun);
    if !ok {
      return false;
    }
    ghost var sent2 := db.wire.sent;
    assert dir.GroupsOf(username) == groups;
    ok := DirectoryAndDatabase(db, dir, username, account.id, dryRun);
    if dryRun {
      ReadOnlySinceTrans(sent1, sent2, db.wire.sent);
      ReadOnlySinceTrans(old(db.wire.sent), sent1, db.wire.sent);
    }
  }
}
