/** The portal's PostgreSQL database as the deletion script sees it: the
    accounts its lookup query can find, which tables hold rows of each user,
    the foreign keys between those tables, and one transaction at a time. */
module PortalDb {
  import opened Wrappers
  import opened PyText
  import opened Calls

  /** The SQL name of each table. */
  function Name(t: Table): string {
    match t
    case DjangoCyverseAuthToken => "django_cyverse_auth_token"
    case DjangoAdminLog => "django_admin_log"
    case WardenAtmosphereInternationalRequest => "warden_atmosphereinternationalrequest"
    case WardenAtmosphereStudentRequest => "warden_atmospherestudentrequest"
    case ApiWorkshopEnrollmentRequestLog => "api_workshopenrollmentrequestlog"
    case ApiAccessRequestLog => "api_accessrequestlog"
    case AccountPasswordReset => "account_passwordreset"
    case AccountPasswordResetRequest => "account_passwordresetrequest"
    case ApiUserService => "api_userservice"
    case ApiFormSubmission => "api_formsubmission"
    case ApiWorkshopEnrollmentRequest => "api_workshopenrollmentrequest"
    case ApiAccessRequest => "api_accessrequest"
    case ApiWorkshopOrganizer => "api_workshoporganizer"
    case ApiEmailAddressMailingList => "api_emailaddressmailinglist"
    case AccountEmailAddress => "account_emailaddress"
    case AccountUser => "account_user"
  }

  /** The table a table's rows refer to by foreign key: request logs refer to
      their requests, list subscriptions to their email addresses, and every
      other table to the user. */
  function References(t: Table): Option<Table> {
    match t
    case ApiWorkshopEnrollmentRequestLog => Some(ApiWorkshopEnrollmentRequest)
    case ApiAccessRequestLog => Some(ApiAccessRequest)
    case ApiEmailAddressMailingList => Some(AccountEmailAddress)
    case AccountUser => None
    case _ => Some(AccountUser)
  }

  /** Every row of a user refers only to rows of that user that still exist. */
  predicate Consistent(tables: set<Table>) {
    forall t :: t in tables && References(t).Some? ==> References(t).value in tables
  }

  /** Some table in `tables` still refers to rows of `t`. */
  predicate Referenced(tables: set<Table>, t: Table) {
    exists c :: c in tables && References(c) == Some(t)
  }

  /** Removing rows nothing refers to keeps every reference intact. */
  lemma RemoveUnreferenced(tables: set<Table>, t: Table)
    requires Consistent(tables) && !Referenced(tables, t)
    ensures Consistent(tables - {t})
  {
  }

  /** One entry of a user's mailing lists, as the lookup query builds it. */
  datatype ListRef = ListRef(listName: Option<string>, isSubscribed: bool)

  /** One email address of a user and the lists it is on; `None` for no list. */
  datatype EmailRecord = EmailRecord(email: string, mailingLists: Option<seq<Option<ListRef>>>)

  /** One row of the lookup query; `emails` is `None` when the user has none. */
  datatype Account = Account(id: int, username: string, primaryEmail: string, emails: Option<seq<Option<EmailRecord>>>)

  /** The user `id` still has its `account_user` row. */
  predicate Live(rows: map<int, set<Table>>, id: int) {
    id in rows && AccountUser in rows[id]
  }

  /** The account `username` names, ignoring case: the first live match. */
  function FindAccount(accounts: seq<Account>, rows: map<int, set<Table>>, username: string): (r: Option<Account>)
    ensures r.Some? ==> r.value in accounts && Lower(r.value.username) == Lower(username) && Live(rows, r.value.id)
    ensures r.None? <==> forall a :: a in accounts && Lower(a.username) == Lower(username) ==> !Live(rows, a.id)
  {
    if accounts == [] then None
    else if Lower(accounts[0].username) == Lower(username) && Live(rows, accounts[0].id) then Some(accounts[0])
    else FindAccount(accounts[1..], rows, username)
  }

  /** Matching ignores case. */
  lemma FindAccountIgnoresCase(accounts: seq<Account>, rows: map<int, set<Table>>, a: string, b: string)
    requires Lower(a) == Lower(b)
    ensures FindAccount(accounts, rows, a) == FindAccount(accounts, rows, b)
  {
  }

  class PortalDb {
    const wire: Wire
    /** The accounts, in the order the lookup query meets them. */
    const accounts: seq<Account>
    /** For each user id, the tables holding rows of that user, as committed. */
    var rows: map<int, set<Table>>
    /** The same, as the open transaction sees it. */
    var pending: map<int, set<Table>>

    ghost predicate Valid()
      reads this
    {
      && (forall u :: u in rows ==> Consistent(rows[u]))
      && (forall u :: u in pending ==> Consistent(pending[u]))
    }

    constructor (wire: Wire, accounts: seq<Account>, rows: map<int, set<Table>>)
      requires forall u :: u in rows ==> Consistent(rows[u])
      ensures Valid()
      ensures this.wire == wire && this.accounts == accounts && this.rows == rows && pending == rows
    {
      this.wire := wire;
      this.accounts := accounts;
      this.rows := rows;
      pending := rows;
    }

    /** The tables holding rows of user `u` in the open transaction. */
    function Pending(u: int): set<Table>
      reads this
    {
      if u in pending then pending[u] else {}
    }

    /** `get_user_from_database` */
    method LookupUser(username: string) returns (r: Result<Option<Account>, Fault>)
      modifies wire
      ensures wire.sent == old(wire.sent) + [Calls.LookupUser(username)]
      ensures r.Err? <==> Calls.LookupUser(username) in wire.refusing
      ensures r.Err? ==> r.error == Unreachable
      ensures r.Ok? ==> r.value == FindAccount(accounts, rows, username)
    {
      var refused := wire.Send(Calls.LookupUser(username));
      if refused {
        return Err(Unreachable);
      }
      return Ok(FindAccount(accounts, rows, username));
    }

    /** One DELETE of user `u`'s rows of `step.table`, inside the open
        transaction. It fails when rows of another table still refer to them. */
    method Execute(u: int, step: DbStep) returns (r: Result<(), Fault>)
      requires Valid()
      modifies this, wire
      ensures Valid() && rows == old(rows)
      ensures wire.sent == old(wire.sent) + [SqlDelete(step)]
      ensures r.Ok? <==> SqlDelete(step) !in wire.refusing && !Referenced(old(Pending(u)), step.table)
      ensures r.Ok? ==> pending == if u in old(pending) then old(pending)[u := old(pending)[u] - {step.table}] else old(pending)
      ensures r.Err? ==> pending == old(pending)
      ensures r.Err? ==> r.error == if SqlDelete(step) in wire.refusing then Unreachable else ForeignKey
    {
      var refused := wire.Send(SqlDelete(step));
      if refused {
        return Err(Unreachable);
      }
      var held := Pending(u);
      if Referenced(held, step.table) {
        return Err(ForeignKey);
      }
      if u in pending {
        RemoveUnreferenced(held, step.table);
        pending := pending[u := held - {step.table}];
      }
      return Ok(());
    }

    /** Make the open transaction's deletions permanent. */
    method Commit() returns (r: Result<(), Fault>)
      requires Valid()
      modifies this, wire
      ensures Valid()
      ensures wire.sent == old(wire.sent) + [Calls.Commit]
      ensures pending == old(pending)
      ensures r.Ok? <==> Calls.Commit !in wire.refusing
      ensures r.Ok? ==> rows == old(pending)
      ensures r.Err? ==> rows == old(rows) && r.error == Unreachable
    {
      var refused := wire.Send(Calls.Commit);
      if refused {
        return Err(Unreachable);
      }
      rows := pending;
      return Ok(());
    }

    /** Discard the open transaction's deletions. */
    method Rollback()
      requires Valid()
      modifies this, wire
      ensures Valid()
      ensures wire.sent == old(wire.sent) + [Calls.Rollback]
      ensures rows == old(rows) && pending == old(rows)
    {
      var _ := wire.Send(Calls.Rollback);
      pending := rows;
    }
  }
}
