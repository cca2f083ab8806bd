/** The calls the service makes to its backends (the LDAP directory, the
    iRODS data store service, the Mailman list server, the portal's
    PostgreSQL database and the SMTP relay), the faults they can answer with, and the `Wire`
    every backend records its calls on. A scenario fixes in advance which
    calls the transport refuses; everything else the backends decide from
    their own state. */
module Calls {

  /** Why a backend call failed, or why a request was refused before any call. */
  datatype Fault =
    | ValueError        // the service rejected its input before calling a backend
    | Unreachable       // the transport failed (connection refused, timeout, 5xx)
    | AlreadyExists     // LDAP entryAlreadyExists
    | NoSuchObject      // LDAP noSuchObject: the DN names no entry
    | NoSuchAttribute   // LDAP noSuchAttribute: the value to delete is not there
    | ValueExists       // LDAP attributeOrValueExists: the value to add is already there
    | NotFound          // HTTP 404 from the data store or the list server
    | Conflict          // HTTP 409 from the data store
    | ForeignKey        // PostgreSQL foreign_key_violation: rows elsewhere still refer to the rows deleted

  /** The portal database tables that hold a user's rows. */
  datatype Table =
    | DjangoCyverseAuthToken | DjangoAdminLog
    | WardenAtmosphereInternationalRequest | WardenAtmosphereStudentRequest
    | ApiWorkshopEnrollmentRequestLog | ApiAccessRequestLog
    | AccountPasswordReset | AccountPasswordResetRequest | ApiUserService | ApiFormSubmission
    | ApiWorkshopEnrollmentRequest | ApiAccessRequest
    | ApiWorkshopOrganizer | ApiEmailAddressMailingList | AccountEmailAddress | AccountUser

  /** One DELETE of the portal account clean-up. */
  datatype DbStep =
    /** DELETE FROM table WHERE column = <user id> */
    | ByUser(table: Table, column: string)
    /** DELETE FROM table WHERE column IN (SELECT id FROM parent WHERE user_id = <user id>) */
    | ByParent(table: Table, column: string, parent: Table)

  datatype Call =
    // LDAP, by the naming value of the entry's DN
    | SearchUser(uid: string)
    | SearchUserGroups(uid: string)
    | SearchGroups
    | AddEntry(uid: string)
    | SetPassword(uid: string)
    | ReplaceShadowLastChange(uid: string, days: int)
    | ReplaceAttribute(uid: string, attribute: string)
    | AddMember(cn: string, uid: string)
    | RemoveMember(cn: string, uid: string)
    | DeleteEntry(uid: string)
    // data store service
    | HealthCheck
    | UserExists(user: string)
    | CreateDsUser(user: string)
    | SetDsPassword(user: string)
    | UserHome(user: string)
    | Chmod(principal: string, permission: string, path: string)
    | DeleteHome(user: string)
    | DeleteDsUser(user: string)
    // list server
    | Subscribe(list: string, email: string)
    | Unsubscribe(list: string, email: string)
    // portal database
    | LookupUser(username: string)
    | SqlDelete(step: DbStep)
    | Commit
    | Rollback
    // SMTP relay
    | SendMail(to: seq<string>)
  {
    /** Whether the call can change a backend's state. */
    predicate IsMutation() {
      !(SearchUser? || SearchUserGroups? || SearchGroups? || HealthCheck?
        || UserExists? || UserHome? || LookupUser? || Rollback?)
    }
  }

  /** No call in `calls` changes anything. */
  predicate ReadOnly(calls: seq<Call>) {
    forall i :: 0 <= i < |calls| ==> !calls[i].IsMutation()
  }

  lemma ReadOnlyAppend(a: seq<Call>, b: seq<Call>)
    requires ReadOnly(a) && ReadOnly(b)
    ensures ReadOnly(a + b)
  {
    forall i | 0 <= i < |a + b|
      ensures !(a + b)[i].IsMutation()
    {
      if i >= |a| {
        assert (a + b)[i] == b[i - |a|];
      }
    }
  }

  /** Appending two pieces to a trace one after the other appends their concatenation. */
  lemma AppendPair(t: seq<Call>, a: seq<Call>, b: seq<Call>)
    ensures t + a + b == t + (a + b)
  {
  }

  /** Appending three pieces to a trace one after another appends their concatenation. */
  lemma AppendAssoc(t: seq<Call>, a: seq<Call>, b: seq<Call>, c: seq<Call>)
    ensures t + a + b + c == t + (a + b + c)
  {
    assert t + a + b + c == t + (a + b) + c;
  }

  /** Appending `a` and then `b` to `t` only ever extends it. */
  lemma PrefixSteps(t: seq<Call>, a: seq<Call>, b: seq<Call>)
    ensures t <= t + a <= t + a + b && t + a + b == t + (a + b)
  {
    assert (t + a + b)[..|t + a|] == t + a;
  }

  /** A trace that issued part of `a` after `t` issued part of any `p` that
      `a` begins. */
  lemma PrefixOfLonger(t: seq<Call>, a: seq<Call>, p: seq<Call>, x: seq<Call>)
    requires t <= x <= t + a && a <= p
    ensures t <= x <= t + p
  {
    assert (t + p)[..|x|] == (t + a)[..|x|];
  }

  /** A trace that issued all of `a` and part of `b` after `t` lies between
      `t` and `t + a + b`. */
  lemma PrefixOfSecond(t: seq<Call>, a: seq<Call>, b: seq<Call>, x: seq<Call>)
    requires t + a <= x <= t + a + b
    ensures t <= x <= t + a + b
  {
    assert x[..|t|] == (t + a)[..|t|];
  }

  /** Every call issued after the trace `before`, up to `after`, is read-only. */
  predicate ReadOnlySince(before: seq<Call>, after: seq<Call>) {
    before <= after && ReadOnly(after[|before|..])
  }

  lemma ReadOnlySinceOne(a: seq<Call>, c: Call)
    requires !c.IsMutation()
    ensures ReadOnlySince(a, a + [c])
  {
    assert (a + [c])[|a|..] == [c];
  }

  lemma ReadOnlySinceTrans(a: seq<Call>, b: seq<Call>, c: seq<Call>)
    requires ReadOnlySince(a, b) && ReadOnlySince(b, c)
    ensures ReadOnlySince(a, c)
  {
    assert c[|a|..] == b[|a|..] + c[|b|..];
    ReadOnlyAppend(b[|a|..], c[|b|..]);
  }

  /** No call of `calls` is one the transport refuses. */
  predicate NoneRefused(calls: seq<Call>, refusing: set<Call>) {
    forall i :: 0 <= i < |calls| ==> calls[i] !in refusing
  }

  lemma NoneRefusedOne(c: Call, refusing: set<Call>)
    ensures NoneRefused([c], refusing) <==> c !in refusing
  {
    assert [c][0] == c;
  }

  lemma NoneRefusedAppend(a: seq<Call>, b: seq<Call>, refusing: set<Call>)
    ensures NoneRefused(a + b, refusing) <==> NoneRefused(a, refusing) && NoneRefused(b, refusing)
  {
    if NoneRefused(a, refusing) && NoneRefused(b, refusing) {
      forall i | 0 <= i < |a + b|
        ensures (a + b)[i] !in refusing
      {
        if i >= |a| {
          assert (a + b)[i] == b[i - |a|];
        }
      }
    }
    if NoneRefused(a + b, refusing) {
      forall i | 0 <= i < |a|
        ensures a[i] !in refusing
      {
        assert (a + b)[i] == a[i];
      }
      forall i | 0 <= i < |b|
        ensures b[i] !in refusing
      {
        assert (a + b)[|a| + i] == b[i];
      }
    }
  }

  class Wire {
    /** The calls the transport refuses in this scenario. */
    const refusing: set<Call>
    /** Every call issued so far, in order, whether or not it succeeded. */
    var sent: seq<Call>

    constructor (refusing: set<Call>)
      ensures this.refusing == refusing && sent == []
    {
      this.refusing := refusing;
      sent := [];
    }

    /** Issue `c`; `refused` says whether the transport failed it. */
    method Send(c: Call) returns (refused: bool)
      modifies this
      ensures sent == old(sent) + [c]
      ensures refused <==> c in refusing
    {
      sent := sent + [c];
      refused := c in refusing;
    }
  }
}
