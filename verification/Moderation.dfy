/** Moderation: transactions over several tables, with a failure possible at every statement. */
module Moderation {
  import opened Base
  import opened Schema

  type Id(==, !new)

  /** The actions and entity types the service knows, and any other text. */
  datatype Action = Warn | Suspend | Delete | Dismiss | OtherAction(name: string)
  datatype EntityType = OfUser | OfCasting | OfProfile | OtherEntity(name: string)

  datatype User = User(
    role: string, organization: Option<Id>, status: string, reviewedAt: Option<int>, reviewedBy: Option<Id>,
    notes: Option<string>, rejection: Option<string>, deletedAt: Option<int>)

  datatype Organization = Organization(
    status: string, notes: Option<string>, rejection: Option<string>, verifiedAt: Option<int>, verifiedBy: Option<Id>)

  datatype Employer = Employer(user: Id, isVerified: bool, verifiedAt: Option<int>, updatedAt: int)

  datatype Report = Report(
    user: Id, entityType: EntityType, entity: Id, status: string, notes: string, resolvedBy: Option<Id>,
    resolvedAt: Option<int>)

  /** The tables by primary key; of castings and model profiles only what moderation writes. */
  datatype Tables = Tables(
    users: map<Id, User>, organizations: map<Id, Organization>, employers: map<Id, Employer>,
    castingDeletedAt: map<Id, Option<int>>, modelIsPublic: map<Id, bool>, reports: map<Id, Report>)

  // ---------------------------------------------------------------------------------------------
  // Statements

  /** The ways to set the status of one user: the users endpoint writes nothing else, the older
      status endpoint also the time and perhaps a reason, profile moderation also who and why. */
  datatype Via = Users | Status(reason: Option<string>) | Profiles(admin: Id, note: Option<string>)

  datatype Statement =
    | Judge(id: Id, status: string, via: Via)
    | MarkUserDeleted(id: Id)
    | MarkCastingDeleted(id: Id)
    | HideModel(id: Id)
    | TouchEmployer(id: Id)
    | CloseReport(id: Id, text: string, admin: Id)
    | SetOrganization(id: Id, status: string, notes: Option<string>, rejection: Option<string>, admin: Id)
    | SyncUsers(id: Id, status: string, notes: Option<string>, rejection: Option<string>, admin: Id)
    | SyncEmployers(id: Id, status: string)
    | Certify(id: Id, status: string, text: string, reason: string, admin: Id)

  /** Is there what the statement refers to? */
  predicate Accepts(sc: Schema, s: Statement) {
    match s
    case Judge(_, status, _) => status in sc.statuses
    case MarkUserDeleted(_) => sc.userDeletedAt
    case MarkCastingDeleted(_) => sc.castingDeletedAt
    case CloseReport(_, _, _) => sc.reports
    case SetOrganization(_, status, _, _, _) => status in sc.statuses
    case SyncUsers(_, status, _, _, _) => status in sc.statuses
    case Certify(_, status, _, _, _) => status in sc.statuses
    case _ => true
  }

  /** An employer or agency user of the organization. */
  predicate Staff(u: User, organization: Id) {
    u.organization == Some(organization) && (u.role == "employer" || u.role == "agency")
  }

  predicate StaffId(t: Tables, user: Id, organization: Id) {
    user in t.users && Staff(t.users[user], organization)
  }

  function WhenVerified(status: string, now: int): Option<int> {
    if status == "verified" then Some(now) else None
  }

  function VerifiedBy(status: string, admin: Id): Option<Id> {
    if status == "verified" || status == "rejected" || status == "in_review" then Some(admin) else None
  }

  function Judged(u: User, status: string, via: Via, now: int): User {
    match via
    case Users => u.(status := status)
    case Status(reason) =>
      u.(status := status, reviewedAt := Some(now), rejection := if reason.Some? then reason else u.rejection)
    case Profiles(admin, note) =>
      u.(status := status, reviewedAt := Some(now), reviewedBy := Some(admin), rejection := note)
  }

  function Synced(u: User, status: string, notes: Option<string>, rejection: Option<string>, admin: Id,
                  now: int): User {
    u.(status := status, reviewedAt := Some(now), reviewedBy := Some(admin), notes := notes, rejection := rejection)
  }

  /** Unlike a verification this keeps the time and the verifier of an organization it unverifies. */
  function Certified(o: Organization, status: string, notes: string, reason: string, admin: Id,
                     now: int): Organization {
    Organization(status, Some(notes), Some(reason),
                 if status == "verified" then Some(now) else o.verifiedAt,
                 if status == "verified" then Some(admin) else o.verifiedBy)
  }

  function Flagged(e: Employer, status: string, now: int): Employer {
    e.(isVerified := status == "verified", verifiedAt := WhenVerified(status, now))
  }

  function Closed(r: Report, text: string, admin: Id, now: int): Report {
    r.(status := "resolved", notes := text, resolvedBy := Some(admin), resolvedAt := Some(now))
  }

  /** One statement; a WHERE that matches nothing changes nothing. */
  function Apply(t: Tables, s: Statement, now: int): Tables {
    match s
    case Judge(id, status, via) =>
      if id in t.users then t.(users := t.users[id := Judged(t.users[id], status, via, now)]) else t
    case MarkUserDeleted(id) =>
      if id in t.users then t.(users := t.users[id := t.users[id].(deletedAt := Some(now))]) else t
    case MarkCastingDeleted(id) =>
      if id in t.castingDeletedAt then t.(castingDeletedAt := t.castingDeletedAt[id := Some(now)]) else t
    case HideModel(id) =>
      if id in t.modelIsPublic then t.(modelIsPublic := t.modelIsPublic[id := false]) else t
    case TouchEmployer(id) =>
      if id in t.employers then t.(employers := t.employers[id := t.employers[id].(updatedAt := now)]) else t
    case CloseReport(id, text, admin) =>
      if id in t.reports then t.(reports := t.reports[id := Closed(t.reports[id], text, admin, now)]) else t
    case SetOrganization(id, status, notes, rejection, admin) =>
      if id in t.organizations then
        var o := Organization(status, notes, rejection, WhenVerified(status, now), VerifiedBy(status, admin));
        t.(organizations := t.organizations[id := o])
      else t
    case SyncUsers(org, status, notes, rejection, admin) =>
      t.(users := map id | id in t.users ::
           if Staff(t.users[id], org) then Synced(t.users[id], status, notes, rejection, admin, now) else t.users[id])
    case SyncEmployers(org, status) =>
      t.(employers := map id | id in t.employers ::
           if StaffId(t, t.employers[id].user, org) then Flagged(t.employers[id], status, now) else t.employers[id])
    case Certify(id, status, notes, reason, admin) =>
      if id in t.organizations
      then t.(organizations := t.organizations[id := Certified(t.organizations[id], status, notes, reason, admin, now)])
      else t
  }

  /** The first `n` statements of a plan. */
  function ApplyFirst(t: Tables, plan: seq<Statement>, n: nat, now: int): Tables
    requires n <= |plan|
  {
    if n == 0 then t else Apply(ApplyFirst(t, plan, n - 1, now), plan[n - 1], now)
  }

  // ---------------------------------------------------------------------------------------------
  // The server

  /** A commit may be refused, or take effect although its confirmation is lost. */
  datatype CommitOutcome = Committed | Refused | ReplyLost

  datatype Faults = Faults(read: bool, readUser: bool, begin: bool, statements: set<nat>, rowsUnknown: bool,
                           commit: CommitOutcome)

  /** One connection: the committed tables and, inside a transaction, its own version of them.  After
      a failed statement the transaction can only be rolled back. */
  class Database {
    const schema: Schema
    var committed: Tables
    var working: Option<Tables>
    var aborted: bool

    constructor (sc: Schema, t: Tables)
      ensures schema == sc && committed == t && working == None
    {
      schema := sc;
      committed := t;
      working := None;
      aborted := false;
    }

    method Begin(fails: bool) returns (ok: bool)
      modifies this
      ensures committed == old(committed) && ok == !fails && !aborted
      ensures working == if ok then Some(committed) else old(working)
    {
      aborted := false;
      if !fails { working := Some(committed); }
      return !fails;
    }

    method Exec(s: Statement, now: int, fails: bool) returns (ok: bool)
      requires working.Some?
      modifies this
      ensures committed == old(committed) && ok == (!old(aborted) && !fails && Accepts(schema, s)) && aborted == !ok
      ensures working == if ok then Some(Apply(old(working).value, s, now)) else old(working)
    {
      if aborted || fails || !Accepts(schema, s) {
        aborted := true;
        return false;
      }
      working := Some(Apply(working.value, s, now));
      return true;
    }

    method Commit(outcome: CommitOutcome) returns (ok: bool)
      requires working.Some?
      modifies this
      ensures working == None && ok == (!old(aborted) && outcome == Committed)
      ensures committed == if old(aborted) || outcome == Refused then old(committed) else old(working).value
    {
      ok := !aborted && outcome == Committed;
      if !aborted && outcome != Refused { committed := working.value; }
      working := None;
    }

    /** Harmless once the transaction is over. */
    method Rollback()
      modifies this
      ensures working == None && committed == old(committed)
    {
      working := None;
    }

    method SoftDeleteEntity(entityType: EntityType, entity: Id, now: int, f: Faults)
      returns (supported: bool, n: nat, ok: bool)
      requires working == Some(committed) && !aborted
      modifies this
      ensures committed == old(committed) && working.Some?
      ensures var plan := DeletePlan(committed, entityType, entity, f.rowsUnknown);
        && supported == plan.Some?
        && (plan.Some? ==> ok == AllSucceed(schema, plan.value, f))
        && (plan.Some? && ok ==>
              !aborted && n == |plan.value| && working == Some(ApplyFirst(committed, plan.value, n, now)))
    {
      n := 1;
      match entityType {
        case OfUser =>
          ok := Exec(MarkUserDeleted(entity), now, 0 in f.statements);
        case OfCasting =>
          ok := Exec(MarkCastingDeleted(entity), now, 0 in f.statements);
        case OfProfile =>
          var rows := if entity in committed.modelIsPublic then 1 else 0;
          ok := Exec(HideModel(entity), now, 0 in f.statements);
          if ok && !f.rowsUnknown && rows == 0 {
            assert working.value == ApplyFirst(committed, [HideModel(entity), TouchEmployer(entity)], 1, now);
            ok := Exec(TouchEmployer(entity), now, 1 in f.statements);
            n := 2;
          }
        case _ =>
          return false, 0, false;
      }
      supported := true;
    }

    method Act(report: Report, action: Action, now: int, f: Faults) returns (refused: Option<Reply>, n: nat, ok: bool)
      requires working == Some(committed) && !aborted
      modifies this
      ensures committed == old(committed) && working.Some?
      ensures var plan := ActionPlan(committed, report, action, f.rowsUnknown);
        && refused == (if plan.Some? then None else Some(if action == Delete then UnsupportedEntity else InvalidAction))
        && (plan.Some? ==> ok == AllSucceed(schema, plan.value, f))
        && (plan.Some? && ok ==>
              !aborted && n == |plan.value| && working == Some(ApplyFirst(committed, plan.value, n, now)))
    {
      refused, n, ok := None, 0, true;
      match action {
        case Warn =>
        case Dismiss =>
        case Suspend =>
          ok := Exec(Judge(report.user, "suspended", Status(None)), now, 0 in f.statements);
          n := 1;
        case Delete =>
          var supported;
          supported, n, ok := SoftDeleteEntity(report.entityType, report.entity, now, f);
          if !supported { refused := Some(UnsupportedEntity); }
        case _ =>
          refused := Some(InvalidAction);
      }
    }

    /** Either every table is as before, or the report is closed together with its action's effect;
        no transaction is left open. */
    method ResolveReport(q: Resolution, now: int, f: Faults) returns (r: Reply)
      requires working == None
      modifies this
      ensures (committed, r) == Resolved(schema, old(committed), q, now, f)
      ensures working == None
    {
      if f.read || !schema.reports || q.report !in committed.reports { return ReportNotFound; }
      var report := committed.reports[q.report];
      if f.readUser || report.user !in committed.users { return UserNotFound; }
      var ok := Begin(f.begin);
      if !ok { return Failed; }
      r := ResolveInTransaction(q, report, now, f);
      Rollback();
    }

    method ResolveInTransaction(q: Resolution, report: Report, now: int, f: Faults) returns (r: Reply)
      requires working == Some(committed) && !aborted && !f.begin
      modifies this
      ensures
        var plan := ActionPlan(old(committed), report, q.action, f.rowsUnknown);
        (committed, r) == Concluded(schema, old(committed), q, plan, now, f)
    {
      ghost var t, plan := committed, ActionPlan(committed, report, q.action, f.rowsUnknown);
      var close := CloseReport(q.report, q.text, q.admin);
      var refused, n, ok := Act(report, q.action, now, f);
      if refused.Some? { return refused.value; }
      ghost var whole := plan.value + [close];
      LongerPlan(t, plan.value, close, |plan.value|, now);
      assert forall i :: 0 <= i < |plan.value| ==> whole[i] == plan.value[i];
      if !ok { return Failed; }
      ok := Exec(close, now, n in f.statements);
      if !ok { return Failed; }
      ok := Commit(f.commit);
      return if ok then Done else Failed;
    }

    method VerifyOrganization(q: Verification, now: int, f: Faults) returns (r: Reply)
      requires working == None
      modifies this
      ensures (committed, r) == Verified(schema, old(committed), q, now, f)
      ensures working == None
    {
      if !ValidStatus(q.status) { return InvalidAction; }
      var ok := Begin(f.begin);
      if !ok { return Failed; }
      r := VerifyInTransaction(q, now, f);
      Rollback();
    }

    method VerifyInTransaction(q: Verification, now: int, f: Faults) returns (r: Reply)
      requires working == Some(committed) && !aborted && !f.begin && ValidStatus(q.status)
      modifies this
      ensures (committed, r) == Verified(schema, old(committed), q, now, f)
    {
      ghost var t, plan := committed, VerifyPlan(q);
      var notes, rejection := Nonempty(q.text), Nonempty(q.reason);
      var ok := Exec(SetOrganization(q.organization, q.status, notes, rejection, q.admin), now, 0 in f.statements);
      if !ok { return Failed; }
      assert working.value == ApplyFirst(t, plan, 1, now);
      ok := Exec(SyncUsers(q.organization, q.status, notes, rejection, q.admin), now, 1 in f.statements);
      if !ok { return Failed; }
      assert working.value == ApplyFirst(t, plan, 2, now);
      ok := Exec(SyncEmployers(q.organization, q.status), now, 2 in f.statements);
      if !ok { return Failed; }
      assert working.value == ApplyFirst(t, plan, 3, now);
      ok := Commit(f.commit);
      return if ok then Done else Failed;
    }

    /** The endpoints that set the status of one user; success does not say whether there was a row. */
    method UpdateUserStatus(id: Id, status: string, via: Via, now: int, fails: bool) returns (ok: bool)
      modifies this`committed
      ensures ok == (!fails && status in schema.statuses)
      ensures committed == Single(schema, old(committed), Judge(id, status, via), now, fails)
    {
      if fails || status !in schema.statuses { return false; }
      if id in committed.users {
        var u := committed.users[id].(status := status);
        match via {
          case Users =>
          case Status(reason) =>
            u := u.(reviewedAt := Some(now));
            if reason.Some? { u := u.(rejection := reason); }
          case Profiles(admin, note) =>
            u := u.(reviewedAt := Some(now), reviewedBy := Some(admin), rejection := note);
        }
        committed := committed.(users := committed.users[id := u]);
      }
      return true;
    }

    method UpdateVerification(id: Id, status: string, text: string, reason: string, admin: Id, now: int, fails: bool)
      returns (ok: bool)
      modifies this`committed
      ensures ok == (!fails && status in schema.statuses)
      ensures committed == Single(schema, old(committed), Certify(id, status, text, reason, admin), now, fails)
    {
      if fails || status !in schema.statuses { return false; }
      if id in committed.organizations {
        var o := committed.organizations[id].(status := status, notes := Some(text), rejection := Some(reason));
        if status == "verified" { o := o.(verifiedAt := Some(now), verifiedBy := Some(admin)); }
        committed := committed.(organizations := committed.organizations[id := o]);
      }
      return true;
    }

    /** A user has one profile at most. */
    method CreateEmployer(id: Id, user: Id, now: int, fails: bool) returns (ok: bool)
      modifies this`committed
      ensures ok == (!fails && Enrollable(old(committed), id, user))
      ensures committed == if ok then Enrolled(old(committed), id, user, now) else old(committed)
    {
      if fails || !Enrollable(committed, id, user) { return false; }
      committed := committed.(employers := committed.employers[id := Employer(user, false, None, now)]);
      return true;
    }
  }

  predicate AllSucceed(sc: Schema, plan: seq<Statement>, f: Faults) {
    forall i :: 0 <= i < |plan| ==> i !in f.statements && Accepts(sc, plan[i])
  }

  /** The plan ran and the server kept it. */
  predicate Kept(sc: Schema, plan: seq<Statement>, f: Faults) {
    !f.begin && AllSucceed(sc, plan, f) && f.commit != Refused
  }

  /** A plan run as one transaction: the committed tables and whether success was reported. */
  function Transaction(sc: Schema, t: Tables, plan: seq<Statement>, now: int, f: Faults): (Tables, bool) {
    if Kept(sc, plan, f) then (ApplyFirst(t, plan, |plan|, now), f.commit == Committed) else (t, false)
  }

  // ---------------------------------------------------------------------------------------------
  // Resolving a report

  datatype Reply = Done | Failed | ReportNotFound | UserNotFound | InvalidAction | UnsupportedEntity

  datatype Resolution = Resolution(report: Id, action: Action, text: string, admin: Id)

  /** The statements that soft-delete an entity. */
  function DeletePlan(t: Tables, entityType: EntityType, entity: Id, rowsUnknown: bool): Option<seq<Statement>> {
    if entityType == OfUser then Some([MarkUserDeleted(entity)])
    else if entityType == OfCasting then Some([MarkCastingDeleted(entity)])
    else if entityType != OfProfile then None
    else if entity in t.modelIsPublic || rowsUnknown then Some([HideModel(entity)])
    else Some([HideModel(entity), TouchEmployer(entity)])
  }

  /** The statements an action runs before the report is closed; None for an action or entity it does
      not know. */
  function ActionPlan(t: Tables, r: Report, action: Action, rowsUnknown: bool): Option<seq<Statement>> {
    if action == Warn || action == Dismiss then Some([])
    else if action == Suspend then Some([Judge(r.user, "suspended", Status(None))])
    else if action == Delete then DeletePlan(t, r.entityType, r.entity, rowsUnknown)
    else None
  }

  function Resolved(sc: Schema, t: Tables, q: Resolution, now: int, f: Faults): (Tables, Reply) {
    if f.read || !sc.reports || q.report !in t.reports then (t, ReportNotFound)
    else if f.readUser || t.reports[q.report].user !in t.users then (t, UserNotFound)
    else if f.begin then (t, Failed)
    else Concluded(sc, t, q, ActionPlan(t, t.reports[q.report], q.action, f.rowsUnknown), now, f)
  }

  function Concluded(sc: Schema, t: Tables, q: Resolution, plan: Option<seq<Statement>>, now: int,
                     f: Faults): (Tables, Reply) {
    if plan.None? then (t, if q.action == Delete then UnsupportedEntity else InvalidAction)
    else
      var end := Transaction(sc, t, plan.value + [CloseReport(q.report, q.text, q.admin)], now, f);
      (end.0, if end.1 then Done else Failed)
  }

  // ---------------------------------------------------------------------------------------------
  // Verifying an organization

  datatype Verification = Verification(organization: Id, status: string, text: string, reason: string, admin: Id)

  function Nonempty(s: string): Option<string> {
    if s == "" then None else Some(s)
  }

  predicate ValidStatus(status: string) {
    status == "pending" || status == "in_review" || status == "verified" || status == "rejected"
  }

  function VerifyPlan(q: Verification): seq<Statement> {
    var notes, rejection := Nonempty(q.text), Nonempty(q.reason);
    [SetOrganization(q.organization, q.status, notes, rejection, q.admin),
     SyncUsers(q.organization, q.status, notes, rejection, q.admin),
     SyncEmployers(q.organization, q.status)]
  }

  function Verified(sc: Schema, t: Tables, q: Verification, now: int, f: Faults): (Tables, Reply) {
    if !ValidStatus(q.status) then (t, InvalidAction)
    else
      var end := Transaction(sc, t, VerifyPlan(q), now, f);
      (end.0, if end.1 then Done else Failed)
  }

  lemma {:induction false} LongerPlan(t: Tables, plan: seq<Statement>, s: Statement, n: nat, now: int)
    requires n <= |plan|
    ensures ApplyFirst(t, plan + [s], n, now) == ApplyFirst(t, plan, n, now)
  {
    if n > 0 { LongerPlan(t, plan, s, n - 1, now); }
  }

  // ---------------------------------------------------------------------------------------------
  // Single statements

  function Single(sc: Schema, t: Tables, s: Statement, now: int, fails: bool): Tables {
    if fails || !Accepts(sc, s) then t else Apply(t, s, now)
  }

  /** The user exists and has no profile yet, and the id is new. */
  predicate Enrollable(t: Tables, id: Id, user: Id) {
    user in t.users && id !in t.employers && forall e :: e in t.employers ==> t.employers[e].user != user
  }

  function Enrolled(t: Tables, id: Id, user: Id, now: int): Tables {
    t.(employers := t.employers[id := Employer(user, false, None, now)])
  }
}
