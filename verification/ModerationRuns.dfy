/** What moderation achieves: each transaction takes effect as a whole or not at all, under every
    schema, and when an organization, its users and their profiles tell the same story. */
module ModerationRuns {
  import opened Base
  import opened Schema
  import opened Moderation

  // ---------------------------------------------------------------------------------------------
  // Resolving a report is all or nothing

  function PunishedUsers(t: Tables, r: Report, action: Action, now: int): map<Id, User> {
    if action == Suspend && r.user in t.users then
      t.users[r.user := t.users[r.user].(status := "suspended", reviewedAt := Some(now))]
    else if action == Delete && r.entityType == OfUser && r.entity in t.users then
      t.users[r.entity := t.users[r.entity].(deletedAt := Some(now))]
    else t.users
  }

  function PunishedCastings(t: Tables, r: Report, action: Action, now: int): map<Id, Option<int>> {
    if action == Delete && r.entityType == OfCasting && r.entity in t.castingDeletedAt
    then t.castingDeletedAt[r.entity := Some(now)]
    else t.castingDeletedAt
  }

  function PunishedModels(t: Tables, r: Report, action: Action): map<Id, bool> {
    if action == Delete && r.entityType == OfProfile && r.entity in t.modelIsPublic
    then t.modelIsPublic[r.entity := false]
    else t.modelIsPublic
  }

  /** A profile that is no model's is an employer's, if the number of rows says so. */
  function PunishedEmployers(t: Tables, r: Report, action: Action, rowsUnknown: bool, now: int): map<Id, Employer> {
    if action == Delete && r.entityType == OfProfile && r.entity !in t.modelIsPublic && !rowsUnknown
       && r.entity in t.employers
    then t.employers[r.entity := t.employers[r.entity].(updatedAt := now)]
    else t.employers
  }

  /** The effect of an action, in terms of the rows it may touch. */
  function Punished(t: Tables, r: Report, action: Action, rowsUnknown: bool, now: int): Tables {
    t.(users := PunishedUsers(t, r, action, now),
       castingDeletedAt := PunishedCastings(t, r, action, now),
       modelIsPublic := PunishedModels(t, r, action),
       employers := PunishedEmployers(t, r, action, rowsUnknown, now))
  }

  /** The actions the service knows. */
  predicate Known(r: Report, action: Action) {
    || action == Warn || action == Dismiss || action == Suspend
    || (action == Delete && (r.entityType == OfUser || r.entityType == OfCasting || r.entityType == OfProfile))
  }

  /** The actions that ask for nothing the schema lacks. */
  predicate Possible(sc: Schema, r: Report, action: Action) {
    && (action == Suspend ==> "suspended" in sc.statuses)
    && (action == Delete && r.entityType == OfUser ==> sc.userDeletedAt)
    && (action == Delete && r.entityType == OfCasting ==> sc.castingDeletedAt)
  }

  lemma ActionEffect(t: Tables, r: Report, action: Action, rowsUnknown: bool, now: int)
    ensures ActionPlan(t, r, action, rowsUnknown).Some? <==> Known(r, action)
    ensures Known(r, action) ==>
      var plan := ActionPlan(t, r, action, rowsUnknown).value;
      |plan| <= 2 && ApplyFirst(t, plan, |plan|, now) == Punished(t, r, action, rowsUnknown, now)
  {
    if Known(r, action) {
      var plan := ActionPlan(t, r, action, rowsUnknown).value;
      if |plan| > 0 { assert ApplyFirst(t, plan, 1, now) == Apply(t, plan[0], now); }
    }
  }

  lemma ActionIsPossible(sc: Schema, t: Tables, r: Report, action: Action, rowsUnknown: bool)
    requires ActionPlan(t, r, action, rowsUnknown).Some?
    ensures
      var plan := ActionPlan(t, r, action, rowsUnknown).value;
      Possible(sc, r, action) <==> forall i :: 0 <= i < |plan| ==> Accepts(sc, plan[i])
  {
    var plan := ActionPlan(t, r, action, rowsUnknown).value;
    assert |plan| > 0 ==> (Accepts(sc, plan[0]) <==> Possible(sc, r, action));
    assert |plan| == 2 ==> Accepts(sc, plan[1]);
  }

  lemma ClosingLast(t: Tables, plan: seq<Statement>, q: Resolution, now: int, acted: Tables)
    requires acted == ApplyFirst(t, plan, |plan|, now) && q.report in t.reports && acted.reports == t.reports
    ensures
      var close := CloseReport(q.report, q.text, q.admin);
      var closed := Closed(t.reports[q.report], q.text, q.admin, now);
      ApplyFirst(t, plan + [close], |plan| + 1, now) == acted.(reports := t.reports[q.report := closed])
  {
    LongerPlan(t, plan, CloseReport(q.report, q.text, q.admin), |plan|, now);
  }

  lemma AllAccepted(sc: Schema, plan: seq<Statement>, close: Statement, f: Faults)
    requires AllSucceed(sc, plan + [close], f)
    ensures Accepts(sc, close) && forall i :: 0 <= i < |plan| ==> Accepts(sc, plan[i])
  {
    assert (plan + [close])[|plan|] == close;
    assert forall i :: 0 <= i < |plan| ==> (plan + [close])[i] == plan[i];
  }

  function WholePlan(t: Tables, q: Resolution, rowsUnknown: bool): Option<seq<Statement>>
    requires q.report in t.reports
  {
    var plan := ActionPlan(t, t.reports[q.report], q.action, rowsUnknown);
    if plan.None? then None else Some(plan.value + [CloseReport(q.report, q.text, q.admin)])
  }

  /** Everything was found, the action is known, and the server kept the transaction. */
  predicate TakesEffect(sc: Schema, t: Tables, q: Resolution, f: Faults) {
    && !f.read && !f.readUser && q.report in t.reports && t.reports[q.report].user in t.users
    && WholePlan(t, q, f.rowsUnknown).Some? && Kept(sc, WholePlan(t, q, f.rowsUnknown).value, f)
  }

  /** The action, then the closed report. */
  function Effect(t: Tables, q: Resolution, rowsUnknown: bool, now: int): Tables
    requires q.report in t.reports
  {
    var r := t.reports[q.report];
    Punished(t, r, q.action, rowsUnknown, now).(reports := t.reports[q.report := Closed(r, q.text, q.admin, now)])
  }

  lemma WholePlanEffect(t: Tables, q: Resolution, rowsUnknown: bool, now: int)
    requires q.report in t.reports && WholePlan(t, q, rowsUnknown).Some?
    ensures
      var plan := WholePlan(t, q, rowsUnknown).value;
      ApplyFirst(t, plan, |plan|, now) == Effect(t, q, rowsUnknown, now)
  {
    var r := t.reports[q.report];
    ActionEffect(t, r, q.action, rowsUnknown, now);
    var plan := ActionPlan(t, r, q.action, rowsUnknown).value;
    ClosingLast(t, plan, q, now, Punished(t, r, q.action, rowsUnknown, now));
  }

  lemma WholePlanNeeds(sc: Schema, t: Tables, q: Resolution, f: Faults)
    requires TakesEffect(sc, t, q, f)
    ensures Known(t.reports[q.report], q.action) && Possible(sc, t.reports[q.report], q.action) && sc.reports
  {
    var r := t.reports[q.report];
    ActionEffect(t, r, q.action, f.rowsUnknown, 0);
    ActionIsPossible(sc, t, r, q.action, f.rowsUnknown);
    AllAccepted(sc, ActionPlan(t, r, q.action, f.rowsUnknown).value, CloseReport(q.report, q.text, q.admin), f);
  }

  /** Whatever fails, a resolution leaves every table as it was or closes the report together with its
      action's effect and nothing else; success is reported only for the latter. */
  lemma ResolutionIsAllOrNothing(sc: Schema, t: Tables, q: Resolution, now: int, f: Faults)
    ensures
      var (after, reply) := Resolved(sc, t, q, now, f);
      if TakesEffect(sc, t, q, f) then
        && sc.reports && Known(t.reports[q.report], q.action) && Possible(sc, t.reports[q.report], q.action)
        && after == Effect(t, q, f.rowsUnknown, now) && (reply == Done <==> f.commit == Committed)
      else after == t && reply != Done
  {
    if TakesEffect(sc, t, q, f) {
      WholePlanEffect(t, q, f.rowsUnknown, now);
      WholePlanNeeds(sc, t, q, f);
    }
  }

  /** An enumeration without `suspended` rejects every suspension: nothing changes, and success is
      never reported. */
  lemma SuspensionNeedsItsStatus(sc: Schema, t: Tables, q: Resolution, now: int, f: Faults)
    requires q.action == Suspend && "suspended" !in sc.statuses
    ensures Resolved(sc, t, q, now, f).0 == t && Resolved(sc, t, q, now, f).1 != Done
  {
    ResolutionIsAllOrNothing(sc, t, q, now, f);
  }

  /** Under the schema the migrations define, no resolution does anything: there is no such table.
      With the table added, suspending and deleting users or castings still never succeed. */
  lemma ShippedResolutions(t: Tables, q: Resolution, now: int, f: Faults)
    ensures Resolved(SHIPPED, t, q, now, f) == (t, ReportNotFound)
    ensures
      var withReports := SHIPPED.(reports := true);
      TakesEffect(withReports, t, q, f) ==>
        || q.action == Warn || q.action == Dismiss
        || (q.action == Delete && t.reports[q.report].entityType == OfProfile)
  {
    ResolutionIsAllOrNothing(SHIPPED.(reports := true), t, q, now, f);
    assert "suspended" !in SHIPPED.statuses;
  }

  // ---------------------------------------------------------------------------------------------
  // Verifying an organization is all or nothing

  ghost predicate OrganizationSet(t: Tables, after: Tables, q: Verification, now: int) {
    && after == t.(organizations := after.organizations)
    && after.organizations.Keys == t.organizations.Keys
    && forall o :: o in t.organizations ==>
         after.organizations[o] == if o != q.organization then t.organizations[o]
           else Organization(q.status, Nonempty(q.text), Nonempty(q.reason), WhenVerified(q.status, now),
                             VerifiedBy(q.status, q.admin))
  }

  ghost predicate UsersSynced(t: Tables, after: Tables, q: Verification, now: int) {
    && after == t.(users := after.users) && after.users.Keys == t.users.Keys
    && forall u :: u in t.users ==>
         after.users[u] == if Staff(t.users[u], q.organization)
                           then Synced(t.users[u], q.status, Nonempty(q.text), Nonempty(q.reason), q.admin, now)
                           else t.users[u]
  }

  ghost predicate EmployersSynced(t: Tables, after: Tables, q: Verification, now: int) {
    && after == t.(employers := after.employers) && after.employers.Keys == t.employers.Keys
    && forall e :: e in t.employers ==>
         after.employers[e] == if StaffId(t, t.employers[e].user, q.organization)
                               then Flagged(t.employers[e], q.status, now)
                               else t.employers[e]
  }

  /** Row by row what a verification does to the three tables; nothing else changes. */
  ghost predicate VerifiedRows(t: Tables, after: Tables, q: Verification, now: int) {
    && after == t.(organizations := after.organizations, users := after.users, employers := after.employers)
    && OrganizationSet(t, t.(organizations := after.organizations), q, now)
    && UsersSynced(t, t.(users := after.users), q, now)
    && EmployersSynced(t, t.(employers := after.employers), q, now)
  }

  lemma SettingOrganization(t: Tables, q: Verification, now: int)
    ensures OrganizationSet(t, Apply(t, VerifyPlan(q)[0], now), q, now)
  {
  }

  lemma SyncingUsers(t: Tables, q: Verification, now: int)
    ensures UsersSynced(t, Apply(t, VerifyPlan(q)[1], now), q, now)
  {
  }

  lemma SyncingEmployers(t: Tables, q: Verification, now: int)
    ensures EmployersSynced(t, Apply(t, VerifyPlan(q)[2], now), q, now)
  {
  }

  lemma OneAfterTheOther(t: Tables, first: Tables, second: Tables, third: Tables, q: Verification, now: int)
    requires OrganizationSet(t, first, q, now) && UsersSynced(first, second, q, now)
    requires EmployersSynced(second, third, q, now)
    ensures VerifiedRows(t, third, q, now)
  {
    assert third.users == second.users && third.organizations == first.organizations;
    forall u ensures StaffId(second, u, q.organization) <==> StaffId(t, u, q.organization) {}
  }

  lemma VerificationEffect(t: Tables, q: Verification, now: int)
    ensures VerifiedRows(t, ApplyFirst(t, VerifyPlan(q), 3, now), q, now)
  {
    var plan := VerifyPlan(q);
    var first, second := ApplyFirst(t, plan, 1, now), ApplyFirst(t, plan, 2, now);
    SettingOrganization(ApplyFirst(t, plan, 0, now), q, now);
    SyncingUsers(first, q, now);
    SyncingEmployers(second, q, now);
    OneAfterTheOther(t, first, second, ApplyFirst(t, plan, 3, now), q, now);
  }

  predicate VerificationTakesEffect(sc: Schema, q: Verification, f: Faults) {
    ValidStatus(q.status) && Kept(sc, VerifyPlan(q), f)
  }

  /** Whatever fails, a verification leaves every table as it was or does all it should, row by row;
      success is reported only for the latter. */
  lemma VerificationIsAllOrNothing(sc: Schema, t: Tables, q: Verification, now: int, f: Faults)
    ensures
      var (after, reply) := Verified(sc, t, q, now, f);
      if VerificationTakesEffect(sc, q, f)
      then VerifiedRows(t, after, q, now) && (reply == Done <==> f.commit == Committed)
      else after == t && reply != Done
  {
    VerificationEffect(t, q, now);
  }

  /** An organization has a time of verification exactly when it is verified. */
  ghost predicate StampAgrees(t: Tables, org: Id)
    requires org in t.organizations
  {
    t.organizations[org].verifiedAt.Some? <==> t.organizations[org].status == "verified"
  }

  ghost predicate UsersAgree(t: Tables, org: Id, status: string) {
    forall u :: StaffId(t, u, org) ==> t.users[u].status == status
  }

  ghost predicate ProfilesAgree(t: Tables, org: Id, status: string) {
    forall e :: e in t.employers && StaffId(t, t.employers[e].user, org) ==>
      Flags(t, e) == (status == "verified", status == "verified")
  }

  /** The flag of a profile, and whether it has a time of verification. */
  function Flags(t: Tables, e: Id): (bool, bool)
    requires e in t.employers
  {
    (t.employers[e].isVerified, t.employers[e].verifiedAt.Some?)
  }

  /** The organization, its employer and agency users and their profiles tell the same story. */
  ghost predicate Agrees(t: Tables, org: Id)
    requires org in t.organizations
  {
    var status := t.organizations[org].status;
    StampAgrees(t, org) && UsersAgree(t, org, status) && ProfilesAgree(t, org, status)
  }

  /** A verification that takes effect makes the three tables agree on the status it asks for. */
  lemma VerificationMakesThemAgree(sc: Schema, t: Tables, q: Verification, now: int, f: Faults)
    requires q.organization in t.organizations && VerificationTakesEffect(sc, q, f)
    ensures
      var after := Verified(sc, t, q, now, f).0;
      q.organization in after.organizations && Agrees(after, q.organization)
      && after.organizations[q.organization].status == q.status
  {
    VerificationIsAllOrNothing(sc, t, q, now, f);
    var after := Verified(sc, t, q, now, f).0;
    forall u ensures StaffId(after, u, q.organization) <==> StaffId(t, u, q.organization) {}
  }

  // ---------------------------------------------------------------------------------------------
  // What a maintainer would check in the tables

  /** A verification takes effect exactly when its status is one the endpoint takes and the schema has,
      no statement fails, and the server does not refuse the commit. */
  lemma VerificationTakesEffectIff(sc: Schema, q: Verification, f: Faults)
    ensures VerificationTakesEffect(sc, q, f) <==>
      && q.status in {"pending", "in_review", "verified", "rejected"} && q.status in sc.statuses
      && !f.begin && 0 !in f.statements && 1 !in f.statements && 2 !in f.statements && f.commit != Refused
  {
    var plan := VerifyPlan(q);
    assert AllSucceed(sc, plan, f) <==>
      && 0 !in f.statements && 1 !in f.statements && 2 !in f.statements
      && Accepts(sc, plan[0]) && Accepts(sc, plan[1]) && Accepts(sc, plan[2]);
  }

  /** Every employer and every agency user of the organization has the requested status, with reviewer,
      time and texts; every other user is as before. */
  lemma VerificationWritesUsers(sc: Schema, t: Tables, q: Verification, now: int, f: Faults, u: Id)
    requires VerificationTakesEffect(sc, q, f) && u in t.users
    ensures
      var after, was := Verified(sc, t, q, now, f).0, t.users[u];
      && u in after.users
      && if was.organization == Some(q.organization) && was.role in {"employer", "agency"} then
           && after.users[u].status == q.status
           && after.users[u].reviewedAt == Some(now) && after.users[u].reviewedBy == Some(q.admin)
           && after.users[u].notes == (if q.text == "" then None else Some(q.text))
           && after.users[u].rejection == (if q.reason == "" then None else Some(q.reason))
           && after.users[u].role == was.role && after.users[u].organization == was.organization
           && after.users[u].deletedAt == was.deletedAt
         else after.users[u] == was
  {
    VerificationIsAllOrNothing(sc, t, q, now, f);
  }

  /** The profiles of those users are verified, with the time, exactly when the status is `verified`; every
      other profile is as before. */
  lemma VerificationWritesProfiles(sc: Schema, t: Tables, q: Verification, now: int, f: Faults, e: Id)
    requires VerificationTakesEffect(sc, q, f) && e in t.employers
    ensures
      var after, was := Verified(sc, t, q, now, f).0, t.employers[e];
      && e in after.employers
      && if was.user in t.users && t.users[was.user].organization == Some(q.organization)
            && t.users[was.user].role in {"employer", "agency"}
         then
           && after.employers[e].user == was.user && after.employers[e].updatedAt == was.updatedAt
           && (after.employers[e].isVerified <==> q.status == "verified")
           && after.employers[e].verifiedAt == if q.status == "verified" then Some(now) else None
         else after.employers[e] == was
  {
    VerificationIsAllOrNothing(sc, t, q, now, f);
  }

  /** The organization has the status and the texts, the time only when verified, and a verifier unless
      the status is `pending`; every other organization, and every other table, is as before. */
  lemma VerificationWritesOrganization(sc: Schema, t: Tables, q: Verification, now: int, f: Faults, o: Id)
    requires VerificationTakesEffect(sc, q, f) && o in t.organizations
    ensures
      var after := Verified(sc, t, q, now, f).0;
      && o in after.organizations
      && after == t.(organizations := after.organizations, users := after.users, employers := after.employers)
      && if o == q.organization then
           && after.organizations[o].status == q.status
           && after.organizations[o].notes == (if q.text == "" then None else Some(q.text))
           && after.organizations[o].rejection == (if q.reason == "" then None else Some(q.reason))
           && after.organizations[o].verifiedAt == (if q.status == "verified" then Some(now) else None)
           && after.organizations[o].verifiedBy == (if q.status == "pending" then None else Some(q.admin))
         else after.organizations[o] == t.organizations[o]
  {
    VerificationIsAllOrNothing(sc, t, q, now, f);
  }

  /** A resolution takes effect exactly when the table is there, the report and its user are found, the
      schema allows the action, no statement it runs fails, and the server does not refuse the commit. */
  lemma ResolutionTakesEffectIff(sc: Schema, t: Tables, q: Resolution, f: Faults)
    requires q.report in t.reports && t.reports[q.report].user in t.users
    ensures
      var r := t.reports[q.report];
      var two := q.action == Delete && r.entityType == OfProfile && r.entity !in t.modelIsPublic && !f.rowsUnknown;
      var one := q.action == Suspend || q.action == Delete;
      TakesEffect(sc, t, q, f) <==>
        && !f.read && !f.readUser && !f.begin && f.commit != Refused && sc.reports
        && (|| q.action == Warn || q.action == Dismiss || (q.action == Suspend && "suspended" in sc.statuses)
            || (q.action == Delete && r.entityType == OfUser && sc.userDeletedAt)
            || (q.action == Delete && r.entityType == OfCasting && sc.castingDeletedAt)
            || (q.action == Delete && r.entityType == OfProfile))
        && 0 !in f.statements && (one ==> 1 !in f.statements) && (two ==> 2 !in f.statements)
  {
    var r := t.reports[q.report];
    ActionEffect(t, r, q.action, f.rowsUnknown, 0);
    if Known(r, q.action) {
      ActionIsPossible(sc, t, r, q.action, f.rowsUnknown);
      var plan := ActionPlan(t, r, q.action, f.rowsUnknown).value;
      PlanSucceedsIff(sc, plan, CloseReport(q.report, q.text, q.admin), f);
    }
  }

  lemma PlanSucceedsIff(sc: Schema, plan: seq<Statement>, close: Statement, f: Faults)
    requires |plan| <= 2
    ensures AllSucceed(sc, plan + [close], f) <==>
      && Accepts(sc, close) && (forall i :: 0 <= i < |plan| ==> Accepts(sc, plan[i]))
      && 0 !in f.statements && (|plan| >= 1 ==> 1 !in f.statements) && (|plan| == 2 ==> 2 !in f.statements)
  {
    var whole := plan + [close];
    assert whole[|plan|] == close;
    assert forall i :: 0 <= i < |plan| ==> whole[i] == plan[i];
    if AllSucceed(sc, whole, f) { AllAccepted(sc, plan, close, f); }
  }

  /** The condition for each answer; a commit whose confirmation is lost is answered as a failure. */
  lemma ResolutionAnswers(sc: Schema, t: Tables, q: Resolution, now: int, f: Faults)
    ensures
      var r := Resolved(sc, t, q, now, f).1;
      var found := q.report in t.reports && sc.reports && !f.read;
      var known := found && t.reports[q.report].user in t.users && !f.readUser;
      var open := known && !f.begin;
      && (r == ReportNotFound <==> !found)
      && (r == UserNotFound <==> found && !known)
      && (r == InvalidAction <==> open && q.action.OtherAction?)
      && (r == UnsupportedEntity <==> open && q.action == Delete && t.reports[q.report].entityType.OtherEntity?)
      && (r == Done <==> TakesEffect(sc, t, q, f) && f.commit == Committed)
      && (r == Failed <==> known && (f.begin || (Known(t.reports[q.report], q.action) && r != Done)))
  {
    ResolutionIsAllOrNothing(sc, t, q, now, f);
    if q.report in t.reports { ActionEffect(t, t.reports[q.report], q.action, f.rowsUnknown, now); }
  }

  lemma VerificationAnswers(sc: Schema, t: Tables, q: Verification, now: int, f: Faults)
    ensures
      var r := Verified(sc, t, q, now, f).1;
      && (r == InvalidAction <==> q.status !in {"pending", "in_review", "verified", "rejected"})
      && (r == Done <==> VerificationTakesEffect(sc, q, f) && f.commit == Committed)
      && (r == Failed <==> r != InvalidAction && r != Done)
  {
    VerificationIsAllOrNothing(sc, t, q, now, f);
  }

  /** The report is resolved, with the notes, the resolver and the time; every other report is as before. */
  lemma ResolutionWritesReport(sc: Schema, t: Tables, q: Resolution, now: int, f: Faults, r: Id)
    requires TakesEffect(sc, t, q, f) && r in t.reports
    ensures
      var after, was := Resolved(sc, t, q, now, f).0, t.reports[r];
      && r in after.reports
      && if r == q.report then
           && after.reports[r].status == "resolved" && after.reports[r].notes == q.text
           && after.reports[r].resolvedBy == Some(q.admin) && after.reports[r].resolvedAt == Some(now)
           && after.reports[r].user == was.user && after.reports[r].entityType == was.entityType
           && after.reports[r].entity == was.entity
         else after.reports[r] == was
  {
    ResolutionIsAllOrNothing(sc, t, q, now, f);
  }

  /** Suspending gives the reported user the status `suspended` and a review time, deleting a user a time
      of deletion; no other action touches users, and none touches other users. */
  lemma ResolutionWritesUsers(sc: Schema, t: Tables, q: Resolution, now: int, f: Faults, u: Id)
    requires TakesEffect(sc, t, q, f) && u in t.users
    ensures
      var after, r, was := Resolved(sc, t, q, now, f).0, t.reports[q.report], t.users[u];
      && u in after.users
      && after.users[u] == if q.action == Suspend && u == r.user
                           then was.(status := "suspended", reviewedAt := Some(now))
                           else if q.action == Delete && r.entityType == OfUser && u == r.entity
                                then was.(deletedAt := Some(now))
                           else was
  {
    ResolutionIsAllOrNothing(sc, t, q, now, f);
  }

  /** Deleting a casting gives it a time of deletion; deleting a profile hides the model's, or, where no
      row was one, touches the employer's; nothing else of these tables changes. */
  lemma ResolutionWritesEntities(sc: Schema, t: Tables, q: Resolution, now: int, f: Faults, e: Id)
    requires TakesEffect(sc, t, q, f)
    ensures
      var after, r := Resolved(sc, t, q, now, f).0, t.reports[q.report];
      var gone := q.action == Delete && e == r.entity;
      && (e in after.castingDeletedAt <==> e in t.castingDeletedAt)
      && (e in t.castingDeletedAt ==>
            after.castingDeletedAt[e] == if gone && r.entityType == OfCasting then Some(now) else t.castingDeletedAt[e])
      && (e in after.modelIsPublic <==> e in t.modelIsPublic)
      && (e in t.modelIsPublic ==>
            after.modelIsPublic[e] == (t.modelIsPublic[e] && !(gone && r.entityType == OfProfile)))
      && (e in after.employers <==> e in t.employers)
      && (e in t.employers ==>
            after.employers[e] == if gone && r.entityType == OfProfile && e !in t.modelIsPublic && !f.rowsUnknown
                                  then t.employers[e].(updatedAt := now) else t.employers[e])
      && after.organizations == t.organizations
  {
    ResolutionIsAllOrNothing(sc, t, q, now, f);
  }

  // ---------------------------------------------------------------------------------------------
  // Runs of everything that writes a status

  datatype Step =
    | Resolving(resolution: Resolution, now: int, f: Faults)
    | Verifying(verification: Verification, now: int, f: Faults)
    | Judging(user: Id, status: string, via: Via, now: int, fails: bool)
    | Certifying(organization: Id, status: string, text: string, reason: string, admin: Id, now: int, fails: bool)
    | Enrolling(profile: Id, user: Id, now: int, fails: bool)

  function After(sc: Schema, t: Tables, s: Step): Tables {
    match s
    case Resolving(q, now, f) => Resolved(sc, t, q, now, f).0
    case Verifying(q, now, f) => Verified(sc, t, q, now, f).0
    case Judging(user, status, via, now, fails) => Single(sc, t, Judge(user, status, via), now, fails)
    case Certifying(org, status, text, reason, admin, now, fails) =>
      Single(sc, t, Certify(org, status, text, reason, admin), now, fails)
    case Enrolling(profile, user, now, fails) =>
      if !fails && Enrollable(t, profile, user) then Enrolled(t, profile, user, now) else t
  }

  function Run(sc: Schema, t: Tables, h: History<Step>): Tables {
    match h
    case Start => t
    case Then(before, s) => After(sc, Run(sc, t, before), s)
  }

  /** The status a step writes for a user, if it writes one. */
  function StatusWritten(sc: Schema, t: Tables, s: Step, u: Id): Option<string> {
    match s
    case Resolving(q, _, f) =>
      if q.action == Suspend && TakesEffect(sc, t, q, f) && t.reports[q.report].user == u then Some("suspended")
        else None
    case Verifying(q, _, f) =>
      if VerificationTakesEffect(sc, q, f) && StaffId(t, u, q.organization) then Some(q.status) else None
    case Judging(user, status, _, _, fails) =>
      if user == u && !fails && status in sc.statuses then Some(status) else None
    case _ => None
  }

  /** The status a step writes for an organization. */
  function OrganizationWritten(sc: Schema, s: Step, org: Id): Option<string> {
    match s
    case Verifying(q, _, f) => if VerificationTakesEffect(sc, q, f) && q.organization == org then Some(q.status)
      else None
    case Certifying(id, status, _, _, _, _, fails) =>
      if id == org && !fails && status in sc.statuses then Some(status) else None
    case _ => None
  }

  /** Whether a step sets or clears an organization's time of verification; certifying never clears it. */
  function StampWritten(sc: Schema, s: Step, org: Id): Option<bool> {
    match s
    case Verifying(q, _, f) =>
      if VerificationTakesEffect(sc, q, f) && q.organization == org then Some(q.status == "verified") else None
    case Certifying(id, status, _, _, _, _, fails) =>
      if id == org && !fails && status in sc.statuses && status == "verified" then Some(true) else None
    case _ => None
  }

  /** Whether a step sets or clears the flag and the time of an employer profile. */
  function FlagWritten(sc: Schema, t: Tables, s: Step, e: Id): Option<bool> {
    match s
    case Verifying(q, _, f) =>
      if VerificationTakesEffect(sc, q, f) && e in t.employers && StaffId(t, t.employers[e].user, q.organization)
      then Some(q.status == "verified") else None
    case Enrolling(profile, user, _, fails) =>
      if profile == e && !fails && Enrollable(t, profile, user) then Some(false) else None
    case _ => None
  }

  lemma ResolvingOnUser(sc: Schema, t: Tables, s: Step, u: Id)
    requires s.Resolving?
    ensures
      var after := After(sc, t, s);
      && (u in after.users <==> u in t.users)
      && (u in t.users ==>
            && after.users[u].role == t.users[u].role && after.users[u].organization == t.users[u].organization
            && after.users[u].status == OrElse(StatusWritten(sc, t, s, u), t.users[u].status))
  {
    ResolutionIsAllOrNothing(sc, t, s.resolution, s.now, s.f);
  }

  lemma VerifyingOnUser(sc: Schema, t: Tables, s: Step, u: Id)
    requires s.Verifying?
    ensures
      var after := After(sc, t, s);
      && (u in after.users <==> u in t.users)
      && (u in t.users ==>
            && after.users[u].role == t.users[u].role && after.users[u].organization == t.users[u].organization
            && after.users[u].status == OrElse(StatusWritten(sc, t, s, u), t.users[u].status))
  {
    VerificationIsAllOrNothing(sc, t, s.verification, s.now, s.f);
  }

  lemma JudgedRow(u: User, status: string, via: Via, now: int)
    ensures
      var after := Judged(u, status, via, now);
      after.role == u.role && after.organization == u.organization && after.status == status
  {
  }

  lemma JudgingOnUser(sc: Schema, t: Tables, s: Step, u: Id)
    requires s.Judging?
    ensures
      var after := After(sc, t, s);
      && (u in after.users <==> u in t.users)
      && (u in t.users ==>
            && after.users[u].role == t.users[u].role && after.users[u].organization == t.users[u].organization
            && after.users[u].status == OrElse(StatusWritten(sc, t, s, u), t.users[u].status))
  {
    if u in t.users { JudgedRow(t.users[u], s.status, s.via, s.now); }
  }

  lemma OthersLeaveUsers(sc: Schema, t: Tables, s: Step)
    requires s.Certifying? || s.Enrolling?
    ensures After(sc, t, s).users == t.users
  {
  }

  /** A step writes what it is said to write of a user, and never moves one. */
  lemma StepOnUser(sc: Schema, t: Tables, s: Step, u: Id)
    ensures
      var after := After(sc, t, s);
      && (u in after.users <==> u in t.users)
      && (u in t.users ==>
            && after.users[u].role == t.users[u].role && after.users[u].organization == t.users[u].organization
            && after.users[u].status == OrElse(StatusWritten(sc, t, s, u), t.users[u].status))
  {
    if s.Resolving? {
      ResolvingOnUser(sc, t, s, u);
    } else if s.Verifying? {
      VerifyingOnUser(sc, t, s, u);
    } else if s.Judging? {
      JudgingOnUser(sc, t, s, u);
    } else {
      OthersLeaveUsers(sc, t, s);
    }
  }

  lemma ResolvingLeavesOrganizations(sc: Schema, t: Tables, s: Step)
    requires s.Resolving?
    ensures After(sc, t, s).organizations == t.organizations
  {
    ResolutionIsAllOrNothing(sc, t, s.resolution, s.now, s.f);
  }

  /** What the rows of a verification say about one organization. */
  lemma VerifiedOrganization(t: Tables, after: Tables, q: Verification, now: int, org: Id)
    requires VerifiedRows(t, after, q, now) && org in t.organizations
    ensures org in after.organizations
    ensures org != q.organization ==> after.organizations[org] == t.organizations[org]
    ensures org == q.organization ==>
      && after.organizations[org].status == q.status
      && (after.organizations[org].verifiedAt.Some? <==> q.status == "verified")
  {
  }

  lemma VerifyingOnStatus(sc: Schema, t: Tables, s: Step, org: Id)
    requires s.Verifying? && org in t.organizations
    ensures
      var after := After(sc, t, s).organizations;
      org in after && after[org].status == OrElse(OrganizationWritten(sc, s, org), t.organizations[org].status)
  {
    var q := s.verification;
    VerificationIsAllOrNothing(sc, t, q, s.now, s.f);
    if VerificationTakesEffect(sc, q, s.f) { VerifiedOrganization(t, After(sc, t, s), q, s.now, org); }
  }

  lemma VerifyingOnStamp(sc: Schema, t: Tables, s: Step, org: Id)
    requires s.Verifying? && org in t.organizations && org in After(sc, t, s).organizations
    ensures After(sc, t, s).organizations[org].verifiedAt.Some?
         == OrElse(StampWritten(sc, s, org), t.organizations[org].verifiedAt.Some?)
  {
    var q := s.verification;
    VerificationIsAllOrNothing(sc, t, q, s.now, s.f);
    if VerificationTakesEffect(sc, q, s.f) { VerifiedOrganization(t, After(sc, t, s), q, s.now, org); }
  }

  predicate CertificationTakesEffect(sc: Schema, s: Step)
    requires s.Certifying?
  {
    !s.fails && s.status in sc.statuses
  }

  lemma CertifyingRows(sc: Schema, t: Tables, s: Step, org: Id)
    requires s.Certifying? && org in t.organizations
    ensures
      var after := After(sc, t, s);
      && after == t.(organizations := after.organizations)
      && org in after.organizations
      && after.organizations[org] == if org == s.organization && CertificationTakesEffect(sc, s)
                                     then Certified(t.organizations[org], s.status, s.text, s.reason, s.admin, s.now)
                                     else t.organizations[org]
  {
  }

  lemma CertifiedRow(sc: Schema, s: Step, org: Id, was: Organization, now: Organization)
    requires s.Certifying?
    requires now == if org == s.organization && CertificationTakesEffect(sc, s)
                    then Certified(was, s.status, s.text, s.reason, s.admin, s.now) else was
    ensures now.status == OrElse(OrganizationWritten(sc, s, org), was.status)
    ensures now.verifiedAt.Some? == OrElse(StampWritten(sc, s, org), was.verifiedAt.Some?)
  {
  }

  lemma StepOnOrganization(sc: Schema, t: Tables, s: Step, org: Id)
    requires org in t.organizations
    ensures
      var after := After(sc, t, s);
      && org in after.organizations
      && var o, was := after.organizations[org], t.organizations[org];
         && o.status == OrElse(OrganizationWritten(sc, s, org), was.status)
         && o.verifiedAt.Some? == OrElse(StampWritten(sc, s, org), was.verifiedAt.Some?)
  {
    if s.Resolving? {
      ResolvingLeavesOrganizations(sc, t, s);
    } else if s.Verifying? {
      VerifyingOnStatus(sc, t, s, org);
      VerifyingOnStamp(sc, t, s, org);
    } else if s.Certifying? {
      CertifyingRows(sc, t, s, org);
      CertifiedRow(sc, s, org, t.organizations[org], After(sc, t, s).organizations[org]);
    }
  }

  lemma ResolvingOnEmployer(sc: Schema, t: Tables, s: Step, e: Id)
    requires s.Resolving?
    ensures
      var after := After(sc, t, s);
      && after.employers.Keys == t.employers.Keys
      && (e in t.employers ==> after.employers[e].user == t.employers[e].user && Flags(after, e) == Flags(t, e))
  {
    ResolutionIsAllOrNothing(sc, t, s.resolution, s.now, s.f);
  }

  lemma VerifyingOnEmployer(sc: Schema, t: Tables, s: Step, e: Id)
    requires s.Verifying?
    ensures
      var after, written := After(sc, t, s), FlagWritten(sc, t, s, e);
      && after.employers.Keys == t.employers.Keys
      && (e in t.employers ==>
            && after.employers[e].user == t.employers[e].user
            && Flags(after, e) == if written.Some? then (written.value, written.value) else Flags(t, e))
  {
    VerificationIsAllOrNothing(sc, t, s.verification, s.now, s.f);
  }

  /** A step writes what it is said to write of a profile, and new profiles are unverified. */
  lemma StepOnEmployer(sc: Schema, t: Tables, s: Step, e: Id)
    ensures
      var after, written := After(sc, t, s), FlagWritten(sc, t, s, e);
      && (e in t.employers ==>
            && e in after.employers && after.employers[e].user == t.employers[e].user
            && Flags(after, e) == if written.Some? then (written.value, written.value) else Flags(t, e))
      && (e in after.employers && e !in t.employers ==>
            && s.Enrolling? && e == s.profile && after.employers[e].user == s.user
            && written == Some(false) && Flags(after, e) == (false, false))
  {
    if s.Resolving? {
      ResolvingOnEmployer(sc, t, s, e);
    } else if s.Verifying? {
      VerifyingOnEmployer(sc, t, s, e);
    }
  }

  lemma JudgedFields(was: User, status: string, via: Via, now: int)
    ensures
      var u := Judged(was, status, via, now);
      && u.status == status
      && u.reviewedAt == (if via == Users then was.reviewedAt else Some(now))
      && u.reviewedBy == (if via.Profiles? then Some(via.admin) else was.reviewedBy)
      && u.rejection == (if via.Profiles? then via.note
                         else if via.Status? && via.reason.Some? then via.reason else was.rejection)
      && u.role == was.role && u.organization == was.organization
      && u.notes == was.notes && u.deletedAt == was.deletedAt
  {
  }

  /** What the endpoints for one user write: the status always, and only where the schema has it; the time
      except by the users endpoint; the rejection by profile moderation, or where a reason is given; the
      reviewer by profile moderation. */
  lemma JudgingWrites(sc: Schema, t: Tables, s: Step, u: Id)
    requires s.Judging? && u in t.users
    ensures
      var after, was := After(sc, t, s), t.users[u];
      && u in after.users
      && if u == s.user && !s.fails && s.status in sc.statuses then
           && after.users[u].status == s.status
           && after.users[u].reviewedAt == (if s.via == Users then was.reviewedAt else Some(s.now))
           && after.users[u].reviewedBy == (if s.via.Profiles? then Some(s.via.admin) else was.reviewedBy)
           && after.users[u].rejection == (if s.via.Profiles? then s.via.note
                                           else if s.via.Status? && s.via.reason.Some? then s.via.reason
                                           else was.rejection)
           && after.users[u].role == was.role && after.users[u].organization == was.organization
           && after.users[u].notes == was.notes && after.users[u].deletedAt == was.deletedAt
         else after.users[u] == was
  {
    JudgedFields(t.users[u], s.status, s.via, s.now);
  }

  /** What an update of an organization alone writes. */
  lemma CertifyingWrites(sc: Schema, t: Tables, s: Step, o: Id)
    requires s.Certifying? && o in t.organizations
    ensures
      var after, was := After(sc, t, s), t.organizations[o];
      && o in after.organizations
      && if o == s.organization && !s.fails && s.status in sc.statuses then
           && after.organizations[o].status == s.status
           && after.organizations[o].notes == Some(s.text) && after.organizations[o].rejection == Some(s.reason)
           && after.organizations[o].verifiedAt == (if s.status == "verified" then Some(s.now) else was.verifiedAt)
           && after.organizations[o].verifiedBy == (if s.status == "verified" then Some(s.admin) else was.verifiedBy)
         else after.organizations[o] == was
  {
    CertifyingRows(sc, t, s, o);
  }

  /** A new profile is stored, unverified, if and only if its id is new and its user exists and has none. */
  lemma EnrollingWrites(sc: Schema, t: Tables, s: Step, e: Id)
    requires s.Enrolling?
    ensures
      var after := After(sc, t, s);
      var fits := s.user in t.users && s.profile !in t.employers
                  && forall k :: k in t.employers ==> t.employers[k].user != s.user;
      && (e in t.employers ==> e in after.employers && after.employers[e] == t.employers[e])
      && (e in after.employers && e !in t.employers <==> e == s.profile && !s.fails && fits)
      && (e in after.employers && e !in t.employers ==> after.employers[e] == Employer(s.user, false, None, s.now))
  {
  }

  // ---------------------------------------------------------------------------------------------
  // The last writer decides

  /** The status the last step that wrote one for the user wrote, or the initial one. */
  function LastStatus(sc: Schema, t: Tables, h: History<Step>, u: Id): string
    requires u in t.users
  {
    match h
    case Start => t.users[u].status
    case Then(before, s) => OrElse(StatusWritten(sc, Run(sc, t, before), s, u), LastStatus(sc, t, before, u))
  }

  function LastOrganization(sc: Schema, t: Tables, h: History<Step>, org: Id): string
    requires org in t.organizations
  {
    match h
    case Start => t.organizations[org].status
    case Then(before, s) => OrElse(OrganizationWritten(sc, s, org), LastOrganization(sc, t, before, org))
  }

  function LastStamp(sc: Schema, t: Tables, h: History<Step>, org: Id): bool
    requires org in t.organizations
  {
    match h
    case Start => t.organizations[org].verifiedAt.Some?
    case Then(before, s) => OrElse(StampWritten(sc, s, org), LastStamp(sc, t, before, org))
  }

  /** The flag of an employer profile, and whether it has a time of verification. */
  function LastFlag(sc: Schema, t: Tables, h: History<Step>, e: Id): (bool, bool) {
    match h
    case Start => if e in t.employers then Flags(t, e) else (false, false)
    case Then(before, s) =>
      var written := FlagWritten(sc, Run(sc, t, before), s, e);
      if written.Some? then (written.value, written.value) else LastFlag(sc, t, before, e)
  }

  lemma {:induction false} UserHoldsLastStatus(sc: Schema, t: Tables, h: History<Step>, u: Id)
    ensures
      var after := Run(sc, t, h);
      && (u in after.users <==> u in t.users)
      && (u in t.users ==>
            && after.users[u].role == t.users[u].role && after.users[u].organization == t.users[u].organization
            && after.users[u].status == LastStatus(sc, t, h, u))
  {
    if h.Then? {
      UserHoldsLastStatus(sc, t, h.before, u);
      StepOnUser(sc, Run(sc, t, h.before), h.last, u);
    }
  }

  lemma {:induction false} OrganizationHoldsLastStatus(sc: Schema, t: Tables, h: History<Step>, org: Id)
    requires org in t.organizations
    ensures
      var after := Run(sc, t, h);
      && org in after.organizations
      && after.organizations[org].status == LastOrganization(sc, t, h, org)
      && after.organizations[org].verifiedAt.Some? == LastStamp(sc, t, h, org)
  {
    if h.Then? {
      OrganizationHoldsLastStatus(sc, t, h.before, org);
      StepOnOrganization(sc, Run(sc, t, h.before), h.last, org);
    }
  }

  lemma {:induction false} EmployerHoldsLastFlag(sc: Schema, t: Tables, h: History<Step>, e: Id)
    ensures
      var after := Run(sc, t, h);
      e in after.employers ==> Flags(after, e) == LastFlag(sc, t, h, e)
  {
    if h.Then? {
      EmployerHoldsLastFlag(sc, t, h.before, e);
      StepOnEmployer(sc, Run(sc, t, h.before), h.last, e);
    }
  }

  ghost predicate LastUsersAgree(sc: Schema, t: Tables, h: History<Step>, org: Id, status: string) {
    forall u :: StaffId(t, u, org) ==> LastStatus(sc, t, h, u) == status
  }

  ghost predicate LastProfilesAgree(sc: Schema, t: Tables, h: History<Step>, org: Id, status: string) {
    var employers := Run(sc, t, h).employers;
    forall e :: e in employers && StaffId(t, employers[e].user, org) ==>
      LastFlag(sc, t, h, e) == (status == "verified", status == "verified")
  }

  /** The last writers of an organization, of its employer and agency users and of their profiles all
      wrote the same. */
  ghost predicate LastWritersAgree(sc: Schema, t: Tables, h: History<Step>, org: Id)
    requires org in t.organizations
  {
    var status := LastOrganization(sc, t, h, org);
    && (LastStamp(sc, t, h, org) <==> status == "verified")
    && LastUsersAgree(sc, t, h, org, status)
    && LastProfilesAgree(sc, t, h, org, status)
  }

  lemma UsersAgreeByLastWriters(sc: Schema, t: Tables, h: History<Step>, org: Id, status: string)
    ensures UsersAgree(Run(sc, t, h), org, status) <==> LastUsersAgree(sc, t, h, org, status)
  {
    var after := Run(sc, t, h);
    forall u
      ensures StaffId(after, u, org) <==> StaffId(t, u, org)
      ensures u in t.users ==> u in after.users && after.users[u].status == LastStatus(sc, t, h, u)
    {
      UserHoldsLastStatus(sc, t, h, u);
    }
  }

  lemma ProfilesAgreeByLastWriters(sc: Schema, t: Tables, h: History<Step>, org: Id, status: string)
    ensures ProfilesAgree(Run(sc, t, h), org, status) <==> LastProfilesAgree(sc, t, h, org, status)
  {
    var after := Run(sc, t, h);
    forall u ensures StaffId(after, u, org) <==> StaffId(t, u, org) { UserHoldsLastStatus(sc, t, h, u); }
    forall e | e in after.employers ensures Flags(after, e) == LastFlag(sc, t, h, e) {
      EmployerHoldsLastFlag(sc, t, h, e);
    }
  }

  /** In every run, whatever fails and under every schema, the three tables of an organization agree if
      and only if the last writers of all their rows do: a staff member's status, say, was last set to
      what the organization's was last set to. */
  lemma AgreementIsByLastWriters(sc: Schema, t: Tables, h: History<Step>, org: Id)
    requires org in t.organizations
    ensures org in Run(sc, t, h).organizations
    ensures Agrees(Run(sc, t, h), org) <==> LastWritersAgree(sc, t, h, org)
  {
    var status := LastOrganization(sc, t, h, org);
    OrganizationHoldsLastStatus(sc, t, h, org);
    UsersAgreeByLastWriters(sc, t, h, org, status);
    ProfilesAgreeByLastWriters(sc, t, h, org, status);
  }

  // ---------------------------------------------------------------------------------------------
  // What one step does to agreement

  ghost predicate HasStaff(t: Tables, org: Id) {
    exists u :: StaffId(t, u, org)
  }

  /** The step gives some staff member a status other than the organization's. */
  ghost predicate SetsApart(sc: Schema, t: Tables, s: Step, org: Id, status: string) {
    exists u :: StaffId(t, u, org) && StatusWritten(sc, t, s, u).Some? && StatusWritten(sc, t, s, u).value != status
  }

  /** The step gives a staff member another status than the organization's, gives the organization
      another one than its staff's, unverifies it but keeps its time, or adds an unverified profile to a
      verified organization. */
  ghost predicate Unsettles(sc: Schema, t: Tables, s: Step, org: Id)
    requires org in t.organizations
  {
    var status, written := t.organizations[org].status, OrganizationWritten(sc, s, org);
    match s
    case Verifying(_, _, _) => false
    case Certifying(_, _, _, _, _, _, _) =>
      written.Some? && written.value != status && (HasStaff(t, org) || status == "verified")
    case Enrolling(profile, user, _, fails) =>
      !fails && Enrollable(t, profile, user) && StaffId(t, user, org) && status == "verified"
    case _ => SetsApart(sc, t, s, org, status)
  }

  lemma StepKeepsStaff(sc: Schema, t: Tables, s: Step, org: Id)
    ensures forall u :: StaffId(After(sc, t, s), u, org) <==> StaffId(t, u, org)
  {
    forall u ensures StaffId(After(sc, t, s), u, org) <==> StaffId(t, u, org) { StepOnUser(sc, t, s, u); }
  }

  lemma UsersAfterStep(sc: Schema, t: Tables, s: Step, org: Id, status: string)
    requires !s.Verifying? && UsersAgree(t, org, status)
    ensures UsersAgree(After(sc, t, s), org, status) <==> !SetsApart(sc, t, s, org, status)
  {
    StepKeepsStaff(sc, t, s, org);
    var after := After(sc, t, s);
    forall u | StaffId(t, u, org)
      ensures after.users[u].status == OrElse(StatusWritten(sc, t, s, u), t.users[u].status)
    {
      StepOnUser(sc, t, s, u);
    }
  }

  lemma ProfilesAfterStep(sc: Schema, t: Tables, s: Step, org: Id, status: string)
    requires !s.Verifying? && ProfilesAgree(t, org, status)
    ensures ProfilesAgree(After(sc, t, s), org, status) <==>
      !(s.Enrolling? && !s.fails && Enrollable(t, s.profile, s.user) && StaffId(t, s.user, org) && status == "verified")
  {
    StepKeepsStaff(sc, t, s, org);
    forall e ensures
      && (e in t.employers ==> e in After(sc, t, s).employers && Flags(After(sc, t, s), e) == Flags(t, e)
                               && After(sc, t, s).employers[e].user == t.employers[e].user)
      && (e in After(sc, t, s).employers && e !in t.employers ==>
            s.Enrolling? && e == s.profile && After(sc, t, s).employers[e].user == s.user
            && Flags(After(sc, t, s), e) == (false, false))
    {
      StepOnEmployer(sc, t, s, e);
    }
  }

  lemma VerifyingNeverUnsettles(sc: Schema, t: Tables, s: Step, org: Id)
    requires s.Verifying? && org in t.organizations && Agrees(t, org)
    ensures org in After(sc, t, s).organizations && Agrees(After(sc, t, s), org)
  {
    var q, after := s.verification, After(sc, t, s);
    VerificationIsAllOrNothing(sc, t, q, s.now, s.f);
    if VerificationTakesEffect(sc, q, s.f) {
      if q.organization == org {
        VerificationMakesThemAgree(sc, t, q, s.now, s.f);
      } else {
        StepKeepsStaff(sc, t, s, org);
        forall u | StaffId(t, u, org) ensures after.users[u] == t.users[u] {}
        forall e | e in t.employers && StaffId(t, t.employers[e].user, org)
          ensures after.employers[e] == t.employers[e]
        {
        }
      }
    }
  }

  lemma CertifyingUnsettlesIff(sc: Schema, t: Tables, s: Step, org: Id)
    requires s.Certifying? && org in t.organizations && Agrees(t, org)
    ensures org in After(sc, t, s).organizations
    ensures Agrees(After(sc, t, s), org) <==> !Unsettles(sc, t, s, org)
  {
    CertifyingRows(sc, t, s, org);
    StepOnOrganization(sc, t, s, org);
    var after := After(sc, t, s);
    assert forall u :: StaffId(after, u, org) <==> StaffId(t, u, org);
  }

  /** Exactly which step makes tables that agree disagree. */
  lemma StepUnsettlesIff(sc: Schema, t: Tables, s: Step, org: Id)
    requires org in t.organizations && Agrees(t, org)
    ensures org in After(sc, t, s).organizations
    ensures Agrees(After(sc, t, s), org) <==> !Unsettles(sc, t, s, org)
  {
    if s.Verifying? {
      VerifyingNeverUnsettles(sc, t, s, org);
    } else if s.Certifying? {
      CertifyingUnsettlesIff(sc, t, s, org);
    } else {
      var status := t.organizations[org].status;
      StepOnOrganization(sc, t, s, org);
      UsersAfterStep(sc, t, s, org, status);
      ProfilesAfterStep(sc, t, s, org, status);
    }
  }

  /** An input at which agreement is lost under the shipped schema: any of the endpoints that set one
      user's status, used on a staff member, with a status that is not the organization's. */
  lemma EndpointsUnsettle(t: Tables, org: Id, user: Id, status: string, via: Via, now: int)
    requires org in t.organizations && Agrees(t, org) && StaffId(t, user, org)
    requires status in SHIPPED.statuses && status != t.organizations[org].status
    ensures
      var after := After(SHIPPED, t, Judging(user, status, via, now, false));
      org in after.organizations && !Agrees(after, org)
  {
    var s := Judging(user, status, via, now, false);
    assert StatusWritten(SHIPPED, t, s, user) == Some(status);
    StepUnsettlesIff(SHIPPED, t, s, org);
  }
}
