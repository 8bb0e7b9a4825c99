/** Managing administrators: roles and their ranks, tokens that carry a role, and what becomes of the
    super-admins over whole runs. */
module AdminRoles {
  import opened Base

  type Id(==, !new)
  type Email(==, !new)

  datatype Admin = Admin(email: Email, name: string, role: string, active: bool)

  /** The admin_users table by primary key; email is unique. */
  type Table = map<Id, Admin>

  const SUPER := "super_admin"

  /** A role that is not in the hierarchy ranks 0. */
  function Rank(role: string): (n: nat)
    ensures n == 100 <==> role == SUPER
    ensures n == 0 <==> role != SUPER && !Assignable(role)
    ensures n <= 100
  {
    if role == SUPER then 100 else if role == "admin" then 80 else if role == "moderator" then 60
      else if role == "support" then 40 else 0
  }

  predicate CanManage(role1: string, role2: string) {
    Rank(role1) > Rank(role2)
  }

  /** The roles the request validator lets through. */
  predicate Assignable(role: string) {
    role == "admin" || role == "moderator" || role == "support"
  }

  datatype Reply = Done(admin: Admin) | EmailTaken | AdminNotFound | CannotManageRole | Failed | Invalid | Denied

  // ---------------------------------------------------------------------------------------------
  // The service

  datatype Changes = Changes(name: Option<string>, role: Option<string>, active: Option<bool>)

  /** Which reads and writes fail. */
  datatype Faults = Faults(read: bool, readActor: bool, write: bool)

  function Edited(a: Admin, c: Changes): Admin {
    Admin(a.email, OrElse(c.name, a.name), OrElse(c.role, a.role), OrElse(c.active, a.active))
  }

  predicate Taken(t: Table, email: Email) {
    exists id :: id in t && t[id].email == email
  }

  /** A new record, unless its email is in use (the table rejects it even when the lookup failed). */
  function Created(t: Table, id: Id, a: Admin, f: Faults): (Table, Reply) {
    if Taken(t, a.email) && !f.read then (t, EmailTaken)
    else if f.write || Taken(t, a.email) || id in t then (t, Failed)
    else (t[id := a], Done(a))
  }

  /** The actor may change the target, or could not be found. */
  predicate Permitted(t: Table, actor: Id, target: Id, f: Faults)
    requires target in t
  {
    f.readActor || actor !in t || CanManage(t[actor].role, t[target].role)
  }

  function Updated(t: Table, actor: Id, target: Id, c: Changes, f: Faults): (Table, Reply) {
    if f.read || target !in t then (t, AdminNotFound)
    else if !Permitted(t, actor, target, f) then (t, CannotManageRole)
    else if f.write then (t, Failed)
    else (t[target := Edited(t[target], c)], Done(Edited(t[target], c)))
  }

  /** An accepted update leaves the fields it names as it names them, and everything else, other records
      included, as it was; a refused one changes nothing. */
  lemma UpdateLeaves(t: Table, actor: Id, target: Id, c: Changes, f: Faults, id: Id)
    ensures
      var (after, r) := Updated(t, actor, target, c, f);
      && (id in after <==> id in t)
      && (id in t && (id != target || !r.Done?) ==> after[id] == t[id])
      && (r.Done? ==>
            && target in t && after[target] == r.admin
            && r.admin.email == t[target].email
            && r.admin.name == (if c.name.Some? then c.name.value else t[target].name)
            && r.admin.role == (if c.role.Some? then c.role.value else t[target].role)
            && r.admin.active == (if c.active.Some? then c.active.value else t[target].active))
  {
  }

  /** The answers of an update: which condition gives which. */
  lemma UpdateAnswers(t: Table, actor: Id, target: Id, c: Changes, f: Faults)
    ensures
      var r := Updated(t, actor, target, c, f).1;
      var found := target in t && !f.read;
      var outranked := found && actor in t && !f.readActor && Rank(t[actor].role) <= Rank(t[target].role);
      && (r == AdminNotFound <==> !found)
      && (r == CannotManageRole <==> outranked)
      && (r == Failed <==> found && !outranked && f.write)
      && (r.Done? <==> found && !outranked && !f.write)
  {
  }

  /** A creation is accepted if and only if its e-mail and id are new and the insert does not fail; it
      stores the record, active, and leaves the others alone. */
  lemma CreateSucceedsIff(t: Table, id: Id, a: Admin, f: Faults, other: Id)
    ensures
      var (after, r) := Created(t, id, a, f);
      var taken := exists k :: k in t && t[k].email == a.email;
      && (r.Done? <==> !taken && id !in t && !f.write)
      && (r == EmailTaken <==> taken && !f.read)
      && (r.Done? ==> id in after && after[id] == a && r.admin == a)
      && (other in after <==> other in t || (r.Done? && other == id))
      && (other in t ==> after[other] == t[other])
  {
  }

  /** The four roles by rank: super-admin, admin, moderator, support, and then all others. */
  lemma RanksInOrder(role: string, other: string)
    ensures Rank("super_admin") == 100 && Rank("admin") == 80 && Rank("moderator") == 60 && Rank("support") == 40
    ensures CanManage(role, other) <==>
      || (role == "super_admin" && other != "super_admin")
      || (role == "admin" && other != "super_admin" && other != "admin")
      || (role == "moderator" && other != "super_admin" && other != "admin" && other != "moderator")
      || (role == "support" && other !in {"super_admin", "admin", "moderator", "support"})
  {
  }

  class Service {
    var admins: Table

    constructor (admins: Table)
      ensures this.admins == admins
    {
      this.admins := admins;
    }

    method CreateAdmin(id: Id, email: Email, name: string, role: string, f: Faults) returns (r: Reply)
      modifies this
      ensures (admins, r) == Created(old(admins), id, Admin(email, name, role, true), f)
    {
      if !f.read && Taken(admins, email) { return EmailTaken; }
      var admin := Admin(email, name, role, true);
      if f.write || Taken(admins, email) || id in admins { return Failed; }
      admins := admins[id := admin];
      return Done(admin);
    }

    method UpdateAdmin(actor: Id, target: Id, c: Changes, f: Faults) returns (r: Reply)
      modifies this
      ensures (admins, r) == Updated(old(admins), actor, target, c, f)
    {
      if f.read || target !in admins { return AdminNotFound; }
      var admin := admins[target];
      if !f.readActor && actor in admins && !CanManage(admins[actor].role, admin.role) { return CannotManageRole; }
      if c.name.Some? { admin := admin.(name := c.name.value); }
      if c.role.Some? { admin := admin.(role := c.role.value); }
      if c.active.Some? { admin := admin.(active := c.active.value); }
      if f.write { return Failed; }
      admins := admins[target := admin];
      return Done(admin);
    }
  }

  // ---------------------------------------------------------------------------------------------
  // Requests: tokens carry the role their owner had at login

  datatype Claims = Claims(id: Id, role: string)

  datatype State = State(admins: Table, tokens: set<Claims>)

  datatype Request =
    | Login(id: Id, passwordMatches: bool)
    | Create(claims: Claims, newId: Id, email: Email, name: string, role: string, f: Faults)
    | Update(claims: Claims, target: Id, changes: Changes, f: Faults)

  /** A token that was issued, whose owner is still there and active, and whose role manages admins. */
  predicate Authorised(s: State, claims: Claims) {
    claims in s.tokens && claims.id in s.admins && s.admins[claims.id].active && claims.role == SUPER
  }

  /** Creation validates its role; updating does not. */
  function After(s: State, q: Request): State {
    match q
    case Login(id, passwordMatches) =>
      if id in s.admins && s.admins[id].active && passwordMatches
      then s.(tokens := s.tokens + {Claims(id, s.admins[id].role)}) else s
    case Create(claims, newId, email, name, role, f) =>
      if Authorised(s, claims) && Assignable(role)
      then s.(admins := Created(s.admins, newId, Admin(email, name, role, true), f).0) else s
    case Update(claims, target, changes, f) =>
      if Authorised(s, claims) then s.(admins := Updated(s.admins, claims.id, target, changes, f).0) else s
  }

  function Run(s: State, h: History<Request>): State {
    match h
    case Start => s
    case Then(before, q) => After(Run(s, before), q)
  }

  /** Only a token that was issued with the role super_admin, to an administrator still there and active,
      gets a request through, and a creation also needs one of three roles. */
  lemma OnlySuperTokensManage(s: State, q: Request)
    requires After(s, q).admins != s.admins
    ensures !q.Login? && Claims(q.claims.id, "super_admin") in s.tokens
    ensures q.claims.role == "super_admin" && q.claims.id in s.admins && s.admins[q.claims.id].active
    ensures q.Create? ==> q.role in {"admin", "moderator", "support"}
  {
  }

  /** Such a request does what the service does. */
  lemma SuperTokensManage(s: State, q: Request)
    requires !q.Login? && q.claims in s.tokens && q.claims.role == "super_admin"
    requires q.claims.id in s.admins && s.admins[q.claims.id].active
    ensures q.Create? && q.role in {"admin", "moderator", "support"} ==>
      After(s, q).admins == Created(s.admins, q.newId, Admin(q.email, q.name, q.role, true), q.f).0
    ensures q.Update? ==> After(s, q).admins == Updated(s.admins, q.claims.id, q.target, q.changes, q.f).0
    ensures After(s, q).tokens == s.tokens
  {
  }

  /** A login issues a token with the role the administrator has then, and nothing else does. */
  lemma TokensAreIssuedBy(s: State, q: Request, c: Claims)
    ensures c in After(s, q).tokens <==>
      c in s.tokens || (q.Login? && q.passwordMatches && q.id in s.admins && s.admins[q.id].active
                        && c == Claims(q.id, s.admins[q.id].role))
  {
  }

  predicate IsSuper(t: Table, id: Id) {
    id in t && t[id].role == SUPER
  }

  /** The same super-admins, with the same records. */
  ghost predicate SameSupers(t: Table, u: Table) {
    forall id :: (IsSuper(t, id) <==> IsSuper(u, id)) && (IsSuper(t, id) ==> t[id] == u[id])
  }

  /** The update goes through and either asks for a new super-admin or alters an existing one. */
  predicate Escalates(s: State, q: Request) {
    && q.Update? && Authorised(s, q.claims) && !q.f.read && !q.f.write && q.target in s.admins
    && var a := s.admins[q.target];
       if a.role == SUPER then (q.f.readActor && Edited(a, q.changes) != a)
       else q.changes.role == Some(SUPER) && Permitted(s.admins, q.claims.id, q.target, q.f)
  }

  /** Exactly when one request changes the super-admins. */
  lemma SupersChangeIff(s: State, q: Request)
    ensures SameSupers(s.admins, After(s, q).admins) <==> !Escalates(s, q)
  {
    if q.Update? && Authorised(s, q.claims) && Escalates(s, q) {
      var id := q.target;
      assert IsSuper(s.admins, id) ==> After(s, q).admins[id] != s.admins[id];
      assert !IsSuper(s.admins, id) ==> IsSuper(After(s, q).admins, id);
    }
  }

  /** A request as the validator would have it, by an actor the service can read. */
  predicate Regular(q: Request) {
    q.Update? ==> !q.f.readActor && (q.changes.role.Some? ==> Assignable(q.changes.role.value))
  }

  predicate AllRegular(h: History<Request>) {
    h.Then? ==> AllRegular(h.before) && Regular(h.last)
  }

  /** What a token says about being a super-admin is what the table says. */
  ghost predicate TokensAgree(s: State) {
    forall c :: c in s.tokens ==> c.id in s.admins && (c.role == SUPER <==> s.admins[c.id].role == SUPER)
  }

  /** Over every run of regular requests the super-admins never change, and no token is out of date
      about them. */
  lemma {:induction false} SupersAreFixed(s: State, h: History<Request>)
    requires TokensAgree(s) && AllRegular(h)
    ensures SameSupers(s.admins, Run(s, h).admins)
    ensures TokensAgree(Run(s, h))
    ensures forall id :: id in s.admins && s.admins[id].role == "super_admin" ==>
      id in Run(s, h).admins && Run(s, h).admins[id] == s.admins[id]
    ensures forall id :: id in Run(s, h).admins && Run(s, h).admins[id].role == "super_admin" ==>
      id in s.admins && s.admins[id].role == "super_admin"
    ensures forall c :: c in Run(s, h).tokens ==>
      c.id in Run(s, h).admins && (c.role == "super_admin" <==> Run(s, h).admins[c.id].role == "super_admin")
  {
    if h.Then? {
      var before, after := Run(s, h.before), Run(s, h);
      SupersAreFixed(s, h.before);
      SupersChangeIff(before, h.last);
      forall c | c in after.tokens
        ensures c.id in after.admins && (c.role == SUPER <==> after.admins[c.id].role == SUPER)
      {
        assert c in before.tokens || c.id in before.admins;
        assert IsSuper(before.admins, c.id) <==> IsSuper(after.admins, c.id);
      }
    }
  }

  /** A record a regular request changes is ranked strictly below the one who changes it, and stays so. */
  lemma ChangedRecordsRankBelow(s: State, h: History<Request>, q: Request, id: Id)
    requires TokensAgree(s) && AllRegular(h) && Regular(q)
    requires id in Run(s, h).admins
    ensures id in After(Run(s, h), q).admins
    ensures
      var before, after := Run(s, h).admins, After(Run(s, h), q).admins;
      after[id] != before[id] ==>
        && q.Update? && id == q.target && IsSuper(before, q.claims.id)
        && Rank(before[id].role) < Rank(before[q.claims.id].role)
        && Rank(after[id].role) < Rank(before[q.claims.id].role)
  {
    SupersAreFixed(s, h);
    SupersChangeIff(Run(s, h), q);
  }

  /** The update endpoint does not validate its role: one request makes any lower-ranked admin a
      super-admin. */
  lemma UnvalidatedUpdateMakesASuperAdmin(s: State, claims: Claims, target: Id)
    requires Authorised(s, claims) && IsSuper(s.admins, claims.id) && target in s.admins && !IsSuper(s.admins, target)
    ensures
      var q := Update(claims, target, Changes(None, Some(SUPER), None), Faults(false, false, false));
      IsSuper(After(s, q).admins, target) && !SameSupers(s.admins, After(s, q).admins)
  {
    SupersChangeIff(s, Update(claims, target, Changes(None, Some(SUPER), None), Faults(false, false, false)));
  }

  // ---------------------------------------------------------------------------------------------
  // Emails

  ghost predicate EmailsUnique(t: Table) {
    forall a, b :: a in t && b in t && t[a].email == t[b].email ==> a == b
  }

  /** No run, whatever fails, lets two admins share an email or loses one. */
  lemma {:induction false} EmailsStayUnique(s: State, h: History<Request>)
    requires EmailsUnique(s.admins)
    ensures EmailsUnique(Run(s, h).admins) && s.admins.Keys <= Run(s, h).admins.Keys
    ensures
      var t := Run(s, h).admins;
      forall a, b :: a in t && b in t && a != b ==> t[a].email != t[b].email
  {
    if h.Then? { EmailsStayUnique(s, h.before); }
  }
}
