/** The admin lists: audit log, reports, users.  Each builds one WHERE clause with numbered
    placeholders for a page query and a count query. */
module AdminLists {
  import opened Base
  import opened Ilike
  import opened Sql
  import opened Paging
  import opened Queries

  /** The rows a list query serves and the total it reports, for all rows satisfying `p`; None is an
      error: a query that fails, or a limit or offset the server rejects. */
  ghost predicate Serves<R>(r: Option<(seq<R>, int)>, p: R -> bool, leq: Ordering<R>, rows: seq<R>, limit: int,
                            offset: int, fails: bool)
  {
    var result := Results(p, leq, rows);
    && (r.Some? <==> !fails && limit >= 0 && offset >= 0)
    && (r.Some? ==> Window(result, limit, offset) == Some(r.value.0) && r.value.1 == |result|)
  }

  /** Row by row: the i-th row served is the one `offset` further on in the ordered result, as many as the
      limit allows, and the total is the size of that result. */
  lemma ServedRows<R>(r: Option<(seq<R>, int)>, p: R -> bool, leq: Ordering<R>, rows: seq<R>, limit: int, offset: int,
                      fails: bool, i: nat)
    requires Serves(r, p, leq, rows, limit, offset, fails)
    ensures r.None? <==> fails || limit < 0 || offset < 0
    ensures r.Some? ==>
      var result := Results(p, leq, rows);
      && r.value.1 == |result|
      && (i < |r.value.0| <==> i < limit && offset + i < |result|)
      && (i < |r.value.0| ==> r.value.0[i] == result[offset + i])
  {
    WindowHolds(Results(p, leq, rows), limit, offset, i);
  }

  // ---------------------------------------------------------------------------------------------
  // Audit log

  datatype AuditLog = AuditLog(adminId: Option<Uuid>, action: string, entityType: string, entityId: Option<Uuid>,
                               createdAt: Option<int>)

  datatype AuditColumn = AdminId | Action | EntityType

  function AuditCell(r: AuditLog): AuditColumn -> Value {
    (c: AuditColumn) =>
      match c
      case AdminId => if r.adminId.Some? then Id(r.adminId.value) else Null
      case Action => Text(r.action)
      case EntityType => Text(r.entityType)
  }

  datatype AuditFilter = AuditFilter(
    adminId: Option<Uuid>, action: Option<string>, entityType: Option<string>,
    entityId: Option<Uuid>, fromDate: Option<int>, toDate: Option<int>, limit: int, offset: int)

  /** The first `n` restrictions the query applies. */
  function Audited(f: AuditFilter, n: nat): AuditLog -> bool {
    (r: AuditLog) =>
      && (n >= 1 && f.adminId.Some? ==> r.adminId == f.adminId)
      && (n >= 2 && f.action.Some? ==> r.action == f.action.value)
      && (n >= 3 && f.entityType.Some? ==> r.entityType == f.entityType.value)
  }

  /** Everything the filter says. */
  predicate AuditWanted(f: AuditFilter, r: AuditLog) {
    && (f.adminId.Some? ==> r.adminId == f.adminId)
    && (f.action.Some? ==> r.action == f.action.value)
    && (f.entityType.Some? ==> r.entityType == f.entityType.value)
    && (f.entityId.Some? ==> r.entityId == f.entityId)
    && (f.fromDate.Some? ==> r.createdAt.Some? && r.createdAt.value >= f.fromDate.value)
    && (f.toDate.Some? ==> r.createdAt.Some? && r.createdAt.value <= f.toDate.value)
  }

  /** The query applies the whole filter exactly when the filter names no entity and no dates. */
  lemma FilterIsAppliedIff(f: AuditFilter)
    ensures (forall r: AuditLog :: Audited(f, 3)(r) <==> AuditWanted(f, r))
      <==> f.entityId.None? && f.fromDate.None? && f.toDate.None?
  {
    if f.entityId.Some? || f.fromDate.Some? || f.toDate.Some? {
      var other := AuditLog(f.adminId, OrElse(f.action, ""), OrElse(f.entityType, ""), None, None);
      assert Audited(f, 3)(other) && !AuditWanted(f, other);
    }
  }

  function AuditNewest(a: AuditLog, b: AuditLog): bool {
    DescLeq(a.createdAt, b.createdAt)
  }

  method StartAudit(ghost fold: Folding, f: AuditFilter) returns (b: Clause<AuditColumn>)
    ensures Built(fold, AuditCell, b, Audited(f, 1))
  {
    NoConditions<AuditLog, AuditColumn>(fold, AuditCell);
    b := Clause([], [], 1);
    assert Built(fold, AuditCell, b, Audited(f, 0));
    if f.adminId.Some? {
      b := Push(fold, AuditCell, b, Audited(f, 0), Compare(AdminId, Eq, Param(b.argIndex)), Id(f.adminId.value),
                (r: AuditLog) => r.adminId == f.adminId, Audited(f, 1));
    }
  }

  method CompileAudit(ghost fold: Folding, f: AuditFilter) returns (b: Clause<AuditColumn>)
    ensures Built(fold, AuditCell, b, Audited(f, 3))
  {
    b := StartAudit(fold, f);
    if f.action.Some? {
      b := Push(fold, AuditCell, b, Audited(f, 1), Compare(Action, Eq, Param(b.argIndex)), Text(f.action.value),
                (r: AuditLog) => r.action == f.action.value, Audited(f, 2));
    }
    assert Built(fold, AuditCell, b, Audited(f, 2));
    if f.entityType.Some? {
      b := Push(fold, AuditCell, b, Audited(f, 2), Compare(EntityType, Eq, Param(b.argIndex)), Text(f.entityType.value),
                (r: AuditLog) => r.entityType == f.entityType.value, Audited(f, 3));
    }
  }

  /** The count runs over all arguments but the last two, and counts exactly the set the page is cut
      from. */
  method ListAuditLogs(fold: Folding, f: AuditFilter, logs: seq<AuditLog>, pageFails: bool, countFails: bool)
    returns (r: Option<(seq<AuditLog>, int)>)
    ensures Serves(r, Audited(f, 3), AuditNewest, logs, if f.limit <= 0 then 50 else f.limit,
                   if f.offset < 0 then 0 else f.offset, pageFails || countFails)
  {
    var b := CompileAudit(fold, f);
    var limit := f.limit;
    if limit <= 0 { limit := 50; }
    var offset := f.offset;
    if offset < 0 { offset := 0; }
    var args := b.args + [Integer(limit), Integer(offset)];
    CountAndPage(fold, AuditCell, b, Audited(f, 3), AuditNewest, limit, offset, logs);
    var page := QueryPage(fold, AuditCell, b.conditions, AuditNewest, b.argIndex, b.argIndex + 1, args, logs);
    if pageFails || page.None? { return None; }
    assert args[..|args| - 2] == b.args;
    var total := QueryCount(fold, AuditCell, b.conditions, args[..|args| - 2], logs);
    if countFails || total.None? { return None; }
    return Some((page.value, total.value));
  }

  // ---------------------------------------------------------------------------------------------
  // Reports

  datatype Report = Report(status: Option<string>, createdAt: Option<int>)

  datatype ReportColumn = Status

  function ReportCell(r: Report): ReportColumn -> Value {
    (c: ReportColumn) => if r.status.Some? then Text(r.status.value) else Null
  }

  function Reported(status: Option<string>): Report -> bool {
    (r: Report) => status.Some? && status.value != "" ==> r.status == status
  }

  function ReportNewest(a: Report, b: Report): bool {
    DescLeq(a.createdAt, b.createdAt)
  }

  /** When the count fails the rows are returned with a total of zero and an error. */
  method ListReports(fold: Folding, pageParam: int, limitParam: int, status: Option<string>, reports: seq<Report>,
                     pageFails: bool, countFails: bool) returns (rows: seq<Report>, total: int, ok: bool)
    ensures
      var page := if pageParam < 1 then 1 else pageParam;
      var limit := if limitParam < 1 || limitParam > 100 then 20 else limitParam;
      var offset := Offset(page, limit);
      && Serves(if ok then Some((rows, total)) else None, Reported(status), ReportNewest, reports, limit, offset,
                pageFails || countFails)
      && (!ok && !pageFails && offset >= 0 ==>
            Some(rows) == Window(Results(Reported(status), ReportNewest, reports), limit, offset) && total == 0)
      && (pageFails || offset < 0 ==> rows == [] && total == 0)
  {
    var page, limit := pageParam, limitParam;
    if page < 1 { page := 1; }
    if limit < 1 || limit > 100 { limit := 20; }
    var offset := Offset(page, limit);
    NoConditions<Report, ReportColumn>(fold, ReportCell);
    var b: Clause<ReportColumn> := Clause([], [], 1);
    if status.Some? && status.value != "" {
      b := Push(fold, ReportCell, b, (r: Report) => true, Compare(Status, Eq, Param(b.argIndex)), Text(status.value),
                Reported(status), Reported(status));
    }
    CountAndPage(fold, ReportCell, b, Reported(status), ReportNewest, limit, offset, reports);
    var args := b.args + [Integer(limit), Integer(offset)];
    var list := QueryPage(fold, ReportCell, b.conditions, ReportNewest, b.argIndex, b.argIndex + 1, args, reports);
    if pageFails || list.None? { return [], 0, false; }
    var count := QueryCount(fold, ReportCell, b.conditions, b.args, reports);
    if countFails || count.None? { return list.value, 0, false; }
    return list.value, count.value, true;
  }

  /** All reports without a status, or with the empty one; otherwise those that have it. */
  lemma ReportsShown(status: Option<string>, reports: seq<Report>, r: Report)
    ensures multiset(Results(Reported(status), ReportNewest, reports))[r]
      == if status == None || status == Some("") || r.status == status then multiset(reports)[r] else 0
    ensures Sorted(ReportNewest, Results(Reported(status), ReportNewest, reports))
  {
    ResultsAreTheRowsAskedFor(Reported(status), ReportNewest, reports, r);
  }

  // ---------------------------------------------------------------------------------------------
  // Users

  datatype User = User(email: string, role: string, createdAt: Option<int>)

  datatype UserColumn = Email | Role

  function UserCell(r: User): UserColumn -> Value {
    (c: UserColumn) =>
      match c
      case Email => Text(r.email)
      case Role => Text(r.role)
  }

  function Searched(fold: Folding, role: string, search: string, n: nat): User -> bool {
    (r: User) =>
      && (n >= 1 && role != "" && role != "all" ==> r.role == role)
      && (n >= 2 && search != "" ==> Finds(fold, r.email, search))
  }

  function UserNewest(a: User, b: User): bool {
    DescLeq(a.createdAt, b.createdAt)
  }

  method StartUsers(ghost fold: Folding, role: string, ghost search: string) returns (b: Clause<UserColumn>)
    ensures Built(fold, UserCell, b, Searched(fold, role, search, 1))
  {
    NoConditions<User, UserColumn>(fold, UserCell);
    b := Clause([], [], 1);
    assert Built(fold, UserCell, b, Searched(fold, role, search, 0));
    if role != "" && role != "all" {
      b := Push(fold, UserCell, b, Searched(fold, role, search, 0), Compare(Role, Eq, Param(b.argIndex)), Text(role),
                (r: User) => r.role == role, Searched(fold, role, search, 1));
    }
  }

  method CompileUsers(ghost fold: Folding, role: string, search: string) returns (b: Clause<UserColumn>)
    ensures Built(fold, UserCell, b, Searched(fold, role, search, 2))
  {
    b := StartUsers(fold, role, search);
    if search != "" {
      b := Push(fold, UserCell, b, Searched(fold, role, search, 1), Compare(Email, ILike, Param(b.argIndex)),
                Text(Around(search)), (r: User) => Finds(fold, r.email, search), Searched(fold, role, search, 2));
    }
  }

  /** A count query that fails is replaced by the number of users on the page. */
  method ListUsers(fold: Folding, role: string, search: string, limitParam: Option<int>, offsetParam: Option<int>,
                   users: seq<User>, pageFails: bool, countFails: bool) returns (r: Option<(seq<User>, int)>)
    ensures
      var limit := if limitParam.Some? && 1 <= limitParam.value <= 100 then limitParam.value else 20;
      var offset := if offsetParam.Some? && offsetParam.value >= 0 then offsetParam.value else 0;
      var p := Searched(fold, role, search, 2);
      && (countFails && r.Some? ==> r.value.1 == |r.value.0|)
      && Serves(if countFails && r.Some? then Some((r.value.0, |Results(p, UserNewest, users)|)) else r,
                p, UserNewest, users, limit, offset, pageFails)
  {
    var limit, offset := 20, 0;
    if limitParam.Some? && limitParam.value > 0 && limitParam.value <= 100 { limit := limitParam.value; }
    if offsetParam.Some? && offsetParam.value >= 0 { offset := offsetParam.value; }
    var b := CompileUsers(fold, role, search);
    CountAndPage(fold, UserCell, b, Searched(fold, role, search, 2), UserNewest, limit, offset, users);
    var args := b.args + [Integer(limit), Integer(offset)];
    var page := QueryPage(fold, UserCell, b.conditions, UserNewest, b.argIndex, b.argIndex + 1, args, users);
    if pageFails || page.None? { return None; }
    assert args[..|args| - 2] == b.args;
    var count := QueryCount(fold, UserCell, b.conditions, args[..|args| - 2], users);
    var total := if countFails || count.None? then |page.value| else count.value;
    return Some((page.value, total));
  }

  /** With a literal search text: the users of the role, any for none or `all`, whose e-mail contains it. */
  lemma UsersShown(fold: Folding, role: string, search: string, users: seq<User>, u: User)
    requires Literal(search)
    ensures multiset(Results(Searched(fold, role, search, 2), UserNewest, users))[u]
      == if (role == "" || role == "all" || u.role == role) && (search == "" || Contains(fold, u.email, search))
         then multiset(users)[u] else 0
    ensures Sorted(UserNewest, Results(Searched(fold, role, search, 2), UserNewest, users))
  {
    LiteralSearchIsContainment(fold, u.email, search);
    ResultsAreTheRowsAskedFor(Searched(fold, role, search, 2), UserNewest, users, u);
  }

  /** The entries of the audit log that match the three filters the query applies. */
  lemma AuditShown(f: AuditFilter, logs: seq<AuditLog>, r: AuditLog)
    ensures multiset(Results(Audited(f, 3), AuditNewest, logs))[r]
      == if AuditWanted(f.(entityId := None, fromDate := None, toDate := None), r) then multiset(logs)[r] else 0
    ensures Sorted(AuditNewest, Results(Audited(f, 3), AuditNewest, logs))
  {
    ResultsAreTheRowsAskedFor(Audited(f, 3), AuditNewest, logs, r);
  }

  /** All three lists put later before earlier, and rows without a time first. */
  lemma LatestFirst(a: AuditLog, b: AuditLog, c: Report, d: Report, e: User, f: User)
    ensures AuditNewest(a, b) <==> a.createdAt.None? || (b.createdAt.Some? && a.createdAt.value >= b.createdAt.value)
    ensures ReportNewest(c, d) <==> c.createdAt.None? || (d.createdAt.Some? && c.createdAt.value >= d.createdAt.value)
    ensures UserNewest(e, f) <==> e.createdAt.None? || (f.createdAt.Some? && e.createdAt.value >= f.createdAt.value)
  {
  }
}
