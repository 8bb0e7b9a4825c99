/** Changing a user's status: an UPDATE assembled from the fields that were supplied. */
module AdminUsers {
  import opened Base
  import opened Schema
  import opened Sql

  datatype User = User(id: Uuid, isBanned: bool, emailVerified: bool, status: string, updatedAt: int)

  datatype Column = IsBanned | EmailVerified | VerificationStatus

  /** One item of the SET list: a column and its placeholder, or updated_at = NOW(). */
  datatype SetItem = Set(col: Column, n: int) | Touch

  datatype Query = Query(items: seq<SetItem>, idParam: int)

  /** The values of the column's enumeration type. */
  predicate ValidStatus(s: string) {
    s in SHIPPED.statuses
  }

  // ---------------------------------------------------------------------------------------------
  // The server

  predicate Fits(col: Column, v: Value) {
    match col
    case IsBanned => v.Boolean?
    case EmailVerified => v.Boolean?
    case VerificationStatus => v.Text? && ValidStatus(v.text)
  }

  function Put(u: User, col: Column, v: Value): User
    requires Fits(col, v)
  {
    match col
    case IsBanned => u.(isBanned := v.boolean)
    case EmailVerified => u.(emailVerified := v.boolean)
    case VerificationStatus => u.(status := v.text)
  }

  /** One assignment; None if the server rejects the argument. */
  function Assign(u: User, item: SetItem, args: seq<Value>, now: int): Option<User> {
    match item
    case Touch => Some(u.(updatedAt := now))
    case Set(col, n) =>
      var v := Resolve(Param(n), args);
      if v.Some? && Fits(col, v.value) then Some(Put(u, col, v.value)) else None
  }

  /** The first `n` assignments. */
  function AssignFirst(u: User, items: seq<SetItem>, n: nat, args: seq<Value>, now: int): Option<User>
    requires n <= |items|
  {
    if n == 0 then Some(u) else
      var before := AssignFirst(u, items, n - 1, args, now);
      if before.None? then None else Assign(before.value, items[n - 1], args, now)
  }

  /** Are all arguments acceptable, whatever rows match? */
  predicate Accepted(items: seq<SetItem>, args: seq<Value>) {
    forall i :: 0 <= i < |items| && items[i].Set? ==>
      1 <= items[i].n <= |args| && Fits(items[i].col, args[items[i].n - 1])
  }

  /** The first `k` rows of a table after the query: those with the id get every assignment. */
  function Executed(rows: seq<User>, k: nat, q: Query, id: Uuid, args: seq<Value>, now: int): Option<seq<User>>
    requires k <= |rows|
  {
    if k == 0 then Some([]) else
      var before := Executed(rows, k - 1, q, id, args, now);
      var row := if rows[k - 1].id == id then AssignFirst(rows[k - 1], q.items, |q.items|, args, now)
        else Some(rows[k - 1]);
      if before.None? || row.None? then None else Some(before.value + [row.value])
  }

  /** UPDATE users SET ... WHERE id = $n; None if the server rejects it. */
  function Execute(rows: seq<User>, q: Query, args: seq<Value>, now: int): Option<seq<User>> {
    var id := Resolve(Param(q.idParam), args);
    if id.None? || !id.value.Id? || !Accepted(q.items, args) then None
    else Executed(rows, |rows|, q, id.value.id, args, now)
  }

  // ---------------------------------------------------------------------------------------------
  // The builder

  datatype Request = Request(isBanned: Option<bool>, emailVerified: Option<bool>, status: Option<string>)

  /** The user with the first `n` of the supplied fields. */
  function Supplied(q: Request, n: nat, u: User): User {
    u.(isBanned := if n >= 1 then OrElse(q.isBanned, u.isBanned) else u.isBanned,
       emailVerified := if n >= 2 then OrElse(q.emailVerified, u.emailVerified) else u.emailVerified,
       status := if n >= 3 then OrElse(q.status, u.status) else u.status)
  }

  /** Statuses the request may ask for without the server rejecting the query. */
  predicate Acceptable(q: Request) {
    q.status.Some? ==> ValidStatus(q.status.value)
  }

  datatype Builder = Builder(items: seq<SetItem>, args: seq<Value>, argPos: int)

  /** The items bind only arguments that are there, and assign the first `n` supplied fields. */
  ghost predicate Assigns(b: Builder, q: Request, n: nat) {
    && b.argPos == |b.args| + 1
    && (forall i :: 0 <= i < |b.items| ==> b.items[i].Set? && 1 <= b.items[i].n <= |b.args|)
    && (Accepted(b.items, b.args) <==> (n < 3 || Acceptable(q)))
    && (Accepted(b.items, b.args) ==>
          forall u, now :: AssignFirst(u, b.items, |b.items|, b.args, now) == Some(Supplied(q, n, u)))
  }

  lemma {:induction false} LongerQuery(u: User, items: seq<SetItem>, more: seq<SetItem>, n: nat, args: seq<Value>,
                                       extra: seq<Value>, now: int)
    requires n <= |items| && items <= more && args <= extra
    requires forall i :: 0 <= i < |items| && items[i].Set? ==> 1 <= items[i].n <= |args|
    ensures AssignFirst(u, more, n, extra, now) == AssignFirst(u, items, n, args, now)
  {
    if n > 0 { LongerQuery(u, items, more, n - 1, args, extra, now); }
  }

  lemma LongerAccepted(items: seq<SetItem>, item: SetItem, args: seq<Value>, v: Value)
    requires forall i :: 0 <= i < |items| && items[i].Set? ==> 1 <= items[i].n <= |args|
    requires item.Set? ==> item.n == |args| + 1
    ensures Accepted(items + [item], args + [v]) <==> Accepted(items, args) && (item.Set? ==> Fits(item.col, v))
  {
    var more := items + [item];
    if Accepted(more, args + [v]) {
      forall i | 0 <= i < |items| && items[i].Set? ensures Fits(items[i].col, args[items[i].n - 1]) {
        assert more[i] == items[i];
      }
      assert more[|items|] == item;
    }
  }

  /** The last item is assigned to what the others leave. */
  lemma LastItem(u: User, items: seq<SetItem>, item: SetItem, args: seq<Value>, v: Value, now: int)
    requires forall i :: 0 <= i < |items| && items[i].Set? ==> 1 <= items[i].n <= |args|
    ensures
      var before := AssignFirst(u, items, |items|, args, now);
      AssignFirst(u, items + [item], |items| + 1, args + [v], now)
      == if before.None? then None else Assign(before.value, item, args + [v], now)
  {
    LongerQuery(u, items, items + [item], |items|, args, args + [v], now);
  }

  lemma AddAssigns(b: Builder, q: Request, n: nat, col: Column, v: Value, u: User, now: int)
    requires n < 3 && Assigns(b, q, n) && Accepted(b.items, b.args)
    requires Fits(col, v) && Supplied(q, n + 1, u) == Put(Supplied(q, n, u), col, v)
    ensures AssignFirst(u, b.items + [Set(col, b.argPos)], |b.items| + 1, b.args + [v], now)
         == Some(Supplied(q, n + 1, u))
  {
    LastItem(u, b.items, Set(col, b.argPos), b.args, v, now);
  }

  /** One more column, with the next argument. */
  method Add(b: Builder, ghost q: Request, ghost n: nat, col: Column, v: Value) returns (r: Builder)
    requires n < 3 && Assigns(b, q, n)
    requires Fits(col, v) <==> (n < 2 || Acceptable(q))
    requires Fits(col, v) ==> forall u :: Supplied(q, n + 1, u) == Put(Supplied(q, n, u), col, v)
    ensures Assigns(r, q, n + 1) && |r.items| > 0
  {
    r := Builder(b.items + [Set(col, b.argPos)], b.args + [v], b.argPos + 1);
    var last := r.items[|b.items|];
    LongerAccepted(b.items, last, b.args, v);
    forall u, now | Accepted(r.items, r.args)
      ensures AssignFirst(u, r.items, |r.items|, r.args, now) == Some(Supplied(q, n + 1, u))
    {
      AddAssigns(b, q, n, col, v, u, now);
    }
  }

  /** The fields that were supplied, in order. */
  method Build(q: Request) returns (b: Builder)
    ensures Assigns(b, q, 3)
    ensures b.items == [] <==> q == Request(None, None, None)
  {
    b := Builder([], [], 1);
    assert Assigns(b, q, 0);
    if q.isBanned.Some? { b := Add(b, q, 0, IsBanned, Boolean(q.isBanned.value)); }
    assert Assigns(b, q, 1);
    if q.emailVerified.Some? { b := Add(b, q, 1, EmailVerified, Boolean(q.emailVerified.value)); }
    assert Assigns(b, q, 2);
    if q.status.Some? { b := Add(b, q, 2, VerificationStatus, Text(q.status.value)); }
  }

  // ---------------------------------------------------------------------------------------------
  // The handler

  /** Exactly the rows with the id have exactly the supplied fields changed, and their time stamp. */
  ghost predicate Changed(rows: seq<User>, after: seq<User>, q: Request, id: Uuid, now: int) {
    |after| == |rows| && ChangedFirst(rows, |rows|, after, q, id, now)
  }

  ghost predicate ChangedFirst(rows: seq<User>, k: nat, after: seq<User>, q: Request, id: Uuid, now: int)
    requires k <= |rows|
  {
    && |after| == k
    && forall i :: 0 <= i < k ==>
         after[i] == if rows[i].id == id then Supplied(q, 3, rows[i]).(updatedAt := now) else rows[i]
  }

  lemma RowChanges(b: Builder, q: Request, u: User, id: Uuid, now: int)
    requires Assigns(b, q, 3) && Acceptable(q)
    ensures AssignFirst(u, b.items + [Touch], |b.items| + 1, b.args + [Id(id)], now)
         == Some(Supplied(q, 3, u).(updatedAt := now))
  {
    LastItem(u, b.items, Touch, b.args, Id(id), now);
  }

  lemma ExecutedRow(rows: seq<User>, k: nat, q: Query, id: Uuid, args: seq<Value>, now: int)
    requires 0 < k <= |rows|
    ensures
      var before := Executed(rows, k - 1, q, id, args, now);
      var row := AssignFirst(rows[k - 1], q.items, |q.items|, args, now);
      && (before.Some? && rows[k - 1].id != id ==>
            Executed(rows, k, q, id, args, now) == Some(before.value + [rows[k - 1]]))
      && (before.Some? && rows[k - 1].id == id && row.Some? ==>
            Executed(rows, k, q, id, args, now) == Some(before.value + [row.value]))
  {
  }

  lemma {:induction false} ExecutedChanges(rows: seq<User>, k: nat, b: Builder, q: Request, id: Uuid, now: int)
    requires k <= |rows| && Assigns(b, q, 3) && Acceptable(q)
    ensures
      var r := Executed(rows, k, Query(b.items + [Touch], b.argPos), id, b.args + [Id(id)], now);
      r.Some? && ChangedFirst(rows, k, r.value, q, id, now)
  {
    if k > 0 {
      ExecutedChanges(rows, k - 1, b, q, id, now);
      RowChanges(b, q, rows[k - 1], id, now);
      ExecutedRow(rows, k, Query(b.items + [Touch], b.argPos), id, b.args + [Id(id)], now);
    }
  }

  /** Field by field: what the request supplies, and otherwise what was there. */
  lemma ChangedFields(rows: seq<User>, after: seq<User>, q: Request, id: Uuid, now: int, i: nat)
    requires Changed(rows, after, q, id, now) && i < |rows|
    ensures |after| == |rows|
    ensures rows[i].id != id ==> after[i] == rows[i]
    ensures rows[i].id == id ==>
      && after[i].id == id && after[i].updatedAt == now
      && after[i].isBanned == (if q.isBanned.Some? then q.isBanned.value else rows[i].isBanned)
      && after[i].emailVerified == (if q.emailVerified.Some? then q.emailVerified.value else rows[i].emailVerified)
      && after[i].status == (if q.status.Some? then q.status.value else rows[i].status)
  {
  }

  /** The statuses the server takes. */
  lemma AcceptableStatuses(q: Request)
    ensures Acceptable(q) <==>
      (q.status.Some? ==> q.status.value in {"none", "pending", "in_review", "verified", "rejected"})
  {
  }

  datatype Reply = Updated | NoFields | NotFound | Failed

  class Handler {
    var users: seq<User>

    constructor (users: seq<User>)
      ensures this.users == users
    {
      this.users := users;
    }

    method UpdateStatus(id: Uuid, q: Request, now: int, fails: bool) returns (r: Reply)
      modifies this
      ensures r == if q == Request(None, None, None) then NoFields
                   else if fails || !Acceptable(q) then Failed
                   else if exists u :: u in old(users) && u.id == id then Updated
                   else NotFound
      ensures r == Updated ==> Changed(old(users), users, q, id, now)
      ensures r != Updated ==> users == old(users)
    {
      var b := Build(q);
      if b.items == [] { return NoFields; }
      var query, args := Query(b.items + [Touch], b.argPos), b.args + [Id(id)];
      var after := Execute(users, query, args, now);
      LongerAccepted(b.items, Touch, b.args, Id(id));
      if Acceptable(q) { ExecutedChanges(users, |users|, b, q, id, now); }
      if fails || after.None? { return Failed; }
      var rows := Affected(users, id);
      users := after.value;
      if rows == 0 { return NotFound; }
      return Updated;
    }
  }

  /** RowsAffected */
  function Affected(rows: seq<User>, id: Uuid): (n: nat)
    ensures n == 0 <==> forall u :: u in rows ==> u.id != id
  {
    var matching := set i | 0 <= i < |rows| && rows[i].id == id;
    assert forall i :: 0 <= i < |rows| && rows[i].id == id ==> i in matching;
    |matching|
  }
}
