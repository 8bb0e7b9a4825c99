/** Attachments of uploads to business entities: attaching, deleting, reordering, listing. */
module Attachments {
  import opened Base

  type Id(==, !new)
  type UploadId(==, !new)
  type UserId(==, !new)
  type Target(==, !new)

  datatype Attachment = Attachment(upload: UploadId, target: Target, sortOrder: int, createdAt: int)

  /** The attachments table by primary key. */
  type Table = map<Id, Attachment>

  function Of(t: Table, target: Target): set<Id> {
    set id | id in t && t[id].target == target
  }

  // ---------------------------------------------------------------------------------------------
  // Listing

  /** ORDER BY sort_order ASC, created_at ASC */
  predicate Before(a: Attachment, b: Attachment) {
    a.sortOrder < b.sortOrder || (a.sortOrder == b.sortOrder && a.createdAt <= b.createdAt)
  }

  /** A list the server may return for a target: each of its attachments once, ordered; attachments
      with equal keys may come in either order. */
  ghost predicate IsListing(t: Table, target: Target, list: seq<Id>) {
    && (forall i :: 0 <= i < |list| ==> list[i] in Of(t, target))
    && (forall id :: id in Of(t, target) ==> id in list)
    && (forall i, j :: 0 <= i < j < |list| ==> list[i] != list[j] && Before(t[list[i]], t[list[j]]))
  }

  /** A listing has each of the target's attachments once, and nothing else. */
  lemma ListingMembers(t: Table, target: Target, list: seq<Id>, id: Id)
    requires IsListing(t, target, list)
    ensures multiset(list)[id] == if id in t && t[id].target == target then 1 else 0
  {
    ListingIsDistinct(list);
    assert id in multiset(list) <==> id in list;
  }

  lemma {:induction false} ListingIsDistinct(list: seq<Id>)
    requires forall i, j :: 0 <= i < j < |list| ==> list[i] != list[j]
    ensures forall id :: id in list ==> multiset(list)[id] == 1
  {
    if list != [] {
      var front, last := list[..|list| - 1], list[|list| - 1];
      ListingIsDistinct(front);
      assert list == front + [last];
      assert last !in front;
    }
  }

  /** A listing is in ascending sort order, and among equal orders in the order of creation. */
  lemma ListingOrder(t: Table, target: Target, list: seq<Id>, i: nat, j: nat)
    requires IsListing(t, target, list) && i < j < |list|
    ensures list[i] in t && list[j] in t && t[list[i]].target == t[list[j]].target == target
    ensures t[list[i]].sortOrder <= t[list[j]].sortOrder
    ensures t[list[i]].sortOrder == t[list[j]].sortOrder ==> t[list[i]].createdAt <= t[list[j]].createdAt
  {
  }

  lemma {:induction false} SamePrefix(a: seq<Id>, b: seq<Id>, rank: Id -> int, n: nat)
    requires n <= |a|
    requires forall i, j :: 0 <= i < j < |a| ==> rank(a[i]) < rank(a[j])
    requires forall i, j :: 0 <= i < j < |b| ==> rank(b[i]) < rank(b[j])
    requires forall x :: x in a <==> x in b
    ensures n <= |b| && forall i :: 0 <= i < n ==> a[i] == b[i]
  {
    if n > 0 {
      SamePrefix(a, b, rank, n - 1);
      assert a[n - 1] in b;
      var i :| 0 <= i < |b| && b[i] == a[n - 1];
      assert i >= n - 1;
      assert b[n - 1] in a;
      var j :| 0 <= j < |a| && a[j] == b[n - 1];
    }
  }

  /** Two orders of the same elements by the same strict ranking are the same. */
  lemma SameOrder(a: seq<Id>, b: seq<Id>, rank: Id -> int)
    requires forall i, j :: 0 <= i < j < |a| ==> rank(a[i]) < rank(a[j])
    requires forall i, j :: 0 <= i < j < |b| ==> rank(b[i]) < rank(b[j])
    requires forall x :: x in a <==> x in b
    ensures a == b
  {
    SamePrefix(a, b, rank, |a|);
    SamePrefix(b, a, rank, |b|);
  }

  /** With strictly increasing sort orders there is only one listing. */
  lemma OnlyListing(t: Table, target: Target, only: seq<Id>, list: seq<Id>)
    requires forall i :: 0 <= i < |only| ==> only[i] in Of(t, target)
    requires forall id :: id in Of(t, target) ==> id in only
    requires forall i, j :: 0 <= i < j < |only| ==> t[only[i]].sortOrder < t[only[j]].sortOrder
    ensures IsListing(t, target, list) <==> list == only
  {
    if IsListing(t, target, list) {
      var rank := (id: Id) => if id in t then t[id].sortOrder else 0;
      forall i, j | 0 <= i < j < |list| ensures rank(list[i]) < rank(list[j]) {
        assert list[i] in only && list[j] in only;
        var k :| 0 <= k < |only| && only[k] == list[i];
        var m :| 0 <= m < |only| && only[m] == list[j];
        assert Before(t[list[i]], t[list[j]]) && k != m;
      }
      SameOrder(list, only, rank);
    }
  }

  // ---------------------------------------------------------------------------------------------
  // Reordering

  /** UPDATE attachments SET sort_order = $1 WHERE id = $2 */
  function SetOrder(t: Table, id: Id, order: int): Table {
    if id in t then t[id := t[id].(sortOrder := order)] else t
  }

  /** The table after the first `n` updates of Reorder. */
  function Reordered(t: Table, ids: seq<Id>, n: nat): Table
    requires n <= |ids|
  {
    if n == 0 then t else SetOrder(Reordered(t, ids, n - 1), ids[n - 1], n - 1)
  }

  /** The last of the first `n` positions of `ids` that holds `id`, or -1. */
  function LastIndex(ids: seq<Id>, n: nat, id: Id): (k: int)
    requires n <= |ids|
    ensures -1 <= k < n && (k >= 0 ==> ids[k] == id)
    ensures forall i :: k < i < n ==> ids[i] != id
  {
    if n == 0 then -1 else if ids[n - 1] == id then n - 1 else LastIndex(ids, n - 1, id)
  }

  /** Reordering touches sort orders only: each attachment ends with its last position in `ids`. */
  lemma {:induction false} ReorderedBy(t: Table, ids: seq<Id>, n: nat, id: Id)
    requires n <= |ids|
    ensures Reordered(t, ids, n).Keys == t.Keys
    ensures id in t ==>
      var last := LastIndex(ids, n, id);
      Reordered(t, ids, n)[id] == t[id].(sortOrder := if last >= 0 then last else t[id].sortOrder)
  {
    if n > 0 { ReorderedBy(t, ids, n - 1, id); }
  }

  /** The target's attachments among the first `n` of `ids`, each at its last occurrence. */
  function Picked(t: Table, target: Target, ids: seq<Id>, n: nat): (r: seq<Id>)
    requires n <= |ids|
    ensures forall i :: 0 <= i < |r| ==> r[i] in Of(t, target) && LastIndex(ids, |ids|, r[i]) < n
    ensures forall i, j :: 0 <= i < j < |r| ==> LastIndex(ids, |ids|, r[i]) < LastIndex(ids, |ids|, r[j])
  {
    if n == 0 then [] else
      var r := Picked(t, target, ids, n - 1);
      if ids[n - 1] in Of(t, target) && LastIndex(ids, |ids|, ids[n - 1]) == n - 1 then r + [ids[n - 1]] else r
  }

  lemma {:induction false} PickedAll(t: Table, target: Target, ids: seq<Id>, n: nat, id: Id)
    requires n <= |ids| && id in Of(t, target) && 0 <= LastIndex(ids, |ids|, id) < n
    ensures id in Picked(t, target, ids, n)
  {
    if LastIndex(ids, |ids|, id) < n - 1 { PickedAll(t, target, ids, n - 1, id); }
  }

  /** Reorder, then list: for every target all of whose attachments occur in `ids`, the only listing
      is the target's part of `ids` by last occurrence, whatever the orders were before. */
  lemma ReorderThenList(t: Table, ids: seq<Id>, target: Target, list: seq<Id>)
    requires forall id :: id in Of(t, target) ==> id in ids
    ensures IsListing(Reordered(t, ids, |ids|), target, list) <==> list == Picked(t, target, ids, |ids|)
    ensures Of(Reordered(t, ids, |ids|), target) == Of(t, target)
  {
    var after, picked := Reordered(t, ids, |ids|), Picked(t, target, ids, |ids|);
    forall id ensures id in Of(after, target) <==> id in Of(t, target) {
      ReorderedBy(t, ids, |ids|, id);
    }
    forall id | id in Of(t, target) ensures id in picked && after[id].sortOrder == LastIndex(ids, |ids|, id) {
      ReorderedBy(t, ids, |ids|, id);
      PickedAll(t, target, ids, |ids|, id);
    }
    OnlyListing(after, target, picked, list);
  }

  // ---------------------------------------------------------------------------------------------
  // Attaching

  /** One call of Attach: the uploads, and for each the id and clock reading its row will get, and
      whether its lookup or its insert fails. */
  datatype Request = Request(caller: UserId, target: Target, uploads: seq<UploadId>, newIds: seq<Id>, clock: seq<int>,
                             lookupFails: set<nat>, insertFails: set<nat>)

  predicate WellFormed(q: Request) {
    |q.newIds| == |q.clock| == |q.uploads|
  }

  datatype Reply =
    | Attached(ids: seq<Id>)
    | CountFailed
    | UploadMissing
    | NotOwner
    | InsertFailed
    | NotFound
    | Done
    | Failed

  datatype DeleteFaults = DeleteFaults(lookup: bool, upload: bool, delete: bool)

  /** The table after the first `n` rows of a request, numbered from `count` on. */
  function AttachFirst(t: Table, q: Request, count: int, n: nat): Table
    requires WellFormed(q) && n <= |q.uploads|
  {
    if n == 0 then t
    else
      var a := Attachment(q.uploads[n - 1], q.target, count + n - 1, q.clock[n - 1]);
      AttachFirst(t, q, count, n - 1)[q.newIds[n - 1] := a]
  }

  /** The unique constraint on (upload, target). */
  predicate AlreadyAttached(t: Table, upload: UploadId, target: Target) {
    exists id :: id in t && t[id].upload == upload && t[id].target == target
  }

  /** Why upload `k` of the request cannot be attached to the table as it is then, if it cannot. */
  function Obstacle(authors: map<UploadId, UserId>, t: Table, q: Request, k: nat): Option<Reply>
    requires WellFormed(q) && k < |q.uploads|
  {
    if k in q.lookupFails || q.uploads[k] !in authors then Some(UploadMissing)
    else if authors[q.uploads[k]] != q.caller then Some(NotOwner)
    else if k in q.insertFails || q.newIds[k] in t || AlreadyAttached(t, q.uploads[k], q.target) then Some(InsertFailed)
    else None
  }

  /** How far a request gets: to its first obstacle. */
  function Progress(authors: map<UploadId, UserId>, t: Table, q: Request, count: int, n: nat): (k: nat)
    requires WellFormed(q) && n <= |q.uploads|
    ensures k <= n
    ensures forall j :: 0 <= j < k ==> Obstacle(authors, AttachFirst(t, q, count, j), q, j).None?
    ensures k < n ==> Obstacle(authors, AttachFirst(t, q, count, k), q, k).Some?
  {
    if n == 0 then 0 else
      var k := Progress(authors, t, q, count, n - 1);
      if k == n - 1 && Obstacle(authors, AttachFirst(t, q, count, k), q, k).None? then n else k
  }

  class Service {
    var authors: map<UploadId, UserId>
    var attachments: Table

    constructor (authors: map<UploadId, UserId>)
      ensures this.authors == authors && attachments == map[]
    {
      this.authors := authors;
      attachments := map[];
    }

    /** A request that fails has attached exactly the uploads before the first obstacle, in order. */
    method Attach(q: Request, countFails: bool) returns (r: Reply)
      requires WellFormed(q)
      modifies this`attachments
      ensures countFails ==> r == CountFailed && attachments == old(attachments)
      ensures !countFails ==>
        var count := |Of(old(attachments), q.target)|;
        var k := Progress(authors, old(attachments), q, count, |q.uploads|);
        && attachments == AttachFirst(old(attachments), q, count, k)
        && r == if k == |q.uploads| then Attached(q.newIds) else Obstacle(authors, attachments, q, k).value
    {
      if countFails { return CountFailed; }
      ghost var was := attachments;
      var count := |Of(attachments, q.target)|;
      var results := [];
      for i := 0 to |q.uploads|
        invariant attachments == AttachFirst(was, q, count, i)
        invariant Progress(authors, was, q, count, i) == i
        invariant results == q.newIds[..i]
      {
        ghost var stopped := Obstacle(authors, attachments, q, i);
        if i in q.lookupFails || q.uploads[i] !in authors {
          StopsAt(authors, was, q, count, i, |q.uploads|);
          return UploadMissing;
        }
        if authors[q.uploads[i]] != q.caller {
          StopsAt(authors, was, q, count, i, |q.uploads|);
          return NotOwner;
        }
        var a := Attachment(q.uploads[i], q.target, count + i, q.clock[i]);
        if i in q.insertFails || q.newIds[i] in attachments || AlreadyAttached(attachments, a.upload, a.target) {
          StopsAt(authors, was, q, count, i, |q.uploads|);
          return InsertFailed;
        }
        attachments := attachments[q.newIds[i] := a];
        results := results + [q.newIds[i]];
      }
      return Attached(results);
    }

    /** Reorder stops at the first failing update. */
    method Reorder(ids: seq<Id>, failAt: Option<nat>) returns (ok: bool)
      modifies this`attachments
      ensures ok == (failAt.None? || failAt.value >= |ids|)
      ensures attachments == Reordered(old(attachments), ids, if ok then |ids| else failAt.value)
    {
      for i := 0 to |ids|
        invariant failAt.Some? ==> i <= failAt.value
        invariant attachments == Reordered(old(attachments), ids, i)
      {
        if failAt == Some(i) { return false; }
        if ids[i] in attachments { attachments := attachments[ids[i] := attachments[ids[i]].(sortOrder := i)]; }
      }
      return true;
    }

    /** Only the author of the upload may detach it.  The lookup, reading the upload, and the delete
        may each fail. */
    method Delete(id: Id, caller: UserId, f: DeleteFaults) returns (r: Reply)
      modifies this`attachments
      ensures f.lookup ==> r == Failed
      ensures !f.lookup && id !in old(attachments) ==> r == NotFound
      ensures !f.lookup && id in old(attachments) ==>
        var upload := old(attachments)[id].upload;
        r == if f.upload || upload !in authors then UploadMissing
             else if authors[upload] != caller then NotOwner
             else if f.delete then Failed
             else Done
      ensures attachments == if r == Done then old(attachments) - {id} else old(attachments)
    {
      if f.lookup { return Failed; }
      if id !in attachments { return NotFound; }
      var upload := attachments[id].upload;
      if f.upload || upload !in authors { return UploadMissing; }
      if authors[upload] != caller { return NotOwner; }
      if f.delete { return Failed; }
      attachments := attachments - {id};
      return Done;
    }

    /** The server's listing, without the attachments whose upload cannot be read. */
    method ListByTarget(target: Target, rows: seq<Id>, unreadable: set<UploadId>) returns (list: seq<Id>)
      requires IsListing(attachments, target, rows)
      ensures IsListing(Readable(attachments, authors.Keys - unreadable), target, list)
    {
      list := [];
      ghost var shown := Readable(attachments, authors.Keys - unreadable);
      for i := 0 to |rows|
        invariant forall k :: 0 <= k < |list| ==> list[k] in Of(shown, target) && list[k] in rows[..i]
        invariant forall k :: 0 <= k < i && rows[k] in shown ==> rows[k] in list
        invariant forall a, b :: 0 <= a < b < |list| ==> list[a] != list[b] && Before(shown[list[a]], shown[list[b]])
      {
        if attachments[rows[i]].upload in authors && attachments[rows[i]].upload !in unreadable {
          list := list + [rows[i]];
        }
      }
      forall id | id in Of(shown, target) ensures id in list {
        assert id in Of(attachments, target);
        var k :| 0 <= k < |rows| && rows[k] == id;
      }
    }
  }

  /** The attachments of the target whose upload is one of these, once each. */
  lemma ReadableListing(t: Table, uploads: set<UploadId>, target: Target, list: seq<Id>, id: Id)
    requires IsListing(Readable(t, uploads), target, list)
    ensures multiset(list)[id] == if id in t && t[id].target == target && t[id].upload in uploads then 1 else 0
  {
    ListingMembers(Readable(t, uploads), target, list, id);
  }

  function Readable(t: Table, uploads: set<UploadId>): Table {
    map id | id in t && t[id].upload in uploads :: t[id]
  }

  /** Once stopped, a request makes no further progress. */
  lemma {:induction false} StopsAt(authors: map<UploadId, UserId>, t: Table, q: Request, count: int, k: nat, n: nat)
    requires WellFormed(q) && k < n <= |q.uploads|
    requires Progress(authors, t, q, count, k) == k && Obstacle(authors, AttachFirst(t, q, count, k), q, k).Some?
    ensures Progress(authors, t, q, count, n) == k
  {
    if k < n - 1 { StopsAt(authors, t, q, count, k, n - 1); }
  }

  // ---------------------------------------------------------------------------------------------
  // Targets that are only ever attached to

  datatype Event =
    | Attaching(q: Request, countFails: bool)
    | Reordering(ids: seq<Id>, updates: nat)
    | Deleting(id: Id)

  /** How many rows an Attach creates. */
  function Created(authors: map<UploadId, UserId>, t: Table, q: Request, countFails: bool): (k: nat)
    requires WellFormed(q)
    ensures k <= |q.uploads|
  {
    if countFails then 0 else Progress(authors, t, q, |Of(t, q.target)|, |q.uploads|)
  }

  function After(authors: map<UploadId, UserId>, t: Table, e: Event): Table {
    match e
    case Attaching(q, countFails) =>
      if WellFormed(q) then AttachFirst(t, q, |Of(t, q.target)|, Created(authors, t, q, countFails)) else t
    case Reordering(ids, updates) => Reordered(t, ids, if updates <= |ids| then updates else |ids|)
    case Deleting(id) => t - {id}
  }

  function Run(authors: map<UploadId, UserId>, h: History<Event>): Table {
    match h
    case Start => map[]
    case Then(before, e) => After(authors, Run(authors, before), e)
  }

  /** Nothing but Attach touches the target's rows; other targets' rows are free. */
  ghost predicate OnlyAttached(authors: map<UploadId, UserId>, h: History<Event>, target: Target) {
    match h
    case Start => true
    case Then(before, e) =>
      && OnlyAttached(authors, before, target)
      && (e.Deleting? ==> e.id !in Of(Run(authors, before), target))
      && (e.Reordering? ==> forall id :: id in Of(Run(authors, before), target) ==> id !in e.ids)
  }

  function Logged(log: seq<Id>, q: Request, n: nat): seq<Id>
    requires WellFormed(q) && n <= |q.uploads|
  {
    if n == 0 then log else Logged(log, q, n - 1) + [q.newIds[n - 1]]
  }

  /** The target's attachments in the order in which they were created. */
  function CreationLog(authors: map<UploadId, UserId>, h: History<Event>, target: Target): seq<Id> {
    match h
    case Start => []
    case Then(before, e) =>
      var log := CreationLog(authors, before, target);
      if e.Attaching? && WellFormed(e.q) && e.q.target == target
      then Logged(log, e.q, Created(authors, Run(authors, before), e.q, e.countFails))
      else log
  }

  /** The target's rows are those of the log, and each has its position in the log as sort order. */
  ghost predicate Numbered(t: Table, target: Target, log: seq<Id>) {
    && (forall i :: 0 <= i < |log| ==> log[i] in Of(t, target) && t[log[i]].sortOrder == i)
    && (forall id :: id in Of(t, target) ==> id in log)
  }

  lemma {:induction false} CountDistinct(ids: set<Id>, log: seq<Id>)
    requires forall i :: 0 <= i < |log| ==> log[i] in ids
    requires forall i, j :: 0 <= i < j < |log| ==> log[i] != log[j]
    requires forall id :: id in ids ==> id in log
    ensures |ids| == |log|
  {
    if log == [] {
      assert ids == {};
    } else {
      var last := log[|log| - 1];
      CountDistinct(ids - {last}, log[..|log| - 1]);
    }
  }

  lemma NumberedCounts(t: Table, target: Target, log: seq<Id>)
    requires Numbered(t, target, log)
    ensures |Of(t, target)| == |log|
  {
    forall i, j | 0 <= i < j < |log| ensures log[i] != log[j] {
      assert t[log[i]].sortOrder != t[log[j]].sortOrder;
    }
    CountDistinct(Of(t, target), log);
  }

  lemma {:induction false} AttachNumbers(authors: map<UploadId, UserId>, t: Table, q: Request, log: seq<Id>, n: nat)
    requires WellFormed(q) && Numbered(t, q.target, log) && |log| == |Of(t, q.target)|
    requires n <= Created(authors, t, q, false)
    ensures |Logged(log, q, n)| == |log| + n
    ensures Numbered(AttachFirst(t, q, |log|, n), q.target, Logged(log, q, n))
  {
    if n > 0 {
      AttachNumbers(authors, t, q, log, n - 1);
      assert Obstacle(authors, AttachFirst(t, q, |log|, n - 1), q, n - 1).None?;
    }
  }

  lemma {:induction false} AttachElsewhere(authors: map<UploadId, UserId>, t: Table, q: Request, n: nat,
                                           target: Target, log: seq<Id>)
    requires WellFormed(q) && q.target != target && Numbered(t, target, log)
    requires n <= Created(authors, t, q, false)
    ensures Numbered(AttachFirst(t, q, |Of(t, q.target)|, n), target, log)
  {
    if n > 0 {
      AttachElsewhere(authors, t, q, n - 1, target, log);
      assert Obstacle(authors, AttachFirst(t, q, |Of(t, q.target)|, n - 1), q, n - 1).None?;
    }
  }

  lemma ReorderElsewhere(t: Table, ids: seq<Id>, n: nat, target: Target, log: seq<Id>)
    requires n <= |ids| && Numbered(t, target, log)
    requires forall id :: id in Of(t, target) ==> id !in ids
    ensures Numbered(Reordered(t, ids, n), target, log)
  {
    var after := Reordered(t, ids, n);
    forall id
      ensures id in after <==> id in t
      ensures id in t ==> after[id].target == t[id].target
      ensures id in Of(t, target) ==> after[id] == t[id]
    {
      ReorderedBy(t, ids, n, id);
    }
  }

  /** Over every run, partial attaches included, a target touched by Attach alone has the sort orders
      0..n-1 and only one listing, which is creation order. */
  lemma AttachedInCreationOrder(authors: map<UploadId, UserId>, h: History<Event>, target: Target, list: seq<Id>)
    requires OnlyAttached(authors, h, target)
    ensures Numbered(Run(authors, h), target, CreationLog(authors, h, target))
    ensures
      var t, log := Run(authors, h), CreationLog(authors, h, target);
      forall i :: 0 <= i < |log| ==> log[i] in t && t[log[i]].target == target && t[log[i]].sortOrder == i
    ensures IsListing(Run(authors, h), target, list) <==> list == CreationLog(authors, h, target)
  {
    SortOrdersAreContiguous(authors, h, target);
    OnlyListing(Run(authors, h), target, CreationLog(authors, h, target), list);
  }

  lemma {:induction false} SortOrdersAreContiguous(authors: map<UploadId, UserId>, h: History<Event>, target: Target)
    requires OnlyAttached(authors, h, target)
    ensures Numbered(Run(authors, h), target, CreationLog(authors, h, target))
  {
    match h
    case Start =>
    case Then(before, e) =>
      SortOrdersAreContiguous(authors, before, target);
      var t, log := Run(authors, before), CreationLog(authors, before, target);
      match e {
        case Attaching(q, countFails) =>
          if WellFormed(q) {
            if q.target == target {
              NumberedCounts(t, target, log);
              AttachNumbers(authors, t, q, log, Created(authors, t, q, countFails));
            } else {
              AttachElsewhere(authors, t, q, Created(authors, t, q, countFails), target, log);
            }
          }
        case Reordering(ids, updates) =>
          ReorderElsewhere(t, ids, if updates <= |ids| then updates else |ids|, target, log);
        case Deleting(id) =>
      }
  }

  // ---------------------------------------------------------------------------------------------
  // When what is attached next is listed last

  /** The order of the rows with equal keys is the server's choice; this one puts `id` last. */
  function KeyOf(t: Table, id: Id): (int, int) {
    if id in t then (t[id].sortOrder, t[id].createdAt) else (0, 0)
  }

  predicate Less(a: (int, int), b: (int, int)) {
    a.0 < b.0 || (a.0 == b.0 && a.1 < b.1)
  }

  /** ORDER BY, with `late` after all rows of the same key. */
  predicate NotAfter(t: Table, late: Id, a: Id, b: Id) {
    Less(KeyOf(t, a), KeyOf(t, b)) || (KeyOf(t, a) == KeyOf(t, b) && (a == late ==> b == late))
  }

  lemma Greatest(t: Table, late: Id, ids: set<Id>) returns (m: Id)
    requires ids != {}
    ensures m in ids && forall id :: id in ids ==> NotAfter(t, late, id, m)
  {
    var some :| some in ids;
    var rest := ids - {some};
    assert forall id :: id in ids ==> id == some || id in rest;
    if rest == {} { return some; }
    var other := Greatest(t, late, rest);
    m := if NotAfter(t, late, other, some) then some else other;
    forall id | id in ids ensures NotAfter(t, late, id, m) {
      if id != some { assert NotAfter(t, late, id, other); }
    }
  }

  lemma {:induction false} SomeOrder(t: Table, late: Id, ids: set<Id>) returns (list: seq<Id>)
    ensures forall i :: 0 <= i < |list| ==> list[i] in ids
    ensures forall id :: id in ids ==> id in list
    ensures forall i, j :: 0 <= i < j < |list| ==> list[i] != list[j] && NotAfter(t, late, list[i], list[j])
  {
    if ids == {} { return []; }
    var m := Greatest(t, late, ids);
    var rest := SomeOrder(t, late, ids - {m});
    list := rest + [m];
  }

  /** There is a listing in which `late` comes after every row of the same key. */
  lemma ListingWithLate(t: Table, target: Target, late: Id) returns (list: seq<Id>)
    ensures IsListing(t, target, list)
    ensures forall i, j :: 0 <= i < j < |list| ==> NotAfter(t, late, list[i], list[j])
  {
    list := SomeOrder(t, late, Of(t, target));
  }

  /** The list is a listing of the target followed by `news`. */
  ghost predicate EndsWith(t: Table, target: Target, news: seq<Id>, list: seq<Id>) {
    |news| <= |list| && list[|list| - |news|..] == news && IsListing(t, target, list[..|list| - |news|])
  }

  /** Every listing after the first `n` rows of the request is one from before, followed by them. */
  ghost predicate ListedLast(t: Table, q: Request, n: nat)
    requires WellFormed(q) && n <= |q.uploads|
  {
    forall list :: IsListing(AttachFirst(t, q, |Of(t, q.target)|, n), q.target, list) ==>
      EndsWith(t, q.target, q.newIds[..n], list)
  }

  /** The row sorts strictly before the request's first one. */
  predicate SortsBefore(a: Attachment, count: int, clock: int) {
    a.sortOrder < count || (a.sortOrder == count && a.createdAt < clock)
  }

  /** A row that sorts after all others is at the end of every listing. */
  lemma GreatestIsLast(t: Table, target: Target, id: Id, a: Attachment, list: seq<Id>)
    requires id !in t && a.target == target
    requires forall k :: k in Of(t, target) ==> SortsBefore(t[k], a.sortOrder, a.createdAt)
    requires IsListing(t[id := a], target, list)
    ensures list != [] && list[|list| - 1] == id && IsListing(t, target, list[..|list| - 1])
  {
    var after := t[id := a];
    assert id in Of(after, target);
    var i :| 0 <= i < |list| && list[i] == id;
    forall j | 0 <= j < |list| && list[j] != id ensures j < i {
      assert list[j] in Of(t, target);
    }
    forall k | k in Of(t, target) ensures k in list[..|list| - 1] {
      assert k in Of(after, target);
    }
  }

  /** The table while a request's rows are created, and what holds of it. */
  lemma {:induction false} AttachSortsAfter(authors: map<UploadId, UserId>, t: Table, q: Request, n: nat)
    requires WellFormed(q) && n < |q.uploads| && n < Created(authors, t, q, false)
    requires forall k :: k in Of(t, q.target) ==> SortsBefore(t[k], |Of(t, q.target)|, q.clock[0])
    ensures
      var count := |Of(t, q.target)|;
      var now := AttachFirst(t, q, count, n);
      && q.newIds[n] !in now
      && forall k :: k in Of(now, q.target) ==> SortsBefore(now[k], count + n, q.clock[n])
  {
    assert Obstacle(authors, AttachFirst(t, q, |Of(t, q.target)|, n), q, n).None?;
    if n > 0 {
      AttachSortsAfter(authors, t, q, n - 1);
    }
  }

  lemma EndsWithNothing(t: Table, target: Target, list: seq<Id>)
    requires IsListing(t, target, list)
    ensures EndsWith(t, target, [], list)
  {
    assert list[..|list|] == list;
  }

  lemma OneMoreId(ids: seq<Id>, n: nat)
    requires 0 < n <= |ids|
    ensures ids[..n] == ids[..n - 1] + [ids[n - 1]]
  {
  }

  lemma EndsWithOneMore(t: Table, target: Target, news: seq<Id>, front: seq<Id>, id: Id)
    requires EndsWith(t, target, news, front)
    ensures EndsWith(t, target, news + [id], front + [id])
  {
    var list, p := front + [id], |front| - |news|;
    assert list[p..] == front[p..] + [id];
    assert list[..p] == front[..p];
  }

  /** In such a list every earlier attachment stands before the first newcomer. */
  lemma EarlierInFront(t: Table, target: Target, news: seq<Id>, list: seq<Id>, id: Id) returns (i: nat)
    requires EndsWith(t, target, news, list) && news != [] && id in Of(t, target)
    ensures i < |list| - |news| && list[i] == id && list[|list| - |news|] == news[0]
  {
    var p := |list| - |news|;
    assert list[p..][0] == list[p];
    i :| 0 <= i < |list[..p]| && list[..p][i] == id;
  }

  lemma NewestComesLast(authors: map<UploadId, UserId>, t: Table, q: Request, n: nat, list: seq<Id>)
    returns (front: seq<Id>)
    requires WellFormed(q) && 0 < n <= Created(authors, t, q, false)
    requires forall k :: k in Of(t, q.target) ==> SortsBefore(t[k], |Of(t, q.target)|, q.clock[0])
    requires IsListing(AttachFirst(t, q, |Of(t, q.target)|, n), q.target, list)
    ensures list == front + [q.newIds[n - 1]]
    ensures IsListing(AttachFirst(t, q, |Of(t, q.target)|, n - 1), q.target, front)
  {
    var count := |Of(t, q.target)|;
    var row := Attachment(q.uploads[n - 1], q.target, count + n - 1, q.clock[n - 1]);
    AttachSortsAfter(authors, t, q, n - 1);
    GreatestIsLast(AttachFirst(t, q, count, n - 1), q.target, q.newIds[n - 1], row, list);
    front := list[..|list| - 1];
  }

  lemma {:induction false} NewcomersComeLast(authors: map<UploadId, UserId>, t: Table, q: Request, n: nat,
                                             list: seq<Id>)
    requires WellFormed(q) && n <= Created(authors, t, q, false)
    requires n > 0 ==> forall k :: k in Of(t, q.target) ==> SortsBefore(t[k], |Of(t, q.target)|, q.clock[0])
    requires IsListing(AttachFirst(t, q, |Of(t, q.target)|, n), q.target, list)
    ensures EndsWith(t, q.target, q.newIds[..n], list)
  {
    if n == 0 {
      EndsWithNothing(t, q.target, list);
      assert q.newIds[..0] == [];
      return;
    }
    var front := NewestComesLast(authors, t, q, n, list);
    NewcomersComeLast(authors, t, q, n - 1, front);
    EndsWithOneMore(t, q.target, q.newIds[..n - 1], front, q.newIds[n - 1]);
    OneMoreId(q.newIds, n);
  }

  lemma {:induction false} AttachKeeps(authors: map<UploadId, UserId>, t: Table, q: Request, n: nat)
    requires WellFormed(q) && n <= Created(authors, t, q, false)
    ensures
      var after := AttachFirst(t, q, |Of(t, q.target)|, n);
      && (forall k :: k in t ==> k in after && after[k] == t[k])
      && (n > 0 ==> q.newIds[0] !in t && q.newIds[0] in after
                    && after[q.newIds[0]] == Attachment(q.uploads[0], q.target, |Of(t, q.target)|, q.clock[0]))
  {
    if n > 0 {
      AttachKeeps(authors, t, q, n - 1);
      assert Obstacle(authors, AttachFirst(t, q, |Of(t, q.target)|, n - 1), q, n - 1).None?;
    }
  }

  lemma LateRowStaysBehind(authors: map<UploadId, UserId>, t: Table, q: Request, n: nat, late: Id)
    requires WellFormed(q) && 0 < n <= Created(authors, t, q, false)
    requires late in Of(t, q.target) && !SortsBefore(t[late], |Of(t, q.target)|, q.clock[0])
    ensures !ListedLast(t, q, n)
  {
    var after := AttachFirst(t, q, |Of(t, q.target)|, n);
    AttachKeeps(authors, t, q, n);
    var list := ListingWithLate(after, q.target, late);
    assert late in Of(after, q.target) && q.newIds[0] in Of(after, q.target);
    if EndsWith(t, q.target, q.newIds[..n], list) {
      var i := EarlierInFront(t, q.target, q.newIds[..n], list, late);
    }
  }

  /** For any table and any number of created rows: in every listing they come last, in the order in
      which they were attached, if and only if every earlier row of the target has a sort order below
      their number, or equal to it and an earlier time. */
  lemma ListedLastIff(authors: map<UploadId, UserId>, t: Table, q: Request, n: nat)
    requires WellFormed(q) && 0 < n <= Created(authors, t, q, false)
    ensures ListedLast(t, q, n) <==>
      forall id :: id in Of(t, q.target) ==> SortsBefore(t[id], |Of(t, q.target)|, q.clock[0])
  {
    if forall id :: id in Of(t, q.target) ==> SortsBefore(t[id], |Of(t, q.target)|, q.clock[0]) {
      forall list | IsListing(AttachFirst(t, q, |Of(t, q.target)|, n), q.target, list)
        ensures EndsWith(t, q.target, q.newIds[..n], list)
      {
        NewcomersComeLast(authors, t, q, n, list);
      }
    } else {
      var late :| late in Of(t, q.target) && !SortsBefore(t[late], |Of(t, q.target)|, q.clock[0]);
      LateRowStaysBehind(authors, t, q, n, late);
    }
  }

  /** Deletes break creation order: with the first two of three attachments gone, the next upload is
      numbered 1, below the remaining one's 2, and is not listed last. */
  lemma DeletesBreakCreationOrder(authors: map<UploadId, UserId>, t: Table, q: Request, a: Id, b: Id, c: Id)
    requires Numbered(t, q.target, [a, b, c]) && WellFormed(q)
    requires Created(authors, t - {a} - {b}, q, false) > 0
    ensures !ListedLast(t - {a} - {b}, q, 1)
  {
    var log, left := [a, b, c], t - {a} - {b};
    assert t[log[0]].sortOrder == 0 && t[log[1]].sortOrder == 1 && t[log[2]].sortOrder == 2;
    forall id ensures id in Of(left, q.target) <==> id in {c} {
      if id in Of(t, q.target) { assert id in log; }
    }
    assert Of(left, q.target) == {c};
    ListedLastIff(authors, left, q, 1);
  }

  // ---------------------------------------------------------------------------------------------
  // Whose uploads are attached

  /** The table after an Attach. */
  function AfterAttach(authors: map<UploadId, UserId>, t: Table, q: Request): Table
    requires WellFormed(q)
  {
    AttachFirst(t, q, |Of(t, q.target)|, Created(authors, t, q, false))
  }

  lemma {:induction false} FirstRows(authors: map<UploadId, UserId>, t: Table, q: Request, n: nat, id: Id)
    requires WellFormed(q) && n <= Created(authors, t, q, false)
    ensures
      var after := AttachFirst(t, q, |Of(t, q.target)|, n);
      && (id in t ==> id in after && after[id] == t[id])
      && (id in after && id !in t ==>
            exists k :: 0 <= k < n && id == q.newIds[k] && NamedBy(authors, q, k, after[id], |Of(t, q.target)|))
      && (forall k :: 0 <= k < n ==> q.newIds[k] !in t && q.newIds[k] in after)
  {
    if n > 0 {
      FirstRows(authors, t, q, n - 1, id);
      var count := |Of(t, q.target)|;
      FirstRows(authors, t, q, n - 1, q.newIds[n - 1]);
      assert Obstacle(authors, AttachFirst(t, q, count, n - 1), q, n - 1).None?;
      var after := AttachFirst(t, q, count, n);
      assert NamedBy(authors, q, n - 1, after[q.newIds[n - 1]], count);
    }
  }

  /** The row is the one the request names at position `k`, and its upload is the caller's own. */
  predicate NamedBy(authors: map<UploadId, UserId>, q: Request, k: nat, a: Attachment, count: int)
    requires WellFormed(q) && k < |q.uploads|
  {
    && a.upload in authors && authors[a.upload] == q.caller
    && a.upload == q.uploads[k] && a.target == q.target && a.sortOrder == count + k && a.createdAt == q.clock[k]
  }

  /** Every row an Attach creates has an upload whose author is the caller, and is the upload the request
      names at that position; every earlier row stays. */
  lemma AttachedUploadsAreOwn(authors: map<UploadId, UserId>, t: Table, q: Request, id: Id)
    requires WellFormed(q)
    ensures
      var after := AfterAttach(authors, t, q);
      && (id in t ==> id in after && after[id] == t[id])
      && (id in after && id !in t ==>
            && after[id].upload in authors && authors[after[id].upload] == q.caller
            && exists k :: 0 <= k < |q.uploads| && id == q.newIds[k] && after[id].upload == q.uploads[k]
                           && after[id].target == q.target)
  {
    FirstRows(authors, t, q, Created(authors, t, q, false), id);
  }

  /** Some Attach of the run by this caller named the upload for the attachment. */
  predicate AttachedBy(h: History<Event>, id: Id, upload: UploadId, caller: UserId) {
    h.Then? && (AttachedBy(h.before, id, upload, caller)
                || (&& h.last.Attaching? && h.last.q.caller == caller && WellFormed(h.last.q)
                    && exists k ::
                         0 <= k < |h.last.q.uploads| && h.last.q.newIds[k] == id && h.last.q.uploads[k] == upload))
  }

  /** In every run every stored attachment was attached by its upload's author. */
  lemma {:induction false} AttachedByAuthors(authors: map<UploadId, UserId>, h: History<Event>, id: Id)
    requires id in Run(authors, h)
    ensures
      var upload := Run(authors, h)[id].upload;
      upload in authors && AttachedBy(h, id, upload, authors[upload])
  {
    var t := Run(authors, h.before);
    match h.last
    case Attaching(q, countFails) =>
      if WellFormed(q) && !countFails { AttachedUploadsAreOwn(authors, t, q, id); }
      if id in t { AttachedByAuthors(authors, h.before, id); }
    case Reordering(ids, updates) =>
      ReorderedBy(t, ids, if updates <= |ids| then updates else |ids|, id);
      AttachedByAuthors(authors, h.before, id);
    case Deleting(_) => AttachedByAuthors(authors, h.before, id);
  }

  /** Nothing stands in the way of the first `n` uploads: they are the caller's, different and not
      attached to the target yet, their ids are new and different, and nothing fails. */
  predicate UnobstructedFirst(authors: map<UploadId, UserId>, t: Table, q: Request, n: nat)
    requires WellFormed(q) && n <= |q.uploads|
  {
    && (forall k :: 0 <= k < n ==>
          && q.uploads[k] in authors && authors[q.uploads[k]] == q.caller && q.newIds[k] !in t
          && k !in q.lookupFails && k !in q.insertFails)
    && (forall j, k :: 0 <= j < k < n ==> q.uploads[j] != q.uploads[k] && q.newIds[j] != q.newIds[k])
    && (forall k, id :: 0 <= k < n && id in t ==> t[id].target != q.target || t[id].upload != q.uploads[k])
  }

  predicate Unobstructed(authors: map<UploadId, UserId>, t: Table, q: Request)
    requires WellFormed(q)
  {
    UnobstructedFirst(authors, t, q, |q.uploads|)
  }

  /** The first `n` uploads meet no obstacle. */
  ghost predicate Clear(authors: map<UploadId, UserId>, t: Table, q: Request, count: int, n: nat)
    requires WellFormed(q) && n <= |q.uploads|
  {
    forall j :: 0 <= j < n ==> Obstacle(authors, AttachFirst(t, q, count, j), q, j).None?
  }

  lemma {:induction false} ClearIsProgress(authors: map<UploadId, UserId>, t: Table, q: Request, count: int, n: nat)
    requires WellFormed(q) && n <= |q.uploads|
    ensures Progress(authors, t, q, count, n) == n <==> Clear(authors, t, q, count, n)
  {
    if n > 0 { ClearIsProgress(authors, t, q, count, n - 1); }
  }

  /** Their rows are stored as the request names them, beside the earlier ones. */
  lemma {:induction false} ClearRows(authors: map<UploadId, UserId>, t: Table, q: Request, count: int, n: nat)
    requires WellFormed(q) && n <= |q.uploads| && Clear(authors, t, q, count, n)
    ensures
      var after := AttachFirst(t, q, count, n);
      && (forall id :: id in t ==> id in after && after[id] == t[id])
      && (forall k :: 0 <= k < n ==>
            q.newIds[k] in after && after[q.newIds[k]] == Attachment(q.uploads[k], q.target, count + k, q.clock[k]))
  {
    if n > 0 { ClearRows(authors, t, q, count, n - 1); }
  }

  lemma {:induction false} OnlyTheseRows(t: Table, q: Request, count: int, n: nat, id: Id)
    requires WellFormed(q) && n <= |q.uploads| && id in AttachFirst(t, q, count, n) && id !in t
    ensures exists k :: 0 <= k < n && id == q.newIds[k]
  {
    if id != q.newIds[n - 1] { OnlyTheseRows(t, q, count, n - 1, id); }
  }

  /** Upload `k` meets no obstacle after the earlier ones did not: exactly what that means. */
  lemma NextIsClearIff(authors: map<UploadId, UserId>, t: Table, q: Request, count: int, k: nat)
    requires WellFormed(q) && k < |q.uploads| && Clear(authors, t, q, count, k)
    ensures Obstacle(authors, AttachFirst(t, q, count, k), q, k).None? <==>
      && q.uploads[k] in authors && authors[q.uploads[k]] == q.caller && q.newIds[k] !in t
      && k !in q.lookupFails && k !in q.insertFails
      && (forall j :: 0 <= j < k ==> q.uploads[j] != q.uploads[k] && q.newIds[j] != q.newIds[k])
      && (forall id :: id in t ==> t[id].target != q.target || t[id].upload != q.uploads[k])
  {
    ClearRows(authors, t, q, count, k);
    var now := AttachFirst(t, q, count, k);
    if q.newIds[k] in now && q.newIds[k] !in t { OnlyTheseRows(t, q, count, k, q.newIds[k]); }
    if AlreadyAttached(now, q.uploads[k], q.target) {
      var id :| id in now && now[id].upload == q.uploads[k] && now[id].target == q.target;
      if id !in t { OnlyTheseRows(t, q, count, k, id); }
    }
    forall j | 0 <= j < k && q.uploads[j] == q.uploads[k] ensures AlreadyAttached(now, q.uploads[k], q.target) {
      assert now[q.newIds[j]].upload == q.uploads[k];
    }
  }

  lemma {:induction false} ClearIff(authors: map<UploadId, UserId>, t: Table, q: Request, count: int, n: nat)
    requires WellFormed(q) && n <= |q.uploads|
    ensures Clear(authors, t, q, count, n) <==> UnobstructedFirst(authors, t, q, n)
  {
    if n > 0 {
      ClearIff(authors, t, q, count, n - 1);
      if Clear(authors, t, q, count, n - 1) { NextIsClearIff(authors, t, q, count, n - 1); }
    }
  }

  /** A request gets to its end, which Attach answers with all the ids, if and only if nothing stands in
      its way; then every upload is attached under its own id, numbered on from the target's count. */
  lemma AttachedIffUnobstructed(authors: map<UploadId, UserId>, t: Table, q: Request)
    requires WellFormed(q)
    ensures Created(authors, t, q, false) == |q.uploads| <==> Unobstructed(authors, t, q)
    ensures Unobstructed(authors, t, q) ==>
      var after := AfterAttach(authors, t, q);
      forall k :: 0 <= k < |q.uploads| ==>
        q.newIds[k] in after
        && after[q.newIds[k]] == Attachment(q.uploads[k], q.target, |Of(t, q.target)| + k, q.clock[k])
  {
    var count := |Of(t, q.target)|;
    ClearIsProgress(authors, t, q, count, |q.uploads|);
    ClearIff(authors, t, q, count, |q.uploads|);
    if Clear(authors, t, q, count, |q.uploads|) { ClearRows(authors, t, q, count, |q.uploads|); }
  }

  /** Where a request stops, the answer says why: an upload that is missing or unreadable, one that is
      somebody else's, or one of the caller's that could not be stored. */
  lemma StoppedBecause(authors: map<UploadId, UserId>, t: Table, q: Request)
    requires WellFormed(q) && Created(authors, t, q, false) < |q.uploads|
    ensures
      var k := Created(authors, t, q, false);
      var answer := Obstacle(authors, AfterAttach(authors, t, q), q, k);
      var readable := k !in q.lookupFails && q.uploads[k] in authors;
      && (answer == Some(UploadMissing) <==> !readable)
      && (answer == Some(NotOwner) <==> readable && authors[q.uploads[k]] != q.caller)
      && (answer == Some(InsertFailed) <==> readable && authors[q.uploads[k]] == q.caller)
  {
  }
}
