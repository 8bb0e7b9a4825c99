/** Accepting models for a casting: one conditional UPDATE that counts and perhaps closes, against
    any interleaving with edits, status changes and deletion. */
module CastingAcceptance {
  import opened Base

  type CastingId(==, !new)

  datatype Status = Draft | Active | Closed | Deleted

  /** Every other column that an edit writes. */
  type Details(==, !new)

  /** `status` and `required` may be NULL. */
  datatype Row = Row(status: Option<Status>, required: Option<int>, accepted: int, details: Details)

  type Table = map<CastingId, Row>

  datatype Reply = Accepted(count: int, status: Status) | FullOrClosed | Done | Failed

  /** The casting has a limit and has reached it. */
  predicate Full(r: Row) {
    r.required.Some? && r.accepted >= r.required.value
  }

  /** The WHERE clause of the statement; a NULL status is not different from 'closed'. */
  predicate Open(r: Row) {
    r.status.Some? && r.status.value != Closed && !Full(r)
  }

  function AcceptRow(r: Row): Row {
    r.(accepted := r.accepted + 1, status := if Full(r.(accepted := r.accepted + 1)) then Some(Closed) else r.status)
  }

  /** `Edit` is the full-row UPDATE, which writes back whatever status its caller had read; `Broken` is
      any statement that fails. */
  datatype Statement =
    | Accept(id: CastingId)
    | Edit(id: CastingId, status: Status, details: Details)
    | SetStatus(id: CastingId, status: Status)
    | Delete(id: CastingId)
    | Broken

  function WithStatus(t: Table, id: CastingId, s: Status): Table {
    if id in t then t[id := t[id].(status := Some(s))] else t
  }

  function Execute(t: Table, s: Statement): (Table, Reply) {
    match s
    case Accept(id) =>
      if id in t && Open(t[id]) then
        var r := AcceptRow(t[id]);
        (t[id := r], Accepted(r.accepted, r.status.value))
      else (t, FullOrClosed)
    case Edit(id, status, details) =>
      (if id in t then t[id := t[id].(status := Some(status), details := details)] else t, Done)
    case SetStatus(id, status) => (WithStatus(t, id, status), Done)
    case Delete(id) => (WithStatus(t, id, Deleted), Done)
    case Broken => (t, Failed)
  }

  type Run = History<Statement>

  function After(t: Table, run: Run): Table {
    match run
    case Start => t
    case Then(before, s) => Execute(After(t, before), s).0
  }

  /** How often a model was accepted for the casting. */
  function Acceptances(t: Table, run: Run, id: CastingId): nat {
    match run
    case Start => 0
    case Then(before, s) =>
      Acceptances(t, before, id) + if s == Accept(id) && Execute(After(t, before), s).1.Accepted? then 1 else 0
  }

  /** accepted <= required, where there is a limit. */
  predicate WithinLimit(r: Row) {
    r.required.Some? ==> r.accepted <= r.required.value
  }

  /** In every interleaving the counter grows by exactly the successful accepts, the limit itself
      never changes, and a casting within its limit stays within it. */
  lemma {:induction false} NeverOvershoots(t: Table, run: Run, id: CastingId)
    requires id in t && WithinLimit(t[id])
    ensures var after := After(t, run);
      && id in after && WithinLimit(after[id])
      && after[id].required == t[id].required
      && after[id].accepted == t[id].accepted + Acceptances(t, run, id)
  {
    match run
    case Start =>
    case Then(before, s) => NeverOvershoots(t, before, id);
  }

  /** A full casting never accepts again, however often it is edited, reopened or deleted. */
  lemma {:induction false} FullForEver(t: Table, run: Run, id: CastingId)
    requires id in t && Full(t[id])
    ensures id in After(t, run) && Full(After(t, run)[id]) && Acceptances(t, run, id) == 0
  {
    match run
    case Start =>
    case Then(before, s) => FullForEver(t, before, id);
  }

  /** The total over a whole run is bounded by the room there was at its start. */
  lemma AcceptancesFitTheRoom(t: Table, run: Run, id: CastingId)
    requires id in t && WithinLimit(t[id]) && t[id].required.Some?
    ensures Acceptances(t, run, id) <= t[id].required.value - t[id].accepted
  {
    NeverOvershoots(t, run, id);
  }

  // ---------------------------------------------------------------------------------------------
  // Accepts in a row

  function Accepts(id: CastingId, n: nat): Run {
    if n == 0 then Start else Then(Accepts(id, n - 1), Accept(id))
  }

  function Room(r: Row): Option<int> {
    if r.required.Some? then Some(r.required.value - r.accepted) else None
  }

  function Succeeding(room: Option<int>, n: nat): int {
    if room.Some? && room.value < n then room.value else n
  }

  /** What the n-th of n accepts in a row answers, for an open casting. */
  function Answer(r: Row, n: nat): Reply
    requires r.status.Some? && n >= 1
  {
    if Room(r).Some? && n > Room(r).value then FullOrClosed
    else Accepted(r.accepted + n, if Room(r) == Some(n) then Closed else r.status.value)
  }

  /** Of n accepts in a row for an open casting exactly min(n, room) succeed; `closed` is answered
      exactly by the one that fills it, and until then the status is what it was. */
  lemma {:induction false} AcceptsInARow(t: Table, id: CastingId, n: nat)
    requires id in t && Open(t[id])
    ensures var r, after := t[id], After(t, Accepts(id, n));
      && Acceptances(t, Accepts(id, n), id) == Succeeding(Room(r), n)
      && after == t[id := r.(accepted := r.accepted + Succeeding(Room(r), n),
                             status := if Room(r).Some? && n >= Room(r).value then Some(Closed) else r.status)]
      && (n >= 1 ==> Execute(After(t, Accepts(id, n - 1)), Accept(id)).1 == Answer(r, n))
  {
    if n > 0 { AcceptsInARow(t, id, n - 1); }
  }

  // ---------------------------------------------------------------------------------------------
  // What becomes of a deleted casting

  /** No statement sets the casting's status; it may be accepted for and deleted. */
  predicate NeverSet(run: Run, id: CastingId) {
    run.Then? ==>
      NeverSet(run.before, id) && !(run.last.Edit? && run.last.id == id) && !(run.last.SetStatus? && run.last.id == id)
  }

  /** The casting was deleted, once more, when it was already full. */
  predicate DeletedWhenFull(t: Table, run: Run, id: CastingId) {
    run.Then? &&
    (DeletedWhenFull(t, run.before, id)
     || (run.last == Delete(id) && id in After(t, run.before) && Full(After(t, run.before)[id])))
  }

  /** Deletion is not final: in every run that never sets its status, a deleted, unfilled casting is
      deleted at the end if and only if it was not filled, or deleted again after that. */
  lemma {:induction false} DeletedUnlessFilled(t: Table, run: Run, id: CastingId)
    requires id in t && t[id].status == Some(Deleted) && !Full(t[id]) && NeverSet(run, id)
    ensures id in After(t, run) && After(t, run)[id].status in {Some(Deleted), Some(Closed)}
    ensures After(t, run)[id].status == Some(Deleted) <==> !Full(After(t, run)[id]) || DeletedWhenFull(t, run, id)
    ensures DeletedWhenFull(t, run, id) ==> Full(After(t, run)[id])
  {
    if run.Then? { DeletedUnlessFilled(t, run.before, id); }
  }

  /** It is filled when as many were accepted as there was room for; an unlimited one never. */
  lemma FilledIff(t: Table, run: Run, id: CastingId)
    requires id in t && WithinLimit(t[id])
    ensures id in After(t, run)
    ensures Full(After(t, run)[id]) <==> Room(t[id]).Some? && Acceptances(t, run, id) == Room(t[id]).value
  {
    NeverOvershoots(t, run, id);
  }

  lemma {:induction false} AcceptsNeverSet(t: Table, id: CastingId, n: nat)
    ensures NeverSet(Accepts(id, n), id) && !DeletedWhenFull(t, Accepts(id, n), id)
  {
    if n > 0 { AcceptsNeverSet(t, id, n - 1); }
  }

  /** So n accepts in a row leave it deleted if and only if there is room for more. */
  lemma DeletedAfterAccepts(t: Table, id: CastingId, n: nat)
    requires id in t && t[id].status == Some(Deleted) && !Full(t[id])
    ensures id in After(t, Accepts(id, n))
    ensures After(t, Accepts(id, n))[id].status == Some(Deleted) <==> (Room(t[id]).None? || n < Room(t[id]).value)
  {
    AcceptsNeverSet(t, id, n);
    DeletedUnlessFilled(t, Accepts(id, n), id);
    AcceptsInARow(t, id, n);
  }

  // ---------------------------------------------------------------------------------------------
  // What is stored, field by field

  /** The details of the last edit of the casting, or the initial ones. */
  function LastDetails(t: Table, run: Run, id: CastingId): Details
    requires id in t
  {
    match run
    case Start => t[id].details
    case Then(before, s) => if s.Edit? && s.id == id then s.details else LastDetails(t, before, id)
  }

  /** The status the last statement that wrote one for the casting wrote: an edit, a status change, a
      deletion, or the accept that filled it. */
  function LastStatus(t: Table, run: Run, id: CastingId): Option<Status>
    requires id in t
  {
    match run
    case Start => t[id].status
    case Then(before, s) =>
      if s.Edit? && s.id == id then Some(s.status)
      else if s.SetStatus? && s.id == id then Some(s.status)
      else if s == Delete(id) then Some(Deleted)
      else if s == Accept(id) && t[id].required == Some(t[id].accepted + Acceptances(t, run, id))
              && Acceptances(t, run, id) > Acceptances(t, before, id)
           then Some(Closed)
      else LastStatus(t, before, id)
  }

  /** In every run a casting within its limit has the details of its last edit and the status of its last
      writer, where the accept that fills it writes `closed` and no other accept writes one. */
  lemma {:induction false} LastWritersDecide(t: Table, run: Run, id: CastingId)
    requires id in t && WithinLimit(t[id])
    ensures id in After(t, run)
    ensures After(t, run)[id].details == LastDetails(t, run, id)
    ensures After(t, run)[id].status == LastStatus(t, run, id)
  {
    match run
    case Start =>
    case Then(before, s) =>
      LastWritersDecide(t, before, id);
      NeverOvershoots(t, before, id);
      NeverOvershoots(t, run, id);
  }

  /** An accept is counted if and only if the casting is there, has a status other than `closed`, and room;
      otherwise it answers that the casting is full or closed and changes nothing. */
  lemma AcceptedIff(t: Table, id: CastingId)
    ensures
      var (after, r) := Execute(t, Accept(id));
      && (r.Accepted? <==> id in t && t[id].status in {Some(Draft), Some(Active), Some(Deleted)}
                           && (t[id].required.Some? ==> t[id].accepted < t[id].required.value))
      && (r.Accepted? ==> id in after && r.count == t[id].accepted + 1 && after[id].accepted == t[id].accepted + 1
                          && after[id].status == Some(r.status))
      && (!r.Accepted? ==> r == FullOrClosed && after == t)
  {
  }

  /** No statement touches another casting, and one that fails touches none. */
  lemma OthersStay(t: Table, s: Statement, id: CastingId)
    requires s.Broken? || s.id != id
    ensures id in Execute(t, s).0 <==> id in t
    ensures id in t ==> Execute(t, s).0[id] == t[id]
  {
  }

  class Repository {
    var castings: Table

    constructor (castings: Table)
      ensures this.castings == castings
    {
      this.castings := castings;
    }

    method IncrementAcceptedAndMaybeClose(id: CastingId, fails: bool) returns (r: Reply)
      modifies this
      ensures (castings, r) == Execute(old(castings), if fails then Broken else Accept(id))
    {
      if fails { return Failed; }
      if id !in castings { return FullOrClosed; }
      var c := castings[id];
      if c.status.None? || c.status.value == Closed || (c.required.Some? && c.accepted >= c.required.value) {
        return FullOrClosed;
      }
      var status := if c.required.Some? && c.accepted + 1 >= c.required.value then Closed else c.status.value;
      castings := castings[id := c.(accepted := c.accepted + 1, status := Some(status))];
      return Accepted(c.accepted + 1, status);
    }

    method Update(id: CastingId, status: Status, details: Details, fails: bool) returns (r: Reply)
      modifies this
      ensures (castings, r) == Execute(old(castings), if fails then Broken else Edit(id, status, details))
    {
      if fails { return Failed; }
      if id in castings { castings := castings[id := castings[id].(status := Some(status), details := details)]; }
      return Done;
    }

    method UpdateStatus(id: CastingId, status: Status, fails: bool) returns (r: Reply)
      modifies this
      ensures (castings, r) == Execute(old(castings), if fails then Broken else SetStatus(id, status))
    {
      if fails { return Failed; }
      if id in castings { castings := castings[id := castings[id].(status := Some(status))]; }
      return Done;
    }

    method SoftDelete(id: CastingId, fails: bool) returns (r: Reply)
      modifies this
      ensures (castings, r) == Execute(old(castings), if fails then Broken else Delete(id))
    {
      if fails { return Failed; }
      if id in castings { castings := castings[id := castings[id].(status := Some(Deleted))]; }
      return Done;
    }
  }
}
