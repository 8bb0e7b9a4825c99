/** Filtered, ordered, counted and paged queries over a table, for any kind of row. */
module Queries {
  import opened Base
  import opened Ilike
  import opened Sql
  import opened Paging

  // ---------------------------------------------------------------------------------------------
  // ORDER BY

  /** May the first row come before the second?  Rows with equal keys may come in either order. */
  type Ordering<!R> = (R, R) -> bool

  ghost predicate TotalPreorder<R(!new)>(leq: Ordering<R>) {
    && (forall a, b :: leq(a, b) || leq(b, a))
    && (forall a, b, c :: leq(a, b) && leq(b, c) ==> leq(a, c))
  }

  /** DESC, which puts NULL first. */
  predicate DescLeq(a: Option<int>, b: Option<int>) {
    a.None? || (b.Some? && a.value >= b.value)
  }

  predicate Sorted<R>(leq: Ordering<R>, s: seq<R>) {
    forall i, j :: 0 <= i < j < |s| ==> leq(s[i], s[j])
  }

  /** The first position whose row must not come before `x`. */
  function Position<R>(leq: Ordering<R>, s: seq<R>, x: R, k: nat): (p: nat)
    requires k <= |s|
    ensures k <= p <= |s|
    ensures forall i :: k <= i < p ==> leq(s[i], x)
    ensures p < |s| ==> !leq(s[p], x)
    decreases |s| - k
  {
    if k == |s| || !leq(s[k], x) then k else Position(leq, s, x, k + 1)
  }

  function Insert<R>(leq: Ordering<R>, s: seq<R>, x: R): seq<R> {
    var p := Position(leq, s, x, 0);
    s[..p] + [x] + s[p..]
  }

  /** The first `n` rows of a table, ordered; rows with equal keys stay in table order. */
  function Order<R>(leq: Ordering<R>, rows: seq<R>, n: nat): seq<R>
    requires n <= |rows|
  {
    if n == 0 then [] else Insert(leq, Order(leq, rows, n - 1), rows[n - 1])
  }

  lemma InsertSorts<R(!new)>(leq: Ordering<R>, s: seq<R>, x: R)
    requires TotalPreorder(leq) && Sorted(leq, s)
    ensures Sorted(leq, Insert(leq, s, x))
  {
    var p, t := Position(leq, s, x, 0), Insert(leq, s, x);
    forall i, j | 0 <= i < j < |t| ensures leq(t[i], t[j]) {
      if i == p {
        assert leq(x, s[p]);
        assert j - 1 == p || leq(s[p], s[j - 1]);
      }
    }
  }

  lemma InsertAdds<R>(leq: Ordering<R>, s: seq<R>, x: R)
    ensures multiset(Insert(leq, s, x)) == multiset(s) + multiset{x}
  {
    var p := Position(leq, s, x, 0);
    assert s == s[..p] + s[p..];
  }

  lemma {:induction false} OrderSorts<R(!new)>(leq: Ordering<R>, rows: seq<R>, n: nat)
    requires n <= |rows| && TotalPreorder(leq)
    ensures Sorted(leq, Order(leq, rows, n))
  {
    if n > 0 {
      OrderSorts(leq, rows, n - 1);
      InsertSorts(leq, Order(leq, rows, n - 1), rows[n - 1]);
    }
  }

  lemma OneMoreRow<R>(rows: seq<R>, n: nat)
    requires 0 < n <= |rows|
    ensures multiset(rows[..n]) == multiset(rows[..n - 1]) + multiset{rows[n - 1]}
  {
    assert rows[..n] == rows[..n - 1] + [rows[n - 1]];
  }

  lemma {:induction false} OrderKeepsRows<R>(leq: Ordering<R>, rows: seq<R>, n: nat)
    requires n <= |rows|
    ensures multiset(Order(leq, rows, n)) == multiset(rows[..n])
  {
    if n > 0 {
      OrderKeepsRows(leq, rows, n - 1);
      InsertAdds(leq, Order(leq, rows, n - 1), rows[n - 1]);
      OneMoreRow(rows, n);
    }
  }

  lemma SameSize<R>(leq: Ordering<R>, s: seq<R>)
    ensures |Order(leq, s, |s|)| == |s|
  {
    OrderKeepsRows(leq, s, |s|);
    assert s[..|s|] == s;
    assert |multiset(Order(leq, s, |s|))| == |multiset(s)|;
  }

  // ---------------------------------------------------------------------------------------------
  // Executing a query

  /** The first `n` rows for which the WHERE clause is TRUE; None if the server rejects the query. */
  function Selected<R, C>(fold: Folding, cell: R -> C -> Value, conds: seq<Cond<C>>, args: seq<Value>, rows: seq<R>,
                          n: nat): Option<seq<R>>
    requires n <= |rows|
  {
    if n == 0 then Some([]) else
      var s := Selected(fold, cell, conds, args, rows, n - 1);
      var t := Where(fold, conds, cell(rows[n - 1]), args);
      if s.None? || t == Error then None
      else Some(if t == True then s.value + [rows[n - 1]] else s.value)
  }

  /** SELECT COUNT(*) */
  function QueryCount<R, C>(fold: Folding, cell: R -> C -> Value, conds: seq<Cond<C>>, args: seq<Value>,
                            rows: seq<R>): Option<nat> {
    var s := Selected(fold, cell, conds, args, rows, |rows|);
    if s.None? then None else Some(|s.value|)
  }

  /** SELECT ... ORDER BY ... LIMIT $n OFFSET $m */
  function QueryPage<R, C>(fold: Folding, cell: R -> C -> Value, conds: seq<Cond<C>>, leq: Ordering<R>, n: int, m: int,
                           args: seq<Value>, rows: seq<R>): Option<seq<R>> {
    var s := Selected(fold, cell, conds, args, rows, |rows|);
    var limit, offset := Resolve(Param(n), args), Resolve(Param(m), args);
    if s.None? || limit.None? || offset.None? || !limit.value.Integer? || !offset.value.Integer? then None
    else Window(Order(leq, s.value, |s.value|), limit.value.integer, offset.value.integer)
  }

  /** The rows that satisfy `p`, in table order. */
  function Filtered<R>(p: R -> bool, rows: seq<R>, n: nat): seq<R>
    requires n <= |rows|
  {
    if n == 0 then [] else
      var r := Filtered(p, rows, n - 1);
      if p(rows[n - 1]) then r + [rows[n - 1]] else r
  }

  /** The complete ordered result of a query. */
  function Results<R>(p: R -> bool, leq: Ordering<R>, rows: seq<R>): seq<R> {
    var r := Filtered(p, rows, |rows|);
    Order(leq, r, |r|)
  }

  lemma {:induction false} SelectedIsFiltered<R(!new), C>(fold: Folding, cell: R -> C -> Value, conds: seq<Cond<C>>,
                                                          args: seq<Value>, p: R -> bool, rows: seq<R>, n: nat)
    requires n <= |rows| && Means(fold, cell, conds, args, p)
    ensures Selected(fold, cell, conds, args, rows, n) == Some(Filtered(p, rows, n))
  {
    if n > 0 { SelectedIsFiltered(fold, cell, conds, args, p, rows, n - 1); }
  }

  lemma {:induction false} FilteredCounts<R>(p: R -> bool, rows: seq<R>, n: nat, x: R)
    requires n <= |rows|
    ensures multiset(Filtered(p, rows, n))[x] == if p(x) then multiset(rows[..n])[x] else 0
  {
    if n > 0 {
      FilteredCounts(p, rows, n - 1, x);
      OneMoreRow(rows, n);
    }
  }

  /** The result is sorted and holds each row asked for as often as the table does, and no other. */
  lemma ResultsAreTheRowsAskedFor<R(!new)>(p: R -> bool, leq: Ordering<R>, rows: seq<R>, x: R)
    requires TotalPreorder(leq)
    ensures Sorted(leq, Results(p, leq, rows))
    ensures
      var result := Results(p, leq, rows);
      forall i, j :: 0 <= i < j < |result| ==> leq(result[i], result[j])
    ensures multiset(Results(p, leq, rows))[x] == if p(x) then multiset(rows)[x] else 0
  {
    var r := Filtered(p, rows, |rows|);
    OrderSorts(leq, r, |r|);
    OrderKeepsRows(leq, r, |r|);
    assert r[..|r|] == r;
    FilteredCounts(p, rows, |rows|, x);
    assert rows[..|rows|] == rows;
  }

  /** A query whose WHERE clause means `p`, counted with its arguments and paged with two more: the
      count is the size of the result and the page is cut from the result. */
  lemma CountAndPage<R(!new), C>(fold: Folding, cell: R -> C -> Value, b: Clause<C>, p: R -> bool, leq: Ordering<R>,
                                 limit: int, offset: int, rows: seq<R>)
    requires b.argIndex == |b.args| + 1 && Means(fold, cell, b.conditions, b.args, p)
    ensures QueryCount(fold, cell, b.conditions, b.args, rows) == Some(|Results(p, leq, rows)|)
    ensures QueryPage(fold, cell, b.conditions, leq, b.argIndex, b.argIndex + 1,
                      b.args + [Integer(limit), Integer(offset)], rows)
         == Window(Results(p, leq, rows), limit, offset)
  {
    var args := b.args + [Integer(limit), Integer(offset)];
    SelectedIsFiltered(fold, cell, b.conditions, b.args, p, rows, |rows|);
    SameSize(leq, Filtered(p, rows, |rows|));
    ExtraArguments(fold, cell, b.conditions, b.args, args, p);
    SelectedIsFiltered(fold, cell, b.conditions, args, p, rows, |rows|);
  }
}
