/** Parameterised WHERE clauses under the three-valued logic of SQL (section 9.1 of the PostgreSQL
    manual).  A clause is a tree; `$n` is the n-th argument, counted from 1. */
module Sql {
  import opened Base
  import opened Ilike

  type Uuid(==, !new)

  /** The type numeric (section 8.1.2 of the PostgreSQL manual): NaN equals itself and is greater than
      everything else. */
  datatype Numeric = MinusInfinity | Finite(value: real) | PlusInfinity | NaN

  predicate AtMost(a: Numeric, b: Numeric) {
    a.MinusInfinity? || b.NaN? || (a.Finite? && b.Finite? && a.value <= b.value) || (!a.NaN? && b.PlusInfinity?)
  }

  /** Finite numbers compare as reals, between the infinities; NaN is above all. */
  lemma NumericOrder(a: Numeric, b: Numeric)
    ensures a.Finite? && b.Finite? ==> (AtMost(a, b) <==> a.value <= b.value)
    ensures a.Finite? ==> AtMost(MinusInfinity, a) && !AtMost(a, MinusInfinity)
    ensures a.Finite? ==> AtMost(a, PlusInfinity) && !AtMost(PlusInfinity, a)
    ensures AtMost(a, NaN) && (AtMost(NaN, a) <==> a.NaN?)
    ensures AtMost(a, b) && AtMost(b, a) ==> a == b
  {
  }

  datatype Value =
    | Null
    | Text(text: string)
    | Number(number: Numeric)
    | Integer(integer: int)
    | Boolean(boolean: bool)
    | Id(id: Uuid)
    | Texts(texts: seq<string>)

  /** `Error` stands for a query the server rejects: a missing argument or operands of no common type. */
  datatype Truth = True | False | Unknown | Error

  datatype Operator = Eq | Ne | Ge | Le | ILike | Includes

  datatype Operand = Param(n: int) | Const(value: Value)

  datatype Cond<C> =
    | Compare(col: C, op: Operator, rhs: Operand)
    | IsNull(col: C)
    | Either(left: Cond<C>, right: Cond<C>)

  function Truly(b: bool): Truth { if b then True else False }

  function And(a: Truth, b: Truth): Truth {
    if a == Error || b == Error then Error
    else if a == False || b == False then False
    else if a == Unknown || b == Unknown then Unknown
    else True
  }

  function Or(a: Truth, b: Truth): Truth {
    if a == Error || b == Error then Error
    else if a == True || b == True then True
    else if a == Unknown || b == Unknown then Unknown
    else False
  }

  /** The tables of section 9.1 of the PostgreSQL manual; an error is an error everywhere. */
  lemma TruthTables(t: Truth)
    ensures And(True, t) == And(t, True) == t && Or(False, t) == Or(t, False) == t
    ensures t != Error ==> And(False, t) == And(t, False) == False && Or(True, t) == Or(t, True) == True
    ensures And(Unknown, Unknown) == Or(Unknown, Unknown) == Unknown
    ensures And(Error, t) == And(t, Error) == Or(Error, t) == Or(t, Error) == Error
  {
  }

  predicate SameType(v: Value, w: Value) {
    || (v.Text? && w.Text?) || (v.Number? && w.Number?) || (v.Integer? && w.Integer?) || (v.Boolean? && w.Boolean?)
    || (v.Id? && w.Id?) || (v.Texts? && w.Texts?)
  }

  /** Every element of `ts` is an element of `all`. */
  predicate AllIn(ts: seq<string>, all: seq<string>) {
    forall i :: 0 <= i < |ts| ==> ts[i] in all
  }

  function Apply(fold: Folding, op: Operator, v: Value, w: Value): Truth {
    if v.Null? || w.Null? then Unknown
    else if !SameType(v, w) then Error
    else
      match op
      case Eq => Truly(v == w)
      case Ne => Truly(v != w)
      case Ge => if v.Number? then Truly(AtMost(w.number, v.number))
        else if v.Integer? then Truly(v.integer >= w.integer) else Error
      case Le => if v.Number? then Truly(AtMost(v.number, w.number))
        else if v.Integer? then Truly(v.integer <= w.integer) else Error
      case ILike => if v.Text? then Truly(Matches(fold, v.text, 0, w.text, 0)) else Error
      case Includes => if v.Texts? then Truly(AllIn(w.texts, v.texts)) else Error
  }

  /** A comparison with NULL is unknown; one of different types is an error. */
  lemma Comparisons(fold: Folding, v: Value, w: Value, s: string, t: string, all: seq<string>, some: seq<string>,
                    x: Numeric, y: Numeric, m: int, n: int, b: bool, id: Uuid)
    ensures Apply(fold, Eq, Null, w) == Apply(fold, Eq, v, Null) == Unknown
    ensures v != Null && w != Null && SameType(v, w) ==>
      Apply(fold, Eq, v, w) == Truly(v == w) && Apply(fold, Ne, v, w) == Truly(v != w)
    ensures Apply(fold, Eq, Text(s), Texts(all)) == Apply(fold, Eq, Boolean(b), Text(s)) == Error
    ensures Apply(fold, Eq, Id(id), Text(s)) == Apply(fold, Eq, Integer(m), Text(s)) == Error
    ensures Apply(fold, Ge, Number(x), Number(y)) == Apply(fold, Le, Number(y), Number(x)) == Truly(AtMost(y, x))
    ensures Apply(fold, Ge, Integer(m), Integer(n)) == Apply(fold, Le, Integer(n), Integer(m)) == Truly(m >= n)
    ensures Apply(fold, ILike, Text(s), Text(t)) == Truly(Matches(fold, s, 0, t, 0))
    ensures Apply(fold, Includes, Texts(all), Texts(some)) == Truly(forall i :: 0 <= i < |some| ==> some[i] in all)
  {
  }

  function Resolve(o: Operand, args: seq<Value>): Option<Value> {
    match o
    case Const(v) => Some(v)
    case Param(n) => if 1 <= n <= |args| then Some(args[n - 1]) else None
  }

  function Eval<C>(fold: Folding, c: Cond<C>, cell: C -> Value, args: seq<Value>): Truth {
    match c
    case Compare(col, op, rhs) =>
      var w := Resolve(rhs, args);
      if w.None? then Error else Apply(fold, op, cell(col), w.value)
    case IsNull(col) => Truly(cell(col).Null?)
    case Either(l, r) => Or(Eval(fold, l, cell, args), Eval(fold, r, cell, args))
  }

  /** The first `n` conditions joined by AND. */
  function EvalFirst<C>(fold: Folding, conds: seq<Cond<C>>, n: nat, cell: C -> Value, args: seq<Value>): Truth
    requires n <= |conds|
  {
    if n == 0 then True else And(EvalFirst(fold, conds, n - 1, cell, args), Eval(fold, conds[n - 1], cell, args))
  }

  function Where<C>(fold: Folding, conds: seq<Cond<C>>, cell: C -> Value, args: seq<Value>): Truth {
    EvalFirst(fold, conds, |conds|, cell, args)
  }

  /** Every placeholder of the condition has an argument. */
  predicate Bound<C>(c: Cond<C>, args: nat) {
    match c
    case Compare(_, _, rhs) => rhs.Param? ==> 1 <= rhs.n <= args
    case IsNull(_) => true
    case Either(l, r) => Bound(l, args) && Bound(r, args)
  }

  predicate AllBound<C>(conds: seq<Cond<C>>, args: nat) {
    forall i :: 0 <= i < |conds| ==> Bound(conds[i], args)
  }

  lemma {:induction false} MoreArgumentsChangeNothing<C>(fold: Folding, c: Cond<C>, cell: C -> Value, args: seq<Value>,
                                                         more: seq<Value>)
    requires Bound(c, |args|) && args <= more
    ensures Bound(c, |more|) && Eval(fold, c, cell, more) == Eval(fold, c, cell, args)
  {
    match c
    case Compare(_, _, _) =>
    case IsNull(_) =>
    case Either(l, r) =>
      MoreArgumentsChangeNothing(fold, l, cell, args, more);
      MoreArgumentsChangeNothing(fold, r, cell, args, more);
  }

  lemma {:induction false} EvalFirstExtends<C>(fold: Folding, conds: seq<Cond<C>>, longer: seq<Cond<C>>, n: nat,
                                               cell: C -> Value, args: seq<Value>, more: seq<Value>)
    requires n <= |conds| && conds <= longer && args <= more && AllBound(conds, |args|)
    ensures EvalFirst(fold, longer, n, cell, more) == EvalFirst(fold, conds, n, cell, args)
  {
    if n > 0 {
      EvalFirstExtends(fold, conds, longer, n - 1, cell, args, more);
      MoreArgumentsChangeNothing(fold, conds[n - 1], cell, args, more);
    }
  }

  // ---------------------------------------------------------------------------------------------
  // What a clause under construction means

  /** The clause is accepted by the server and is TRUE of exactly the records that satisfy `p`. */
  ghost predicate Means<R(!new), C>(fold: Folding, cell: R -> C -> Value, conds: seq<Cond<C>>, args: seq<Value>,
                                    p: R -> bool) {
    && AllBound(conds, |args|)
    && forall r: R :: var t := Where(fold, conds, cell(r), args); t != Error && (t == True <==> p(r))
  }

  /** The same for one condition. */
  ghost predicate Says<R(!new), C>(fold: Folding, cell: R -> C -> Value, c: Cond<C>, args: seq<Value>, p: R -> bool) {
    && Bound(c, |args|)
    && forall r: R :: var t := Eval(fold, c, cell(r), args); t != Error && (t == True <==> p(r))
  }

  /** The empty clause, "WHERE 1=1". */
  lemma NoConditions<R(!new), C>(fold: Folding, cell: R -> C -> Value)
    ensures Means(fold, cell, [], [], (r: R) => true)
  {
  }

  /** Appending a condition, and perhaps arguments for it, narrows the meaning by that condition. */
  lemma Append<R(!new), C>(fold: Folding, cell: R -> C -> Value, conds: seq<Cond<C>>, args: seq<Value>, p: R -> bool,
                           c: Cond<C>, more: seq<Value>, q: R -> bool, both: R -> bool)
    requires Means(fold, cell, conds, args, p) && args <= more && Says(fold, cell, c, more, q)
    requires forall r: R :: both(r) == (p(r) && q(r))
    ensures Means(fold, cell, conds + [c], more, both)
  {
    var longer := conds + [c];
    forall i | 0 <= i < |longer| ensures Bound(longer[i], |more|) {
      if i < |conds| { MoreArgumentsChangeNothing<C>(fold, conds[i], d => Null, args, more); }
    }
    forall r: R
      ensures var t := Where(fold, longer, cell(r), more); t != Error && (t == True <==> both(r))
    {
      var row := cell(r);
      EvalFirstExtends(fold, conds, longer, |conds|, row, args, more);
      assert Where(fold, longer, row, more) == And(Where(fold, conds, row, args), Eval(fold, c, row, more));
    }
  }

  /** Arguments appended for LIMIT and OFFSET do not disturb the clause. */
  lemma ExtraArguments<R(!new), C>(fold: Folding, cell: R -> C -> Value, conds: seq<Cond<C>>, args: seq<Value>,
                                   more: seq<Value>, p: R -> bool)
    requires Means(fold, cell, conds, args, p) && args <= more
    ensures Means(fold, cell, conds, more, p)
  {
    forall i | 0 <= i < |conds| ensures Bound(conds[i], |more|) {
      MoreArgumentsChangeNothing<C>(fold, conds[i], d => Null, args, more);
    }
    forall r: R
      ensures var t := Where(fold, conds, cell(r), more); t != Error && (t == True <==> p(r))
    {
      EvalFirstExtends(fold, conds, conds, |conds|, cell(r), args, more);
    }
  }

  // ---------------------------------------------------------------------------------------------
  // Building a clause step by step

  /** The clause under construction: conditions, their arguments, and the next placeholder. */
  datatype Clause<C> = Clause(conditions: seq<Cond<C>>, args: seq<Value>, argIndex: int)

  /** The next placeholder is the next argument, and the clause means `p`. */
  ghost predicate Built<R(!new), C>(fold: Folding, cell: R -> C -> Value, b: Clause<C>, p: R -> bool) {
    b.argIndex == |b.args| + 1 && Means(fold, cell, b.conditions, b.args, p)
  }

  /** One more condition, with the next argument. */
  method Push<R(!new), C>(ghost fold: Folding, ghost cell: R -> C -> Value, b: Clause<C>, ghost p: R -> bool,
                          c: Cond<C>, v: Value, ghost q: R -> bool, ghost both: R -> bool) returns (r: Clause<C>)
    requires Built(fold, cell, b, p)
    requires Says(fold, cell, c, b.args + [v], q)
    requires forall r: R :: both(r) == (p(r) && q(r))
    ensures Built(fold, cell, r, both)
  {
    Append(fold, cell, b.conditions, b.args, p, c, b.args + [v], q, both);
    r := Clause(b.conditions + [c], b.args + [v], b.argIndex + 1);
  }
}
