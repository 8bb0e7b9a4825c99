/** The casting search: a filter compiled step by step into a parameterised WHERE clause, counted,
    ordered and paged.  Every column may be NULL. */
module CastingSearch {
  import opened Base
  import opened Ilike
  import opened Sql

  datatype Casting = Casting(
    id: Uuid, creatorId: Option<Uuid>, title: Option<string>, description: Option<string>, city: Option<string>,
    payMin: Option<Numeric>, payMax: Option<Numeric>, workType: Option<string>, isUrgent: Option<bool>,
    status: Option<string>, tags: Option<seq<string>>,
    viewCount: Option<int>, responseCount: Option<int>, createdAt: Option<int>)

  datatype Column = Status | City | PayMin | PayMax | CreatorId | IsUrgent | WorkType | Title | Description | Tags

  function Cell(r: Casting): Column -> Value {
    (c: Column) =>
      match c
      case Status => if r.status.Some? then Text(r.status.value) else Null
      case City => if r.city.Some? then Text(r.city.value) else Null
      case PayMin => if r.payMin.Some? then Number(r.payMin.value) else Null
      case PayMax => if r.payMax.Some? then Number(r.payMax.value) else Null
      case CreatorId => if r.creatorId.Some? then Id(r.creatorId.value) else Null
      case IsUrgent => if r.isUrgent.Some? then Boolean(r.isUrgent.value) else Null
      case WorkType => if r.workType.Some? then Text(r.workType.value) else Null
      case Title => if r.title.Some? then Text(r.title.value) else Null
      case Description => if r.description.Some? then Text(r.description.value) else Null
      case Tags => if r.tags.Some? then Texts(r.tags.value) else Null
  }

  datatype Filter = Filter(
    query: Option<string>, city: Option<string>, payMin: Option<Numeric>, payMax: Option<Numeric>,
    status: Option<string>,
    creatorId: Option<Uuid>, isUrgent: Option<bool>, workType: Option<string>, tags: seq<string>)

  predicate Given(s: Option<string>) {
    s.Some? && s.value != ""
  }

  predicate FoundIn(fold: Folding, text: Option<string>, q: string) {
    text.Some? && Finds(fold, text.value, q)
  }

  /** The first `n` of the requirements a filter puts on a casting. */
  predicate Meets(fold: Folding, f: Filter, n: nat, r: Casting) {
    && (n >= 1 ==> r.status.Some? && r.status.value != "deleted")
    && (n >= 2 ==> r.status == Some(OrElse(f.status, "active")))
    && (n >= 3 && Given(f.city) ==> FoundIn(fold, r.city, f.city.value))
    && (n >= 4 && f.payMin.Some? && r.payMax.Some? ==> AtMost(f.payMin.value, r.payMax.value))
    && (n >= 5 && f.payMax.Some? && r.payMin.Some? ==> AtMost(r.payMin.value, f.payMax.value))
    && (n >= 6 && f.creatorId.Some? ==> r.creatorId == f.creatorId)
    && (n >= 7 && f.isUrgent.Some? ==> r.isUrgent == f.isUrgent)
    && (n >= 8 && Given(f.workType) ==> r.workType == f.workType)
    && (n >= 9 && Given(f.query) ==>
          FoundIn(fold, r.title, f.query.value) || FoundIn(fold, r.description, f.query.value))
    && (n >= 10 && |f.tags| > 0 ==> r.tags.Some? && AllIn(f.tags, r.tags.value))
  }

  /** What a filter asks for: shown castings of the given status (active if none is given) that
      satisfy every given restriction; an open end of the pay range restricts nothing. */
  predicate Wanted(fold: Folding, f: Filter, r: Casting) {
    Meets(fold, f, 10, r)
  }

  function Asked(fold: Folding, f: Filter, n: nat): Casting -> bool {
    (r: Casting) => Meets(fold, f, n, r)
  }

  /** What a filter asks for, as one function of the row. */
  function WantedBy(fold: Folding, f: Filter): Casting -> bool {
    Asked(fold, f, 10)
  }

  /** A text is there and contains the query, letter case aside. */
  predicate Mentions(fold: Folding, text: Option<string>, q: string) {
    text.Some? && Contains(fold, text.value, q)
  }

  /** What a search shows, when its texts have no metacharacters: castings with the status asked for, or
      active ones, never deleted ones; in a city whose name contains the one given; whose pay range
      reaches the bounds given, an open end reaching any; of the creator, urgency and work type given;
      with the query in title or description; with all the tags given. */
  lemma WantedWithLiteralTexts(fold: Folding, f: Filter, r: Casting)
    requires f.city.Some? ==> Literal(f.city.value)
    requires f.query.Some? ==> Literal(f.query.value)
    ensures WantedBy(fold, f)(r) <==>
      && r.status.Some? && r.status.value != "deleted"
      && r.status.value == (if f.status.Some? then f.status.value else "active")
      && (f.city.Some? && f.city.value != "" ==> Mentions(fold, r.city, f.city.value))
      && (f.payMin.Some? ==> r.payMax.None? || AtMost(f.payMin.value, r.payMax.value))
      && (f.payMax.Some? ==> r.payMin.None? || AtMost(r.payMin.value, f.payMax.value))
      && (f.creatorId.Some? ==> r.creatorId == f.creatorId)
      && (f.isUrgent.Some? ==> r.isUrgent == f.isUrgent)
      && (f.workType.Some? && f.workType.value != "" ==> r.workType == f.workType)
      && (f.query.Some? && f.query.value != "" ==>
            Mentions(fold, r.title, f.query.value) || Mentions(fold, r.description, f.query.value))
      && (f.tags == [] || (r.tags.Some? && forall i :: 0 <= i < |f.tags| ==> f.tags[i] in r.tags.value))
  {
    if Given(f.city) && r.city.Some? { LiteralSearchIsContainment(fold, r.city.value, f.city.value); }
    if Given(f.query) && r.title.Some? { LiteralSearchIsContainment(fold, r.title.value, f.query.value); }
    if Given(f.query) && r.description.Some? { LiteralSearchIsContainment(fold, r.description.value, f.query.value); }
  }

  // ---------------------------------------------------------------------------------------------
  // The compiler

  /** The clause says what the first `n` requirements ask; the next placeholder is the next argument. */
  ghost predicate Compiled(fold: Folding, f: Filter, n: nat, b: Clause<Column>) {
    Built(fold, Cell, b, Asked(fold, f, n))
  }

  method StartShown(ghost fold: Folding, ghost f: Filter) returns (r: Clause<Column>)
    ensures Compiled(fold, f, 1, r) && r.args == []
  {
    var shown: Cond<Column> := Compare(Status, Ne, Const(Text("deleted")));
    NoConditions<Casting, Column>(fold, Cell);
    Append(fold, Cell, [], [], (r: Casting) => true, shown, [], Asked(fold, f, 1), Asked(fold, f, 1));
    r := Clause([] + [shown], [], 1);
  }

  lemma ActiveByDefault(fold: Folding, f: Filter, b: Clause<Column>)
    requires Compiled(fold, f, 1, b) && f.status.None?
    ensures Compiled(fold, f, 2, b.(conditions := b.conditions + [Compare(Status, Eq, Const(Text("active")))]))
  {
    Append(fold, Cell, b.conditions, b.args, Asked(fold, f, 1), Compare(Status, Eq, Const(Text("active"))), b.args,
           (r: Casting) => r.status == Some("active"), Asked(fold, f, 2));
  }

  method StartWithStatus(ghost fold: Folding, f: Filter) returns (r: Clause<Column>)
    ensures Compiled(fold, f, 2, r)
  {
    r := StartShown(fold, f);
    if f.status.Some? {
      r := Push(fold, Cell, r, Asked(fold, f, 1), Compare(Status, Eq, Param(r.argIndex)), Text(f.status.value),
                (r: Casting) => r.status == f.status, Asked(fold, f, 2));
    } else {
      ActiveByDefault(fold, f, r);
      r := r.(conditions := r.conditions + [Compare(Status, Eq, Const(Text("active")))]);
    }
  }

  method AddCity(ghost fold: Folding, f: Filter, b: Clause<Column>) returns (r: Clause<Column>)
    requires Compiled(fold, f, 2, b)
    ensures Compiled(fold, f, 3, r)
  {
    r := b;
    if Given(f.city) {
      r := Push(fold, Cell, b, Asked(fold, f, 2), Compare(City, ILike, Param(b.argIndex)), Text(Around(f.city.value)),
                (r: Casting) => FoundIn(fold, r.city, f.city.value), Asked(fold, f, 3));
    }
  }

  method AddPayMin(ghost fold: Folding, f: Filter, b: Clause<Column>) returns (r: Clause<Column>)
    requires Compiled(fold, f, 3, b)
    ensures Compiled(fold, f, 4, r)
  {
    r := b;
    if f.payMin.Some? {
      r := Push(fold, Cell, b, Asked(fold, f, 3), Either(Compare(PayMax, Ge, Param(b.argIndex)), IsNull(PayMax)),
                Number(f.payMin.value),
                (r: Casting) => r.payMax.Some? ==> AtMost(f.payMin.value, r.payMax.value), Asked(fold, f, 4));
    }
  }

  method AddPayMax(ghost fold: Folding, f: Filter, b: Clause<Column>) returns (r: Clause<Column>)
    requires Compiled(fold, f, 4, b)
    ensures Compiled(fold, f, 5, r)
  {
    r := b;
    if f.payMax.Some? {
      r := Push(fold, Cell, b, Asked(fold, f, 4), Either(Compare(PayMin, Le, Param(b.argIndex)), IsNull(PayMin)),
                Number(f.payMax.value),
                (r: Casting) => r.payMin.Some? ==> AtMost(r.payMin.value, f.payMax.value), Asked(fold, f, 5));
    }
  }

  method AddCreator(ghost fold: Folding, f: Filter, b: Clause<Column>) returns (r: Clause<Column>)
    requires Compiled(fold, f, 5, b)
    ensures Compiled(fold, f, 6, r)
  {
    r := b;
    if f.creatorId.Some? {
      r := Push(fold, Cell, b, Asked(fold, f, 5), Compare(CreatorId, Eq, Param(b.argIndex)), Id(f.creatorId.value),
                (r: Casting) => r.creatorId == f.creatorId, Asked(fold, f, 6));
    }
  }

  method AddUrgent(ghost fold: Folding, f: Filter, b: Clause<Column>) returns (r: Clause<Column>)
    requires Compiled(fold, f, 6, b)
    ensures Compiled(fold, f, 7, r)
  {
    r := b;
    if f.isUrgent.Some? {
      r := Push(fold, Cell, b, Asked(fold, f, 6), Compare(IsUrgent, Eq, Param(b.argIndex)), Boolean(f.isUrgent.value),
                (r: Casting) => r.isUrgent == f.isUrgent, Asked(fold, f, 7));
    }
  }

  method AddWorkType(ghost fold: Folding, f: Filter, b: Clause<Column>) returns (r: Clause<Column>)
    requires Compiled(fold, f, 7, b)
    ensures Compiled(fold, f, 8, r)
  {
    r := b;
    if Given(f.workType) {
      r := Push(fold, Cell, b, Asked(fold, f, 7), Compare(WorkType, Eq, Param(b.argIndex)), Text(f.workType.value),
                (r: Casting) => r.workType == f.workType, Asked(fold, f, 8));
    }
  }

  /** The query text in the title or in the description, as the n-th argument for both. */
  function TextCondition(n: int): Cond<Column> {
    Either(Compare(Title, ILike, Param(n)), Compare(Description, ILike, Param(n)))
  }

  function TextFound(fold: Folding, q: string): Casting -> bool {
    (r: Casting) => FoundIn(fold, r.title, q) || FoundIn(fold, r.description, q)
  }

  lemma TextConditionSays(fold: Folding, args: seq<Value>, q: string)
    ensures Says(fold, Cell, TextCondition(|args| + 1), args + [Text(Around(q))], TextFound(fold, q))
  {
    var more := args + [Text(Around(q))];
    assert Resolve(Param(|args| + 1), more) == Some(Text(Around(q)));
    forall r: Casting
      ensures
        var t := Eval(fold, TextCondition(|args| + 1), Cell(r), more);
        t != Error && (t == True <==> TextFound(fold, q)(r))
    {
    }
  }

  method AddQuery(ghost fold: Folding, f: Filter, b: Clause<Column>) returns (r: Clause<Column>)
    requires Compiled(fold, f, 8, b)
    ensures Compiled(fold, f, 9, r)
  {
    r := b;
    if Given(f.query) {
      TextConditionSays(fold, b.args, f.query.value);
      r := Push(fold, Cell, b, Asked(fold, f, 8), TextCondition(b.argIndex), Text(Around(f.query.value)),
                TextFound(fold, f.query.value), Asked(fold, f, 9));
    }
  }

  method AddTags(ghost fold: Folding, f: Filter, b: Clause<Column>) returns (r: Clause<Column>)
    requires Compiled(fold, f, 9, b)
    ensures Compiled(fold, f, 10, r)
  {
    r := b;
    if |f.tags| > 0 {
      r := Push(fold, Cell, b, Asked(fold, f, 9), Compare(Tags, Includes, Param(b.argIndex)), Texts(f.tags),
                (r: Casting) => r.tags.Some? && AllIn(f.tags, r.tags.value), Asked(fold, f, 10));
    }
  }

  /** The source appends the tags condition a second time; it asks for nothing new. */
  method AddTagsAgain(ghost fold: Folding, f: Filter, b: Clause<Column>) returns (r: Clause<Column>)
    requires Compiled(fold, f, 10, b)
    ensures Compiled(fold, f, 10, r)
  {
    r := b;
    if |f.tags| > 0 {
      r := Push(fold, Cell, b, Asked(fold, f, 10), Compare(Tags, Includes, Param(b.argIndex)), Texts(f.tags),
                (r: Casting) => r.tags.Some? && AllIn(f.tags, r.tags.value), Asked(fold, f, 10));
    }
  }

  /** The WHERE clause of `List`: TRUE of exactly the wanted castings, every placeholder bound. */
  method Compile(ghost fold: Folding, f: Filter) returns (b: Clause<Column>)
    ensures b.argIndex == |b.args| + 1
    ensures Means(fold, Cell, b.conditions, b.args, WantedBy(fold, f))
  {
    b := StartWithStatus(fold, f);
    b := AddCity(fold, f, b);
    b := AddPayMin(fold, f, b);
    b := AddPayMax(fold, f, b);
    b := AddCreator(fold, f, b);
    b := AddUrgent(fold, f, b);
    b := AddWorkType(fold, f, b);
    b := AddQuery(fold, f, b);
    b := AddTags(fold, f, b);
    b := AddTagsAgain(fold, f, b);
  }
}
