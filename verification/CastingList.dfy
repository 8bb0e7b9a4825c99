/** `List` and `ListByCreator`: count the wanted castings, order them, return one page. */
module CastingList {
  import opened Base
  import opened Ilike
  import opened Sql
  import opened Paging
  import opened CastingSearch
  import opened Queries

  /** The three orders of the search, and the order of a creator's own list. */
  datatype SortBy = Newest | PayDesc | Popular | Created

  // ---------------------------------------------------------------------------------------------
  // ORDER BY

  /** DESC NULLS LAST */
  predicate DescNullsLastLeq(a: Option<Numeric>, b: Option<Numeric>) {
    b.None? || (a.Some? && AtMost(b.value, a.value))
  }

  function Flag(b: Option<bool>): Option<int> {
    if b.None? then None else Some(if b.value then 1 else 0)
  }

  /** May `a` come before `b`?  Castings with equal keys may come in either order. */
  predicate Before(sortBy: SortBy, a: Casting, b: Casting) {
    match sortBy
    case PayDesc => DescNullsLastLeq(a.payMax, b.payMax)
    case Popular =>
      && DescLeq(a.viewCount, b.viewCount)
      && (a.viewCount == b.viewCount ==> DescLeq(a.responseCount, b.responseCount))
    case Created => DescLeq(a.createdAt, b.createdAt)
    case Newest =>
      && DescLeq(Flag(a.isUrgent), Flag(b.isUrgent))
      && (a.isUrgent == b.isUrgent ==> DescLeq(a.createdAt, b.createdAt))
  }

  lemma BeforeIsTotalPreorder(sortBy: SortBy, a: Casting, b: Casting, c: Casting)
    ensures Before(sortBy, a, b) || Before(sortBy, b, a)
    ensures Before(sortBy, a, b) && Before(sortBy, b, c) ==> Before(sortBy, a, c)
  {
  }

  lemma OrdersAreTotal(sortBy: SortBy)
    ensures TotalPreorder(By(sortBy))
  {
    forall a, b, c
      ensures By(sortBy)(a, b) || By(sortBy)(b, a)
      ensures By(sortBy)(a, b) && By(sortBy)(b, c) ==> By(sortBy)(a, c)
    {
      BeforeIsTotalPreorder(sortBy, a, b, c);
    }
  }

  /** Newest: urgent before not urgent, then later before earlier. */
  lemma NewestFirst(a: Casting, b: Casting)
    requires a.isUrgent.Some? && b.isUrgent.Some? && a.createdAt.Some? && b.createdAt.Some?
    ensures Before(Newest, a, b) <==>
      || (a.isUrgent.value && !b.isUrgent.value)
      || (a.isUrgent.value == b.isUrgent.value && a.createdAt.value >= b.createdAt.value)
  {
  }

  /** By pay: the higher amount first, castings without one last. */
  lemma HighestPayFirst(a: Casting, b: Casting)
    ensures a.payMax.Some? && b.payMax.None? ==> Before(PayDesc, a, b) && !Before(PayDesc, b, a)
    ensures
      a.payMax.Some? && b.payMax.Some? && a.payMax.value.Finite? && b.payMax.value.Finite? ==>
        (Before(PayDesc, a, b) <==> a.payMax.value.value >= b.payMax.value.value)
  {
  }

  /** Popular: more views first, then more responses. */
  lemma MostViewedFirst(a: Casting, b: Casting)
    requires a.viewCount.Some? && b.viewCount.Some? && a.responseCount.Some? && b.responseCount.Some?
    ensures Before(Popular, a, b) <==>
      || a.viewCount.value > b.viewCount.value
      || (a.viewCount.value == b.viewCount.value && a.responseCount.value >= b.responseCount.value)
  {
  }

  /** A creator's own list: later before earlier; and where a key of these orders is NULL, it comes first. */
  lemma LatestFirst(a: Casting, b: Casting)
    ensures
      a.createdAt.Some? && b.createdAt.Some? ==>
        (Before(Created, a, b) <==> a.createdAt.value >= b.createdAt.value)
    ensures a.createdAt.None? && b.createdAt.Some? ==> Before(Created, a, b) && !Before(Created, b, a)
    ensures a.isUrgent.None? && b.isUrgent.Some? ==> Before(Newest, a, b) && !Before(Newest, b, a)
    ensures a.viewCount.None? && b.viewCount.Some? ==> Before(Popular, a, b) && !Before(Popular, b, a)
  {
  }

  function By(sortBy: SortBy): Ordering<Casting> {
    (a: Casting, b: Casting) => Before(sortBy, a, b)
  }

  function OwnedBy(creator: Uuid): Casting -> bool {
    (r: Casting) => r.creatorId == Some(creator) && r.status.Some? && r.status.value != "deleted"
  }

  /** A creator's own list has their castings of every status but `deleted`, each as often as the table. */
  lemma OwnListHolds(creator: Uuid, rows: seq<Casting>, c: Casting)
    ensures multiset(Results(OwnedBy(creator), By(Created), rows))[c]
      == if c.creatorId == Some(creator) && c.status.Some? && c.status.value != "deleted" then multiset(rows)[c] else 0
  {
    OrdersAreTotal(Created);
    ResultsAreTheRowsAskedFor(OwnedBy(creator), By(Created), rows, c);
  }

  class Repository {
    var castings: seq<Casting>

    constructor (castings: seq<Casting>)
      ensures this.castings == castings
    {
      this.castings := castings;
    }

    /** `List`: None stands for the error of either query. */
    method List(fold: Folding, f: Filter, sortBy: SortBy, page: int, limit: int, countFails: bool, pageFails: bool)
      returns (r: Option<(seq<Casting>, nat)>)
      ensures var result := Results(WantedBy(fold, f), By(sortBy), castings);
        && (r.Some? <==> !countFails && !pageFails && limit >= 0 && Offset(page, limit) >= 0)
        && (r.Some? ==> r.value == (Window(result, limit, Offset(page, limit)).value, |result|))
    {
      var b := Compile(fold, f);
      CountAndPage(fold, Cell, b, WantedBy(fold, f), By(sortBy), limit, Offset(page, limit), castings);
      var total := QueryCount(fold, Cell, b.conditions, b.args, castings);
      if countFails || total.None? { return None; }
      var offset := Offset(page, limit);
      var args := b.args + [Integer(limit), Integer(offset)];
      var rows := QueryPage(fold, Cell, b.conditions, By(sortBy), b.argIndex, b.argIndex + 1, args, castings);
      if pageFails || rows.None? { return None; }
      return Some((rows.value, total.value));
    }

    method ListByCreator(fold: Folding, creator: Uuid, page: int, limit: int, countFails: bool, pageFails: bool)
      returns (r: Option<(seq<Casting>, nat)>)
      ensures var result := Results(OwnedBy(creator), By(Created), castings);
        && (r.Some? <==> !countFails && !pageFails && limit >= 0 && Offset(page, limit) >= 0)
        && (r.Some? ==> r.value == (Window(result, limit, Offset(page, limit)).value, |result|))
    {
      var conditions := [Compare(CreatorId, Eq, Param(1)), Compare(Status, Ne, Const(Text("deleted")))];
      var b := Clause(conditions, [Id(creator)], 2);
      assert Means(fold, Cell, b.conditions, b.args, OwnedBy(creator)) by {
        forall r: Casting
          ensures
            var t := Where(fold, b.conditions, Cell(r), b.args);
            t != Error && (t == True <==> OwnedBy(creator)(r))
        {
          var first := Eval(fold, b.conditions[0], Cell(r), b.args);
          assert EvalFirst(fold, b.conditions, 1, Cell(r), b.args) == And(True, first);
        }
      }
      CountAndPage(fold, Cell, b, OwnedBy(creator), By(Created), limit, Offset(page, limit), castings);
      var total := QueryCount(fold, Cell, b.conditions, b.args, castings);
      if countFails || total.None? { return None; }
      var rows := QueryPage(fold, Cell, b.conditions, By(Created), 2, 3,
                            b.args + [Integer(limit), Integer(Offset(page, limit))], castings);
      if pageFails || rows.None? { return None; }
      return Some((rows.value, total.value));
    }
  }

  /** A response with a window on the result, which is the page asked for unless its start does not
      fit in 64 bits, and metadata about the rest.  None is an error response. */
  ghost predicate ServesPage(r: Option<(seq<Casting>, Meta)>, result: seq<Casting>, page: int, limit: int, fails: bool)
    requires page >= 1 && limit >= 1
  {
    && (r.Some? <==> !fails && Offset(page, limit) >= 0)
    && (!fails && (page - 1) * limit <= MAX_INT ==> r.Some?)
    && (r.Some? ==>
          var (items, m) := r.value;
          && Some(items) == Window(result, limit, Offset(page, limit))
          && ((page - 1) * limit <= MAX_INT ==> items == Page(result, page, limit))
          && m.page == page && m.limit == limit && m.total == |result| && IsPageCount(m.pages, m.total, limit)
          && (m.hasNext <==> Page(result, page + 1, limit) != [])
          && (m.hasPrev <==> page > 1))
  }

  method Respond(found: Option<(seq<Casting>, nat)>, ghost result: seq<Casting>, page: int, limit: int,
                 ghost fails: bool)
    returns (r: Option<(seq<Casting>, Meta)>)
    requires page >= 1 && limit >= 1
    requires found.Some? <==> !fails && Offset(page, limit) >= 0
    requires found.Some? ==> found.value == (Window(result, limit, Offset(page, limit)).value, |result|)
    ensures ServesPage(r, result, page, limit, fails)
  {
    PageStart(page, limit);
    if found.None? { return None; }
    var m := Metadata(result, found.value.1, page, limit);
    return Some((found.value.0, m));
  }

  /** What a request with these parameters is answered: a given page from 1 on is the page served, a
      given limit from 1 to 100 the limit, and otherwise page 1 and limit 20. */
  ghost predicate Answers(r: Option<(seq<Casting>, Meta)>, result: seq<Casting>, pageParam: Option<int>,
                          limitParam: Option<int>, fails: bool)
  {
    exists page: int, limit: int :: Served(r, result, page, limit, fails)
      && (if pageParam.Some? && pageParam.value >= 1 then page == pageParam.value else page == 1)
      && (if limitParam.Some? && 1 <= limitParam.value <= 100 then limit == limitParam.value else limit == 20)
  }

  ghost predicate Served(r: Option<(seq<Casting>, Meta)>, result: seq<Casting>, page: int, limit: int, fails: bool) {
    page >= 1 && limit >= 1 && ServesPage(r, result, page, limit, fails)
  }

  /** The page and the limit a request asks for. */
  function PageAsked(pageParam: Option<int>): (page: int)
    ensures page >= 1
  {
    if pageParam.Some? && pageParam.value >= 1 then pageParam.value else 1
  }

  function LimitAsked(limitParam: Option<int>): (limit: int)
    ensures 1 <= limit <= 100
  {
    if limitParam.Some? && 1 <= limitParam.value <= 100 then limitParam.value else 20
  }

  /** What an answer holds, for a page whose start fits in 64 bits: row i of the page is row
      (page - 1) * limit + i of the result, as many as the limit allows; the metadata says which page it
      is, how large the result is, and whether there are pages after and before it. */
  lemma AnswerHolds(r: Option<(seq<Casting>, Meta)>, result: seq<Casting>, pageParam: Option<int>,
                    limitParam: Option<int>, fails: bool, i: nat)
    requires Answers(r, result, pageParam, limitParam, fails)
    requires (PageAsked(pageParam) - 1) * LimitAsked(limitParam) <= 0x7FFF_FFFF_FFFF_FFFF
    ensures r.None? <==> fails
    ensures r.Some? ==>
      var page, limit, items, m := PageAsked(pageParam), LimitAsked(limitParam), r.value.0, r.value.1;
      var start := (page - 1) * limit;
      && start >= 0
      && (i < |items| <==> i < limit && start + i < |result|)
      && (i < |items| ==> items[i] == result[start + i])
      && m.page == page && m.limit == limit && m.total == |result|
      && m.pages == (|result| + limit - 1) / limit
      && (m.hasNext <==> page * limit < |result|)
      && (m.hasPrev <==> page > 1)
  {
    var page, limit := PageAsked(pageParam), LimitAsked(limitParam);
    assert Served(r, result, page, limit, fails);
    PageStart(page, limit);
    PageStart(page + 1, limit);
    WindowHolds(result, limit, (page - 1) * limit, i);
    if r.Some? {
      PageCountIs(r.value.1.pages, |result|, limit);
      WindowHolds(result, limit, page * limit, 0);
    }
  }

  /** Beyond that an answer is an error or a window at the wrapped offset. */
  lemma WrappedAnswerHolds(r: Option<(seq<Casting>, Meta)>, result: seq<Casting>, pageParam: Option<int>,
                           limitParam: Option<int>, fails: bool)
    requires Answers(r, result, pageParam, limitParam, fails)
    ensures
      var page, limit := PageAsked(pageParam), LimitAsked(limitParam);
      && (r.None? <==> fails || Offset(page, limit) < 0)
      && (r.Some? ==> Window(result, limit, Offset(page, limit)) == Some(r.value.0))
  {
    assert Served(r, result, PageAsked(pageParam), LimitAsked(limitParam), fails);
  }

  /** GET /castings */
  method HandleList(repo: Repository, fold: Folding, f: Filter, sortBy: SortBy, pageParam: Option<int>,
                    limitParam: Option<int>, countFails: bool, pageFails: bool)
    returns (r: Option<(seq<Casting>, Meta)>)
    ensures Answers(r, Results(WantedBy(fold, f), By(sortBy), repo.castings), pageParam, limitParam,
                    countFails || pageFails)
  {
    var page, limit := Pagination(pageParam, limitParam);
    var found := repo.List(fold, f, sortBy, page, limit, countFails, pageFails);
    ghost var result := Results(WantedBy(fold, f), By(sortBy), repo.castings);
    r := Respond(found, result, page, limit, countFails || pageFails);
    assert Served(r, result, page, limit, countFails || pageFails);
  }

  /** GET /castings/my */
  method HandleListMy(repo: Repository, fold: Folding, creator: Uuid, pageParam: Option<int>, limitParam: Option<int>,
                      countFails: bool, pageFails: bool) returns (r: Option<(seq<Casting>, Meta)>)
    ensures Answers(r, Results(OwnedBy(creator), By(Created), repo.castings), pageParam, limitParam,
                    countFails || pageFails)
  {
    var page, limit := Pagination(pageParam, limitParam);
    var found := repo.ListByCreator(fold, creator, page, limit, countFails, pageFails);
    ghost var result := Results(OwnedBy(creator), By(Created), repo.castings);
    r := Respond(found, result, page, limit, countFails || pageFails);
    assert Served(r, result, page, limit, countFails || pageFails);
  }

  /** The rows of the first `n` answers, one after the other. */
  function AllItems(answers: seq<Option<(seq<Casting>, Meta)>>, n: nat): seq<Casting>
    requires n <= |answers|
  {
    if n == 0 then []
    else AllItems(answers, n - 1) + (if answers[n - 1].Some? then answers[n - 1].value.0 else [])
  }

  lemma AnsweredPage(r: Option<(seq<Casting>, Meta)>, result: seq<Casting>, page: int, limit: int, pages: int)
    requires 1 <= limit <= 100 && |result| <= MAX_INT && IsPageCount(pages, |result|, limit) && 1 <= page <= pages
    requires Answers(r, result, Some(page), Some(limit), false)
    ensures r.Some? && r.value.0 == Page(result, page, limit) && r.value.1.pages == pages
  {
    ExistingPagesAreServed(result, pages, page, limit);
    var p, l :| Served(r, result, p, l, false) && p == page && l == limit;
    OnePageCount(r.value.1.pages, pages, |result|, limit);
  }

  lemma {:induction false} AnswersConcatenate(answers: seq<Option<(seq<Casting>, Meta)>>, result: seq<Casting>,
                                              limit: int, n: nat)
    requires 1 <= limit <= 100 && |result| <= MAX_INT && IsPageCount(|answers|, |result|, limit) && n <= |answers|
    requires forall i :: 0 <= i < |answers| ==> Answers(answers[i], result, Some(i + 1), Some(limit), false)
    ensures AllItems(answers, n) == FirstPages(result, n, limit)
  {
    if n > 0 {
      AnswersConcatenate(answers, result, limit, n - 1);
      AnsweredPage(answers[n - 1], result, n, limit, |answers|);
    }
  }

  /** The answers to the requests for pages 1, 2, ... up to the last together are the whole result. */
  lemma AnswersAreTheWholeResult(answers: seq<Option<(seq<Casting>, Meta)>>, result: seq<Casting>, limit: int)
    requires 1 <= limit <= 100 && |result| <= MAX_INT && IsPageCount(|answers|, |result|, limit)
    requires forall i :: 0 <= i < |answers| ==> Answers(answers[i], result, Some(i + 1), Some(limit), false)
    ensures AllItems(answers, |answers|) == result
  {
    AnswersConcatenate(answers, result, limit, |answers|);
    PagesPartition(result, |answers|, limit);
  }

  /** Walking through pages 1..pages of a search lists every wanted casting, in order, once. */
  lemma SearchPagesPartition(fold: Folding, f: Filter, sortBy: SortBy, rows: seq<Casting>, result: seq<Casting>,
                             pages: nat, limit: int, c: Casting)
    requires result == Results(WantedBy(fold, f), By(sortBy), rows)
    requires limit >= 1 && IsPageCount(pages, |result|, limit)
    ensures forall i, j :: 0 <= i < j < |FirstPages(result, pages, limit)| ==>
      Before(sortBy, FirstPages(result, pages, limit)[i], FirstPages(result, pages, limit)[j])
    ensures multiset(FirstPages(result, pages, limit))[c] == if Wanted(fold, f, c) then multiset(rows)[c] else 0
  {
    PagesPartition(result, pages, limit);
    OrdersAreTotal(sortBy);
    ResultsAreTheRowsAskedFor(WantedBy(fold, f), By(sortBy), rows, c);
  }
}
