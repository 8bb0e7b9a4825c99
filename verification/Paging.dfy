/** LIMIT and OFFSET, the page arithmetic of the list handlers, and what the pages are together. */
module Paging {
  import opened Base

  /** LIMIT and OFFSET on an ordered result; the server rejects negative ones. */
  function Window<T>(s: seq<T>, limit: int, offset: int): Option<seq<T>> {
    if limit < 0 || offset < 0 then None
    else Some(s[Min(offset, |s|)..Min(offset + limit, |s|)])
  }

  /** A window is rejected only for negative numbers; otherwise it has the rows from the offset on, as many
      as the limit allows. */
  lemma WindowHolds<T>(s: seq<T>, limit: int, offset: int, i: nat)
    ensures Window(s, limit, offset).None? <==> limit < 0 || offset < 0
    ensures limit >= 0 && offset >= 0 ==>
      var w := Window(s, limit, offset).value;
      && (i < |w| <==> i < limit && offset + i < |s|)
      && (i < |w| ==> w[i] == s[offset + i])
  {
  }

  function Page<T>(s: seq<T>, page: int, limit: int): seq<T>
    requires page >= 1 && limit >= 1
  {
    assert (page - 1) * limit >= 0;
    Window(s, limit, (page - 1) * limit).value
  }

  const MAX_INT := 0x7FFF_FFFF_FFFF_FFFF

  /** A 64-bit integer: what a computation leaves of `x`. */
  function Int64(x: int): (r: int)
    ensures -MAX_INT - 1 <= r <= MAX_INT
    ensures -MAX_INT - 1 <= x <= MAX_INT ==> r == x
  {
    (x + MAX_INT + 1) % 0x1_0000_0000_0000_0000 - MAX_INT - 1
  }

  lemma Wraps(x: int)
    ensures -0x8000_0000_0000_0000 <= Int64(x) <= 0x7FFF_FFFF_FFFF_FFFF
    ensures exists k: int :: x == Int64(x) + k * 0x1_0000_0000_0000_0000
  {
    var y := x + 0x8000_0000_0000_0000;
    var k := y / 0x1_0000_0000_0000_0000;
    assert x == Int64(x) + k * 0x1_0000_0000_0000_0000;
  }

  /** The offset of a page, as computed; it wraps around for huge page numbers. */
  function Offset(page: int, limit: int): int {
    Int64((page - 1) * limit)
  }

  datatype Meta = Meta(total: nat, page: int, limit: int, pages: int, hasNext: bool, hasPrev: bool)

  /** Numeric query parameters: absent, unparsable and out-of-range values fall back. */
  method Pagination(pageParam: Option<int>, limitParam: Option<int>) returns (page: int, limit: int)
    ensures pageParam.Some? && pageParam.value >= 1 ==> page == pageParam.value
    ensures pageParam.None? || pageParam.value < 1 ==> page == 1
    ensures limitParam.Some? && 1 <= limitParam.value <= 100 ==> limit == limitParam.value
    ensures limitParam.None? || limitParam.value < 1 || limitParam.value > 100 ==> limit == 20
  {
    page := 1;
    if pageParam.Some? && pageParam.value > 0 { page := pageParam.value; }
    limit := 20;
    if limitParam.Some? && limitParam.value > 0 && limitParam.value <= 100 { limit := limitParam.value; }
  }

  /** The least number of pages of `limit` rows that hold `total` rows. */
  ghost predicate IsPageCount(pages: int, total: nat, limit: int) {
    total <= pages * limit < total + limit
  }

  /** That is the quotient rounded up. */
  lemma PageCountIs(pages: int, total: nat, limit: int)
    requires limit >= 1
    ensures IsPageCount(pages, total, limit) <==> pages == (total + limit - 1) / limit
  {
    var q := (total + limit - 1) / limit;
    assert total + limit - 1 == q * limit + (total + limit - 1) % limit;
    if IsPageCount(pages, total, limit) { OnePageCount(pages, q, total, limit); }
  }

  lemma OnePageCount(a: int, b: int, total: nat, limit: int)
    requires limit >= 1 && IsPageCount(a, total, limit) && IsPageCount(b, total, limit)
    ensures a == b
  {
    if a < b {
      MulMonotone(a + 1, b, limit);
    } else if b < a {
      MulMonotone(b + 1, a, limit);
    }
  }

  lemma PageStart(page: int, limit: int)
    requires page >= 1 && limit >= 1
    ensures (page - 1) * limit >= 0 && (page - 1) * limit + limit == page * limit
  {
  }

  lemma MulMonotone(a: int, b: int, limit: int)
    requires a <= b && limit >= 1
    ensures a * limit <= b * limit
  {
    assert (b - a) * limit >= 0;
  }

  /** A page is empty exactly when it lies beyond the last one. */
  lemma EmptyBeyondLast<T>(s: seq<T>, pages: int, page: int, limit: int)
    requires page >= 1 && limit >= 1 && IsPageCount(pages, |s|, limit)
    ensures Page(s, page, limit) == [] <==> page > pages
  {
    PageStart(page, limit);
    if page > pages {
      MulMonotone(pages, page - 1, limit);
    } else {
      MulMonotone(page, pages, limit);
    }
  }

  /** The metadata of the response: `pages` is the ceiling of total / limit, and `hasNext` says
      whether the next page of the result has any row. */
  method Metadata<T>(ghost result: seq<T>, total: nat, page: int, limit: int) returns (m: Meta)
    requires total == |result| && page >= 1 && limit >= 1
    ensures m == Meta(total, page, limit, m.pages, m.hasNext, m.hasPrev)
    ensures IsPageCount(m.pages, total, limit)
    ensures m.hasNext <==> Page(result, page + 1, limit) != []
    ensures m.hasPrev <==> page > 1
  {
    var pages := total / limit;
    if total % limit != 0 {
      pages := pages + 1;
    }
    assert IsPageCount(pages, total, limit) by {
      assert total == limit * (total / limit) + total % limit;
    }
    EmptyBeyondLast(result, pages, page + 1, limit);
    m := Meta(total, page, limit, pages, page < pages, page > 1);
  }

  /** Pages 1..n one after the other. */
  function FirstPages<T>(s: seq<T>, n: nat, limit: int): seq<T>
    requires limit >= 1
  {
    if n == 0 then [] else FirstPages(s, n - 1, limit) + Page(s, n, limit)
  }

  lemma {:induction false} FirstPagesArePrefix<T>(s: seq<T>, n: nat, limit: int)
    requires limit >= 1
    ensures n * limit >= 0 && FirstPages(s, n, limit) == s[..Min(n * limit, |s|)]
  {
    if n > 0 {
      FirstPagesArePrefix(s, n - 1, limit);
      PageStart(n, limit);
      var a, b := Min((n - 1) * limit, |s|), Min(n * limit, |s|);
      assert s[..a] + s[a..b] == s[..b];
    }
  }

  /** The pages together are the whole result, each row once and in order. */
  lemma PagesPartition<T>(s: seq<T>, pages: nat, limit: int)
    requires limit >= 1 && IsPageCount(pages, |s|, limit)
    ensures FirstPages(s, pages, limit) == s
  {
    FirstPagesArePrefix(s, pages, limit);
    assert s[..|s|] == s;
  }

  /** The rows served for a page are those of the page exactly when its start fits in 64 bits, or wraps
      to somewhere behind the last row. */
  lemma PageIsServedIff<T>(s: seq<T>, page: int, limit: int)
    requires page >= 1 && limit >= 1 && |s| <= MAX_INT
    ensures Window(s, limit, Offset(page, limit)) == Some(Page(s, page, limit))
      <==> (page - 1) * limit <= MAX_INT || Offset(page, limit) >= |s|
  {
    PageStart(page, limit);
    var start, at := (page - 1) * limit, Offset(page, limit);
    if start > MAX_INT && at >= 0 {
      assert |Page(s, page, limit)| == 0;
      var rows := Window(s, limit, at).value;
      assert |rows| == Min(at + limit, |s|) - Min(at, |s|);
      if at >= |s| { assert rows == []; }
    }
  }

  /** Otherwise a page far behind the last one can show the first rows again. */
  lemma HugePageShowsFirstRows<T>(s: seq<T>)
    requires 1 <= |s| <= MAX_INT
    ensures Window(s, 4, Offset(0x4000_0000_0000_0001, 4)) == Some(Page(s, 1, 4))
    ensures Page(s, 0x4000_0000_0000_0001, 4) == [] != Page(s, 1, 4)
  {
  }

  /** Every page up to the last one is served. */
  lemma ExistingPagesAreServed<T>(s: seq<T>, pages: int, page: int, limit: int)
    requires 1 <= page <= pages && limit >= 1 && IsPageCount(pages, |s|, limit) && |s| <= MAX_INT
    ensures Window(s, limit, Offset(page, limit)) == Some(Page(s, page, limit))
  {
    PageStart(page, limit);
    PageStart(pages, limit);
    MulMonotone(page - 1, pages - 1, limit);
    PageIsServedIff(s, page, limit);
  }
}
