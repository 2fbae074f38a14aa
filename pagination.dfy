/**
 * `Pagination` of the web front end: the page arithmetic of a listing of
 * `total` rows shown `perPage` at a time, the rows of the current page, the
 * neighbouring pages, and the page numbers (with gaps) the page links show.
 */
module Pages {
  import opened Wrappers

  /**
   * A page of the listing. The query is the full ordered listing; `items` is
   * the slice the database returns for this page.
   */
  datatype Pagination<T> = Pagination(
    query: seq<T>,
    total: nat,
    page: int,
    perPage: int,
    pages: int,
    hasNext: bool,
    hasPrev: bool,
    items: seq<T>,
    nextNum: Option<int>,
    prevNum: Option<int>)

  /** Where the page's rows start: SQLite treats a negative `OFFSET` as 0. */
  function Offset(page: int, perPage: int): nat
  {
    if (page - 1) * perPage < 0 then 0 else (page - 1) * perPage
  }

  /** `int(math.ceil(total / per_page))` on a positive page size. */
  function CeilDiv(total: nat, perPage: int): (r: nat)
    requires perPage > 0
    ensures r * perPage >= total
    ensures r > 0 ==> (r - 1) * perPage < total
  {
    (total + perPage - 1) / perPage
  }

  /** `Pagination(query, total, page, per_page)`. */
  function MakePagination<T>(query: seq<T>, total: nat, page: int, perPage: int): (r: Pagination<T>)
    requires perPage > 0
    ensures r.pages == 0 <==> total == 0
    ensures r.hasNext <==> 1 <= page < r.pages
    ensures r.hasPrev <==> 1 < page <= r.pages
    ensures r.nextNum.Some? <==> r.hasNext
    ensures r.prevNum.Some? <==> r.hasPrev
    ensures r.nextNum.Some? ==> r.nextNum.value == page + 1
    ensures r.prevNum.Some? ==> r.prevNum.value == page - 1
    ensures |r.items| <= perPage
    ensures forall i :: 0 <= i < |r.items| ==> Offset(page, perPage) + i < |query| && r.items[i] == query[Offset(page, perPage) + i]
    ensures Offset(page, perPage) + perPage <= |query| ==> |r.items| == perPage
    ensures r.pages == CeilDiv(total, perPage)
    ensures |r.items| == if Offset(page, perPage) >= |query| then 0
                         else if Offset(page, perPage) + perPage <= |query| then perPage
                         else |query| - Offset(page, perPage)
  {
    var pages := CeilDiv(total, perPage);
    var hasNext := page >= 1 && page < pages;
    var hasPrev := page > 1 && page <= pages;
    var start := if Offset(page, perPage) < |query| then Offset(page, perPage) else |query|;
    var end := if start + perPage < |query| then start + perPage else |query|;
    Pagination(query, total, page, perPage, pages, hasNext, hasPrev, query[start..end],
               if hasNext then Some(page + 1) else None,
               if hasPrev then Some(page - 1) else None)
  }

  /** `page_valid(page)`: a page number that is set, not 0, and within the pages. */
  predicate PageValid<T>(p: Pagination<T>, page: Option<int>)
  {
    page.Some? && page.value != 0 && page.value <= p.pages && page.value >= 1
  }

  /** `page_at(page)`: the same listing at another page, when that page is valid. */
  function PageAt<T>(p: Pagination<T>, page: Option<int>): (r: Option<Pagination<T>>)
    requires p.perPage > 0
    ensures r.Some? <==> PageValid(p, page)
    ensures r.Some? ==> r.value.page == page.value && r.value.query == p.query && r.value.total == p.total && r.value.perPage == p.perPage
  {
    if PageValid(p, page) then Some(MakePagination(p.query, p.total, page.value, p.perPage)) else None
  }

  function Next<T>(p: Pagination<T>): Option<Pagination<T>>
    requires p.perPage > 0
  {
    PageAt(p, p.nextNum)
  }

  function Prev<T>(p: Pagination<T>): Option<Pagination<T>>
    requires p.perPage > 0
  {
    PageAt(p, p.prevNum)
  }

  /** A page made by `MakePagination` (every page the application shows is). */
  ghost predicate Made<T>(p: Pagination<T>)
  {
    p.perPage > 0 && p == MakePagination(p.query, p.total, p.page, p.perPage)
  }

  /** `next()` is `None` exactly when there is no next page, and moves one page on. */
  lemma NextExactlyWhenHasNext<T>(p: Pagination<T>)
    requires Made(p)
    ensures Next(p).Some? <==> p.hasNext
    ensures Next(p).Some? ==> Next(p).value.page == p.page + 1 && Next(p).value.hasPrev
  {
  }

  /** `prev()` is `None` exactly when there is no previous page, and moves one page back. */
  lemma PrevExactlyWhenHasPrev<T>(p: Pagination<T>)
    requires Made(p)
    ensures Prev(p).Some? <==> p.hasPrev
    ensures Prev(p).Some? ==> Prev(p).value.page == p.page - 1 && Prev(p).value.hasNext
  {
  }

  /** Going to the next page and back returns the same page. */
  lemma NextThenPrev<T>(p: Pagination<T>)
    requires Made(p) && p.hasNext
    ensures Next(p).Some? && Prev(Next(p).value) == Some(p)
  {
    var n := Next(p).value;
    assert n.prevNum == Some(p.page);
  }

  /** Going to the previous page and forward again returns the same page. */
  lemma PrevThenNext<T>(p: Pagination<T>)
    requires Made(p) && p.hasPrev
    ensures Prev(p).Some? && Next(Prev(p).value) == Some(p)
  {
    var q := Prev(p).value;
    assert q.nextNum == Some(p.page);
  }

  /** Consecutive pages hold consecutive, non-overlapping slices of the listing. */
  lemma PagesTile<T>(query: seq<T>, total: nat, page: int, perPage: int)
    requires perPage > 0 && page >= 1
    ensures Offset(page + 1, perPage) == Offset(page, perPage) + perPage
  {
  }

  // ---------------------------------------------------------------------------
  // iter_pages

  /** Every page number emitted is a valid page. */
  ghost predicate InRange(out: seq<Option<int>>, pages: int)
  {
    forall i :: 0 <= i < |out| && out[i].Some? ==> 1 <= out[i].value <= pages
  }

  /** The page numbers emitted strictly increase. */
  ghost predicate Increasing(out: seq<Option<int>>)
  {
    forall i, j :: 0 <= i < j < |out| && out[i].Some? && out[j].Some? ==> out[i].value < out[j].value
  }

  /** Page numbers with nothing between them are neighbours. */
  ghost predicate Consecutive(out: seq<Option<int>>)
  {
    forall i, j :: 0 <= i && j == i + 1 && j < |out| && out[i].Some? && out[j].Some? ==> out[j].value == out[i].value + 1
  }

  /** A gap between two page numbers stands for at least one page left out. */
  ghost predicate GapsSkip(out: seq<Option<int>>)
  {
    forall i, k, j :: 0 <= i && k == i + 1 && j == i + 2 && j < |out| && out[i].Some? && out[k].None? && out[j].Some? ==>
      out[j].value > out[i].value + 1
  }

  /**
   * The least value the counter of `iter_pages` can have after yielding
   * `out`: one past the last page yielded, or at least one more after a gap.
   */
  function Floor(out: seq<Option<int>>): int
    decreases |out|
  {
    if out == [] then 1
    else if out[|out| - 1].Some? then out[|out| - 1].value + 1
    else Floor(out[..|out| - 1]) + 1
  }

  /**
   * `out` is what `iter_pages` can have yielded: each page number is a valid
   * page, no less than the counter before it, and the one right after the
   * page before it unless a gap came between.
   */
  ghost predicate Shape(out: seq<Option<int>>, pages: int)
    decreases |out|
  {
    out == [] ||
    var pre, last := out[..|out| - 1], out[|out| - 1];
    && Shape(pre, pages)
    && (last.Some? ==> 1 <= last.value <= pages && Floor(pre) <= last.value)
    && (last.Some? && pre != [] && pre[|pre| - 1].Some? ==> last.value == Floor(pre))
  }

  /** The state of `iter_pages` with counter `page` after yielding `out`. */
  ghost predicate Emitted(out: seq<Option<int>>, page: int, pages: int)
  {
    && Shape(out, pages)
    && Floor(out) <= page
    && (out != [] && out[|out| - 1].Some? ==> page == Floor(out))
  }

  lemma EmitPage(out: seq<Option<int>>, page: int, pages: int)
    requires Emitted(out, page, pages) && 1 <= page <= pages
    ensures Emitted(out + [Some(page)], page + 1, pages)
  {
    assert (out + [Some(page)])[..|out|] == out;
  }

  lemma EmitGap(out: seq<Option<int>>, page: int, target: int, pages: int)
    requires Emitted(out, page, pages) && page < target
    ensures Emitted(out + [None], target, pages)
  {
    assert (out + [None])[..|out|] == out;
  }

  /** Every page number yielded so far is below the counter's least value. */
  lemma {:induction false} ShapeBelowFloor(out: seq<Option<int>>, pages: int)
    requires Shape(out, pages)
    ensures forall i :: 0 <= i < |out| && out[i].Some? ==> out[i].value < Floor(out)
    ensures InRange(out, pages)
    decreases |out|
  {
    if out != [] {
      var pre := out[..|out| - 1];
      ShapeBelowFloor(pre, pages);
      assert forall i :: 0 <= i < |pre| ==> out[i] == pre[i];
      if out[|out| - 1].None? {
        assert Floor(out) == Floor(pre) + 1;
      }
    }
  }

  lemma {:induction false} ShapeIncreasing(out: seq<Option<int>>, pages: int)
    requires Shape(out, pages)
    ensures Increasing(out)
    decreases |out|
  {
    if out != [] {
      var pre := out[..|out| - 1];
      ShapeIncreasing(pre, pages);
      ShapeBelowFloor(pre, pages);
      assert forall i :: 0 <= i < |pre| ==> out[i] == pre[i];
    }
  }

  lemma {:induction false} ShapeConsecutive(out: seq<Option<int>>, pages: int)
    requires Shape(out, pages)
    ensures Consecutive(out)
    decreases |out|
  {
    if out != [] {
      var pre := out[..|out| - 1];
      ShapeConsecutive(pre, pages);
      assert forall i :: 0 <= i < |pre| ==> out[i] == pre[i];
    }
  }

  lemma {:induction false} ShapeGapsSkip(out: seq<Option<int>>, pages: int)
    requires Shape(out, pages)
    ensures GapsSkip(out)
    decreases |out|
  {
    if out != [] {
      var pre := out[..|out| - 1];
      ShapeGapsSkip(pre, pages);
      assert forall i :: 0 <= i < |pre| ==> out[i] == pre[i];
      if |pre| >= 2 && out[|out| - 1].Some? && pre[|pre| - 1].None? && pre[|pre| - 2].Some? {
        var pp := pre[..|pre| - 1];
        assert pp[|pp| - 1] == pre[|pre| - 2];
        assert Floor(pre) == Floor(pp) + 1;
        assert Floor(pp) == pre[|pre| - 2].value + 1;
      }
    }
  }

  /**
   * Whatever `iter_pages` has yielded lies within the pages, increases,
   * steps by one between neighbours, and skips at least one page at a gap.
   */
  lemma ShapeProps(out: seq<Option<int>>, pages: int)
    requires Shape(out, pages)
    ensures InRange(out, pages) && Increasing(out) && Consecutive(out) && GapsSkip(out)
  {
    ShapeBelowFloor(out, pages);
    ShapeIncreasing(out, pages);
    ShapeConsecutive(out, pages);
    ShapeGapsSkip(out, pages);
  }

  /**
   * One `while` loop of `iter_pages`: yield `page`, `page + 1`, ... up to
   * `last`, or stop the whole generator (`stopped`) at the first page past
   * the end.
   */
  method YieldRun<T>(p: Pagination<T>, out0: seq<Option<int>>, page0: int, last: int)
    returns (out: seq<Option<int>>, page: int, stopped: bool)
    requires 1 <= page0 && Emitted(out0, page0, p.pages)
    ensures page0 <= page && Emitted(out, page, p.pages)
    ensures out == RunFrom(out0, page0, page)
    ensures stopped <==> page <= last
    ensures stopped ==> page > p.pages
    ensures page0 <= last && page0 <= p.pages ==> page0 < page
    ensures page0 > p.pages ==> page == page0
    ensures !stopped ==> page == if page0 <= last then last + 1 else page0
  {
    out, page, stopped := out0, page0, false;
    while page <= last
      invariant page0 <= page <= p.pages + 1 || page == page0
      invariant out == RunFrom(out0, page0, page)
      invariant Emitted(out, page, p.pages)
      invariant page == page0 || page <= last + 1
    {
      if !PageValid(p, Some(page)) {
        stopped := true;
        break;
      }
      EmitPage(out, page, p.pages);
      out := out + [Some(page)];
      page := page + 1;
    }
  }

  /** `out0` followed by the pages from `a` up to `b`, each yielded in turn. */
  function RunFrom(out0: seq<Option<int>>, a: int, b: int): seq<Option<int>>
    decreases b - a
  {
    if b <= a then out0 else RunFrom(out0, a, b - 1) + [Some(b - 1)]
  }

  /** A run extends what came before it and holds each of its pages, first to last. */
  lemma {:induction false} RunFromIndex(out0: seq<Option<int>>, page0: int, page: int)
    requires page0 <= page
    ensures out0 <= RunFrom(out0, page0, page)
    ensures |RunFrom(out0, page0, page)| == |out0| + (page - page0)
    ensures forall q :: page0 <= q < page ==> RunFrom(out0, page0, page)[|out0| + q - page0] == Some(q)
    decreases page - page0
  {
    if page != page0 {
      RunFromIndex(out0, page0, page - 1);
      var before := RunFrom(out0, page0, page - 1);
      assert RunFrom(out0, page0, page) == before + [Some(page - 1)];
    }
  }

  /** A run extends what came before it and holds each of its pages, the first one first. */
  lemma RunFromHolds(out0: seq<Option<int>>, page0: int, page: int)
    requires page0 <= page
    ensures out0 <= RunFrom(out0, page0, page)
    ensures forall q :: page0 <= q < page ==> Some(q) in RunFrom(out0, page0, page)
    ensures page0 < page ==> |RunFrom(out0, page0, page)| > |out0| && RunFrom(out0, page0, page)[|out0|] == Some(page0)
    ensures page == page0 ==> RunFrom(out0, page0, page) == out0
  {
    RunFromIndex(out0, page0, page);
    var r := RunFrom(out0, page0, page);
    forall q | page0 <= q < page ensures Some(q) in r {
      assert r[|out0| + q - page0] == Some(q);
    }
  }

  /** Between two loops of `iter_pages`: jump ahead to `target`, yielding a gap. */
  method YieldGap<T>(p: Pagination<T>, out0: seq<Option<int>>, page0: int, target: int)
    returns (out: seq<Option<int>>, page: int)
    requires 1 <= page0 && Emitted(out0, page0, p.pages)
    ensures Emitted(out, page, p.pages) && out0 <= out
    ensures page0 < target ==> page == target && out == out0 + [None]
    ensures page0 >= target ==> page == page0 && out == out0
  {
    out, page := out0, page0;
    if page < target {
      EmitGap(out, page, target, p.pages);
      out := out + [None];
      page := target;
    }
  }

  /**
   * `iter_pages(left_edge, left_current, right_current, right_edge)`: the
   * first pages, a gap, the pages around the current one, a gap, the last
   * pages; `None` stands for a gap, and the generator stops at the first
   * invalid page.
   */
  method IterPages<T>(p: Pagination<T>, leftEdge: int, leftCurrent: int, rightCurrent: int, rightEdge: int)
    returns (out: seq<Option<int>>)
    ensures InRange(out, p.pages) && Increasing(out) && Consecutive(out) && GapsSkip(out)
    ensures p.pages <= 0 && leftEdge >= 1 ==> out == []
    ensures p.pages >= 1 && leftEdge >= 1 ==> |out| > 0 && out[0] == Some(1)
    ensures leftCurrent >= 0 && rightCurrent >= 0 && 1 <= p.page <= p.pages ==> Some(p.page) in out
  {
    var page, stopped;
    out, page, stopped := IterPagesHead(p, leftEdge, leftCurrent, rightCurrent);
    if !stopped {
      ghost var head := out;
      out, page := YieldGap(p, out, page, p.pages - rightEdge + 1);
      ghost var beforeLast, lastStart := out, page;
      out, page, stopped := YieldRun(p, out, page, p.pages);
      RunFromHolds(beforeLast, lastStart, page);
      PrefixKeepsHead(out, head);
    }
    ShapeProps(out, p.pages);
  }

  /**
   * The first two loops of `iter_pages`: the first pages, a gap, and the
   * pages around the current one; `stopped` when the generator has returned.
   */
  method IterPagesHead<T>(p: Pagination<T>, leftEdge: int, leftCurrent: int, rightCurrent: int)
    returns (out: seq<Option<int>>, page: int, stopped: bool)
    ensures 1 <= page && Emitted(out, page, p.pages)
    ensures p.pages <= 0 && leftEdge >= 1 ==> out == [] && stopped
    ensures p.pages >= 1 && leftEdge >= 1 ==> |out| > 0 && out[0] == Some(1)
    ensures leftCurrent >= 0 && rightCurrent >= 0 && 1 <= p.page <= p.pages ==> Some(p.page) in out
  {
    out, page, stopped := YieldRun(p, [], 1, leftEdge);
    RunFromHolds([], 1, page);
    if stopped {
      return;
    }
    ghost var edge, edgeEnd := out, page;

    out, page := YieldGap(p, out, page, p.page - leftCurrent);
    ghost var middleStart, beforeMiddle := page, out;
    out, page, stopped := YieldRun(p, out, page, p.page + rightCurrent);
    RunFromHolds(beforeMiddle, middleStart, page);
    Conclude(p, out, edge, edgeEnd, middleStart, page, leftEdge, leftCurrent, rightCurrent, stopped);
  }

  lemma PrefixKeepsHead(out: seq<Option<int>>, prefix: seq<Option<int>>)
    requires prefix <= out
    ensures |prefix| > 0 ==> out[0] == prefix[0]
    ensures forall x :: x in prefix ==> x in out
  {
    forall x | x in prefix ensures x in out {
      var k :| 0 <= k < |prefix| && prefix[k] == x;
      assert out[k] == prefix[k];
    }
  }

  /**
   * Once the middle loop of `iter_pages` has run, the output starts with `1`
   * and holds the current page.
   */
  lemma Conclude<T>(p: Pagination<T>, out: seq<Option<int>>, edge: seq<Option<int>>,
                    edgeEnd: int, middleStart: int, page: int,
                    leftEdge: int, leftCurrent: int, rightCurrent: int, stopped: bool)
    requires edge <= out
    requires forall q :: 1 <= q < edgeEnd ==> Some(q) in edge
    requires 1 <= leftEdge && 1 <= p.pages ==> |edge| > 0 && edge[0] == Some(1)
    requires edgeEnd > leftEdge && edgeEnd <= middleStart
    requires middleStart == edgeEnd || middleStart == p.page - leftCurrent
    requires forall q :: middleStart <= q < page ==> Some(q) in out
    requires stopped ==> page > p.pages
    requires !stopped ==> page > p.page + rightCurrent
    ensures p.pages >= 1 && leftEdge >= 1 ==> |out| > 0 && out[0] == Some(1)
    ensures leftCurrent >= 0 && rightCurrent >= 0 && 1 <= p.page <= p.pages ==> Some(p.page) in out
  {
    PrefixKeepsHead(out, edge);
    if leftCurrent >= 0 && rightCurrent >= 0 && 1 <= p.page <= p.pages && p.page < edgeEnd {
      assert Some(p.page) in edge;
    }
  }
}
