/**
 * Pagination of the filtered records: `filterRecords` and `renderButtons`
 * (force-app/main/default/lwc/searchListDataTableWrapper/searchListDataTableWrapper.js).
 */
module Paging {
  import opened Wrappers
  import opened Records

  /** `Math.ceil(a / b)` for a non-negative `a` and a positive `b`. */
  function CeilDiv(a: int, b: int): (q: int)
    requires a >= 0 && b > 0
    ensures q >= 0
    ensures q * b - b < a <= q * b
    ensures a > 0 ==> q >= 1
  {
    var d := (a + b - 1) / b;
    assert (a + b - 1) == d * b + (a + b - 1) % b;
    d
  }

  lemma MulMonotone(a: int, b: int, m: int)
    requires m > 0 && a <= b
    ensures a * m <= b * m
  {
    assert b * m - a * m == (b - a) * m;
  }

  lemma MulCancel(a: int, b: int, m: int)
    requires m > 0 && a * m < b * m
    ensures a < b
  {
    if a >= b {
      MulMonotone(b, a, m);
    }
  }

  /** The page number of a start inside the records lies between 1 and the page count, and the start lies on that page. */
  lemma PageOfStart(start: int, count: int, perPage: int)
    requires perPage > 0 && 0 <= start < count
    ensures var q := CeilDiv(start + 1, perPage);
      && 1 <= q <= CeilDiv(count, perPage)
      && q * perPage - perPage <= start < q * perPage
  {
    var q, t := CeilDiv(start + 1, perPage), CeilDiv(count, perPage);
    assert q * perPage - perPage < t * perPage;
    assert (q - 1) * perPage == q * perPage - perPage;
    MulCancel(q - 1, t, perPage);
    if q <= 0 {
      MulMonotone(q, 0, perPage);
    }
  }

  /** There are records to page through (`filteredRecords && filteredRecords.length > 0`). */
  predicate HasRows(filtered: Option<seq<FlatRecord>>) {
    filtered.Some? && |filtered.value| > 0
  }

  /** What the table shows: the counters, the page window and the two button flags. */
  datatype Page = Page(
    recordCount: int,
    totalPages: int,
    beginIndex: int,
    endIndex: int,
    currentPage: int,
    view: seq<FlatRecord>,
    disableBack: bool,
    disableForward: bool)

  /** `renderButtons` as written: Back is disabled while `beginIndex < recordsPerPage`. */
  predicate BackDisabledAsWritten(beginIndex: int, perPage: int) {
    beginIndex < perPage
  }

  /** `renderButtons` as intended: Back is disabled while the window starts on the first page. */
  predicate BackDisabled(beginIndex: int, perPage: int) {
    beginIndex <= perPage
  }

  /**
   * The state `filterRecords(start)` followed by `renderButtons()` leaves:
   * with records, the window `[start, min(start + perPage, count))` and its
   * counters; without, all counters zero and an empty window.
   */
  function Paginate(filtered: Option<seq<FlatRecord>>, start: int, perPage: int): Page
    requires perPage > 0
    requires HasRows(filtered) ==> start >= 0
  {
    if HasRows(filtered) then
      var s := filtered.value;
      var end := if start + perPage > |s| then |s| else start + perPage;
      var current := CeilDiv(start + 1, perPage);
      var total := CeilDiv(|s|, perPage);
      Page(|s|, total, start + 1, end, current,
           if start < end then s[start..end] else [],
           BackDisabled(start + 1, perPage), current == total)
    else
      Page(0, 0, 0, 0, 0, [], BackDisabled(0, perPage), true)
  }

  /**
   * The `while` loop of `filterRecords`: pushes `filteredRecords[index]` for
   * each index from `start` up to `end`.
   */
  method PageSlice(s: seq<FlatRecord>, start: nat, end: int) returns (view: seq<FlatRecord>)
    requires end <= |s|
    ensures |view| == if start < end then end - start else 0
    ensures forall i :: 0 <= i < |view| ==> view[i] == s[start + i]
  {
    view := [];
    var index := start;
    while index < end
      invariant start <= index
      invariant index <= end || index == start
      invariant |view| == index - start
      invariant forall i :: 0 <= i < |view| ==> view[i] == s[start + i]
    {
      view := view + [s[index]];
      index := index + 1;
    }
  }

  /**
   * The page window for a start inside the records is the contiguous slice
   * `[start, min(start + perPage, count))`: at most `perPage` records, and
   * the counters describe it.
   */
  lemma PageWindow(s: seq<FlatRecord>, start: int, perPage: int)
    requires perPage > 0 && 0 <= start < |s|
    ensures var p := Paginate(Some(s), start, perPage);
      && p.view == s[start..p.endIndex]
      && 0 < |p.view| <= perPage
      && p.recordCount == |s|
      && p.beginIndex == start + 1
      && p.endIndex == (if start + perPage < |s| then start + perPage else |s|)
      && p.totalPages * perPage - perPage < |s| <= p.totalPages * perPage
      && p.currentPage * perPage - perPage <= start < p.currentPage * perPage
      && 1 <= p.currentPage <= p.totalPages
  {
    PageOfStart(start, |s|, perPage);
  }

  /** `(totalPages - 1) * recordsPerPage`, the start of the last page: not negative once there is a page. */
  function LastPageStart(totalPages: int, perPage: int): (start: int)
    requires perPage > 0
    ensures totalPages >= 1 ==> 0 <= start == totalPages * perPage - perPage
  {
    if totalPages >= 1 then
      MulMonotone(0, totalPages - 1, perPage);
      (totalPages - 1) * perPage
    else
      (totalPages - 1) * perPage
  }

  /** Without records every counter is zero, the window is empty and both buttons are disabled. */
  lemma EmptyPage(filtered: Option<seq<FlatRecord>>, start: int, perPage: int)
    requires perPage > 0 && !HasRows(filtered)
    ensures Paginate(filtered, start, perPage) == Page(0, 0, 0, 0, 0, [], true, true)
  {
  }

  /**
   * On the page-aligned start `k * perPage` of page `k + 1`: the window is
   * page `k + 1` of `totalPages`, Back is disabled exactly on the first page
   * and Forward exactly on the last.
   */
  lemma AlignedPage(s: seq<FlatRecord>, k: int, perPage: int)
    requires perPage > 0 && 0 <= k && k * perPage < |s|
    ensures var p := Paginate(Some(s), k * perPage, perPage);
      && p.currentPage == k + 1
      && k + 1 <= p.totalPages
      && (p.disableBack <==> k == 0)
      && (p.disableForward <==> k + 1 == p.totalPages)
  {
    var start := k * perPage;
    PageOfStart(start, |s|, perPage);
    var q := CeilDiv(start + 1, perPage);
    assert (q - 1) * perPage == q * perPage - perPage;
    MulCancel(q - 1, k + 1, perPage);
    MulCancel(k, q, perPage);
    if k >= 1 {
      MulMonotone(1, k, perPage);
    }
  }

  /** The record windows of pages 1 to `n` concatenated. */
  function Pages(s: seq<FlatRecord>, perPage: int, n: nat): seq<FlatRecord>
    requires perPage > 0
    requires (n - 1) * perPage < |s| || n == 0
  {
    if n == 0 then []
    else Pages(s, perPage, n - 1) + Paginate(Some(s), (n - 1) * perPage, perPage).view
  }

  /** The records before `start` followed by the window at `start` are the records up to the window's end. */
  lemma CoverStep(s: seq<FlatRecord>, prev: seq<FlatRecord>, view: seq<FlatRecord>, start: int, perPage: int)
    requires perPage > 0 && 0 <= start < |s|
    requires prev == s[..start]
    requires view == s[start..if start + perPage < |s| then start + perPage else |s|]
    ensures start + perPage <= |s| ==> prev + view == s[..start + perPage]
    ensures start + perPage > |s| ==> prev + view == s
  {
    if start + perPage <= |s| {
      assert s[..start] + s[start..start + perPage] == s[..start + perPage];
    } else {
      assert s[..start] + s[start..] == s;
    }
  }

  /**
   * Pages 1 to `totalPages`, read one after another, are the filtered
   * records: no record is skipped or shown twice.
   */
  lemma {:induction false} PagesCover(s: seq<FlatRecord>, perPage: int, n: nat)
    requires perPage > 0
    requires (n - 1) * perPage < |s| || n == 0
    ensures n * perPage <= |s| ==> Pages(s, perPage, n) == s[..n * perPage]
    ensures n * perPage > |s| ==> Pages(s, perPage, n) == s
  {
    if n > 0 {
      var start := (n - 1) * perPage;
      MulMonotone(0, n - 1, perPage);
      assert n * perPage == start + perPage;
      if n > 1 {
        assert (n - 2) * perPage == start - perPage;
      }
      PagesCover(s, perPage, n - 1);
      PageWindow(s, start, perPage);
      CoverStep(s, Pages(s, perPage, n - 1), Paginate(Some(s), start, perPage).view, start, perPage);
    }
  }

  /** All pages together, as `totalPages` counts them, are exactly the records. */
  lemma AllPages(s: seq<FlatRecord>, perPage: int)
    requires perPage > 0
    ensures var total := Paginate(Some(s), 0, perPage).totalPages;
      (total - 1) * perPage < |s| && Pages(s, perPage, total) == s
  {
    if |s| > 0 {
      var total := Paginate(Some(s), 0, perPage).totalPages;
      PagesCover(s, perPage, total);
      if total * perPage <= |s| {
        assert total * perPage == |s|;
        assert s[..|s|] == s;
      }
    }
  }

  /**
   * The navigation handlers from the aligned start of page `k + 1`: Next
   * re-pages at `start + perPage`, Previous at `start - perPage` (never below
   * zero while Back is enabled), and Last at `(totalPages - 1) * perPage`,
   * the aligned start of the last page, where Forward is disabled.
   */
  lemma Navigation(s: seq<FlatRecord>, k: int, perPage: int)
    requires perPage > 0 && 0 <= k && k * perPage < |s|
    ensures var p := Paginate(Some(s), k * perPage, perPage);
      && p.beginIndex + perPage - 1 == (k + 1) * perPage
      && p.beginIndex - perPage - 1 == (k - 1) * perPage
      && (!p.disableBack ==> p.beginIndex - perPage - 1 >= 0)
      && 0 <= (p.totalPages - 1) * perPage < |s|
      && Paginate(Some(s), (p.totalPages - 1) * perPage, perPage).disableForward
  {
    var p := Paginate(Some(s), k * perPage, perPage);
    AlignedPage(s, k, perPage);
    assert (k + 1) * perPage == k * perPage + perPage;
    assert (k - 1) * perPage == k * perPage - perPage;
    var t := p.totalPages;
    PageWindow(s, k * perPage, perPage);
    assert (t - 1) * perPage == t * perPage - perPage;
    MulMonotone(0, t - 1, perPage);
    AlignedPage(s, t - 1, perPage);
  }

  /**
   * The defect: with one record per page, Back is enabled on the first page,
   * and pressing it re-pages at index -1, outside the records.
   */
  lemma BackEnabledOnFirstPageAsWritten(s: seq<FlatRecord>)
    requires |s| > 0
    ensures var p := Paginate(Some(s), 0, 1);
      && p.currentPage == 1
      && !BackDisabledAsWritten(p.beginIndex, 1)
  {
  }

  /** For two or more records per page, the written and the intended rule agree on every page start. */
  lemma BackRulesAgree(s: seq<FlatRecord>, k: int, perPage: int)
    requires perPage > 1 && 0 <= k && k * perPage < |s|
    ensures var p := Paginate(Some(s), k * perPage, perPage);
      BackDisabledAsWritten(p.beginIndex, perPage) == p.disableBack
  {
    AlignedPage(s, k, perPage);
    if k >= 1 {
      MulMonotone(1, k, perPage);
    }
  }

  /** 450 records, 200 per page: the first page holds 200 records of 3 pages, the last 50. */
  lemma FourHundredFifty(s: seq<FlatRecord>)
    requires |s| == 450
    ensures var first := Paginate(Some(s), 0, 200);
      && first.currentPage == 1 && first.totalPages == 3 && |first.view| == 200
      && first.disableBack && !first.disableForward
    ensures var last := Paginate(Some(s), 400, 200);
      && last.currentPage == 3 && |last.view| == 50 && last.disableForward
  {
  }
}
