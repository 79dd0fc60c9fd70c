/**
 * The shared pager (components/shared/Pagination.tsx) and the page slice
 * every paginated list takes (`slice(startIndex, startIndex + perPage)`).
 */
module Pagination {
  import opened Types
  import opened Lists

  /** `Math.ceil(totalItems / itemsPerPage)`. */
  function TotalPages(totalItems: nat, itemsPerPage: nat): (r: nat)
    requires itemsPerPage > 0
    ensures r * itemsPerPage >= totalItems
    ensures r > 0 ==> (r - 1) * itemsPerPage < totalItems
    ensures r == 0 <==> totalItems == 0
  {
    (totalItems + itemsPerPage - 1) / itemsPerPage
  }

  /** The pager is drawn only when there is more than one page. */
  predicate IsRendered(totalItems: nat, itemsPerPage: nat)
    requires itemsPerPage > 0
  {
    TotalPages(totalItems, itemsPerPage) > 1
  }

  /** A list that fits on one page has no pager. */
  lemma OnePageNoPager(totalItems: nat, itemsPerPage: nat)
    requires itemsPerPage > 0
    ensures IsRendered(totalItems, itemsPerPage) <==> totalItems > itemsPerPage
  {
    var r := TotalPages(totalItems, itemsPerPage);
    if totalItems > itemsPerPage {
      assert r * itemsPerPage > itemsPerPage;
    }
  }

  /** `handlePageChange`: the page to report, or nothing when it is out of bounds. */
  function HandlePageChange(page: int, totalPages: nat): (r: Option<int>)
    ensures r.Some? <==> 1 <= page <= totalPages
    ensures r.Some? ==> r.value == page
  {
    if page < 1 || page > totalPages then None else Some(page)
  }

  /** The page-number loop: 1 up to `totalPages`. */
  method PageNumbers(totalPages: nat) returns (pageNumbers: seq<int>)
    ensures |pageNumbers| == totalPages
    ensures forall k :: 0 <= k < |pageNumbers| ==> pageNumbers[k] == k + 1
  {
    pageNumbers := [];
    var i := 1;
    while i <= totalPages
      invariant 1 <= i <= totalPages + 1
      invariant |pageNumbers| == i - 1
      invariant forall k :: 0 <= k < |pageNumbers| ==> pageNumbers[k] == k + 1
    {
      pageNumbers := pageNumbers + [i];
      i := i + 1;
    }
  }

  /** The previous button is disabled on page 1, the next button on the last page. */
  predicate PrevDisabled(currentPage: int) { currentPage == 1 }

  predicate NextDisabled(currentPage: int, totalPages: nat) { currentPage == totalPages }

  /**
   * From a page in bounds, an enabled arrow always reports its neighbour,
   * and every number button reports its own page.
   */
  lemma ButtonsStayInBounds(currentPage: int, totalPages: nat)
    requires 1 <= currentPage <= totalPages
    ensures !PrevDisabled(currentPage) ==> HandlePageChange(currentPage - 1, totalPages) == Some(currentPage - 1)
    ensures !NextDisabled(currentPage, totalPages) ==> HandlePageChange(currentPage + 1, totalPages) == Some(currentPage + 1)
    ensures forall page :: 1 <= page <= totalPages ==> HandlePageChange(page, totalPages) == Some(page)
  {
  }

  /** `(currentPage - 1) * perPage`. */
  function PageStart(page: int, itemsPerPage: nat): int
  {
    (page - 1) * itemsPerPage
  }

  /** The items shown on `page`. */
  function PageSlice<T>(xs: seq<T>, page: int, itemsPerPage: nat): (r: seq<T>)
    ensures page >= 1 ==> 0 <= PageStart(page, itemsPerPage) && |r| <= itemsPerPage
    ensures page >= 1 ==> forall k :: 0 <= k < |r| ==>
      PageStart(page, itemsPerPage) + k < |xs| && r[k] == xs[PageStart(page, itemsPerPage) + k]
  {
    var startIndex := PageStart(page, itemsPerPage);
    Slice(xs, startIndex, startIndex + itemsPerPage)
  }

  /** Arithmetic helper: multiplying by a natural number keeps the order. */
  lemma MulMonotone(a: int, b: int, c: nat)
    requires a >= b
    ensures a * c >= b * c
  {
  }

  /** A page starting inside the list holds `itemsPerPage` items, or what is left. */
  lemma PageSliceLength<T>(xs: seq<T>, page: int, itemsPerPage: nat)
    requires page >= 1 && PageStart(page, itemsPerPage) <= |xs|
    ensures |PageSlice(xs, page, itemsPerPage)| ==
      if PageStart(page, itemsPerPage) + itemsPerPage <= |xs| then itemsPerPage
      else |xs| - PageStart(page, itemsPerPage)
  {
    var start := PageStart(page, itemsPerPage);
    if start + itemsPerPage <= |xs| {
      assert PageSlice(xs, page, itemsPerPage) == xs[start..start + itemsPerPage];
    } else {
      assert PageSlice(xs, page, itemsPerPage) == xs[start..|xs|];
    }
  }

  /** Index `i` lies in block `i / itemsPerPage`, which is one of the pages. */
  lemma PageOfIndex(totalItems: nat, itemsPerPage: nat, i: nat)
    requires itemsPerPage > 0 && i < totalItems
    ensures (i / itemsPerPage) * itemsPerPage + i % itemsPerPage == i
    ensures i % itemsPerPage < itemsPerPage
    ensures i / itemsPerPage < TotalPages(totalItems, itemsPerPage)
  {
    var q, n := i / itemsPerPage, TotalPages(totalItems, itemsPerPage);
    assert q < n by {
      if q >= n {
        MulMonotone(q, n, itemsPerPage);
        assert false;
      }
    }
  }

  /** Every item is on exactly the page its index says, at its offset there. */
  lemma EveryItemOnItsPage<T>(xs: seq<T>, itemsPerPage: nat, i: nat)
    requires itemsPerPage > 0 && i < |xs|
    ensures 1 <= i / itemsPerPage + 1 <= TotalPages(|xs|, itemsPerPage)
    ensures i % itemsPerPage < |PageSlice(xs, i / itemsPerPage + 1, itemsPerPage)|
    ensures PageSlice(xs, i / itemsPerPage + 1, itemsPerPage)[i % itemsPerPage] == xs[i]
  {
    PageOfIndex(|xs|, itemsPerPage, i);
    var q, offset := i / itemsPerPage, i % itemsPerPage;
    var start := PageStart(q + 1, itemsPerPage);
    assert start == q * itemsPerPage;
    assert start + offset == i;
    PageSliceLength(xs, q + 1, itemsPerPage);
  }

  /** Every in-bounds page is non-empty. */
  lemma InBoundsPageNonEmpty<T>(xs: seq<T>, itemsPerPage: nat, page: int)
    requires itemsPerPage > 0 && 1 <= page <= TotalPages(|xs|, itemsPerPage)
    ensures |PageSlice(xs, page, itemsPerPage)| >= 1
  {
    var n := TotalPages(|xs|, itemsPerPage);
    var start := PageStart(page, itemsPerPage);
    MulMonotone(n - 1, page - 1, itemsPerPage);
    assert start < |xs|;
    PageSliceLength(xs, page, itemsPerPage);
  }
}
