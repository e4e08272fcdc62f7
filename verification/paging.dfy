/** The pagination record both list stores keep, the arithmetic they share
    (`Math.ceil` page counts, the `totalPages || 1` clamp), and the
    `Array.prototype.slice` the list views take of the filtered records. */
module Paging {

  /** A page size; the views only ever offer 5, 10, 20 and 50. */
  type Pos = n: int | n > 0 witness 1

  datatype Pagination = Pagination(currentPage: int, itemsPerPage: Pos, totalItems: nat, totalPages: nat)

  /** Both stores' `initialPagination`. */
  const Initial: Pagination := Pagination(1, 10, 0, 0)

  function Min(a: int, b: int): int { if a <= b then a else b }

  function Max(a: int, b: int): int { if a >= b then a else b }

  /** `Math.ceil(a / b)`: the fewest pages of `b` records that hold `a`
      records. */
  function CeilDiv(a: nat, b: Pos): (r: nat)
    ensures (r - 1) * b < a <= r * b
    ensures r == 0 <==> a == 0
  {
    var q := (a + b - 1) / b;
    assert q * b + (a + b - 1) % b == a + b - 1;
    q
  }

  /** `totalPages || 1`: the last page a store lets `currentPage` keep. */
  function LastPage(totalPages: nat): Pos
  {
    if totalPages == 0 then 1 else totalPages
  }

  /** The end of `applyFilters`: records the new count, recomputes the page
      count and lowers `currentPage` to `totalPages || 1` when it is past
      it. */
  function Recount(p: Pagination, count: nat): (r: Pagination)
    ensures r.itemsPerPage == p.itemsPerPage && r.totalItems == count
    ensures (r.totalPages - 1) * r.itemsPerPage < count <= r.totalPages * r.itemsPerPage
    ensures r.currentPage <= LastPage(r.totalPages)
    ensures p.currentPage <= LastPage(r.totalPages) ==> r.currentPage == p.currentPage
    ensures p.currentPage > LastPage(r.totalPages) ==> r.currentPage == LastPage(r.totalPages)
    ensures p.currentPage >= 1 ==> 1 <= r.currentPage
  {
    var totalPages := CeilDiv(count, p.itemsPerPage);
    Pagination(Min(p.currentPage, LastPage(totalPages)), p.itemsPerPage, count, totalPages)
  }

  /** `setItemsPerPage`: the new size, page 1, and a page count recomputed
      from the count the store already holds (no refiltering). */
  function Resize(p: Pagination, itemsPerPage: Pos): (r: Pagination)
    ensures r.itemsPerPage == itemsPerPage && r.currentPage == 1
    ensures r.totalItems == p.totalItems
    ensures (r.totalPages - 1) * itemsPerPage < p.totalItems <= r.totalPages * itemsPerPage
  {
    Pagination(1, itemsPerPage, p.totalItems, CeilDiv(p.totalItems, itemsPerPage))
  }

  /** How `slice` reads an index against a length: a negative index counts
      from the end, and the result is clamped to `[0, len]`. */
  function SliceIndex(i: int, len: nat): (r: nat)
    ensures r <= len
    ensures 0 <= i ==> r == Min(i, len)
    ensures i < 0 ==> r == Max(len + i, 0)
  {
    if i < 0 then (if len + i < 0 then 0 else len + i)
    else if i > len then len
    else i
  }

  /** `s.slice(start, end)`. */
  function JsSlice<T>(s: seq<T>, start: int, end: int): seq<T>
  {
    var a, b := SliceIndex(start, |s|), SliceIndex(end, |s|);
    if a < b then s[a..b] else []
  }

  /** `slice(start, start + n)`: at most `n` records wherever the window
      starts; from a start of 0 on, the records from `start` in order. */
  lemma WindowSlice<T>(items: seq<T>, start: int, n: Pos, w: seq<T>)
    requires w == JsSlice(items, start, start + n)
    ensures |w| <= n
    ensures start >= 0 ==> |w| == Min(n, Max(0, |items| - start))
    ensures start >= 0 ==> forall k :: 0 <= k < |w| ==> w[k] == items[start + k]
  {
  }

  /** `startIndex = (currentPage - 1) * itemsPerPage`: the position of a
      page's first record, never negative on a page from 1 on. */
  function PageStart(p: Pagination): (r: int)
    ensures p.currentPage >= 1 ==> r >= 0
  {
    MulNonNegativeWhenPaged(p);
    (p.currentPage - 1) * p.itemsPerPage
  }

  lemma MulNonNegativeWhenPaged(p: Pagination)
    ensures p.currentPage >= 1 ==> (p.currentPage - 1) * p.itemsPerPage >= 0
  {
    if p.currentPage >= 1 {
      MulNonNegative(p.currentPage - 1, p.itemsPerPage);
    }
  }

  lemma MulNonNegative(a: int, b: int)
    requires a >= 0 && b >= 0
    ensures a * b >= 0
  {
  }

  /** The records a list view shows: `slice(startIndex, startIndex +
      itemsPerPage)`. At most one page of records, whatever `currentPage`
      holds; on a page from 1 on, the records from `startIndex` in their
      filtered order. */
  function PageSlice<T>(items: seq<T>, p: Pagination): (r: seq<T>)
    ensures |r| <= p.itemsPerPage
    ensures p.currentPage >= 1 ==> |r| == Min(p.itemsPerPage, Max(0, |items| - PageStart(p)))
    ensures p.currentPage >= 1 ==> forall k :: 0 <= k < |r| ==> r[k] == items[PageStart(p) + k]
  {
    var start := PageStart(p);
    var w := JsSlice(items, start, start + p.itemsPerPage);
    WindowSlice(items, start, p.itemsPerPage, w);
    w
  }

  /** The storefront caption "Showing {startIndex + 1}-{min(endIndex,
      totalItems)} of {totalItems}". */
  function Showing(p: Pagination): (int, int)
  {
    var start := PageStart(p);
    (start + 1, Min(start + p.itemsPerPage, p.totalItems))
  }

  /** When the count in the record is the length of the filtered list and the
      page holds records, the caption names exactly the 1-based positions of
      the first and last record shown. */
  lemma ShowingMatchesSlice<T>(items: seq<T>, p: Pagination)
    requires p.totalItems == |items| && p.currentPage >= 1
    requires |PageSlice(items, p)| > 0
    ensures var (first, last) := Showing(p);
      && last - first + 1 == |PageSlice(items, p)|
      && PageSlice(items, p)[0] == items[first - 1]
      && PageSlice(items, p)[last - first] == items[last - 1]
  {
  }

  /** Twenty-five records: ten to a page make three pages; switching to
      five to a page makes five pages and returns to page 1. */
  lemma ResizeExample()
    ensures Recount(Pagination(3, 10, 0, 0), 25) == Pagination(3, 10, 25, 3)
    ensures Resize(Pagination(3, 10, 25, 3), 5) == Pagination(1, 5, 25, 5)
  {
  }

}
