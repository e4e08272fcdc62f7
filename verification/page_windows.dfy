/** The page-number strips of the two paginated lists: the admin table's
    seven-slot `getPageNumbers` with ellipses, the storefront's filtered run
    of page links with an ellipsis before each gap, and the Previous / Next
    targets of both. */
module PageWindows {
  import opened Seqs
  import opened Paging

  /** One slot of the table's strip: a page link or `"ellipsis"`. */
  datatype PageItem = Link(page: int) | Ellipsis

  /** The pages `lo` to `hi`, both included, in increasing order. */
  function Range(lo: int, hi: int): (r: seq<int>)
    ensures |r| == Max(0, hi - lo + 1)
    ensures forall k :: 0 <= k < |r| ==> r[k] == lo + k
  {
    seq(Max(0, hi - lo + 1), k => lo + k)
  }

  function Links(pages: seq<int>): (r: seq<PageItem>)
    ensures |r| == |pages|
    ensures forall k :: 0 <= k < |r| ==> r[k] == Link(pages[k])
  {
    seq(|pages|, k requires 0 <= k < |pages| => Link(pages[k]))
  }

  // ---------------------------------------------------------------------
  // The admin table: getPageNumbers
  // ---------------------------------------------------------------------

  /** The strip is well formed for `totalPages`: every link is a page of the
      list, adjacent links are adjacent pages, and an ellipsis stands only
      between two links and exactly where pages are skipped. So the links
      increase strictly and the ellipses mark every gap. */
  ghost predicate WellFormedStrip(r: seq<PageItem>, totalPages: nat)
  {
    LinksInRange(r, totalPages) && AdjacentLinksConsecutive(r) && EllipsesMarkGaps(r)
  }

  ghost predicate LinksInRange(r: seq<PageItem>, totalPages: nat)
  {
    forall i :: 0 <= i < |r| && r[i].Link? ==> 1 <= r[i].page <= totalPages
  }

  ghost predicate AdjacentLinksConsecutive(r: seq<PageItem>)
  {
    forall i :: 0 <= i < |r| - 1 && r[i].Link? && r[i + 1].Link? ==> r[i + 1].page == r[i].page + 1
  }

  ghost predicate EllipsesMarkGaps(r: seq<PageItem>)
  {
    forall i :: 0 <= i < |r| && r[i].Ellipsis? ==>
      0 < i < |r| - 1 && r[i - 1].Link? && r[i + 1].Link? && r[i - 1].page + 1 < r[i + 1].page
  }

  /** In a well-formed strip the page links increase strictly. */
  lemma {:induction false} StripAscending(r: seq<PageItem>, totalPages: nat, i: int, j: int)
    requires WellFormedStrip(r, totalPages)
    requires 0 <= i < j < |r| && r[i].Link? && r[j].Link?
    ensures r[i].page < r[j].page
    decreases j - i
  {
    if j == i + 1 {
    } else if r[i + 1].Link? {
      StripAscending(r, totalPages, i + 1, j);
    } else if i + 2 < j {
      StripAscending(r, totalPages, i + 2, j);
    }
  }

  /** A run of consecutive page links is a well-formed strip and links
      exactly its pages. */
  lemma LinkRun(lo: int, hi: int, totalPages: nat)
    requires 1 <= lo && hi <= totalPages
    ensures WellFormedStrip(Links(Range(lo, hi)), totalPages)
    ensures forall p :: Link(p) in Links(Range(lo, hi)) <==> lo <= p <= hi
  {
    var r := Links(Range(lo, hi));
    forall p | lo <= p <= hi
      ensures Link(p) in r
    {
      assert r[p - lo] == Link(p);
    }
  }

  /** Two well-formed strips joined by an ellipsis over a real gap form a
      well-formed strip. */
  lemma JoinStrips(a: seq<PageItem>, b: seq<PageItem>, totalPages: nat)
    requires WellFormedStrip(a, totalPages) && WellFormedStrip(b, totalPages)
    requires |a| > 0 && |b| > 0 && a[|a| - 1].Link? && b[0].Link?
    requires a[|a| - 1].page + 1 < b[0].page
    ensures WellFormedStrip(a + [Ellipsis] + b, totalPages)
  {
    var r := a + [Ellipsis] + b;
    JoinInRange(a, b, totalPages, r);
    JoinConsecutive(a, b, r);
    JoinGaps(a, b, r);
  }

  lemma JoinInRange(a: seq<PageItem>, b: seq<PageItem>, totalPages: nat, r: seq<PageItem>)
    requires LinksInRange(a, totalPages) && LinksInRange(b, totalPages)
    requires r == a + [Ellipsis] + b
    ensures LinksInRange(r, totalPages)
  {
    var n := |a|;
    forall i | 0 <= i < |r| && r[i].Link?
      ensures 1 <= r[i].page <= totalPages
    {
      if i < n {
        assert r[i] == a[i];
      } else {
        assert r[i] == b[i - n - 1];
      }
    }
  }

  lemma JoinConsecutive(a: seq<PageItem>, b: seq<PageItem>, r: seq<PageItem>)
    requires AdjacentLinksConsecutive(a) && AdjacentLinksConsecutive(b)
    requires r == a + [Ellipsis] + b
    ensures AdjacentLinksConsecutive(r)
  {
    var n := |a|;
    forall i | 0 <= i < |r| - 1 && r[i].Link? && r[i + 1].Link?
      ensures r[i + 1].page == r[i].page + 1
    {
      if i < n - 1 {
        assert r[i] == a[i] && r[i + 1] == a[i + 1];
      } else {
        assert r[n] == Ellipsis;
        assert r[i] == b[i - n - 1] && r[i + 1] == b[i - n];
      }
    }
  }

  lemma JoinGaps(a: seq<PageItem>, b: seq<PageItem>, r: seq<PageItem>)
    requires EllipsesMarkGaps(a) && EllipsesMarkGaps(b)
    requires |a| > 0 && |b| > 0 && a[|a| - 1].Link? && b[0].Link?
    requires a[|a| - 1].page + 1 < b[0].page
    requires r == a + [Ellipsis] + b
    ensures EllipsesMarkGaps(r)
  {
    var n := |a|;
    forall i | 0 <= i < |r| && r[i].Ellipsis?
      ensures 0 < i < |r| - 1 && r[i - 1].Link? && r[i + 1].Link? && r[i - 1].page + 1 < r[i + 1].page
    {
      if i < n {
        assert r[i] == a[i] && r[i - 1] == a[i - 1] && r[i + 1] == a[i + 1];
      } else if i > n {
        assert r[i] == b[i - n - 1] && r[i - 1] == b[i - n - 2] && r[i + 1] == b[i - n];
      } else {
        assert r[i - 1] == a[n - 1] && r[i + 1] == b[0];
      }
    }
  }

  /** What `getPageNumbers` promises of its result `r`: at most seven
      slots, a well-formed strip, empty exactly when there are no pages,
      starting at page 1 and ending at the last page, every page when there
      are at most seven, and always the current page and its neighbours
      that exist. */
  ghost predicate StripPromise(r: seq<PageItem>, totalPages: nat, currentPage: int)
  {
    && |r| <= 7
    && WellFormedStrip(r, totalPages)
    && (totalPages == 0 <==> r == [])
    && (totalPages >= 1 ==> r[0] == Link(1) && r[|r| - 1] == Link(totalPages))
    && (totalPages <= 7 ==> |r| == totalPages && forall p :: 1 <= p <= totalPages ==> Link(p) in r)
    && (forall p :: 1 <= p <= totalPages && currentPage - 1 <= p <= currentPage + 1 ==> Link(p) in r)
  }

  lemma AllPagesStrip(totalPages: nat, currentPage: int)
    requires totalPages <= 7
    ensures StripPromise(Links(Range(1, totalPages)), totalPages, currentPage)
  {
    LinkRun(1, totalPages, totalPages);
  }

  lemma LeadingStrip(totalPages: nat, currentPage: int)
    requires totalPages > 7 && currentPage <= 4
    ensures StripPromise(Links(Range(1, 5)) + [Ellipsis] + Links(Range(totalPages, totalPages)), totalPages, currentPage)
  {
    var tp := totalPages;
    LinkRun(1, 5, tp);
    LinkRun(tp, tp, tp);
    JoinStrips(Links(Range(1, 5)), Links(Range(tp, tp)), tp);
  }

  lemma TrailingStrip(totalPages: nat, currentPage: int)
    requires totalPages > 7 && currentPage > 4 && currentPage >= totalPages - 3
    ensures StripPromise(Links(Range(1, 1)) + [Ellipsis] + Links(Range(totalPages - 4, totalPages)), totalPages, currentPage)
  {
    var tp := totalPages;
    LinkRun(1, 1, tp);
    LinkRun(tp - 4, tp, tp);
    JoinStrips(Links(Range(1, 1)), Links(Range(tp - 4, tp)), tp);
  }

  lemma MiddleStrip(totalPages: nat, currentPage: int)
    requires totalPages > 7 && 4 < currentPage < totalPages - 3
    ensures StripPromise(Links(Range(1, 1)) + [Ellipsis] + Links(Range(currentPage - 1, currentPage + 1))
                           + [Ellipsis] + Links(Range(totalPages, totalPages)), totalPages, currentPage)
  {
    var tp, c := totalPages, currentPage;
    var head := Links(Range(1, 1)) + [Ellipsis] + Links(Range(c - 1, c + 1));
    LinkRun(1, 1, tp);
    LinkRun(c - 1, c + 1, tp);
    LinkRun(tp, tp, tp);
    JoinStrips(Links(Range(1, 1)), Links(Range(c - 1, c + 1)), tp);
    JoinStrips(head, Links(Range(tp, tp)), tp);
    assert |head| == 5;
  }

  /** `getPageNumbers`: every page when there are at most seven; otherwise
      the first page, the last page and a run of pages around the current
      one (the first five, the last five, or the current page and its two
      neighbours), with `"ellipsis"` where pages are skipped. */
  function PageNumbers(totalPages: nat, currentPage: int): (r: seq<PageItem>)
    ensures StripPromise(r, totalPages, currentPage)
  {
    var tp := totalPages;
    var c := currentPage;
    if tp <= 7 then
      AllPagesStrip(tp, c);
      Links(Range(1, tp))
    else if c <= 4 then
      LeadingStrip(tp, c);
      Links(Range(1, 5)) + [Ellipsis] + Links(Range(tp, tp))
    else if c >= tp - 3 then
      TrailingStrip(tp, c);
      Links(Range(1, 1)) + [Ellipsis] + Links(Range(tp - 4, tp))
    else
      MiddleStrip(tp, c);
      Links(Range(1, 1)) + [Ellipsis] + Links(Range(c - 1, c + 1)) + [Ellipsis] + Links(Range(tp, tp))
  }

  /** The table's Previous: moves back only from a page after the first. */
  function TablePrevious(currentPage: int): (r: int)
    ensures currentPage > 1 ==> r == currentPage - 1
    ensures currentPage <= 1 ==> r == currentPage
  {
    if currentPage > 1 then currentPage - 1 else currentPage
  }

  /** The table's Next: moves on only from a page before the last. */
  function TableNext(currentPage: int, totalPages: nat): (r: int)
    ensures currentPage < totalPages ==> r == currentPage + 1
    ensures currentPage >= totalPages ==> r == currentPage
  {
    if currentPage < totalPages then currentPage + 1 else currentPage
  }

  // ---------------------------------------------------------------------
  // The storefront: a filtered run of page links
  // ---------------------------------------------------------------------

  /** The storefront keeps page 1, the last page and the pages next to the
      current one. */
  predicate Visible(totalPages: nat, currentPage: int, page: int)
  {
    page == 1 || page == totalPages || (currentPage - 1 <= page && page <= currentPage + 1)
  }

  function VisibleKeep(totalPages: nat, currentPage: int): int -> bool
  {
    (page: int) => Visible(totalPages, currentPage, page)
  }

  lemma {:induction false} SubseqOfAscending(a: seq<int>, b: seq<int>)
    requires IsSubseq(a, b)
    requires forall i, j :: 0 <= i < j < |b| ==> b[i] < b[j]
    ensures forall i, j :: 0 <= i < j < |a| ==> a[i] < a[j]
    ensures forall i :: 0 <= i < |a| ==> a[i] in b
    decreases |b|
  {
    if |a| > 0 {
      if a[0] == b[0] && IsSubseq(a[1..], b[1..]) {
        SubseqOfAscending(a[1..], b[1..]);
        forall i | 0 <= i < |a|
          ensures a[i] in b
        {
          if i > 0 {
            assert a[i] == a[1..][i - 1];
            assert a[i] in b[1..];
          }
        }
        forall j | 0 < j < |a|
          ensures a[0] < a[j]
        {
          assert a[j] == a[1..][j - 1];
          var m :| 0 <= m < |b[1..]| && b[1..][m] == a[j];
          assert b[m + 1] == a[j];
        }
      } else {
        SubseqOfAscending(a, b[1..]);
        forall i | 0 <= i < |a|
          ensures a[i] in b
        {
          assert a[i] in b[1..];
        }
      }
    }
  }

  /** `Array.from({length: totalPages}, (_, i) => i + 1).filter(...)`: the
      visible pages, strictly increasing, each a page of the list. */
  function VisiblePages(totalPages: nat, currentPage: int): (r: seq<int>)
    ensures forall i, j :: 0 <= i < j < |r| ==> r[i] < r[j]
    ensures forall p :: p in r <==> 1 <= p <= totalPages && Visible(totalPages, currentPage, p)
  {
    var all := Range(1, totalPages);
    var r := Filter(all, VisibleKeep(totalPages, currentPage));
    SubseqOfAscending(r, all);
    forall p | 1 <= p <= totalPages && Visible(totalPages, currentPage, p)
      ensures p in r
    {
      assert all[p - 1] == p;
      FilterMembership(all, VisibleKeep(totalPages, currentPage), p);
    }
    forall p | p in r
      ensures 1 <= p <= totalPages && Visible(totalPages, currentPage, p)
    {
      FilterMembership(all, VisibleKeep(totalPages, currentPage), p);
    }
    r
  }

  /** The storefront always lists the first and the last page, the current
      page and its neighbours that exist. */
  lemma VisiblePagesShowsEnds(totalPages: nat, currentPage: int)
    requires totalPages >= 1
    ensures VisiblePages(totalPages, currentPage)[0] == 1
    ensures VisiblePages(totalPages, currentPage)[|VisiblePages(totalPages, currentPage)| - 1] == totalPages
    ensures forall p :: 1 <= p <= totalPages && currentPage - 1 <= p <= currentPage + 1 ==> p in VisiblePages(totalPages, currentPage)
  {
    var r := VisiblePages(totalPages, currentPage);
    assert 1 in r && totalPages in r;
    var i :| 0 <= i < |r| && r[i] == 1;
    assert r[0] in r && r[0] <= r[i];
    var j :| 0 <= j < |r| && r[j] == totalPages;
    assert r[|r| - 1] in r && r[j] <= r[|r| - 1];
  }

  /** The storefront draws "..." before the link at `index` when the link
      before it is not the page just before. */
  predicate EllipsisBefore(pages: seq<int>, index: int)
    requires 0 <= index < |pages|
  {
    index > 0 && pages[index - 1] != pages[index] - 1
  }

  /** In a strictly increasing run of pages, "..." precedes a link after the
      first exactly when the page just before it is not listed, so every gap is marked and
      no mark stands between adjacent pages. */
  lemma EllipsisMarksHiddenPage(pages: seq<int>, index: int)
    requires forall i, j :: 0 <= i < j < |pages| ==> pages[i] < pages[j]
    requires 0 < index < |pages|
    ensures EllipsisBefore(pages, index) <==> pages[index] - 1 !in pages
  {
    if pages[index] - 1 in pages {
      var j :| 0 <= j < |pages| && pages[j] == pages[index] - 1;
    }
  }

  /** Each page the storefront lists is one the table's strip also links,
      whatever the current page. */
  lemma StorefrontWithinTable(totalPages: nat, currentPage: int)
    ensures forall p :: p in VisiblePages(totalPages, currentPage) ==> Link(p) in PageNumbers(totalPages, currentPage)
  {
    var strip := PageNumbers(totalPages, currentPage);
    forall p | p in VisiblePages(totalPages, currentPage)
      ensures Link(p) in strip
    {
      if totalPages > 7 && p != 1 && p != totalPages {
        if currentPage <= 4 {
          assert strip[p - 1] == Link(p);
        } else if currentPage >= totalPages - 3 {
          assert strip[p - totalPages + 6] == Link(p);
        }
      }
    }
  }

  /** The storefront's Previous: `max(1, currentPage - 1)`. */
  function StorefrontPrevious(currentPage: int): (r: int)
    ensures r >= 1
    ensures r <= currentPage || currentPage < 1
  {
    Max(1, currentPage - 1)
  }

  /** The storefront's Next: `min(totalPages, currentPage + 1)`. */
  function StorefrontNext(currentPage: int, totalPages: nat): (r: int)
    ensures r <= totalPages
    ensures r <= currentPage + 1
  {
    Min(totalPages, currentPage + 1)
  }

  /** On a page of the list, both Previous buttons lead to the same page,
      and so do both Next buttons, and that page is again a page of the
      list. Off the list they part: past the last page the storefront's Next
      moves back to the last page while the table's stays put. */
  lemma PrevNextAgree(currentPage: int, totalPages: nat)
    ensures 1 <= currentPage <= totalPages ==>
      && TablePrevious(currentPage) == StorefrontPrevious(currentPage)
      && TableNext(currentPage, totalPages) == StorefrontNext(currentPage, totalPages)
      && 1 <= StorefrontPrevious(currentPage) <= totalPages
      && 1 <= StorefrontNext(currentPage, totalPages) <= totalPages
    ensures currentPage > totalPages ==>
      StorefrontNext(currentPage, totalPages) == totalPages && TableNext(currentPage, totalPages) == currentPage
  {
  }

}
