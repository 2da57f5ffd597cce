/**
 * The paged trade table (components/TradePanel.tsx): twenty rows a page,
 * `Math.ceil(n / 20)` pages, and a current page kept in component state
 * that the Previous and Next buttons move. The buttons are rendered only
 * when there is more than one page.
 *
 * The current page is not reset when the list it pages changes, so a list
 * that shrinks can leave it past the last page (`StalePageHidesTrades`);
 * `ShownPage` clamps it, and `Pager.Visible` shows the clamped page.
 */
module TradePanel {

  const PageSize: nat := 20

  /** `Math.ceil(n / pageSize)`: the fewest pages that hold `n` rows. */
  function TotalPages(n: nat): (r: nat)
    ensures r * PageSize >= n
    ensures r == 0 || (r - 1) * PageSize < n
  {
    (n + PageSize - 1) / PageSize
  }

  /** `trades.slice((page - 1) * 20, (page - 1) * 20 + 20)` */
  function PageOf<T>(s: seq<T>, page: nat): (r: seq<T>)
    requires page >= 1
    ensures |r| <= PageSize
    ensures forall i :: 0 <= i < |r| ==> (page - 1) * PageSize + i < |s| && r[i] == s[(page - 1) * PageSize + i]
    ensures r != [] <==> page <= TotalPages(|s|)
  {
    var start := (page - 1) * PageSize;
    if start >= |s| then []
    else if start + PageSize <= |s| then s[start..start + PageSize]
    else s[start..]
  }

  /** Row `i` of the list is row `i % 20` of page `i / 20 + 1`. */
  lemma PageOfIndex<T>(s: seq<T>, i: nat)
    requires i < |s|
    ensures i % PageSize < |PageOf(s, i / PageSize + 1)|
    ensures PageOf(s, i / PageSize + 1)[i % PageSize] == s[i]
  {
    var page := i / PageSize + 1;
    assert (page - 1) * PageSize + i % PageSize == i;
  }

  /** The pages from `page` on, one after another. */
  function PagesFrom<T>(s: seq<T>, page: nat): seq<T>
    requires page >= 1
    decreases |s| - (page - 1) * PageSize
  {
    if (page - 1) * PageSize >= |s| then []
    else PageOf(s, page) + PagesFrom(s, page + 1)
  }

  lemma {:induction false} PagesFromRest<T>(s: seq<T>, page: nat)
    requires page >= 1
    ensures (page - 1) * PageSize <= |s| ==> PagesFrom(s, page) == s[(page - 1) * PageSize..]
    decreases |s| - (page - 1) * PageSize
  {
    var start := (page - 1) * PageSize;
    if start < |s| {
      PagesFromRest(s, page + 1);
      if start + PageSize <= |s| {
        assert page * PageSize == start + PageSize;
        assert s[start..] == s[start..start + PageSize] + s[start + PageSize..];
      } else {
        assert page * PageSize > |s|;
        assert PagesFrom(s, page + 1) == [];
      }
    }
  }

  /** Reading pages 1 to `TotalPages` in turn shows every row once, in order. */
  lemma AllPages<T>(s: seq<T>)
    ensures PagesFrom(s, 1) == s
  {
    PagesFromRest(s, 1);
  }

  /** Past the last page there are no rows; an empty list has no pages. */
  lemma PastLastPage<T>(s: seq<T>, page: nat)
    requires page > TotalPages(|s|)
    ensures PageOf(s, page) == []
    ensures |s| == 0 ==> TotalPages(|s|) == 0
  {
  }

  /** `Math.max(1, prev - 1)` */
  function PrevOf(page: int): (r: int)
    ensures r >= 1
    ensures page > 1 ==> r == page - 1
    ensures page <= 1 ==> r == 1
  {
    if page - 1 > 1 then page - 1 else 1
  }

  /** `Math.min(totalPages, prev + 1)` */
  function NextOf(page: int, total: nat): (r: int)
    ensures r <= total
    ensures page < total ==> r == page + 1
    ensures page >= total ==> r == total
  {
    if page + 1 < total then page + 1 else total
  }

  /** Within the pages, Previous undoes Next and Next undoes Previous. */
  lemma PrevNextInverse(page: int, total: nat)
    requires 1 <= page <= total
    ensures page < total ==> PrevOf(NextOf(page, total)) == page
    ensures page > 1 ==> NextOf(PrevOf(page), total) == page
  {
  }

  /** The page the table should show: the current one, or the last one if it is past the end. */
  function ShownPage(page: nat, n: nat): (r: nat)
    requires page >= 1
    ensures r >= 1
    ensures n > 0 ==> r <= TotalPages(n)
    ensures page <= TotalPages(n) ==> r == page
  {
    if page > TotalPages(n) && TotalPages(n) >= 1 then TotalPages(n) else page
  }

  /** As written: a current page left past the end of a shrunk list shows no rows and no buttons. */
  lemma StalePageHidesTrades<T>(s: seq<T>)
    requires 0 < |s| <= PageSize
    ensures PageOf(s, 2) == []
    ensures TotalPages(|s|) == 1
  {
  }

  /** Corrected: with the page clamped, a list with rows always shows some. */
  lemma ShownPageHasTrades<T>(s: seq<T>, page: nat)
    requires page >= 1 && s != []
    ensures PageOf(s, ShownPage(page, |s|)) != []
  {
  }

  /** The component's `currentPage` state. */
  class Pager {
    var currentPage: nat

    ghost predicate Valid()
      reads this
    {
      currentPage >= 1
    }

    constructor ()
      ensures Valid() && currentPage == 1
    {
      currentPage := 1;
    }

    /** Previous: never below page 1. */
    method PrevPage()
      requires Valid()
      modifies this
      ensures Valid()
      ensures currentPage == PrevOf(old(currentPage))
    {
      currentPage := if currentPage - 1 > 1 then currentPage - 1 else 1;
    }

    /**
     * Next, for a list of `n` rows: never past the last page. The button
     * exists only while there is more than one page.
     */
    method NextPage(n: nat)
      requires Valid()
      requires TotalPages(n) > 1
      modifies this
      ensures Valid()
      ensures currentPage == NextOf(old(currentPage), TotalPages(n))
    {
      var total := TotalPages(n);
      currentPage := if currentPage + 1 < total then currentPage + 1 else total;
    }

    /** The rows the table shows for `trades`, with the page clamped to the list. */
    method Visible<T>(trades: seq<T>) returns (rows: seq<T>)
      requires Valid()
      ensures rows == PageOf(trades, ShownPage(currentPage, |trades|))
      ensures trades != [] ==> rows != []
    {
      var total := TotalPages(|trades|);
      var page := if currentPage > total && total >= 1 then total else currentPage;
      var start := (page - 1) * PageSize;
      if start >= |trades| {
        rows := [];
      } else if start + PageSize <= |trades| {
        rows := trades[start..start + PageSize];
      } else {
        rows := trades[start..];
      }
    }
  }
}
