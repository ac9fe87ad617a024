/** The browser-side controller (static/scripts.js): the script's session
    variables, the user-event handlers, the two fetch continuations and the page
    cache. A fetch is modelled as a request put in flight; its response (or its
    failure) arrives later as an event of its own. */
module SearchController {
  import opened Options
  import opened PageWindow
  import opened BookData

  /** Results per page, fixed by both the browser and the service. */
  const PageSize := 10
  /** Window size passed to getPageRange by updatePagination. */
  const MaxVisiblePages := 7

  /** `Math.ceil(totalResults / 10)`, as an exact integer ceiling: the least
      page count whose pages hold every result. */
  function TotalPagesFor(totalResults: int): (n: int)
    ensures n * PageSize >= totalResults
    ensures (n - 1) * PageSize < totalResults
  {
    -((-totalResults) / PageSize)
  }

  lemma TotalPagesExamples()
    ensures TotalPagesFor(95) == 10
    ensures TotalPagesFor(0) == 0
    ensures TotalPagesFor(100) == 10
    ensures TotalPagesFor(101) == 11
  {
  }

  /** Zero-based index of the first result of `page`, sent as `startIndex`:
      page 1 starts at 0 and each page starts one page size after the previous. */
  function StartIndex(page: int): (i: int)
    ensures page >= 1 ==> i >= 0
    ensures i % PageSize == 0
  {
    (page - 1) * PageSize
  }

  /** The one-based page that holds the result with zero-based index `index`. */
  function PageOf(index: int): int
  {
    index / PageSize + 1
  }

  /** The offset of a page leads back to that page. */
  lemma StartIndexRoundTrip(page: int)
    ensures PageOf(StartIndex(page)) == page
  {
  }

  /** Every result index lies on exactly the page `PageOf` names. */
  lemma PageOfCoversIndex(index: int)
    ensures StartIndex(PageOf(index)) <= index < StartIndex(PageOf(index) + 1)
  {
  }

  /** The last result falls on the last page. */
  lemma LastResultOnLastPage(totalResults: int)
    requires totalResults >= 1
    ensures PageOf(totalResults - 1) == TotalPagesFor(totalResults)
  {
  }

  /** A request in flight: the initial search, or one page at a zero-based offset. */
  datatype Request = Search(query: string) | PageFetch(query: string, page: int, startIndex: int)

  /** A page request names an existing page number and that page's offset. */
  predicate WellFormed(r: Request)
  {
    r.PageFetch? ==> r.page >= 1 && r.startIndex == StartIndex(r.page)
  }

  /** The body of a successful `/search` response. */
  datatype SearchResponse = SearchResponse(
    books: seq<Book>,
    totalItems: int,
    mostCommonAuthor: string,
    earliestPubDate: string,
    latestPubDate: string)

  /** The statistics panel (the response time is not modelled). */
  datatype Stats = Stats(totalResults: int, mostCommonAuthor: string, earliestDate: string, latestDate: string)

  /** What updatePagination tells the page: the two button states, the page
      numbers shown and the one highlighted. */
  datatype Bar = Bar(prevDisabled: bool, nextDisabled: bool, pages: seq<int>, active: int)

  /** The pagination row for a current page and a page count. On a page that
      exists it shows `min(7, total)` page numbers including the current one. */
  function BarFor(current: int, total: int): (b: Bar)
    ensures b.prevDisabled <==> current == 1
    ensures b.nextDisabled <==> current == total
    ensures b.active == current
    ensures 1 <= current <= total ==> |b.pages| == Min(MaxVisiblePages, total) && current in b.pages
  {
    var b := Bar(current == 1, current == total, Window(current, total, MaxVisiblePages), current);
    if 1 <= current <= total then SevenWindow(current, total); b else b
  }

  /** On a page that exists, a button is disabled exactly when its handler would do nothing. */
  lemma ButtonsMatchHandlers(current: int, total: int)
    requires 1 <= current <= total
    ensures BarFor(current, total).prevDisabled <==> !(current > 1)
    ensures BarFor(current, total).nextDisabled <==> !(current < total)
  {
  }

  /** With no results: prev is disabled, next is NOT (1 differs from 0), no page numbers. */
  lemma NoResultsBar()
    ensures BarFor(1, TotalPagesFor(0)) == Bar(true, false, [], 1)
  {
    EmptyWithoutPages(1, MaxVisiblePages);
  }

  class Controller {
    var currentPage: int
    var currentQuery: string
    var totalResults: int
    var totalPages: int
    /** The page cache, keyed by page number. */
    var allResults: map<int, seq<Book>>
    /** Fetches issued and not yet answered. */
    var pending: multiset<Request>
    /** The result list on display. */
    var shown: seq<Book>
    /** The pagination row on display, `None` before the first refresh. */
    var bar: Option<Bar>
    /** The statistics panel, `None` before the first search answer. */
    var stats: Option<Stats>

    /** Everything but the displayed page numbers. */
    ghost predicate Consistent()
      reads this
    {
      && currentPage >= 1
      && totalPages == TotalPagesFor(totalResults)
      && (forall p :: p in allResults ==> p >= 1)
      && (forall r :: r in pending ==> WellFormed(r))
    }

    /** The displayed page numbers all name pages that exist. */
    ghost predicate BarInRange()
      reads this
    {
      bar.Some? ==> forall i :: 0 <= i < |bar.value.pages| ==> 1 <= bar.value.pages[i] <= totalPages
    }

    ghost predicate Valid()
      reads this
    {
      Consistent() && BarInRange()
    }

    /** The outcome of displayResults followed by updatePagination: when the
        current page is cached, it is shown with a fresh pagination row; when
        it is not, displayResults clears the list and throws, so the row is
        left as it was. */
    ghost predicate Displayed(prevBar: Option<Bar>)
      reads this
    {
      if currentPage in allResults then
        shown == allResults[currentPage] && bar == Some(BarFor(currentPage, totalPages))
      else
        shown == [] && bar == prevBar
    }

    /** The outcome of fetchPageResults(page): a cached page is displayed and
        nothing is requested; otherwise one request for the page's offset
        under the current query goes out and the display is untouched. */
    ghost predicate Fetched(page: int, prevPending: multiset<Request>, prevShown: seq<Book>, prevBar: Option<Bar>)
      reads this
    {
      if page in allResults then
        pending == prevPending && Displayed(prevBar)
      else
        pending == prevPending + multiset{PageFetch(currentQuery, page, StartIndex(page))} &&
        shown == prevShown && bar == prevBar
    }

    /** The state the page loads with (static/scripts.js, the `let` declarations). */
    constructor ()
      ensures Valid()
      ensures currentPage == 1 && currentQuery == "" && totalResults == 0 && totalPages == 0
      ensures allResults == map[] && pending == multiset{}
      ensures shown == [] && bar == None && stats == None
    {
      currentPage := 1;
      currentQuery := "";
      totalResults := 0;
      totalPages := 0;
      allResults := map[];
      pending := multiset{};
      shown := [];
      bar := None;
      stats := None;
    }

    /** displayResults: `ok` is false when the current page has no cache entry,
        in which case the list has been cleared and the function throws. */
    method DisplayResults() returns (ok: bool)
      modifies this`shown
      ensures ok == (currentPage in allResults)
      ensures shown == if ok then allResults[currentPage] else []
    {
      shown := [];
      ok := currentPage in allResults;
      if ok {
        shown := allResults[currentPage];
      }
    }

    /** updatePagination: button states and the window around the current page. */
    method UpdatePagination()
      requires Consistent()
      modifies this`bar
      ensures Valid()
      ensures bar == Some(BarFor(currentPage, totalPages))
    {
      var pageRange := GetPageRange(currentPage, totalPages, MaxVisiblePages);
      bar := Some(Bar(currentPage == 1, currentPage == totalPages, pageRange, currentPage));
    }

    /** displayResults then updatePagination, the second skipped when the first throws. */
    method Refresh()
      requires Consistent()
      requires currentPage in allResults || BarInRange()
      modifies this`shown, this`bar
      ensures Valid()
      ensures Displayed(old(bar))
    {
      var ok := DisplayResults();
      if ok {
        UpdatePagination();
      }
    }

    /** fetchPageResults, up to the point where the request is in flight. A hit
        is any present key: a cached list is truthy even when empty. */
    method FetchPageResults(page: int)
      requires Valid() && page >= 1
      modifies this`pending, this`shown, this`bar
      ensures Valid()
      ensures Fetched(page, old(pending), old(shown), old(bar))
    {
      if page in allResults {
        Refresh();
        return;
      }
      pending := pending + multiset{PageFetch(currentQuery, page, StartIndex(page))};
    }

    /** A new search: back to page 1, remember the query, send the initial request.
        The cache is kept. */
    method Submit(query: string)
      requires Valid()
      modifies this`currentPage, this`currentQuery, this`pending
      ensures Valid()
      ensures currentPage == 1 && currentQuery == query
      ensures pending == old(pending) + multiset{Search(query)}
      ensures allResults == old(allResults)
    {
      currentPage := 1;
      currentQuery := query;
      pending := pending + multiset{Search(currentQuery)};
    }

    /** A click on the search button, with the text of the search box. */
    method SearchClick(input: string)
      requires Valid()
      modifies this`currentPage, this`currentQuery, this`pending
      ensures Valid()
      ensures currentPage == 1 && currentQuery == input
      ensures pending == old(pending) + multiset{Search(input)}
      ensures allResults == old(allResults)
    {
      Submit(input);
    }

    /** A key press in the search box: only Enter submits. */
    method KeyPress(key: string, input: string)
      requires Valid()
      modifies this`currentPage, this`currentQuery, this`pending
      ensures Valid()
      ensures key == "Enter" ==>
        currentPage == 1 && currentQuery == input && pending == old(pending) + multiset{Search(input)}
      ensures key != "Enter" ==>
        currentPage == old(currentPage) && currentQuery == old(currentQuery) && pending == old(pending)
      ensures allResults == old(allResults)
    {
      if key == "Enter" {
        Submit(input);
      }
    }

    /** The previous-page button: step back only from a page after the first. */
    method Prev()
      requires Valid()
      modifies this`currentPage, this`pending, this`shown, this`bar
      ensures Valid()
      ensures old(currentPage) > 1 ==>
        currentPage == old(currentPage) - 1 && Fetched(currentPage, old(pending), old(shown), old(bar))
      ensures old(currentPage) <= 1 ==>
        currentPage == old(currentPage) && pending == old(pending) && shown == old(shown) && bar == old(bar)
      ensures old(currentPage) <= Max(1, totalPages) ==> currentPage <= Max(1, totalPages)
    {
      if currentPage > 1 {
        currentPage := currentPage - 1;
        FetchPageResults(currentPage);
      }
    }

    /** The next-page button: step forward only from a page before the last. */
    method Next()
      requires Valid()
      modifies this`currentPage, this`pending, this`shown, this`bar
      ensures Valid()
      ensures old(currentPage) < totalPages ==>
        currentPage == old(currentPage) + 1 && Fetched(currentPage, old(pending), old(shown), old(bar))
      ensures old(currentPage) >= totalPages ==>
        currentPage == old(currentPage) && pending == old(pending) && shown == old(shown) && bar == old(bar)
      ensures old(currentPage) <= Max(1, totalPages) ==> currentPage <= Max(1, totalPages)
    {
      if currentPage < totalPages {
        currentPage := currentPage + 1;
        FetchPageResults(currentPage);
      }
    }

    /** A click on one of the displayed page numbers. */
    method PageClick(page: int)
      requires Valid()
      requires bar.Some? && page in bar.value.pages
      modifies this`currentPage, this`pending, this`shown, this`bar
      ensures Valid()
      ensures currentPage == page
      ensures Fetched(page, old(pending), old(shown), old(bar))
      ensures 1 <= currentPage <= totalPages
    {
      currentPage := page;
      FetchPageResults(currentPage);
    }

    /** The answer to an initial search arrives. Its books are cached under the
        page current at arrival, and the totals and statistics are replaced,
        whichever query the request was for. */
    method OnInitialResponse(req: Request, resp: SearchResponse)
      requires Valid()
      requires req in pending && req.Search?
      modifies this`pending, this`allResults, this`totalResults, this`totalPages, this`stats
      modifies this`shown, this`bar
      ensures Valid()
      ensures pending == old(pending) - multiset{req}
      ensures currentPage == old(currentPage) && currentQuery == old(currentQuery)
      ensures allResults == old(allResults)[old(currentPage) := resp.books]
      ensures totalResults == resp.totalItems && totalPages == TotalPagesFor(resp.totalItems)
      ensures stats == Some(Stats(resp.totalItems, resp.mostCommonAuthor, resp.earliestPubDate, resp.latestPubDate))
      ensures shown == resp.books && bar == Some(BarFor(currentPage, totalPages))
    {
      RecordSearchResponse(req, resp);
      Refresh();
    }

    /** The assignments of the initial continuation that precede the display refresh. */
    method RecordSearchResponse(req: Request, resp: SearchResponse)
      requires Consistent()
      requires req in pending
      modifies this`pending, this`allResults, this`totalResults, this`totalPages, this`stats
      ensures Consistent()
      ensures pending == old(pending) - multiset{req}
      ensures allResults == old(allResults)[currentPage := resp.books]
      ensures totalResults == resp.totalItems && totalPages == TotalPagesFor(resp.totalItems)
      ensures stats == Some(Stats(resp.totalItems, resp.mostCommonAuthor, resp.earliestPubDate, resp.latestPubDate))
    {
      pending := pending - multiset{req};
      assert forall r :: r in pending ==> r in old(pending);
      allResults := allResults[currentPage := resp.books];
      totalResults := resp.totalItems;
      totalPages := TotalPagesFor(totalResults);
      stats := Some(Stats(totalResults, resp.mostCommonAuthor, resp.earliestPubDate, resp.latestPubDate));
    }

    /** The answer to a page request arrives. Its books are cached under the
        requested page and no other entry changes; then the current page is
        displayed, which need not be the page that arrived. */
    method OnPageResponse(req: Request, books: seq<Book>)
      requires Valid()
      requires req in pending && req.PageFetch?
      modifies this`allResults, this`pending, this`shown, this`bar
      ensures Valid()
      ensures pending == old(pending) - multiset{req}
      ensures allResults == old(allResults)[req.page := books]
      ensures Displayed(old(bar))
    {
      pending := pending - multiset{req};
      allResults := allResults[req.page := books];
      Refresh();
    }

    /** A request fails (transport error or a non-ok status): it is only logged. */
    method OnFailure(req: Request)
      requires Valid()
      requires req in pending
      modifies this`pending
      ensures Valid()
      ensures pending == old(pending) - multiset{req}
    {
      pending := pending - multiset{req};
    }
  }

  /** A page answer sent for an earlier query still lands in the cache after a
      new search: nothing ties the answer to the query it was asked for. */
  method StaleAnswerIsCached(c: Controller, query: string, req: Request, books: seq<Book>)
    requires c.Valid() && req in c.pending && req.PageFetch?
    modifies c
    ensures c.currentQuery == query && c.currentPage == 1
    ensures c.allResults == old(c.allResults)[req.page := books]
  {
    c.Submit(query);
    c.OnPageResponse(req, books);
  }

  /** When the user moves to the next page before the initial answer arrives,
      that answer is cached under the new page, not under page 1. */
  method InitialAnswerFollowsCurrentPage(c: Controller, req: Request, resp: SearchResponse)
    requires c.Valid() && req in c.pending && req.Search?
    requires c.currentPage < c.totalPages
    modifies c
    ensures c.currentPage == old(c.currentPage) + 1
    ensures c.currentPage in c.allResults && c.allResults[c.currentPage] == resp.books
  {
    c.Next();
    c.OnInitialResponse(req, resp);
  }

  /** Two clicks on the same uncached page, before its answer arrives, put two
      identical requests in flight. */
  method RepeatedClickRequestsTwice(c: Controller, page: int)
    requires c.Valid() && c.bar.Some? && page in c.bar.value.pages && page !in c.allResults
    modifies c
    ensures c.pending == old(c.pending) + multiset{PageFetch(c.currentQuery, page, StartIndex(page)), PageFetch(c.currentQuery, page, StartIndex(page))}
  {
    c.PageClick(page);
    c.PageClick(page);
  }
}
