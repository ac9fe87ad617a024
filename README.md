# Google Books search: pagination controller and response shaping

This project models the two pieces of decision logic in a small book-search application and proves properties about them.

- **The browser controller** (`static/scripts.js`) keeps the session in the script's session variables, `let` bindings inside the page-load callback: the current page, the current query, the result and page totals, and a page cache `allResults` keyed by page number. Event handlers change this state: search submit, Enter, previous, next, and a click on a page number. So do the continuations of the two `fetch` calls. `getPageRange` computes the sliding window of page numbers shown as controls.
- **The search service** (`app.py`) turns raw Google Books volume records into book records. It fills defaults for missing fields and computes three statistics: the most common author, and the earliest and latest known publication date.

The model has one module per concern:

- `Options`: an optional value. It models a missing key of a JSON object.
- `Strings`: Python's ordering of `str` values, with `min` and `max` over a list.
- `BookData`: `format_authors` and `process_books_data`.
- `PageWindow`: `getPageRange`.
- `SearchController`: the controller. It is a class `Controller` whose fields are the script's session variables.

The class also has fields for what the event logic produces:
- `pending`: the multiset of requests in flight.
- `shown`, `bar`, `stats`: what the display is told to show.

A `fetch` becomes a request added to `pending`. Its answer is a later event (`OnInitialResponse`, `OnPageResponse`) that removes one copy of that request. A failure (`OnFailure`) removes the request and changes nothing else, because the code only logs it.

The model follows the code as written:
- A new search does not clear the cache.
- A late answer is never discarded.
- The initial answer is cached under whatever page is current when it arrives.
- `displayResults` clears the list and then throws when the current page has no cache entry. That can happen after a page answer arrives for a page other than the current one. The throw skips `updatePagination`, so the pagination row is left as it was (`Controller.Displayed`).
- A cache hit is any present key, because JavaScript treats an array as truthy even when it is empty.

Several behaviours one might expect of such a controller are absent from the code. The model follows the code and records each one:
- **Cache clearing on new search.** Clearing the cache would keep one query's pages out of the next query's session. The code never clears it (`Controller.Submit`; see `StaleAnswerIsCached`).
- **Stale answers.** A generation counter checked on arrival would drop answers to superseded requests. The code has none, so every answer is applied.
- **Next button with zero results.** Both buttons could be disabled when there are no results. The code leaves next enabled, because the current page 1 differs from 0 pages (`NoResultsBar`). The next handler still does nothing in that state (`Controller.Next`).
- **Repeated page requests.** Asking twice for the same page could fetch it once. The code sends two identical requests when the answer has not yet arrived (`RepeatedClickRequestsTwice`).
- **Window length.** A window of length `min(maxPages, total)` holds only for odd sizes (`OddWindowLength`). For an even size, an unclamped window has one entry too many (`EvenWindowOverflow`). The only call passes 7.

## Model

| member | source | states |
|---|---|---|
| `Options.Option.GetOr` | app.py:25-29 | `dict.get(key, default)`: the stored value when the key is present, the default when it is absent |
| `Strings.StrLe` | app.py:48-49 | Python's `<=` on strings, the comparison `min` and `max` use; a string sorts no later than any extension of it, e.g. "2020" and "2020-05-01" |
| `Strings.StrLt` | app.py:48-49 | Python's `<` on strings holds exactly when `>=` fails |
| `Strings.StrLeReflexive` | app.py:48-49 | every string sorts no later than itself |
| `Strings.StrLeTotal` | app.py:48-49 | any two strings are comparable, so `min`/`max` are well defined |
| `Strings.StrLeAntisymmetric` | app.py:48-49 | two strings that sort no later than each other are equal |
| `Strings.StrLeTransitive` | app.py:48-49 | the string order is transitive |
| `Strings.StrLtTrichotomy` | app.py:48-49 | exactly one of `a < b`, `a == b`, `b < a` holds |
| `Strings.Least` | app.py:48 | `min` of a non-empty list is an element of it that sorts no later than every element |
| `Strings.Greatest` | app.py:49 | `max` of a non-empty list is an element of it that sorts no earlier than every element |
| `Strings.MinOr` | app.py:48 | `min(..., default=)` is the default for an empty list; otherwise it is a least element of the list |
| `Strings.MaxOr` | app.py:49 | `max(..., default=)` is the default for an empty list; otherwise it is a greatest element of the list |
| `Strings.LeastBeforeGreatest` | app.py:48-49 | the earliest date never sorts after the latest |
| `BookData.Join` | app.py:15 | `', '.join`: the join starts with the first part and ends with the last |
| `BookData.JoinAppend` | app.py:15 | joining two non-empty lists puts one separator between their joins |
| `BookData.JoinLength` | app.py:15 | the join's length is the summed part lengths plus one separator per neighbouring pair |
| `BookData.FormatAuthors` | app.py:14-15 | "Unknown Author" for an absent or empty list, otherwise the `", "`-join |
| `BookData.FormatAuthorsFew` | app.py:15 | one author maps to itself; two are joined with ", " |
| `BookData.Info` | app.py:25 | `item.get('volumeInfo', {})`: a missing object reads as one with no keys |
| `BookData.AuthorsOf` | app.py:26 | the item's author list, or [] when the key is absent |
| `BookData.DateOf` | app.py:29 | the item's date, or "Unknown Date" when the key is absent |
| `BookData.ToBook` | app.py:25-41 | a missing title, description or date becomes "No Title", "No description available." or "Unknown Date"; otherwise the value is kept; `authors` is `format_authors` of the item's list, which defaults to [] |
| `BookData.BooksOf` | app.py:24-41 | the `books` list the loop builds has one entry per item |
| `BookData.AllAuthors` | app.py:24-31 | the `all_authors` list the loop builds counts each item's authors at least as often as that item lists them |
| `BookData.KnownDates` | app.py:24-33 | the `pub_dates` list the loop builds has at most one date per item and never "Unknown Date" |
| `BookData.BooksOfPointwise` | app.py:24-41 | the loop yields one book per item, in input order, each built from its own item |
| `BookData.AllAuthorsMembers` | app.py:26-31 | the combined author list holds exactly the authors of some item |
| `BookData.KnownDatesMembers` | app.py:29-33 | the date list holds exactly the items' dates other than "Unknown Date" |
| `BookData.Count` | app.py:44 | a `Counter` entry: positive exactly for the strings that occur |
| `BookData.MostFrequentOf` | app.py:44-45 | the chosen candidate's count is at least every candidate's count |
| `BookData.MostCommon` | app.py:44-45 | "No Author" for no authors; otherwise an author that occurs, whose count is at least every string's count |
| `BookData.MostCommonPlaceholder` | app.py:45 | if no author is called "No Author", the placeholder is returned exactly when there are no authors |
| `BookData.ProcessBooksData` | app.py:18-51 | books as above; the most common author as above; earliest and latest are "N/A" without known dates, otherwise a least and a greatest known date, with earliest no later than latest |
| `PageWindow.Range` | static/scripts.js:178-181 | the push loop's list is `lo, lo+1, ..., hi` and is empty when `lo > hi` |
| `PageWindow.WindowBounds` | static/scripts.js:166-176 | after the edge adjustment the start is at least 1 and the end at most `totalPages` |
| `PageWindow.Window` | static/scripts.js:165-184 | the window is a strictly ascending run of consecutive pages, all in `[1, totalPages]`, for every input |
| `PageWindow.GetPageRange` | static/scripts.js:165-184 | the method returns the window: ascending, consecutive, within `[1, totalPages]` |
| `PageWindow.EmptyWithoutPages` | static/scripts.js:167-183 | zero pages give an empty window |
| `PageWindow.WindowContainsCurrent` | static/scripts.js:165-176 | for every size that is not negative, the window contains an existing current page |
| `PageWindow.OddWindowLength` | static/scripts.js:165-176 | for an odd size and `1 <= current <= total`, the window contains `current` and has `min(maxPages, total)` entries |
| `PageWindow.CentredAwayFromEdges` | static/scripts.js:166-170 | away from both edges the window is `current - half .. current + half` |
| `PageWindow.EvenWindowOverflow` | static/scripts.js:166-170 | for an even size and no clamping the window has `maxPages + 1` entries |
| `PageWindow.SevenWindow` | static/scripts.js:150 | at the one call site (size 7), the window contains the current page and has `min(7, totalPages)` entries |
| `PageWindow.FirstPageWindow` | static/scripts.js:170-172 | on page 1 the window is `1 .. min(7, total)` |
| `PageWindow.LastPageWindow` | static/scripts.js:173-175 | on the last page the window is `max(1, total-6) .. total` |
| `PageWindow.MiddleWindowExample` | static/scripts.js:165-176 | page 5 of 10 shows pages 2 to 8 |
| `SearchController.TotalPagesFor` | static/scripts.js:73 | the page count is the least integer `n` with `10n >= totalResults` |
| `SearchController.TotalPagesExamples` | static/scripts.js:73 | 95 results give 10 pages, 0 give 0, 100 give 10, 101 give 11 |
| `SearchController.StartIndex` | static/scripts.js:94 | the offset `(page-1)*10` is not negative for an existing page and is a multiple of the page size |
| `SearchController.StartIndexRoundTrip` | static/scripts.js:94 | the zero-based offset `(page-1)*10` leads back to its page |
| `SearchController.PageOfCoversIndex` | static/scripts.js:94 | every result index lies within the offsets of the page that holds it |
| `SearchController.LastResultOnLastPage` | static/scripts.js:73 | the last result falls on page `totalPages` |
| `SearchController.BarFor` | static/scripts.js:146-150 | prev disabled iff page 1, next disabled iff last page; on an existing page `min(7, totalPages)` numbers including the current one |
| `SearchController.ButtonsMatchHandlers` | static/scripts.js:146-147 | on an existing page, prev is disabled iff `currentPage == 1` iff the prev handler does nothing; likewise next with `totalPages` |
| `SearchController.NoResultsBar` | static/scripts.js:146-150 | with 0 results: prev disabled, next enabled, no page numbers |
| `SearchController.Controller.constructor` | static/scripts.js:10-14 | the initial session: page 1, empty query, zero totals, empty cache, nothing in flight |
| `SearchController.Controller.DisplayResults` | static/scripts.js:120-125 | shows the current page's cached list; with no entry, the list is cleared and the call fails |
| `SearchController.Controller.UpdatePagination` | static/scripts.js:144-162 | prev disabled iff page 1, next disabled iff last page, page numbers are the size-7 window, the current page is highlighted |
| `SearchController.Controller.Refresh` | static/scripts.js:84-85 | the `displayResults(); updatePagination();` pair, also at lines 96-97 and 111-112; the pagination row is left as it was when display fails |
| `SearchController.Controller.FetchPageResults` | static/scripts.js:93-117 | cache hit: no request, cache unchanged, page displayed; miss: exactly one request with offset `(page-1)*10` under the current query, display untouched |
| `SearchController.Controller.Submit` | static/scripts.js:17-21 | page reset to 1, query set, one initial request sent, cache not modified |
| `SearchController.Controller.SearchClick` | static/scripts.js:17-21 | the search button submits the box's text |
| `SearchController.Controller.KeyPress` | static/scripts.js:24-30 | only Enter submits; any other key changes nothing |
| `SearchController.Controller.Prev` | static/scripts.js:33-38 | decrements and fetches only when the page is above 1, otherwise changes nothing; keeps the page within `[1, max(1, totalPages)]` |
| `SearchController.Controller.Next` | static/scripts.js:41-46 | increments and fetches only when the page is below `totalPages`, otherwise changes nothing; keeps the page within `[1, max(1, totalPages)]` |
| `SearchController.Controller.PageClick` | static/scripts.js:49-54 | the clicked page becomes current and is fetched; it lies in `[1, totalPages]` |
| `SearchController.Controller.OnInitialResponse` | static/scripts.js:67-86 | books cached under the page current at arrival; totals set with `totalPages = ceil(totalItems/10)`; statistics shown; the list and pagination refreshed |
| `SearchController.Controller.RecordSearchResponse` | static/scripts.js:71-82 | the state the initial continuation writes before refreshing |
| `SearchController.Controller.OnPageResponse` | static/scripts.js:108-113 | only the requested page's cache entry is written; then the current page is displayed |
| `SearchController.Controller.OnFailure` | static/scripts.js:114-116 | a failed request is dropped and nothing else changes |
| `SearchController.StaleAnswerIsCached` | static/scripts.js:101-110 | a page answer for an earlier query is cached after a new search |
| `SearchController.InitialAnswerFollowsCurrentPage` | static/scripts.js:71 | an initial answer arriving after a step forward is cached under the new page |
| `SearchController.RepeatedClickRequestsTwice` | static/scripts.js:93-101 | two clicks on an uncached page before its answer put two identical requests in flight |

## Left out

- DOM work is not modelled: element lookup, building `li`/`span` elements, the per-item description toggle, and the display-side "No description available." fallback (static/scripts.js:126-141, 154-161). The model records only which books, page numbers and button states are handed to the page.
- Network transport is not modelled: `fetch`, `response.ok`, `json()`, `encodeURIComponent` and the URLs. A request is a value in `pending`, a success is a response event, and a failure is `OnFailure`.
- The response time (`performance.now`, `toFixed`, `time.time`) is left out, because it is a clock and floating point. Console and `print` logging is left out too.
- Click parsing is left out. `PageClick` takes the page as an integer drawn from the displayed page numbers, in place of `parseInt` of the span text. A click inside the row that misses a span does nothing, so it has no event.
- The Flask routes `search_books` and `fetch_page` (app.py:54-122) are left out: parameter parsing, the 400 and 500 answers, the call to the Google Books API and JSON serialisation. Their outcome reaches the controller only as a response event or a failure.
- JSON `null` values and wrongly typed fields are not modelled. Examples are an author list given as a string, a `null` title or description, and a missing `books` or `totalItems` in an answer. The model admits only absent keys and values of the expected types.
- The initial state of the two buttons comes from the HTML page, which is not part of this model. `bar` is `None` until the first refresh.
- `BookData.MostCommon`: does not model which of several equally frequent authors `Counter.most_common` picks. It promises only an author of maximal count.
- `BookData.MostCommonPlaceholder`: the "placeholder iff no authors" direction is stated only when no author is literally named "No Author".
- `SearchController.TotalPagesFor`: an exact integer ceiling. The script divides in floating point, which gives the same page count for any result count below 2^49.
- `Strings.StrLe`: compares strings by code point, as Python does. Dafny's `char` is a Unicode scalar value.
