/** getPageRange (static/scripts.js): the run of page numbers offered as
    pagination controls, centred on the current page and clamped to the pages
    that exist. */
module PageWindow {

  function Min(a: int, b: int): int { if a <= b then a else b }
  function Max(a: int, b: int): int { if a >= b then a else b }

  /** The integers `lo, lo + 1, ..., hi`, empty when `lo > hi`. */
  function Range(lo: int, hi: int): (r: seq<int>)
    decreases hi - lo
    ensures |r| == if lo <= hi then hi - lo + 1 else 0
    ensures forall i :: 0 <= i < |r| ==> r[i] == lo + i
  {
    if lo > hi then [] else [lo] + Range(lo + 1, hi)
  }

  /** The first and last page of the window, after the edge adjustment.
      `maxPages / 2` is `Math.floor(maxPages / 2)` for every integer. */
  function WindowBounds(current: int, total: int, maxPages: int): (b: (int, int))
    ensures 1 <= b.0 && b.1 <= total
  {
    var half := maxPages / 2;
    var start := Max(1, current - half);
    var end := Min(total, current + half);
    if end - start < maxPages - 1 then
      if start == 1 then (start, Min(total, start + maxPages - 1))
      else if end == total then (Max(1, end - maxPages + 1), end)
      else (start, end)
    else (start, end)
  }

  /** The window as a list: a strictly ascending run of consecutive pages, all in `[1, total]`. */
  function Window(current: int, total: int, maxPages: int): (pages: seq<int>)
    ensures forall i :: 0 <= i < |pages| ==> 1 <= pages[i] <= total
    ensures forall i :: 0 < i < |pages| ==> pages[i] == pages[i - 1] + 1
  {
    var b := WindowBounds(current, total, maxPages);
    Range(b.0, b.1)
  }

  /** getPageRange itself: compute the bounds, then push every page in between. */
  method GetPageRange(current: int, total: int, maxPages: int) returns (pages: seq<int>)
    ensures pages == Window(current, total, maxPages)
    ensures forall i :: 0 <= i < |pages| ==> 1 <= pages[i] <= total
    ensures forall i, j :: 0 <= i < j < |pages| ==> pages[i] < pages[j]
  {
    var half := maxPages / 2;
    var start := Max(1, current - half);
    var end := Min(total, current + half);
    if end - start < maxPages - 1 {
      if start == 1 {
        end := Min(total, start + maxPages - 1);
      } else if end == total {
        start := Max(1, end - maxPages + 1);
      }
    }
    pages := [];
    var i := start;
    while i <= end
      invariant start <= i <= Max(start, end + 1)
      invariant |pages| == i - start
      invariant forall k :: 0 <= k < |pages| ==> pages[k] == start + k
    {
      pages := pages + [i];
      i := i + 1;
    }
    assert (start, end) == WindowBounds(current, total, maxPages);
    assert pages == Range(start, end);
  }

  /** With no pages there are no controls. */
  lemma EmptyWithoutPages(current: int, maxPages: int)
    ensures Window(current, 0, maxPages) == []
  {
  }

  /** For an odd window size and a page that exists, the window holds the
      current page and has `min(maxPages, total)` entries. */
  lemma OddWindowLength(current: int, total: int, maxPages: int)
    requires maxPages >= 1 && maxPages % 2 == 1
    requires 1 <= current <= total
    ensures |Window(current, total, maxPages)| == Min(maxPages, total)
    ensures current in Window(current, total, maxPages)
  {
    var h := maxPages / 2;
    assert maxPages == 2 * h + 1;
    var b := WindowBounds(current, total, maxPages);
    assert b.0 <= current <= b.1;
    assert b.1 - b.0 + 1 == Min(maxPages, total);
    var w := Window(current, total, maxPages);
    assert w[current - b.0] == current;
  }

  /** Away from both edges the window is centred on the current page. */
  lemma CentredAwayFromEdges(current: int, total: int, maxPages: int)
    requires 1 <= current - maxPages / 2 && current + maxPages / 2 <= total
    ensures Window(current, total, maxPages) == Range(current - maxPages / 2, current + maxPages / 2)
  {
  }

  /** For every window size that is not negative, the window holds an existing current page. */
  lemma WindowContainsCurrent(current: int, total: int, maxPages: int)
    requires maxPages >= 0
    requires 1 <= current <= total
    ensures current in Window(current, total, maxPages)
  {
    var b := WindowBounds(current, total, maxPages);
    assert b.0 <= current <= b.1;
    assert Window(current, total, maxPages)[current - b.0] == current;
  }

  /** For an even size and no clamping the window has one entry more than asked for. */
  lemma EvenWindowOverflow(current: int, total: int, maxPages: int)
    requires maxPages >= 2 && maxPages % 2 == 0
    requires 1 <= current - maxPages / 2 && current + maxPages / 2 <= total
    ensures |Window(current, total, maxPages)| == maxPages + 1
  {
    assert maxPages == 2 * (maxPages / 2);
  }

  /** The only window size used: the contract of the call in updatePagination. */
  lemma SevenWindow(current: int, total: int)
    requires 1 <= current <= total
    ensures |Window(current, total, 7)| == Min(7, total)
    ensures current in Window(current, total, 7)
  {
    OddWindowLength(current, total, 7);
  }

  /** On the first page the window is the first `min(7, total)` pages. */
  lemma FirstPageWindow(total: int)
    ensures Window(1, total, 7) == Range(1, Min(7, total))
  {
  }

  /** On the last page the window is the last `min(7, total)` pages. */
  lemma LastPageWindow(total: int)
    requires total >= 1
    ensures Window(total, total, 7) == Range(Max(1, total - 6), total)
  {
  }

  /** Page 5 of 10 shows pages 2 to 8. */
  lemma MiddleWindowExample()
    ensures Window(5, 10, 7) == [2, 3, 4, 5, 6, 7, 8]
  {
    assert WindowBounds(5, 10, 7) == (2, 8);
    var r := Range(2, 8);
    assert |r| == 7;
    forall i | 0 <= i < 7 ensures r[i] == [2, 3, 4, 5, 6, 7, 8][i] {
    }
  }
}
