/**
 * The page navigation control: the strip of at most seven page numbers with
 * "..." markers, the previous/next buttons, the jump-to-page box, and the rule
 * that a listing with one page or none shows no control at all.
 */
module Pagination {
  import opened Wrappers
  import opened Strings
  import opened Types

  /** The strip never holds more page numbers and markers than this. */
  const MaxVisiblePages: int := 7

  /** One entry of the strip: a page button or the "..." marker. */
  datatype PageEntry = Number(n: int) | Ellipsis

  /** Page buttons `lo, lo + 1, ..., hi`; none when `hi < lo`. */
  function PageRun(lo: int, hi: int): (r: seq<PageEntry>)
    ensures |r| == if hi < lo then 0 else hi - lo + 1
    ensures forall k :: 0 <= k < |r| ==> r[k] == Number(lo + k)
  {
    if hi < lo then [] else seq(hi - lo + 1, k => Number(lo + k))
  }

  /** The strip shown for the current page `page` out of `totalPages`. */
  function PageStrip(page: int, totalPages: int): seq<PageEntry>
  {
    if totalPages <= MaxVisiblePages then PageRun(1, totalPages)
    else if page <= 4 then PageRun(1, 5) + [Ellipsis, Number(totalPages)]
    else if page >= totalPages - 3 then [Number(1), Ellipsis] + PageRun(totalPages - 4, totalPages)
    else [Number(1), Ellipsis] + PageRun(page - 1, page + 1) + [Ellipsis, Number(totalPages)]
  }

  /** One `for` loop of the strip builder: push the buttons `lo..hi` onto `pages`. */
  method PushRun(pages: seq<PageEntry>, lo: int, hi: int) returns (r: seq<PageEntry>)
    ensures r == pages + PageRun(lo, hi)
  {
    r := pages;
    var i := lo;
    while i <= hi
      invariant lo <= i && (lo <= hi + 1 ==> i <= hi + 1) && (hi < lo ==> i == lo)
      invariant r == pages + PageRun(lo, i - 1)
    {
      assert PageRun(lo, i - 1) + [Number(i)] == PageRun(lo, i);
      r := r + [Number(i)];
      i := i + 1;
    }
    assert PageRun(lo, i - 1) == PageRun(lo, hi);
  }

  /** Builds the strip entry by entry, as the component does. */
  method GeneratePageNumbers(page: int, totalPages: int) returns (pages: seq<PageEntry>)
    ensures pages == PageStrip(page, totalPages)
  {
    pages := [];
    if totalPages <= MaxVisiblePages {
      pages := PushRun(pages, 1, totalPages);
    } else if page <= 4 {
      pages := PushRun(pages, 1, 5);
      pages := pages + [Ellipsis];
      pages := pages + [Number(totalPages)];
    } else if page >= totalPages - 3 {
      pages := pages + [Number(1)];
      pages := pages + [Ellipsis];
      pages := PushRun(pages, totalPages - 4, totalPages);
    } else {
      pages := pages + [Number(1)];
      pages := pages + [Ellipsis];
      pages := PushRun(pages, page - 1, page + 1);
      pages := pages + [Ellipsis];
      pages := pages + [Number(totalPages)];
    }
  }

  // ---------------------------------------------------------------------------
  // What the strip promises
  // ---------------------------------------------------------------------------

  /** With at most seven pages the strip is every page, `1, 2, ..., totalPages`, in order. */
  lemma SmallStripListsEveryPage(page: int, totalPages: int)
    requires totalPages <= MaxVisiblePages
    ensures |PageStrip(page, totalPages)| == if totalPages < 0 then 0 else totalPages
    ensures forall k :: 0 <= k < |PageStrip(page, totalPages)| ==> PageStrip(page, totalPages)[k] == Number(k + 1)
  {
  }

  /** With more than seven pages each of the three layouts has exactly seven entries. */
  lemma LargeStripHasSevenEntries(page: int, totalPages: int)
    requires totalPages > MaxVisiblePages
    ensures |PageStrip(page, totalPages)| == MaxVisiblePages
  {
  }

  /** The strip's shape: numbers within `1..totalPages` in increasing order, from 1 to `totalPages`. */
  ghost predicate NumbersOrdered(s: seq<PageEntry>, totalPages: int) {
    && (forall k :: 0 <= k < |s| && s[k].Number? ==> 1 <= s[k].n <= totalPages)
    && (forall i, j :: 0 <= i < j < |s| && s[i].Number? && s[j].Number? ==> s[i].n < s[j].n)
    && (totalPages >= 1 ==> |s| >= 1 && s[0] == Number(1) && s[|s| - 1] == Number(totalPages))
  }

  /**
   * The strip's gaps: a "..." is never first or last, always sits between two
   * numbers and hides at least one page; two neighbouring numbers are
   * consecutive pages. So every page from 1 to `totalPages` is either shown
   * or hidden behind exactly one marker.
   */
  ghost predicate GapsMarked(s: seq<PageEntry>) {
    && (forall k :: 0 <= k < |s| && s[k].Ellipsis? ==>
          0 < k < |s| - 1 && s[k - 1].Number? && s[k + 1].Number? && s[k + 1].n - s[k - 1].n >= 2)
    && (forall k :: 0 <= k < |s| - 1 && s[k].Number? && s[k + 1].Number? ==> s[k + 1].n == s[k].n + 1)
  }

  lemma PageRunOrdered(lo: int, hi: int)
    ensures forall i, j :: 0 <= i < j < |PageRun(lo, hi)| ==> PageRun(lo, hi)[i].n < PageRun(lo, hi)[j].n
  {
  }

  /** Where the gaps are marked, numbers increase from left to right. */
  lemma {:induction false} GapsMarkedIncreasing(s: seq<PageEntry>, i: int, j: int)
    requires GapsMarked(s) && 0 <= i < j < |s| && s[i].Number? && s[j].Number?
    ensures s[i].n < s[j].n
    decreases j - i
  {
    if s[j - 1].Number? {
      if i < j - 1 {
        GapsMarkedIncreasing(s, i, j - 1);
      }
    } else {
      assert s[j - 2].Number? && s[j].n - s[j - 2].n >= 2;
      if i < j - 2 {
        GapsMarkedIncreasing(s, i, j - 2);
      }
    }
  }

  /** A strip with marked gaps that runs from page 1 to the last page is ordered. */
  lemma OrderedByGaps(s: seq<PageEntry>, totalPages: int)
    requires GapsMarked(s)
    requires s == [] || (s[0] == Number(1) && s[|s| - 1] == Number(totalPages))
    requires totalPages >= 1 ==> s != []
    ensures NumbersOrdered(s, totalPages)
  {
    forall i, j | 0 <= i < j < |s| && s[i].Number? && s[j].Number? ensures s[i].n < s[j].n {
      GapsMarkedIncreasing(s, i, j);
    }
    forall k | 0 <= k < |s| && s[k].Number? ensures 1 <= s[k].n <= totalPages {
      if 0 < k {
        GapsMarkedIncreasing(s, 0, k);
      }
      if k < |s| - 1 {
        GapsMarkedIncreasing(s, k, |s| - 1);
      }
    }
  }

  lemma SmallStripWellFormed(page: int, totalPages: int)
    requires totalPages <= MaxVisiblePages
    ensures NumbersOrdered(PageStrip(page, totalPages), totalPages)
    ensures GapsMarked(PageStrip(page, totalPages))
  {
    OrderedByGaps(PageStrip(page, totalPages), totalPages);
  }

  lemma LeadingStripWellFormed(page: int, totalPages: int)
    requires totalPages > MaxVisiblePages && page <= 4
    ensures NumbersOrdered(PageStrip(page, totalPages), totalPages)
    ensures GapsMarked(PageStrip(page, totalPages))
  {
    var s := PageStrip(page, totalPages);
    assert s == [Number(1), Number(2), Number(3), Number(4), Number(5), Ellipsis, Number(totalPages)];
    OrderedByGaps(s, totalPages);
  }

  lemma TrailingStripWellFormed(page: int, totalPages: int)
    requires totalPages > MaxVisiblePages && 4 < page && page >= totalPages - 3
    ensures NumbersOrdered(PageStrip(page, totalPages), totalPages)
    ensures GapsMarked(PageStrip(page, totalPages))
  {
    var s := PageStrip(page, totalPages);
    var t := totalPages;
    assert s == [Number(1), Ellipsis, Number(t - 4), Number(t - 3), Number(t - 2), Number(t - 1), Number(t)];
    OrderedByGaps(s, totalPages);
  }

  lemma MiddleStripWellFormed(page: int, totalPages: int)
    requires totalPages > MaxVisiblePages && 4 < page < totalPages - 3
    ensures NumbersOrdered(PageStrip(page, totalPages), totalPages)
    ensures GapsMarked(PageStrip(page, totalPages))
  {
    var s := PageStrip(page, totalPages);
    var t := totalPages;
    assert s == [Number(1), Ellipsis, Number(page - 1), Number(page), Number(page + 1), Ellipsis, Number(t)];
    OrderedByGaps(s, totalPages);
  }

  /** Every strip is ordered and marks its gaps. */
  lemma PageStripWellFormed(page: int, totalPages: int)
    ensures NumbersOrdered(PageStrip(page, totalPages), totalPages)
    ensures GapsMarked(PageStrip(page, totalPages))
  {
    if totalPages <= MaxVisiblePages {
      SmallStripWellFormed(page, totalPages);
    } else if page <= 4 {
      LeadingStripWellFormed(page, totalPages);
    } else if page >= totalPages - 3 {
      TrailingStripWellFormed(page, totalPages);
    } else {
      MiddleStripWellFormed(page, totalPages);
    }
  }

  /** The current page, when it is a real page, always has its own button. */
  lemma StripShowsCurrentPage(page: int, totalPages: int)
    requires 1 <= page <= totalPages
    ensures Number(page) in PageStrip(page, totalPages)
  {
    var s := PageStrip(page, totalPages);
    if totalPages <= MaxVisiblePages {
      assert s[page - 1] == Number(page);
    } else if page <= 4 {
      assert s[page - 1] == Number(page);
    } else if page >= totalPages - 3 {
      assert s[page - totalPages + 6] == Number(page);
    } else {
      assert s[3] == Number(page);
    }
  }

  // ---------------------------------------------------------------------------
  // Jump to page
  // ---------------------------------------------------------------------------

  /**
   * The page a jump asks for: the typed text must parse as an integer inside
   * `1..totalPages` and differ from the current page; otherwise nothing happens.
   */
  function JumpTarget(input: string, page: int, totalPages: int): (target: Option<int>)
    ensures target.Some? ==> 1 <= target.value <= totalPages && target.value != page
    ensures target.Some? ==> ParseInt(input) == target
  {
    match ParseInt(input)
    case None => None
    case Some(n) => if 1 <= n <= totalPages && n != page then Some(n) else None
  }

  /** A page number typed in decimal is jumped to exactly when it is another real page. */
  lemma JumpToTypedPage(n: int, page: int, totalPages: int)
    ensures JumpTarget(IntToString(n), page, totalPages) == (if 1 <= n <= totalPages && n != page then Some(n) else None)
  {
    ParseIntToString(n);
  }

  /**
   * The jump button is greyed out for an empty box or a number outside
   * `1..totalPages`; text that does not parse leaves it enabled, because every
   * comparison with NaN is false.
   */
  function JumpButtonDisabled(input: string, totalPages: int): (disabled: bool)
    ensures !disabled && ParseInt(input).Some? ==> 1 <= ParseInt(input).value <= totalPages
    ensures input == "" ==> disabled
  {
    input == "" || (ParseInt(input).Some? && (ParseInt(input).value < 1 || ParseInt(input).value > totalPages))
  }

  /** The jump box: the text typed so far. */
  class JumpBox {
    var jumpToPage: string

    constructor ()
      ensures jumpToPage == ""
    {
      jumpToPage := "";
    }

    /** Typing into the box replaces its text. */
    method Type(value: string)
      modifies this
      ensures jumpToPage == value
    {
      jumpToPage := value;
    }

    /** Enter or the jump button: maybe request a page, then always clear the box. */
    method HandleJumpToPage(pagination: PaginationInfo) returns (request: Option<int>)
      modifies this
      ensures request == JumpTarget(old(jumpToPage), pagination.page, pagination.totalPages)
      ensures jumpToPage == ""
    {
      var pageNum := ParseInt(jumpToPage);
      request := None;
      if pageNum.Some? && pageNum.value >= 1 && pageNum.value <= pagination.totalPages && pageNum.value != pagination.page {
        request := Some(pageNum.value);
      }
      jumpToPage := "";
    }
  }

  // ---------------------------------------------------------------------------
  // The rendered control and every page it can request
  // ---------------------------------------------------------------------------

  /** What the control shows: the two arrows with their targets and enablement, and the strip. */
  datatype Controls = Controls(
    prevTarget: int, prevEnabled: bool,
    strip: seq<PageEntry>,
    nextTarget: int, nextEnabled: bool)

  /** The control for a listing; nothing at all when there are fewer than two pages. */
  function Render(p: PaginationInfo): (r: Option<Controls>)
    ensures r.None? <==> p.totalPages <= 1
    ensures r.Some? ==> |r.value.strip| >= 2 && r.value.strip == PageStrip(p.page, p.totalPages)
    ensures r.Some? ==> r.value.prevEnabled == p.hasPrev && r.value.nextEnabled == p.hasNext
    ensures r.Some? ==> r.value.prevTarget == p.page - 1 && r.value.nextTarget == p.page + 1
  {
    if p.totalPages <= 1 then None
    else Some(Controls(p.page - 1, p.hasPrev, PageStrip(p.page, p.totalPages), p.page + 1, p.hasNext))
  }

  /** A user gesture on the control. */
  datatype Gesture = PrevClick | NextClick | StripClick(index: nat) | JumpSubmit(input: string)

  /** The page `onPageChange` is called with, if any; disabled buttons do not fire. */
  function RequestedPage(p: PaginationInfo, g: Gesture): Option<int>
  {
    match Render(p)
    case None => None
    case Some(c) =>
      match g
      case PrevClick => if c.prevEnabled then Some(c.prevTarget) else None
      case NextClick => if c.nextEnabled then Some(c.nextTarget) else None
      case StripClick(i) => if i < |c.strip| && c.strip[i].Number? then Some(c.strip[i].n) else None
      case JumpSubmit(input) => JumpTarget(input, p.page, p.totalPages)
  }

  /** Pagination info as the service sends it: the flags agree with the page position. */
  ghost predicate Consistent(p: PaginationInfo) {
    1 <= p.page <= p.totalPages && p.hasPrev == (p.page > 1) && p.hasNext == (p.page < p.totalPages)
  }

  /** With consistent pagination info, every request the control makes names a real page. */
  lemma RequestsStayInRange(p: PaginationInfo, g: Gesture)
    requires Consistent(p)
    ensures RequestedPage(p, g).Some? ==> 1 <= RequestedPage(p, g).value <= p.totalPages
  {
    if p.totalPages > 1 && g.StripClick? {
      PageStripWellFormed(p.page, p.totalPages);
    }
  }
}
