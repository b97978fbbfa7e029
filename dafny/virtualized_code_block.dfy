/**
 * The long-code viewer: content is split into lines, and above `maxLines`
 * lines only a window of them around the scroll position is rendered. The
 * window comes from the scroll offset, a fixed line height of 24 pixels and
 * the container height, which is kept between 300 and 600 pixels.
 */
module VirtualizedCodeBlock {
  import opened Wrappers
  import opened Strings

  /** Estimated height of one rendered line, in pixels. */
  const LineHeight: int := 24
  /** Line count above which the block is virtualised when no `maxLines` is given. */
  const DefaultMaxLines: int := 100
  const MinContainerHeight: real := 300.0
  const MaxContainerHeight: real := 600.0
  /** Container height before the first measurement. */
  const InitialContainerHeight: real := 400.0

  /** `children.split('\n')`. */
  function Lines(content: string): seq<string> {
    Split(content, '\n')
  }

  /** Only more lines than `maxLines` turn the windowing on. */
  predicate ShouldVirtualize(totalLines: int, maxLines: int) {
    totalLines > maxLines
  }

  function Max(a: int, b: int): int { if a >= b then a else b }
  function Min(a: int, b: int): int { if a <= b then a else b }

  /** `Math.ceil`. */
  function Ceil(x: real): (c: int)
    ensures x <= c as real < x + 1.0
  {
    if x == x.Floor as real then x.Floor else x.Floor + 1
  }

  /** Lines that fit in the container, rounded up. */
  function VisibleLines(containerHeight: real): int {
    Ceil(containerHeight / LineHeight as real)
  }

  /** `Math.floor(visibleLines * 0.5)`; Dafny's `/` by 2 rounds down for negative numbers too. */
  function BufferLines(visibleLines: int): (b: int)
    ensures 2 * b <= visibleLines <= 2 * b + 1
  {
    visibleLines / 2
  }

  /** Index of the line at the top of the viewport. */
  function FirstVisibleLine(scrollTop: real): (f: int)
    ensures f as real <= scrollTop / LineHeight as real < f as real + 1.0
  {
    (scrollTop / LineHeight as real).Floor
  }

  /** The inclusive range of line indices handed to the highlighter. */
  datatype Window = Window(start: int, end: int)

  /** `startIndex` and `endIndex`. */
  function ComputeWindow(totalLines: int, maxLines: int, scrollTop: real, containerHeight: real): (w: Window)
    ensures w.start >= 0
    ensures w.end <= totalLines - 1
  {
    var visible := VisibleLines(containerHeight);
    var buffer := BufferLines(visible);
    if ShouldVirtualize(totalLines, maxLines) then
      var start := Max(0, FirstVisibleLine(scrollTop) - buffer);
      Window(start, Min(totalLines - 1, start + visible + buffer * 2))
    else
      Window(0, totalLines - 1)
  }

  /** `Math.min(600, Math.max(300, height))`: the measured height kept inside the allowed band. */
  function ClampHeight(measured: real): (h: real)
    ensures MinContainerHeight <= h <= MaxContainerHeight
    ensures MinContainerHeight <= measured <= MaxContainerHeight ==> h == measured
    ensures measured < MinContainerHeight ==> h == MinContainerHeight
    ensures measured > MaxContainerHeight ==> h == MaxContainerHeight
  {
    var atLeast := if measured >= MinContainerHeight then measured else MinContainerHeight;
    if atLeast <= MaxContainerHeight then atLeast else MaxContainerHeight
  }

  /** `Array.prototype.slice(from, to)`, negative indices counting from the end. */
  function JsSlice<T>(s: seq<T>, from: int, to: int): (r: seq<T>)
    ensures 0 <= from <= to <= |s| ==> r == s[from..to]
  {
    var a := if from < 0 then Max(|s| + from, 0) else Min(from, |s|);
    var b := if to < 0 then Max(|s| + to, 0) else Min(to, |s|);
    if b <= a then [] else s[a..b]
  }

  /** The lines `VirtualizedCode` renders: `lines.slice(startIndex, endIndex + 1)`. */
  function WindowLines(lines: seq<string>, w: Window): seq<string> {
    JsSlice(lines, w.start, w.end + 1)
  }

  // ---------------------------------------------------------------------------
  // Properties of the window
  // ---------------------------------------------------------------------------

  /** Splitting into lines and joining them again with newlines loses nothing. */
  lemma LinesRejoin(content: string)
    ensures Join(Lines(content), '\n') == content
    ensures |Lines(content)| == CountChar(content, '\n') + 1
  {
    JoinSplit(content, '\n');
    SplitCount(content, '\n');
  }

  /** At most `maxLines` lines: the window is every line. */
  lemma ShortContentShowsEveryLine(totalLines: int, maxLines: int, scrollTop: real, containerHeight: real)
    requires !ShouldVirtualize(totalLines, maxLines)
    ensures ComputeWindow(totalLines, maxLines, scrollTop, containerHeight) == Window(0, totalLines - 1)
  {
  }

  /** The buffer is half the visible lines; a container in the allowed band shows 13 to 25 lines. */
  lemma VisibleLinesInBand(containerHeight: real)
    requires MinContainerHeight <= containerHeight <= MaxContainerHeight
    ensures 13 <= VisibleLines(containerHeight) <= 25
    ensures 6 <= BufferLines(VisibleLines(containerHeight)) <= 12
  {
  }

  /** While the scroll offset stays inside the content, the window holds at least one line. */
  lemma WindowNonEmpty(totalLines: int, maxLines: int, scrollTop: real, containerHeight: real)
    requires totalLines >= 1
    requires MinContainerHeight <= containerHeight <= MaxContainerHeight
    requires 0.0 <= scrollTop <= (totalLines * LineHeight) as real
    ensures ComputeWindow(totalLines, maxLines, scrollTop, containerHeight).start
         <= ComputeWindow(totalLines, maxLines, scrollTop, containerHeight).end
  {
    VisibleLinesInBand(containerHeight);
    assert FirstVisibleLine(scrollTop) <= totalLines;
  }

  /** Every existing line inside the viewport is inside the window. */
  lemma ViewportCovered(totalLines: int, maxLines: int, scrollTop: real, containerHeight: real, k: int)
    requires 0.0 <= containerHeight
    requires 0 <= k < totalLines
    requires FirstVisibleLine(scrollTop) <= k <= FirstVisibleLine(scrollTop) + VisibleLines(containerHeight) - 1
    ensures ComputeWindow(totalLines, maxLines, scrollTop, containerHeight).start <= k
    ensures k <= ComputeWindow(totalLines, maxLines, scrollTop, containerHeight).end
  {
  }

  /** A virtualised window never holds more than `visible + 2 * buffer + 1` lines. */
  lemma WindowSizeBounded(totalLines: int, maxLines: int, scrollTop: real, containerHeight: real)
    requires ShouldVirtualize(totalLines, maxLines)
    ensures var w := ComputeWindow(totalLines, maxLines, scrollTop, containerHeight);
            var v := VisibleLines(containerHeight);
            w.end - w.start + 1 <= v + 2 * BufferLines(v) + 1
  {
  }

  /** Scrolling line `k` to the top renders it: no line is unreachable. */
  lemma EveryLineReachable(totalLines: int, maxLines: int, containerHeight: real, k: int)
    requires MinContainerHeight <= containerHeight <= MaxContainerHeight
    requires 0 <= k < totalLines
    ensures var w := ComputeWindow(totalLines, maxLines, (k * LineHeight) as real, containerHeight);
            w.start <= k <= w.end
  {
    VisibleLinesInBand(containerHeight);
    assert FirstVisibleLine((k * LineHeight) as real) == k;
    ViewportCovered(totalLines, maxLines, (k * LineHeight) as real, containerHeight, k);
  }

  /**
   * In a non-empty window the highlighter gets exactly `lines[start..end]`,
   * numbered from `start + 1`, so the line numbered `n` is line `n` of the
   * content; the spacer above it is `start * 24` pixels, and spacer plus
   * window fit in the scroll height.
   */
  lemma WindowSliceNumbering(lines: seq<string>, w: Window, j: int)
    requires 0 <= w.start <= w.end < |lines|
    requires 0 <= j < w.end - w.start + 1
    ensures WindowLines(lines, w) == lines[w.start..w.end + 1]
    ensures |WindowLines(lines, w)| == w.end - w.start + 1
    ensures WindowLines(lines, w)[j] == lines[(FirstLineNumber(w) + j) - 1]
    ensures OffsetY(w) + |WindowLines(lines, w)| * LineHeight <= TotalHeight(|lines|)
  {
  }

  /** `startingLineNumber`. */
  function FirstLineNumber(w: Window): int { w.start + 1 }

  /** `offsetY`: the spacer above the rendered lines. */
  function OffsetY(w: Window): int { w.start * LineHeight }

  /** `totalHeight`: the scroll height of the whole content. */
  function TotalHeight(totalLines: int): int { totalLines * LineHeight }

  // ---------------------------------------------------------------------------
  // The component's state
  // ---------------------------------------------------------------------------

  /** What is handed to the highlighter. */
  datatype View =
    | WholeContent(text: string)
    | Windowed(text: string, firstLineNumber: int, offsetY: int, totalHeight: int)

  /** A mounted code block: its props and its two state fields. */
  class CodeBlock {
    const content: string
    const maxLines: int
    const showContainer: bool
    var scrollTop: real
    var containerHeight: real

    /** The measured height always lies in the allowed band. */
    ghost predicate Valid()
      reads this
    {
      MinContainerHeight <= containerHeight <= MaxContainerHeight
    }

    constructor (children: string, maxLinesProp: Option<int>, showContainerProp: Option<bool>)
      ensures Valid()
      ensures content == children && maxLines == maxLinesProp.GetOr(DefaultMaxLines)
      ensures showContainer == showContainerProp.GetOr(true)
      ensures scrollTop == 0.0 && containerHeight == InitialContainerHeight
    {
      content := children;
      maxLines := maxLinesProp.GetOr(DefaultMaxLines);
      showContainer := showContainerProp.GetOr(true);
      scrollTop := 0.0;
      containerHeight := InitialContainerHeight;
    }

    function TotalLines(): nat
      reads this
    {
      |Lines(content)|
    }

    function CurrentWindow(): Window
      reads this
    {
      ComputeWindow(TotalLines(), maxLines, scrollTop, containerHeight)
    }

    /** A scroll event records the offset only when the block is virtualised. */
    method HandleScroll(newScrollTop: real)
      modifies this`scrollTop
      ensures scrollTop == if ShouldVirtualize(TotalLines(), maxLines) then newScrollTop else old(scrollTop)
    {
      if ShouldVirtualize(|Lines(content)|, maxLines) {
        scrollTop := newScrollTop;
      }
    }

    /** Mount and window resize: re-measure the container if it is attached (`None` when it is not). */
    method UpdateContainerHeight(measured: Option<real>)
      requires Valid()
      modifies this`containerHeight
      ensures Valid()
      ensures containerHeight == if measured.Some? then ClampHeight(measured.value) else old(containerHeight)
    {
      if measured.Some? {
        containerHeight := ClampHeight(measured.value);
      }
    }

    /**
     * What is handed to the highlighter, after the HTML-entity decoding
     * `decode` (a DOM round trip, so a parameter here): all of the content
     * when the block is short or embedded without its container, otherwise
     * the current window of lines with its numbering and spacer.
     */
    function Render(decode: string -> string): (v: View)
      reads this
      ensures v.WholeContent? <==> !ShouldVirtualize(TotalLines(), maxLines) || !showContainer
      ensures v.WholeContent? ==> v.text == decode(content)
      ensures v.Windowed? ==>
        v.text == decode(Join(WindowLines(Lines(content), CurrentWindow()), '\n')) &&
        v.firstLineNumber == CurrentWindow().start + 1 &&
        v.offsetY == CurrentWindow().start * LineHeight &&
        v.totalHeight == TotalLines() * LineHeight
    {
      var lines := Lines(content);
      if !ShouldVirtualize(|lines|, maxLines) || !showContainer then WholeContent(decode(content))
      else
        var w := CurrentWindow();
        Windowed(decode(Join(WindowLines(lines, w), '\n')), FirstLineNumber(w), OffsetY(w), TotalHeight(|lines|))
    }

    /**
     * Whenever the block renders a window and the scroll offset lies inside
     * the content, the window is a non-empty run of existing lines, it
     * contains every line inside the viewport, and its spacer ends inside
     * the scroll height.
     */
    lemma WindowedRenderSound(decode: string -> string, k: int)
      requires Valid()
      requires 0.0 <= scrollTop <= (TotalLines() * LineHeight) as real
      requires Render(decode).Windowed?
      requires 0 <= k < TotalLines()
      requires FirstVisibleLine(scrollTop) <= k < FirstVisibleLine(scrollTop) + VisibleLines(containerHeight)
      ensures 0 <= CurrentWindow().start <= k <= CurrentWindow().end < TotalLines()
      ensures Render(decode).firstLineNumber >= 1
      ensures Render(decode).offsetY < Render(decode).totalHeight
    {
      ViewportCovered(TotalLines(), maxLines, scrollTop, containerHeight, k);
    }
  }
}
