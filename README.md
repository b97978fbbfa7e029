# Tressa front end — a Dafny model of its decision logic

Tressa is a React front end for sharing code snippets ("tresses"). Most of it
is markup, network calls and third-party renderers. This project models the
parts that decide something, one Dafny module per source file:

- `Pagination` (`dafny/pagination.dfy`): the strip of at most seven page
  numbers with `...` gaps, built by a loop. It also covers the jump-to-page
  box, the rule that hides the control for one page, and the prev/next arrows.
- `VirtualizedCodeBlock` (`dafny/virtualized_code_block.dfy`): the window of
  lines a long code block renders, a function of `scrollTop` and the clamped
  container height. Also the component's scroll and resize state.
- `EnhancedMarkdown` (`dafny/enhanced_markdown.dfy`): the pass that escapes
  pipes inside inline code on table lines, modelled with the exact semantics
  of the global regular expression. Also the code-language extraction, the
  inline / highlighted / virtualised dispatch, the link target rule and the
  plugin lists.
- `PaginatedList` (`dafny/paginated_list.dfy`): the state of the paginated
  listing hook — items, pagination, loading, error, current page, one-shot
  auto-load flag. Its loads, refresh and two effects are methods of a class.
- `Auth` (`dafny/auth.dfy`): the session provider over a local-storage map.
  Covers sign-in, logout, one-shot hydration and the consumer check.
- `Register` (`dafny/register.dfy`): the registration form's ordered
  validation, the guard in front of the register call, and the
  password-strength levels.
- `ContentSize` (`dafny/content_size.dfy`): the size caps, their texts, and
  the UTF-8 size of a string. The size is computed over UTF-16 code units,
  with a lone surrogate counting as U+FFFD. It is proved equal to the length
  of an RFC 3629 encoding.
- `VisionSidebar` (`dafny/sidebar.dfy`): the side bar's buttons, their
  disabled and active states, and what a click does.
- `ApiClient` (`dafny/api_client.dfy`): how a request's URL, method, headers
  and body are built from the options and the stored token, and what a
  response resolves to.
- `BuildChunks` (`dafny/chunks.dfy`): the bundle-chunk naming rule of the
  build configuration, as written and in the order its comments describe.

Shared modules:

- `Wrappers`: `Option`, `Result`, and `Thrown` (what a `catch` receives).
- `Strings`: JavaScript string operations. These are `split`/`join`,
  `includes`, `trim`, `parseInt`, decimal printing, and `.length` counted in
  UTF-16 code units.
- `Types`: the records the service sends.

The modelling choices:

- Network calls are inputs. A fetch outcome, a `getMe` result or a response is
  passed to the step that consumes it; BuildRequest returns the request
  instead of sending it.
- React state setters are applied in order. Effects run in declaration order
  within one commit.
- The DOM's HTML-entity decoder is an uninterpreted function parameter.
- Strings are sequences of Unicode scalar values. JavaScript's `.length` is
  `Strings.JsLength`, which counts characters above U+FFFF twice.

## Model

| member | source | states |
|---|---|---|
| Pagination.GeneratePageNumbers | src/components/Pagination.tsx:17-55 | the loop builds exactly the reference strip `PageStrip`: every page up to seven pages, otherwise first/last page with a window around the current page and `...` markers |
| Pagination.PageStrip | src/components/Pagination.tsx:17-55 | the reference strip, defined by its body layout by layout; its properties are in `PageStripWellFormed`, `StripShowsCurrentPage`, `SmallStripListsEveryPage` and `LargeStripHasSevenEntries`, and `GeneratePageNumbers` is proved to build it |
| Pagination.PushRun | src/components/Pagination.tsx:22-24 | appending pages `lo..hi` one by one gives the old list followed by that run |
| Pagination.SmallStripListsEveryPage | src/components/Pagination.tsx:21-25 | with at most seven pages the strip is exactly `1, 2, ..., totalPages` in order |
| Pagination.LargeStripHasSevenEntries | src/components/Pagination.tsx:28-51 | with more than seven pages each of the three layouts has exactly seven entries |
| Pagination.PageRunOrdered | src/components/Pagination.tsx:22-24 | a run of consecutive pages is strictly increasing |
| Pagination.GapsMarkedIncreasing | src/components/Pagination.tsx:17-55 | where every gap is marked, the page numbers of a strip increase from left to right |
| Pagination.OrderedByGaps | src/components/Pagination.tsx:17-55 | a strip with marked gaps running from page 1 to the last page has all its numbers in order and in range |
| Pagination.SmallStripWellFormed | src/components/Pagination.tsx:21-25 | the small strip is ordered, within range, from 1 to the last page, and has no gaps |
| Pagination.LeadingStripWellFormed | src/components/Pagination.tsx:28-34 | the layout near the start is ordered, from 1 to the last page, and its single `...` hides at least one page |
| Pagination.TrailingStripWellFormed | src/components/Pagination.tsx:35-41 | the layout near the end is ordered, from 1 to the last page, and its `...` sits between numbers at least 2 apart |
| Pagination.MiddleStripWellFormed | src/components/Pagination.tsx:42-51 | the middle layout is ordered, its two `...` markers are never first, last or adjacent, and each hides at least one page |
| Pagination.PageStripWellFormed | src/components/Pagination.tsx:17-55 | every strip has increasing numbers in `1..totalPages`, starts at 1 and ends at `totalPages`; each `...` stands between numbers that differ by at least 2; neighbouring numbers are consecutive pages |
| Pagination.StripShowsCurrentPage | src/components/Pagination.tsx:28-51 | a current page within `1..totalPages` always has its own button |
| Pagination.JumpTarget | src/components/Pagination.tsx:57-63 | a jump names only a parsed page inside `1..totalPages` that differs from the current one |
| Pagination.JumpToTypedPage | src/components/Pagination.tsx:57-63 | a typed decimal number is jumped to exactly when it is another page inside the range |
| Pagination.JumpButtonDisabled | src/components/Pagination.tsx:154 | an empty box disables the button; an enabled button holding a number holds one inside the range |
| Pagination.JumpBox.constructor | src/components/Pagination.tsx:12 | the jump box starts empty |
| Pagination.JumpBox.Type | src/components/Pagination.tsx:146 | typing replaces the box's text |
| Pagination.JumpBox.HandleJumpToPage | src/components/Pagination.tsx:57-63 | the page requested is the jump target of the old text, and the box is cleared in every case |
| Pagination.Render | src/components/Pagination.tsx:71-130 | nothing is rendered iff there is at most one page; otherwise prev requests `page-1` and is enabled iff `has_prev`, next requests `page+1` and is enabled iff `has_next`, and the strip is the reference strip |
| Pagination.RequestedPage | src/components/Pagination.tsx:88-153 | the page a gesture asks for: prev and next only while enabled (lines 88, 129), a strip button its own number, the current one included (line 114), Enter and the jump button the jump target (lines 147, 153); defined by its body, and `RequestsStayInRange` proves every request lies in `1..totalPages` |
| Pagination.RequestsStayInRange | src/components/Pagination.tsx:57-130 | with consistent pagination info, every page the control requests lies in `1..totalPages` |
| VirtualizedCodeBlock.Lines | src/components/VirtualizedCodeBlock.tsx:105 | `children.split('\n')`, defined by its body; `LinesRejoin` proves that joining the lines gives the content back |
| VirtualizedCodeBlock.ShouldVirtualize | src/components/VirtualizedCodeBlock.tsx:107 | defined by its body: more lines than `maxLines`; `ShortContentShowsEveryLine` and `CodeBlock.Render` state what each side of it shows |
| VirtualizedCodeBlock.VisibleLines | src/components/VirtualizedCodeBlock.tsx:111 | `Math.ceil(containerHeight / lineHeight)`, defined by its body; its bounds are in `Ceil` and `VisibleLinesInBand` |
| VirtualizedCodeBlock.BufferLines | src/components/VirtualizedCodeBlock.tsx:112 | the buffer is half the visible lines rounded down: twice it is at most the visible count and at least one less |
| VirtualizedCodeBlock.FirstVisibleLine | src/components/VirtualizedCodeBlock.tsx:115 | the line at the top is `scrollTop / lineHeight` rounded down: at or below the quotient and less than one under it |
| VirtualizedCodeBlock.WindowLines | src/components/VirtualizedCodeBlock.tsx:37 | `lines.slice(startIndex, endIndex + 1)`, defined by its body; `WindowSliceNumbering` proves it is `lines[start..end]` with `end - start + 1` lines |
| VirtualizedCodeBlock.FirstLineNumber | src/components/VirtualizedCodeBlock.tsx:53 | `startIndex + 1`, defined by its body; `WindowSliceNumbering` proves the rendered line `j` is source line `FirstLineNumber + j` |
| VirtualizedCodeBlock.OffsetY | src/components/VirtualizedCodeBlock.tsx:337 | `startIndex * lineHeight`, defined by its body; `WindowSliceNumbering` proves the spacer plus the rendered lines fit in `TotalHeight` |
| VirtualizedCodeBlock.TotalHeight | src/components/VirtualizedCodeBlock.tsx:336 | `totalLines * lineHeight`, defined by its body; bounded as for `OffsetY` |
| VirtualizedCodeBlock.Ceil | src/components/VirtualizedCodeBlock.tsx:111 | the ceiling is the least integer at or above its argument |
| VirtualizedCodeBlock.ComputeWindow | src/components/VirtualizedCodeBlock.tsx:114-119 | the window never starts before line 0 and never ends after the last line |
| VirtualizedCodeBlock.ClampHeight | src/components/VirtualizedCodeBlock.tsx:141 | the container height always lies in [300, 600]; a measure inside the band is kept, one outside is moved to the nearer bound |
| VirtualizedCodeBlock.JsSlice | src/components/VirtualizedCodeBlock.tsx:37 | with bounds inside the array, `slice` is the subsequence between them |
| VirtualizedCodeBlock.LinesRejoin | src/components/VirtualizedCodeBlock.tsx:105 | joining the split lines with newlines gives back the content; there is one more line than newlines |
| VirtualizedCodeBlock.ShortContentShowsEveryLine | src/components/VirtualizedCodeBlock.tsx:106-119 | when not virtualising, the window is every line, `[0, totalLines-1]` |
| VirtualizedCodeBlock.VisibleLinesInBand | src/components/VirtualizedCodeBlock.tsx:110-112 | with the height in [300, 600], between 13 and 25 lines are visible, with a buffer of 6 to 12 |
| VirtualizedCodeBlock.WindowNonEmpty | src/components/VirtualizedCodeBlock.tsx:114-119 | with the clamped height and a scroll position inside the content, the window's start is at most its end |
| VirtualizedCodeBlock.ViewportCovered | src/components/VirtualizedCodeBlock.tsx:110-119 | every existing line in the visible band starting at `floor(scrollTop/24)` lies inside the window |
| VirtualizedCodeBlock.WindowSizeBounded | src/components/VirtualizedCodeBlock.tsx:111-119 | the window holds at most `visibleLines + 2*bufferLines + 1` lines |
| VirtualizedCodeBlock.EveryLineReachable | src/components/VirtualizedCodeBlock.tsx:114-119 | scrolling to a line's offset brings that line into the window |
| VirtualizedCodeBlock.WindowSliceNumbering | src/components/VirtualizedCodeBlock.tsx:37-53 | the rendered lines are `lines[start..end]`, numbered from `start+1`, and the offset plus their height stays within the total height |
| VirtualizedCodeBlock.CodeBlock.constructor | src/components/VirtualizedCodeBlock.tsx:85-95 | a block starts at scroll 0 with a 400px container, at most 100 lines before virtualising by default, and the container shown |
| VirtualizedCodeBlock.CodeBlock.HandleScroll | src/components/VirtualizedCodeBlock.tsx:131-135 | a scroll event is recorded only while virtualising |
| VirtualizedCodeBlock.CodeBlock.UpdateContainerHeight | src/components/VirtualizedCodeBlock.tsx:138-148 | a measured height is stored clamped; no measurement leaves the height as it was |
| VirtualizedCodeBlock.CodeBlock.Render | src/components/VirtualizedCodeBlock.tsx:199-337 | the whole decoded content is shown iff not virtualising or without the container; otherwise the window's slice with its numbering, offset and total height |
| VirtualizedCodeBlock.CodeBlock.WindowedRenderSound | src/components/VirtualizedCodeBlock.tsx:110-119 | in a windowed render every line in view is inside the window, numbering starts at 1 or later, and the offset is below the total height |
| EnhancedMarkdown.EscapePipes | src/components/EnhancedMarkdown.tsx:27 | `replace(/\|/g, '&#124;')`, defined by its body; `EscapePipesIsMasked` proves it replaces exactly the pipes and `EscapePipesNoPipe` that a pipe-free run is kept |
| EnhancedMarkdown.PipeMask | src/components/EnhancedMarkdown.tsx:27 | the mask of a run marks one flag per character |
| EnhancedMarkdown.ApplyEscapesAppend | src/components/EnhancedMarkdown.tsx:26-28 | escaping by a mask distributes over concatenation |
| EnhancedMarkdown.EscapePipesIsMasked | src/components/EnhancedMarkdown.tsx:27 | escaping the pipes of a run replaces exactly the characters its mask marks |
| EnhancedMarkdown.ApplyNoEscapes | src/components/EnhancedMarkdown.tsx:26-28 | a mask that marks nothing leaves the text unchanged |
| EnhancedMarkdown.ApplyEscapesNoNewline | src/components/EnhancedMarkdown.tsx:26-28 | escaping never introduces a newline |
| EnhancedMarkdown.RestoreAppliedEscapes | src/components/EnhancedMarkdown.tsx:26-28 | when only pipes are marked, turning each escape back into a pipe recovers the text: nothing else is changed and the order is kept |
| EnhancedMarkdown.NextBacktick | src/components/EnhancedMarkdown.tsx:26 | the position found holds a backtick, or is the end |
| EnhancedMarkdown.NextBacktickFirst | src/components/EnhancedMarkdown.tsx:26 | no backtick comes before the position found, so it is the first one |
| EnhancedMarkdown.CodeRunEnd | src/components/EnhancedMarkdown.tsx:26 | a match opens at a backtick and closes at a later backtick of the same line |
| EnhancedMarkdown.CodeRunEndClean | src/components/EnhancedMarkdown.tsx:26 | the content of a match holds no backtick |
| EnhancedMarkdown.CodeRunEndIff | src/components/EnhancedMarkdown.tsx:26 | the regex matches at a position iff a backtick run starts there whose content holds a pipe |
| EnhancedMarkdown.ReplaceCodePipes | src/components/EnhancedMarkdown.tsx:26-28 | the regex replacement as written, defined by its body; `ReplaceCodePipesIsMasked`, `EscapeMaskSound`, `ReplaceCodePipesReversible` and `SeparatorPipeEscaped` state what it does |
| EnhancedMarkdown.EscapeMask | src/components/EnhancedMarkdown.tsx:26-28 | the as-written scan marks one flag per character |
| EnhancedMarkdown.ReplaceCodePipesIsMasked | src/components/EnhancedMarkdown.tsx:26-28 | the as-written rewrite changes exactly the characters the scan's mask marks, keeping every other character in order |
| EnhancedMarkdown.EscapeMaskSound | src/components/EnhancedMarkdown.tsx:26-28 | every changed character is a pipe strictly inside some backtick run |
| EnhancedMarkdown.EscapeMaskNeedsBoth | src/components/EnhancedMarkdown.tsx:26 | a line is changed only if it holds both a pipe and a backtick |
| EnhancedMarkdown.ReplaceCodePipesUnchanged | src/components/EnhancedMarkdown.tsx:26 | a line with no backtick, or with no pipe, is unchanged |
| EnhancedMarkdown.ReplaceCodePipesNoNewline | src/components/EnhancedMarkdown.tsx:26-28 | the rewrite of a line is still one line |
| EnhancedMarkdown.ReplaceCodePipesReversible | src/components/EnhancedMarkdown.tsx:26-28 | restoring the escapes gives back the original line |
| EnhancedMarkdown.NextBacktickNone | src/components/EnhancedMarkdown.tsx:26 | backtick-free text has no backtick position |
| EnhancedMarkdown.NextBacktickAfterPlain | src/components/EnhancedMarkdown.tsx:26 | the first backtick after backtick-free text is right after it |
| EnhancedMarkdown.ReplacePlainPrefix | src/components/EnhancedMarkdown.tsx:26-28 | the scan passes over backtick-free text unchanged |
| EnhancedMarkdown.ReplaceRunWithPipe | src/components/EnhancedMarkdown.tsx:26-28 | a backtick run holding a pipe has its pipes escaped and scanning resumes after its closing backtick |
| EnhancedMarkdown.ReplaceRunWithoutPipe | src/components/EnhancedMarkdown.tsx:26-28 | a pipe-free run is kept, and scanning resumes at its closing backtick, which can open the next match |
| EnhancedMarkdown.ReplaceUnclosed | src/components/EnhancedMarkdown.tsx:26-28 | an unclosed backtick and the rest of the line are kept |
| EnhancedMarkdown.SeparatorPipeEscaped | src/components/EnhancedMarkdown.tsx:26-28 | on the row `MisreadRow` (a code cell `a`, then a code cell holding `b`, a pipe and `c`) the as-written rewrite escapes the cell separator, which is outside all code, and keeps the pipe that is inside code |
| EnhancedMarkdown.ReplaceAfterPipeFreeSpan | src/components/EnhancedMarkdown.tsx:26-28 | in general, after a pipe-free code span, a separator pipe before the next span is escaped and that span's own pipes are not |
| EnhancedMarkdown.EscapeCodeSpans | src/components/EnhancedMarkdown.tsx:26-28 | the intended rewrite (pipes escaped inside paired code spans), defined by its body; `EscapeCodeSpansIsMasked` and `SpanMaskIff` prove it changes a character iff it is a pipe inside a span |
| EnhancedMarkdown.SpanEnd | src/components/EnhancedMarkdown.tsx:26 | a code span opens at a backtick and closes at a later backtick |
| EnhancedMarkdown.SpanEndClean | src/components/EnhancedMarkdown.tsx:26 | the content of a code span holds no backtick, so it closes at the next one |
| EnhancedMarkdown.SpanMask | src/components/EnhancedMarkdown.tsx:26-28 | the intended mask marks one flag per character |
| EnhancedMarkdown.EscapeCodeSpansIsMasked | src/components/EnhancedMarkdown.tsx:26-28 | the intended rewrite changes exactly the characters its mask marks |
| EnhancedMarkdown.InCodeSpanShift | src/components/EnhancedMarkdown.tsx:26 | outside a backtick, moving one character on does not change which positions are inside code |
| EnhancedMarkdown.InCodeSpanInside | src/components/EnhancedMarkdown.tsx:26 | inside the first closed span a position is escaped iff it holds a pipe |
| EnhancedMarkdown.InCodeSpanAfter | src/components/EnhancedMarkdown.tsx:26 | after the first closed span the pairing starts afresh |
| EnhancedMarkdown.InCodeSpanUnclosed | src/components/EnhancedMarkdown.tsx:26 | nothing after an unclosed backtick is inside code |
| EnhancedMarkdown.SpanMaskIff | src/components/EnhancedMarkdown.tsx:26-28 | the intended rewrite changes a character iff it is a pipe inside a backtick pair counted from the left of the line |
| EnhancedMarkdown.SpansPlainPrefix | src/components/EnhancedMarkdown.tsx:26-28 | the intended rewrite passes over backtick-free text unchanged |
| EnhancedMarkdown.SpansClosedRun | src/components/EnhancedMarkdown.tsx:26-28 | a closed span has its pipes escaped and the rest is treated afresh |
| EnhancedMarkdown.SpansPairedRow | src/components/EnhancedMarkdown.tsx:26-28 | on a row with two code spans the separator between them is kept and the second span's pipes are escaped |
| EnhancedMarkdown.EscapePipesNoPipe | src/components/EnhancedMarkdown.tsx:27 | a pipe-free run is unchanged by escaping |
| EnhancedMarkdown.MisreadRowIntended | src/components/EnhancedMarkdown.tsx:26-28 | on the row `MisreadRow` the intended rewrite keeps the separator and escapes only the pipe inside code |
| EnhancedMarkdown.IsTableLine | src/components/EnhancedMarkdown.tsx:24 | the table-row test, defined by its body; `IsTableLineIff` restates it in terms of the first non-blank character |
| EnhancedMarkdown.IsTableLineIff | src/components/EnhancedMarkdown.tsx:24 | a line is rewritten iff its trimmed form starts with a pipe or it contains both a pipe and `---` |
| EnhancedMarkdown.EscapeRowNoNewline | src/components/EnhancedMarkdown.tsx:26-28 | neither rewrite of a table row, as written or intended, puts a newline into it |
| EnhancedMarkdown.EscapeRow | src/components/EnhancedMarkdown.tsx:26-28 | selects the as-written or the intended rewrite of a row, defined by its body; properties in `EscapeRowNoNewline` |
| EnhancedMarkdown.PreprocessLine | src/components/EnhancedMarkdown.tsx:22-32 | a table row is rewritten, any other line kept, defined by its body; properties in `PreprocessKeepsLines` |
| EnhancedMarkdown.PreprocessWith | src/components/EnhancedMarkdown.tsx:19-35 | split, rewrite each line, join, defined by its body; `PreprocessKeepsLines` proves the lines of the result are the rewritten lines of the input |
| EnhancedMarkdown.PreprocessTablePipes | src/components/EnhancedMarkdown.tsx:19-35 | the pre-pass as written, defined by its body; properties in `PreprocessTablePipesKeepsLines` and the first row under Findings |
| EnhancedMarkdown.PreprocessTablePipesIntended | src/components/EnhancedMarkdown.tsx:19-35 | the corrected pre-pass, defined by its body; properties in `PreprocessIntendedKeepsLines` and `SpansPairedRow` |
| EnhancedMarkdown.PreprocessKeepsLines | src/components/EnhancedMarkdown.tsx:21-34 | with either rewrite of table rows, the pass keeps the number of lines, rewrites exactly the table lines, and rejoins them with newlines |
| EnhancedMarkdown.PreprocessTablePipesKeepsLines | src/components/EnhancedMarkdown.tsx:19-35 | the pass as written keeps the line count and returns every non-table line unchanged |
| EnhancedMarkdown.PreprocessIntendedKeepsLines | src/components/EnhancedMarkdown.tsx:19-35 | the corrected pass keeps the line count and returns every non-table line unchanged |
| EnhancedMarkdown.WordRunLength | src/components/EnhancedMarkdown.tsx:100 | `\w+` takes the longest run of word characters |
| EnhancedMarkdown.LanguageMatchShift | src/components/EnhancedMarkdown.tsx:100 | a match position moves by one when the first character is dropped |
| EnhancedMarkdown.FindLanguage | src/components/EnhancedMarkdown.tsx:100 | `/language-(\w+)/.exec`, defined by its body; `FindLanguageLeftmost`, `FindLanguageNone` and `FindLanguageWord` state what it finds |
| EnhancedMarkdown.FindLanguageLeftmost | src/components/EnhancedMarkdown.tsx:100 | a found language comes from the leftmost `language-` followed by a word character, and is that whole word run |
| EnhancedMarkdown.FindLanguageNone | src/components/EnhancedMarkdown.tsx:100 | no language is found only when no position matches |
| EnhancedMarkdown.CodeLanguage | src/components/EnhancedMarkdown.tsx:100-101 | the language is the matched word, or `text` when the class name has none |
| EnhancedMarkdown.FindLanguageWord | src/components/EnhancedMarkdown.tsx:100 | a found language is a non-empty run of word characters |
| EnhancedMarkdown.StripFinalNewline | src/components/EnhancedMarkdown.tsx:105 | exactly one trailing newline is removed, when there is one |
| EnhancedMarkdown.RenderCode | src/components/EnhancedMarkdown.tsx:99-136 | inline code iff inline or no language; a block is virtualised iff its decoded text, without the final newline, has more than 100 lines |
| EnhancedMarkdown.DispatchAgreesWithViewer | src/components/EnhancedMarkdown.tsx:107-110 | a block sent to the virtualised viewer is one the viewer itself virtualises with its default of 100 lines |
| EnhancedMarkdown.IsExternal | src/components/EnhancedMarkdown.tsx:156-157 | `href?.startsWith('http')`, defined by its body |
| EnhancedMarkdown.LinkAttributesFor | src/components/EnhancedMarkdown.tsx:152-160 | an anchor's own `target` and `rel` win, since they are spread last; where absent, `_blank` and `noopener noreferrer` are set exactly for an external `href` |
| EnhancedMarkdown.MarkdownLinkAttributes | src/components/EnhancedMarkdown.tsx:152-160 | a markdown link, which has no attributes of its own, gets both attributes together and exactly for an external address |
| EnhancedMarkdown.OwnTargetOverrides | src/components/EnhancedMarkdown.tsx:152-160 | a raw anchor to `https://example.org` with `target="_self"` keeps `_self` beside the computed `rel` |
| EnhancedMarkdown.Plugins | src/components/EnhancedMarkdown.tsx:82-95 | GFM and raw HTML always come first; the math plugins are added iff math is enabled, which is the default |
| PaginatedList.PagesCall | src/hooks/usePaginatedTresses.ts:41-45 | `public` selects the public pages call; any other endpoint the caller's own pages |
| PaginatedList.ErrorMessage | src/hooks/usePaginatedTresses.ts:51 | an `Error`'s message, or `加载数据失败` for anything else thrown |
| PaginatedList.PaginatedTresses.constructor | src/hooks/usePaginatedTresses.ts:22-30 | empty list, no pagination, not loading, no error, page 1, not loaded; page size 20 and auto-load on by default |
| PaginatedList.PaginatedTresses.BeginLoad | src/hooks/usePaginatedTresses.ts:34-45 | a page below 1 requests nothing; otherwise loading starts, the error clears, and the right call is requested |
| PaginatedList.PaginatedTresses.FinishLoad | src/hooks/usePaginatedTresses.ts:47-55 | success stores items, pagination and the page; failure stores the message and keeps the rest; loading ends either way |
| PaginatedList.PaginatedTresses.LoadPage | src/hooks/usePaginatedTresses.ts:32-59 | `loadPage` with a page below 1 changes nothing; otherwise it is one request followed by the success or failure update |
| PaginatedList.PaginatedTresses.Refresh | src/hooks/usePaginatedTresses.ts:61-63 | refresh is a load of the current page |
| PaginatedList.PaginatedTresses.AutoLoadEffect | src/hooks/usePaginatedTresses.ts:67-98 | the auto-load fires only with auto-load on and nothing loaded yet, marks the list loaded and requests page 1 |
| PaginatedList.PaginatedTresses.ResetEffect | src/hooks/usePaginatedTresses.ts:101-106 | the reset empties the list, drops the pagination, returns to page 1 and clears the loaded flag |
| PaginatedList.PaginatedTresses.Mount | src/hooks/usePaginatedTresses.ts:67-106 | the first commit runs the auto-load and then the reset, in declaration order |
| PaginatedList.PaginatedTresses.ChangeOptions | src/hooks/usePaginatedTresses.ts:67-106 | a new endpoint or page size resets the list and, with auto-load on, requests page 1 of the new listing |
| PaginatedList.PaginatedTresses.ChangeAutoLoad | src/hooks/usePaginatedTresses.ts:67-98 | turning auto-load on while nothing is loaded requests page 1; otherwise nothing is requested |
| Auth.HasToken | src/hooks/useAuth.tsx:22-23 | the stored token is truthy: present and not empty, defined by its body; `AuthProvider.Hydrate` calls `getMe` exactly when it holds |
| Auth.WithoutSession | src/hooks/useAuth.tsx:36-41 | removes exactly the token and user id keys and keeps every other entry |
| Auth.UseAuth | src/hooks/useAuth.tsx:51-55 | outside a provider the hook fails with its fixed message; inside it returns the context |
| Auth.AuthProvider.constructor | src/hooks/useAuth.tsx:19-20 | the provider starts signed out with an empty name and the storage as found |
| Auth.AuthProvider.Context | src/hooks/useAuth.tsx:43-45 | the context carries the provider's sign-in flag and name |
| Auth.AuthProvider.UpdateUserInfo | src/hooks/useAuth.tsx:32-35 | signs in under the name and touches no storage |
| Auth.AuthProvider.Logout | src/hooks/useAuth.tsx:36-41 | removes only the token and user id from storage and signs out |
| Auth.AuthProvider.Hydrate | src/hooks/useAuth.tsx:21-31 | runs once per mount; without a token nothing happens; a reported user signs in with its id stored; a failure is a logout; after `getMe` was called the token is still stored exactly when the call succeeded |
| Register.FirstValidationError | src/pages/Register.tsx:30-44 | valid iff the passwords match, the password has at least 6 code units and the email contains `@`; otherwise the first failing check's message |
| Register.StrengthLevel | src/pages/Register.tsx:73-85 | the reading for a level carries that level, and its text is empty exactly at level 0 |
| Register.HasUpperAndDigit | src/pages/Register.tsx:79-81 | `/[A-Z]/` and `/[0-9]/` both match, defined by its body; `PasswordStrength` uses it for level 4 |
| Register.PasswordStrength | src/pages/Register.tsx:72-86 | the strength is in 0..4 with its fixed text and colour; 0 iff empty, 1 below 6, 2 below 8, and for 8 or more 4 iff an ASCII capital and digit are present, else 3 |
| Register.AcceptedPasswordIsNotWeak | src/pages/Register.tsx:35-76 | a password the form accepts has strength at least 2 |
| Register.RegisterForm.constructor | src/pages/Register.tsx:19-26 | the form starts empty, without error and not loading |
| Register.RegisterForm.Fill | src/pages/Register.tsx:142-254 | typing into the fields replaces their values |
| Register.RegisterForm.ValidateForm | src/pages/Register.tsx:30-44 | the form is valid iff there is no validation error; on failure the error shown is the first failing check's |
| Register.RegisterForm.HandleSubmit | src/pages/Register.tsx:46-70 | an invalid form makes no register call; a valid one sends its data and schedules the redirect on success, and shows the thrown message, or a fixed one, on failure |
| ContentSize.ContentSizeLimit | src/lib/utils.ts:37-39 | 1 MiB when signed in, 256 KiB otherwise, so the anonymous cap is a quarter of the other |
| ContentSize.ContentSizeLimitText | src/lib/utils.ts:46-48 | `1MB` or `256KB`, defined by its body; `LimitTextMatchesLimit` proves each label names its cap |
| ContentSize.LimitTextMatchesLimit | src/lib/utils.ts:37-48 | `1MB` is the signed-in cap in MiB, `256KB` the anonymous cap in KiB |
| ContentSize.FormatByteSize | src/lib/utils.ts:22-30 | zero bytes prints `0 B`; below 1024 bytes the text is the number followed by ` B` |
| ContentSize.Utf8ByteSize | src/lib/utils.ts:13-15 | the empty string has size 0; each code unit costs between 1 and 3 bytes |
| ContentSize.Utf8ByteSizeAppend | src/lib/utils.ts:13-15 | the size is additive over concatenation when no surrogate pair is split at the join |
| ContentSize.CodePoints | src/lib/utils.ts:13-15 | decoding UTF-16 yields scalar values only, a lone surrogate becoming U+FFFD |
| ContentSize.EncodeCodePoint | src/lib/utils.ts:13-15 | a code point encodes to one to four bytes |
| ContentSize.EncodeCodePointSound | src/lib/utils.ts:13-15 | the encoding has the RFC 3629 length for its code point's range (1 for ASCII, 2 below U+0800, 3 in the rest of the BMP, 4 above), the right lead and continuation bytes, and decodes back to the code point |
| ContentSize.Utf8ByteSizeIsEncodedLength | src/lib/utils.ts:13-15 | the size counted per code unit is the length of the UTF-8 encoding of the string |
| ContentSize.JsLengthCountsCodeUnits | src/lib/utils.ts:13-15 | JavaScript's length of a string is the number of its UTF-16 code units |
| ContentSize.SurrogatePair | src/lib/utils.ts:13-15 | a code point above U+FFFF splits into a high and a low surrogate that recombine to it |
| ContentSize.DecodeFirstChar | src/lib/utils.ts:13-15 | the UTF-16 units of a string's first character decode to exactly that character, whatever follows |
| ContentSize.Utf16CodePoints | src/lib/utils.ts:13-15 | decoding the UTF-16 form of a string gives back its characters |
| VisionSidebar.SidebarItems | src/components/VisionSidebar.tsx:49-96 | edit and preview in editor mode, public, mine, trending and create otherwise; only mine and create need a signed-in user; only create has an action, to `/create` |
| VisionSidebar.IsDisabled | src/components/VisionSidebar.tsx:133 | `requiresAuth && !isLoggedIn`, defined by its body (the same test is at line 209); `HandleItemClick` and `Click` state what a disabled button does |
| VisionSidebar.HandleItemClick | src/components/VisionSidebar.tsx:98-116 | a disabled item only navigates to `/login`; in editor mode with its callback only edit and preview change the editor tab; otherwise the action runs, or a non-create item changes the home tab |
| VisionSidebar.Click | src/components/VisionSidebar.tsx:133-138 | a disabled button does nothing; any other runs the click handler |
| VisionSidebar.GetActiveState | src/components/VisionSidebar.tsx:118-123 | a button is highlighted iff it is the editor tab in editor mode, the home tab otherwise |
| VisionSidebar.LoginRedirectUnreachable | src/components/VisionSidebar.tsx:99-102 | no click on a shown button navigates to `/login`: the auth gate of the handler is dead code |
| VisionSidebar.EditorModeNeverChangesHomeTab | src/components/VisionSidebar.tsx:104-109 | in editor mode with an editor callback no click changes the home tab |
| ApiClient.StoredToken | src/api/apiClient.ts:38-45 | a token is used iff one is stored and it is non-empty |
| ApiClient.BuildRequest | src/api/apiClient.ts:12-47 | the URL is the base plus `/api` plus the endpoint; the method defaults to GET; the caller's other headers are copied; the content type is set by the body kind; a bearer token is added iff authentication is needed, which is the default, and a token is stored |
| ApiClient.ErrorMessage | src/api/apiClient.ts:49-54 | a truthy `detail`, else `Request failed`; an unreadable body gives `An unknown error occurred` |
| ApiClient.HandleResponse | src/api/apiClient.ts:49-60 | a non-ok response fails with the error message; 204 yields no value; otherwise the parsed body, or a parse error |
| BuildChunks.ManualChunks | vite.config.ts:10-60 | the rules as written, in source order, defined by its body; properties in `MonacoFirst`, `ReactVendor`, `HighlighterAndRouterUnreachable`, `MarkdownChunk`, `UndefinedIff` and `NodeModulesAlwaysNamed` |
| BuildChunks.MonacoFirst | vite.config.ts:12-14 | an id containing `monaco-editor` goes to the editor chunk whatever else it contains |
| BuildChunks.ReactVendor | vite.config.ts:17-19 | any other id containing `react` goes to the React chunk |
| BuildChunks.HighlighterAndRouterUnreachable | vite.config.ts:17-44 | the names `syntax-highlighter` and `router` are never returned |
| BuildChunks.MarkdownChunk | vite.config.ts:27-29 | `markdown` is returned iff the id has `remark-` or `rehype-` and none of `monaco-editor`, `react` and `@radix-ui` |
| BuildChunks.UndefinedIff | vite.config.ts:10-60 | no chunk name iff the id matches none of the rules' substrings, `node_modules` included |
| BuildChunks.NodeModulesAlwaysNamed | vite.config.ts:57-59 | every dependency from `node_modules` gets a chunk name |
| BuildChunks.ManualChunksIntended | vite.config.ts:10-60 | the same rules with the React rule moved after the router rule, defined by its body; properties in the rows below |
| BuildChunks.HighlighterOrder | vite.config.ts:17-39 | an id with the highlighter package and none of the earlier substrings goes to the React chunk as written and to the highlighter chunk in the intended order |
| BuildChunks.RouterOrder | vite.config.ts:17-44 | the same for the router package and the router chunk |
| BuildChunks.HighlighterPackage | vite.config.ts:17-39 | any id starting with `react-syntax-highlighter` and free of the letters of the earlier rules meets `HighlighterOrder` |
| BuildChunks.RouterPackage | vite.config.ts:17-44 | the same for ids starting with `react-router` |
| BuildChunks.ReactRuleClaimsHighlighter | vite.config.ts:17-39 | as written, the id `react-syntax-highlighter` goes to `react-vendor` |
| BuildChunks.IntendedHighlighterChunk | vite.config.ts:37-39 | in the intended order, the id `react-syntax-highlighter` goes to `syntax-highlighter` |
| BuildChunks.ReactRuleClaimsRouter | vite.config.ts:17-44 | as written, the id `react-router` goes to `react-vendor` |
| BuildChunks.IntendedRouterChunk | vite.config.ts:42-44 | in the intended order, the id `react-router` goes to `router` |
| Strings.StartsWith | src/components/EnhancedMarkdown.tsx:24 | `startsWith` (also at line 156), defined by its body: `p` is the first `|p|` characters of `s`; used through `TrimStartsWithChar` and `IsExternal` |
| Strings.Contains | vite.config.ts:12-57 | `includes`, the test of every chunk rule (also EnhancedMarkdown.tsx:24 and Register.tsx:39), defined by its body; `ContainsIff` proves it holds exactly when `t` occurs at some offset, and `ContainsTransitive` that occurrence composes |
| Strings.ContainsIff | vite.config.ts:12-57 | `includes` holds exactly when the substring occurs at some offset of the string |
| Strings.ContainsTransitive | vite.config.ts:17-44 | a string containing `u` contains everything `u` contains, which is why `react-syntax-highlighter` implies `react` |
| Strings.IntToString | src/hooks/useAuth.tsx:27 | `String(n)` for the stored user id, defined by its body; `ParseIntToString` proves `parseInt` reads every such text back to `n` |
| Strings.Split | src/components/EnhancedMarkdown.tsx:21 | `split` on one character: never empty, and no piece holds the separator; `JoinSplit` and `SplitJoin` make it the inverse of `Join` |
| Strings.Join | src/components/EnhancedMarkdown.tsx:34 | `join` with one character, defined by its body; properties in `JoinSplit` and `SplitJoin` |
| Strings.TrimStart | src/components/EnhancedMarkdown.tsx:24 | drops exactly the leading JavaScript white space, leaving a suffix that starts with none |
| Strings.TrimEnd | src/components/EnhancedMarkdown.tsx:24 | drops exactly the trailing JavaScript white space, leaving a prefix that ends with none |
| Strings.Trim | src/components/EnhancedMarkdown.tsx:24 | `trim`, defined by its body as `TrimEnd` after `TrimStart` |
| Strings.ParseInt | src/components/Pagination.tsx:58 | `parseInt` without a radix: leading blanks, then a sign, then hexadecimal digits after `0x` and decimal ones otherwise, read as far as they go, with `NaN` (here `None`) when there are none; defined by its body, properties in `ParseIntToString` |
| Strings.JoinSplit | src/components/EnhancedMarkdown.tsx:21-34 | splitting on a character and joining with it gives back the string |
| Strings.SplitJoin | src/components/EnhancedMarkdown.tsx:21-34 | joining separator-free parts and splitting again gives back the parts |
| Strings.ParseIntToString | src/components/Pagination.tsx:58 | `parseInt` reads back every decimal integer |
| Strings.JsLength | src/pages/Register.tsx:35 | the JavaScript length lies between the number of characters and twice that |

## Left out

- Network and timing. `fetch`, `getMe` and the listing calls are inputs to the
  steps that use them. Stale responses and races between overlapping loads
  are not modelled, because every step runs to completion in order.
- React rendering, markup, styles, icons, hover handlers and the theme
  constants in src/lib/codeThemes.ts. They decide nothing.
- Third-party renderers. Prism, ReactMarkdown with its remark and rehype
  plugins, KaTeX and Monaco are outside the model: plugins are named by a
  datatype. The DOM-based `decodeHtmlEntities` is an uninterpreted function
  parameter.
- Clipboard, the `setTimeout` timers (copy reset, toasts, the delayed
  redirect after registering, which is a flag), `window.matchMedia` and
  `getBoundingClientRect`, whose measured height is an input.
- ContentSize.FormatByteSize: defined only below 1024 bytes, because larger
  sizes go through the floating-point `Math.log`, `Math.pow` and `toFixed`.
- ApiClient.BuildRequest: `JSON.stringify` is not modelled; a JSON body is
  represented by its text. Which values are falsy is the caller's choice of
  `NoBody`.
- ApiClient.BuildRequest: the base address `API_URL` comes from
  src/config, which is not part of this model; it is a parameter.
- ApiClient.HandleResponse: JSON values are flattened to a map from field to
  string.
- The sidebar's `isExpanded` flag is cosmetic.
- src/components/auth-context.tsx is a duplicate provider that the
  application does not use.
- The pages other than registration (Home, Login, Profile, MarkdownTest,
  CreateTress, ViewTress), the layout and display components, and the thin
  wrappers in src/api/tress.ts and src/api/auth.ts. They only fetch, display
  or fill URL templates.
- VirtualizedCodeBlock.CodeBlock.Render: syntax highlighting of each line is
  not modelled; a line is its text.

## Findings

| source | as written | input that shows it | evidently intended | confidence | as-written member | corrected member |
|---|---|---|---|---|---|---|
| src/components/EnhancedMarkdown.tsx:26-28 | the global regex for a backtick run holding a pipe fails on a pipe-free code span and retries one character later, so that span's closing backtick opens the next match and the cell separator after it counts as code | the row `MisreadRow`: a code cell `a`, then a code cell holding `b`, a pipe and `c`; the pass escapes the separator between the cells and leaves the pipe inside the second span alone | pair backticks from the left of the line and escape only the pipes between a pair, so the separator is kept and the pipe in the second span is escaped | not executed | EnhancedMarkdown.SeparatorPipeEscaped, EnhancedMarkdown.ReplaceAfterPipeFreeSpan, EnhancedMarkdown.ReplaceCodePipes | EnhancedMarkdown.MisreadRowIntended, EnhancedMarkdown.SpanMaskIff, EnhancedMarkdown.EscapeCodeSpans |
| vite.config.ts:17-44 | the catch-all `react` rule comes second, so every package whose id contains `react` (the highlighter, the router, `react-markdown`, `react-katex` and the Radix packages) lands in `react-vendor`, and the `syntax-highlighter` and `router` chunks the comments announce are never produced | the id `react-syntax-highlighter`, and likewise `react-router`: both get `react-vendor` | test the rules with a chunk of their own before the `react` rule | not executed | BuildChunks.HighlighterAndRouterUnreachable, BuildChunks.ReactRuleClaimsHighlighter, BuildChunks.ReactRuleClaimsRouter | BuildChunks.ManualChunksIntended, BuildChunks.IntendedHighlighterChunk, BuildChunks.IntendedRouterChunk, BuildChunks.HighlighterOrder |

The model keeps both versions of each. `PreprocessTablePipes` is the pass as written;
`PreprocessTablePipesIntended` uses the corrected pairing. `ManualChunks` is the
bundle rule as written and `ManualChunksIntended` the corrected order. The code-block and
link rules depend on neither pre-pass.
