/**
 * The markdown renderer's own logic: the pre-pass that protects pipes inside
 * inline code on table rows, the choice of renderer for a code element, the
 * link target rule and the plugin lists.
 */
module EnhancedMarkdown {
  import opened Wrappers
  import opened Strings
  import VirtualizedCodeBlock

  // ---------------------------------------------------------------------------
  // Escaping pipes
  // ---------------------------------------------------------------------------

  /** The HTML entity that stands for `|`. */
  const PipeEntity: string := "&#124;"

  /** `t.replace(/\|/g, '&#124;')`. */
  function EscapePipes(t: string): string
    decreases |t|
  {
    if t == [] then [] else (if t[0] == '|' then PipeEntity else [t[0]]) + EscapePipes(t[1..])
  }

  /** Marks the pipes of `t`. */
  function PipeMask(t: string): (m: seq<bool>)
    ensures |m| == |t|
  {
    seq(|t|, k requires 0 <= k < |t| => t[k] == '|')
  }

  /**
   * Reference rewrite: every character whose mark is set is replaced by the
   * pipe entity, every other character is kept, in order.
   */
  function ApplyEscapes(s: string, m: seq<bool>): string
    requires |m| == |s|
    decreases |s|
  {
    if s == [] then [] else (if m[0] then PipeEntity else [s[0]]) + ApplyEscapes(s[1..], m[1..])
  }

  /** Replaces each `&#124;` by `|`, leaving everything else alone. */
  function RestorePipes(t: string): string
    decreases |t|
  {
    if t == [] then []
    else if StartsWith(t, PipeEntity) then "|" + RestorePipes(t[|PipeEntity|..])
    else [t[0]] + RestorePipes(t[1..])
  }

  lemma {:induction false} ApplyEscapesAppend(s1: string, m1: seq<bool>, s2: string, m2: seq<bool>)
    requires |m1| == |s1| && |m2| == |s2|
    ensures ApplyEscapes(s1 + s2, m1 + m2) == ApplyEscapes(s1, m1) + ApplyEscapes(s2, m2)
    decreases |s1|
  {
    if s1 != [] {
      assert (s1 + s2)[1..] == s1[1..] + s2;
      assert (m1 + m2)[1..] == m1[1..] + m2;
      ApplyEscapesAppend(s1[1..], m1[1..], s2, m2);
    } else {
      assert s1 + s2 == s2 && m1 + m2 == m2;
    }
  }

  lemma {:induction false} EscapePipesIsMasked(t: string)
    ensures EscapePipes(t) == ApplyEscapes(t, PipeMask(t))
    decreases |t|
  {
    if t != [] {
      assert PipeMask(t)[1..] == PipeMask(t[1..]);
      EscapePipesIsMasked(t[1..]);
    }
  }

  /** With no mark set the rewrite is the identity. */
  lemma {:induction false} ApplyNoEscapes(s: string, m: seq<bool>)
    requires |m| == |s|
    requires forall i :: 0 <= i < |s| ==> !m[i]
    ensures ApplyEscapes(s, m) == s
    decreases |s|
  {
    if s != [] {
      assert !m[0];
      ApplyNoEscapes(s[1..], m[1..]);
    }
  }

  /** Marking only pipes of a line without newlines yields a line without newlines. */
  lemma {:induction false} ApplyEscapesNoNewline(s: string, m: seq<bool>)
    requires |m| == |s|
    requires '\n' !in s
    ensures '\n' !in ApplyEscapes(s, m)
    decreases |s|
  {
    if s != [] {
      assert s[0] in s;
      assert forall c :: c in s[1..] ==> c in s;
      ApplyEscapesNoNewline(s[1..], m[1..]);
    }
  }

  /** When only pipes are marked and `&` never occurs, restoring undoes the rewrite. */
  lemma {:induction false} RestoreAppliedEscapes(s: string, m: seq<bool>)
    requires |m| == |s|
    requires '&' !in s
    requires forall i :: 0 <= i < |s| ==> m[i] ==> s[i] == '|'
    ensures RestorePipes(ApplyEscapes(s, m)) == s
    decreases |s|
  {
    if s != [] {
      var rest := ApplyEscapes(s[1..], m[1..]);
      assert forall c :: c in s[1..] ==> c in s;
      assert forall i :: 0 <= i < |s[1..]| ==> m[1..][i] ==> s[1..][i] == '|' by {
        forall i | 0 <= i < |s[1..]| ensures m[1..][i] ==> s[1..][i] == '|' {
          assert m[1..][i] == m[i + 1] && s[1..][i] == s[i + 1];
        }
      }
      RestoreAppliedEscapes(s[1..], m[1..]);
      if m[0] {
        var t := PipeEntity + rest;
        assert StartsWith(t, PipeEntity);
        assert t[|PipeEntity|..] == rest;
      } else {
        var t := [s[0]] + rest;
        assert s[0] in s;
        assert t[0] == s[0] && s[0] != '&';
        assert !StartsWith(t, PipeEntity);
        assert t[1..] == rest;
      }
    }
  }

  // ---------------------------------------------------------------------------
  // The global regex replace of the source
  // ---------------------------------------------------------------------------

  /** Index of the first backtick of `s`, or `|s|` when there is none. */
  function NextBacktick(s: string): (j: nat)
    ensures j <= |s|
    ensures j < |s| ==> s[j] == '`'
    decreases |s|
  {
    if s == [] then 0 else if s[0] == '`' then 0 else 1 + NextBacktick(s[1..])
  }

  /**
   * Whether the regex /`([^`]*\|[^`]*)`/ matches at the start of `s`, and
   * then the index of its closing backtick: the content cannot hold a
   * backtick, so the closing one is the next backtick, and the content must
   * hold a pipe.
   */
  function CodeRunEnd(s: string): (r: Option<nat>)
    ensures r.Some? ==> 1 <= r.value < |s| && s[0] == '`' && s[r.value] == '`'
  {
    if |s| == 0 || s[0] != '`' then None
    else
      var j := 1 + NextBacktick(s[1..]);
      if j < |s| && '|' in s[1..j] then Some(j) else None
  }

  /** No backtick comes before the first one. */
  lemma {:induction false} NextBacktickFirst(s: string)
    ensures forall k :: 0 <= k < NextBacktick(s) ==> s[k] != '`'
    decreases |s|
  {
    if s != [] && s[0] != '`' {
      NextBacktickFirst(s[1..]);
      forall k | 1 <= k < NextBacktick(s) ensures s[k] != '`' {
        assert s[k] == s[1..][k - 1];
      }
    }
  }

  /** A match has no backtick inside. */
  lemma CodeRunEndClean(s: string)
    requires CodeRunEnd(s).Some?
    ensures forall k :: 1 <= k < CodeRunEnd(s).value ==> s[k] != '`'
  {
    NextBacktickFirst(s[1..]);
    forall k | 1 <= k < CodeRunEnd(s).value ensures s[k] != '`' {
      assert s[k] == s[1..][k - 1];
    }
  }

  /** `s[a]` and `s[b]` are backticks with no backtick between them. */
  ghost predicate BacktickRun(s: string, a: int, b: int) {
    0 <= a < b < |s| && s[a] == '`' && s[b] == '`' && forall k :: a < k < b ==> s[k] != '`'
  }

  /** At a backtick, the regex matches exactly when the run it opens closes and holds a pipe. */
  lemma CodeRunEndIff(s: string)
    requires |s| >= 1 && s[0] == '`'
    ensures CodeRunEnd(s).Some? <==> exists b :: BacktickRun(s, 0, b) && '|' in s[1..b]
  {
    var j := 1 + NextBacktick(s[1..]);
    NextBacktickFirst(s[1..]);
    if CodeRunEnd(s).Some? {
      CodeRunEndClean(s);
      assert BacktickRun(s, 0, j);
    }
    if exists b :: BacktickRun(s, 0, b) && '|' in s[1..b] {
      var b :| BacktickRun(s, 0, b) && '|' in s[1..b];
      assert b == j;
    }
  }

  /**
   * `line.replace(/`([^`]*\|[^`]*)`/g, ...)`, scanning left to right: a match
   * is rewritten with its pipes escaped and the scan resumes after its closing
   * backtick; anywhere else one character is copied and the scan moves on by
   * one, so the closing backtick of a pipe-free run can open the next match.
   */
  function ReplaceCodePipes(s: string): string
    decreases |s|
  {
    if s == [] then []
    else match CodeRunEnd(s)
      case Some(j) => "`" + EscapePipes(s[1..j]) + "`" + ReplaceCodePipes(s[j + 1..])
      case None => [s[0]] + ReplaceCodePipes(s[1..])
  }

  /** The positions `ReplaceCodePipes` escapes. */
  function EscapeMask(s: string): (m: seq<bool>)
    ensures |m| == |s|
    decreases |s|
  {
    if s == [] then []
    else match CodeRunEnd(s)
      case Some(j) => [false] + PipeMask(s[1..j]) + [false] + EscapeMask(s[j + 1..])
      case None => [false] + EscapeMask(s[1..])
  }

  /** The scan rewrites exactly the marked characters and keeps all others in order. */
  lemma {:induction false} ReplaceCodePipesIsMasked(s: string)
    ensures ReplaceCodePipes(s) == ApplyEscapes(s, EscapeMask(s))
    decreases |s|
  {
    if s != [] {
      var r := CodeRunEnd(s);
      if r.Some? {
        var j := r.value;
        var t, rest := s[1..j], s[j + 1..];
        ReplaceRunStep(s, j);
        EscapeMaskRunStep(s, j);
        ReplaceCodePipesIsMasked(rest);
        EscapePipesIsMasked(t);
        SplitAround(s, j);
        ApplyEscapesAroundSpan(s[0], t, s[j], rest, PipeMask(t), EscapeMask(rest));
      } else {
        var m := EscapeMask(s);
        assert m == [false] + EscapeMask(s[1..]);
        assert m[1..] == EscapeMask(s[1..]);
        ReplaceCodePipesIsMasked(s[1..]);
      }
    }
  }

  /** Only a pipe between two backticks with no backtick between them is ever escaped. */
  lemma {:induction false} EscapeMaskSound(s: string, i: int)
    requires 0 <= i < |s| && EscapeMask(s)[i]
    ensures s[i] == '|'
    ensures exists a, b :: BacktickRun(s, a, b) && a < i < b
    decreases |s|, 2
  {
    var r := CodeRunEnd(s);
    if r.None? {
      EscapeMaskSoundPlain(s, i);
    } else if i <= r.value {
      EscapeMaskSoundInRun(s, r.value, i);
    } else {
      EscapeMaskSoundAfterRun(s, r.value, i);
    }
  }

  /** Where no match starts, a mark is one of the rest's. */
  lemma {:induction false} EscapeMaskSoundPlain(s: string, i: int)
    requires 0 <= i < |s| && EscapeMask(s)[i] && CodeRunEnd(s).None?
    ensures s[i] == '|'
    ensures exists a, b :: BacktickRun(s, a, b) && a < i < b
    decreases |s|, 1
  {
    var rest, i' := s[1..], i - 1;
    EscapeMaskUnfoldPlain(s, i);
    EscapeMaskSound(rest, i');
    assert s[i] == rest[i'];
    var a, b :| BacktickRun(rest, a, b) && a < i' < b;
    BacktickRunShift(s, 1, a, b);
  }

  /** A mark inside a match is one of its pipes. */
  lemma EscapeMaskSoundInRun(s: string, j: nat, i: int)
    requires 0 <= i <= j && i < |s| && EscapeMask(s)[i] && CodeRunEnd(s) == Some(j)
    ensures s[i] == '|'
    ensures exists a, b :: BacktickRun(s, a, b) && a < i < b
  {
    EscapeMaskUnfoldRun(s, j, i);
    CodeRunEndClean(s);
    assert BacktickRun(s, 0, j) && 0 < i < j;
  }

  /** A mark after a match is one of the rest's. */
  lemma {:induction false} EscapeMaskSoundAfterRun(s: string, j: nat, i: int)
    requires j < i < |s| && EscapeMask(s)[i] && CodeRunEnd(s) == Some(j)
    ensures s[i] == '|'
    ensures exists a, b :: BacktickRun(s, a, b) && a < i < b
    decreases |s|, 1
  {
    var rest, i' := s[j + 1..], i - (j + 1);
    EscapeMaskUnfoldRun(s, j, i);
    EscapeMaskSound(rest, i');
    assert s[i] == rest[i'];
    var a, b :| BacktickRun(rest, a, b) && a < i' < b;
    BacktickRunShift(s, j + 1, a, b);
  }

  /** A mark of the scan after a match: inside the match it marks a pipe, after it the rest's mark. */
  lemma EscapeMaskUnfoldRun(s: string, j: nat, i: int)
    requires 0 <= i < |s| && CodeRunEnd(s) == Some(j)
    ensures 0 < i < j ==> (EscapeMask(s)[i] <==> s[i] == '|')
    ensures i == 0 || i == j ==> !EscapeMask(s)[i]
    ensures j < i ==> EscapeMask(s)[i] == EscapeMask(s[j + 1..])[i - (j + 1)]
  {
    var t := s[1..j];
    EscapeMaskRunStep(s, j);
    MaskAroundIndex(EscapeMask(s), t, EscapeMask(s[j + 1..]), i);
    if 0 < i < j {
      assert t[i - 1] == s[i];
    }
  }

  /** The scan's mask where a match starts. */
  lemma EscapeMaskRunStep(s: string, j: nat)
    requires CodeRunEnd(s) == Some(j)
    ensures EscapeMask(s) == [false] + PipeMask(s[1..j]) + [false] + EscapeMask(s[j + 1..])
  {
  }

  /** The scan's output where a match starts. */
  lemma ReplaceRunStep(s: string, j: nat)
    requires CodeRunEnd(s) == Some(j)
    ensures ReplaceCodePipes(s) == "`" + EscapePipes(s[1..j]) + "`" + ReplaceCodePipes(s[j + 1..])
  {
  }

  /** Indexing a mask built around a run's pipe mask. */
  lemma MaskAroundIndex(m: seq<bool>, t: string, mr: seq<bool>, i: int)
    requires m == [false] + PipeMask(t) + [false] + mr && 0 <= i < |m|
    ensures 0 < i <= |t| ==> m[i] == (t[i - 1] == '|')
    ensures i == 0 || i == |t| + 1 ==> !m[i]
    ensures i > |t| + 1 ==> m[i] == mr[i - |t| - 2]
  {
    IndexAround(false, PipeMask(t), false, mr, i);
  }

  /** Indexing a sequence built around two single elements. */
  lemma IndexAround<X>(a: X, b: seq<X>, c: X, d: seq<X>, i: int)
    requires 0 <= i < |b| + |d| + 2
    ensures ([a] + b + [c] + d)[i] ==
      if i == 0 then a else if i <= |b| then b[i - 1] else if i == |b| + 1 then c else d[i - |b| - 2]
  {
  }

  /** A mark of the scan where no match starts: the mark of the rest, one place on. */
  lemma EscapeMaskUnfoldPlain(s: string, i: int)
    requires 0 <= i < |s| && CodeRunEnd(s) == None
    ensures i == 0 ==> !EscapeMask(s)[i]
    ensures i > 0 ==> EscapeMask(s)[i] == EscapeMask(s[1..])[i - 1]
  {
    assert EscapeMask(s) == [false] + EscapeMask(s[1..]);
  }

  /** A backtick run in a suffix of `s` is one in `s`, moved by the suffix's offset. */
  lemma BacktickRunShift(s: string, d: nat, a: int, b: int)
    requires d <= |s| && BacktickRun(s[d..], a, b)
    ensures BacktickRun(s, a + d, b + d)
  {
    forall k | a + d < k < b + d ensures s[k] != '`' {
      assert s[k] == s[d..][k - d];
    }
  }

  lemma EscapeMaskNeedsBoth(s: string, i: int)
    requires 0 <= i < |s| && EscapeMask(s)[i]
    ensures s[i] == '|' && '`' in s
  {
    EscapeMaskSound(s, i);
    var a, b :| BacktickRun(s, a, b) && a < i < b;
    assert s[a] in s;
  }

  /** A line without a backtick, or without a pipe, comes out unchanged. */
  lemma ReplaceCodePipesUnchanged(s: string)
    requires '`' !in s || '|' !in s
    ensures ReplaceCodePipes(s) == s
  {
    forall i | 0 <= i < |s| ensures !EscapeMask(s)[i] {
      if EscapeMask(s)[i] {
        EscapeMaskNeedsBoth(s, i);
      }
    }
    ReplaceCodePipesIsMasked(s);
    ApplyNoEscapes(s, EscapeMask(s));
  }

  /** The rewrite never introduces a newline. */
  lemma ReplaceCodePipesNoNewline(s: string)
    requires '\n' !in s
    ensures '\n' !in ReplaceCodePipes(s)
  {
    ReplaceCodePipesIsMasked(s);
    ApplyEscapesNoNewline(s, EscapeMask(s));
  }

  /** On text without `&`, turning the entity back into `|` recovers the original line. */
  lemma ReplaceCodePipesReversible(s: string)
    requires '&' !in s
    ensures RestorePipes(ReplaceCodePipes(s)) == s
  {
    forall i | 0 <= i < |s| && EscapeMask(s)[i] ensures s[i] == '|' {
      EscapeMaskSound(s, i);
    }
    ReplaceCodePipesIsMasked(s);
    RestoreAppliedEscapes(s, EscapeMask(s));
  }

  lemma {:induction false} NextBacktickNone(x: string)
    requires '`' !in x
    ensures NextBacktick(x) == |x|
    decreases |x|
  {
    if x != [] {
      assert x[0] in x;
      assert forall c :: c in x[1..] ==> c in x;
      NextBacktickNone(x[1..]);
    }
  }

  lemma {:induction false} NextBacktickAfterPlain(x: string, y: string)
    requires '`' !in x
    ensures NextBacktick(x + "`" + y) == |x|
    decreases |x|
  {
    if x != [] {
      assert x[0] in x;
      assert (x + "`" + y)[1..] == x[1..] + "`" + y;
      assert forall c :: c in x[1..] ==> c in x;
      NextBacktickAfterPlain(x[1..], y);
    }
  }

  lemma AppendAssoc<X>(a: seq<X>, b: seq<X>, c: seq<X>)
    ensures a + (b + c) == (a + b) + c
  {
  }

  /** Text without a backtick is copied by the scan. */
  lemma ReplacePlainPrefix(x: string, y: string)
    requires '`' !in x
    ensures ReplaceCodePipes(x + y) == x + ReplaceCodePipes(y)
  {
    forall k | 0 <= k < |x| ensures x[k] != '`' {
      assert x[k] in x;
    }
    ReplacePlainRun(x, y);
  }

  lemma {:induction false} ReplacePlainRun(x: string, y: string)
    requires forall k :: 0 <= k < |x| ==> x[k] != '`'
    ensures ReplaceCodePipes(x + y) == x + ReplaceCodePipes(y)
    decreases |x|
  {
    if x != [] {
      var t := x[1..];
      assert ReplaceCodePipes(x + y) == [x[0]] + ReplaceCodePipes(t + y) by {
        ReplacePlainStep(x + y);
        assert (x + y)[1..] == t + y;
      }
      ReplacePlainRun(t, y);
      assert [x[0]] + (t + ReplaceCodePipes(y)) == x + ReplaceCodePipes(y) by {
        AppendAssoc([x[0]], t, ReplaceCodePipes(y));
        assert [x[0]] + t == x;
      }
    } else {
      assert x + y == y;
    }
  }

  /** Where the text does not start with a backtick the scan copies one character. */
  lemma ReplacePlainStep(s: string)
    requires s != [] && s[0] != '`'
    ensures ReplaceCodePipes(s) == [s[0]] + ReplaceCodePipes(s[1..])
  {
    assert CodeRunEnd(s) == None;
  }

  /** A closed backtick run holding a pipe: its pipes are escaped and the scan resumes after it. */
  lemma ReplaceRunWithPipe(mid: string, tail: string)
    requires '`' !in mid && '|' in mid
    ensures ReplaceCodePipes("`" + (mid + ("`" + tail))) == "`" + (EscapePipes(mid) + ("`" + ReplaceCodePipes(tail)))
  {
    var s := "`" + (mid + ("`" + tail));
    assert s[1..] == mid + ("`" + tail);
    AppendAssoc(mid, "`", tail);
    NextBacktickAfterPlain(mid, tail);
    assert s[1..|mid| + 1] == mid;
    assert s[|mid| + 2..] == tail;
    assert CodeRunEnd(s) == Some(|mid| + 1);
    assert ReplaceCodePipes(s) == "`" + EscapePipes(mid) + "`" + ReplaceCodePipes(tail);
    AppendAssoc("`", EscapePipes(mid), "`");
    AppendAssoc("`" + EscapePipes(mid), "`", ReplaceCodePipes(tail));
    AppendAssoc("`", EscapePipes(mid), "`" + ReplaceCodePipes(tail));
  }

  /**
   * A closed backtick run without a pipe does not match; the scan moves one
   * character on, so the run's closing backtick is tried as an opening one.
   */
  lemma ReplaceRunWithoutPipe(mid: string, tail: string)
    requires '`' !in mid && '|' !in mid
    ensures ReplaceCodePipes("`" + (mid + ("`" + tail))) == "`" + (mid + ReplaceCodePipes("`" + tail))
  {
    var s := "`" + (mid + ("`" + tail));
    assert s[1..] == mid + ("`" + tail);
    AppendAssoc(mid, "`", tail);
    NextBacktickAfterPlain(mid, tail);
    assert s[1..|mid| + 1] == mid;
    assert CodeRunEnd(s) == None;
    assert ReplaceCodePipes(s) == [s[0]] + ReplaceCodePipes(s[1..]);
    ReplacePlainPrefix(mid, "`" + tail);
  }

  /** A backtick that is never closed is copied, and so is everything after it. */
  lemma ReplaceUnclosed(u: string)
    requires '`' !in u
    ensures ReplaceCodePipes("`" + u) == "`" + u
  {
    var s := "`" + u;
    assert s[1..] == u;
    NextBacktickNone(u);
    assert CodeRunEnd(s) == None;
    ReplacePlainPrefix(u, []);
    assert u + [] == u;
  }

  /** A table row whose first code span has no pipe. */
  const MisreadRow: string := "| `a` | `b|c` |"

  /** Of the two pipes of `MisreadRow` away from its ends, only the second lies in a code span. */
  lemma MisreadRowSpans()
    ensures MisreadRow[6] == '|' && !InCodeSpan(MisreadRow, 6)
    ensures MisreadRow[10] == '|' && InCodeSpan(MisreadRow, 10)
  {
    MisreadRowOuterPipe();
    MisreadRowInnerPipe();
  }

  /** The pipe after `` `a` `` follows two backticks, so it is outside every span. */
  lemma MisreadRowOuterPipe()
    ensures MisreadRow[6] == '|' && !InCodeSpan(MisreadRow, 6)
  {
    assert CountChar("| `a` ", '`') == 2;
    assert MisreadRow[..6] == "| `a` ";
  }

  /** The pipe of `b|c` follows three backticks and a closing one comes after it. */
  lemma MisreadRowInnerPipe()
    ensures MisreadRow[10] == '|' && InCodeSpan(MisreadRow, 10)
  {
    var s := MisreadRow;
    assert s[..10] == "| `a` " + "| `b";
    CountCharAppend("| `a` ", "| `b", '`');
    assert CountChar("| `a` ", '`') == 2;
    assert CountChar("| `b", '`') == 1;
    assert s[11..][1] == '`';
  }

  /**
   * The scan as written on `MisreadRow`: the closing backtick of `a` opens a
   * match, so the cell separator is escaped and the pipe inside `b|c` is not.
   */
  lemma SeparatorPipeEscaped()
    ensures ReplaceCodePipes(MisreadRow) == "| `a` &#124; `b|c` |"
    ensures MisreadRow[6] == '|' && !InCodeSpan(MisreadRow, 6)
    ensures MisreadRow[10] == '|' && InCodeSpan(MisreadRow, 10)
  {
    MisreadRowSpans();
    ReplaceMisreadRow(MisreadRow, "| ", "a", " | ", "b|c", " |", " &#124; ");
  }

  lemma ReplaceMisreadRow(row: string, lead: string, a: string, sep: string, bc: string, end: string, escaped: string)
    requires row == MisreadRow
    requires lead == "| " && a == "a" && sep == " | " && bc == "b|c" && end == " |" && escaped == " &#124; "
    ensures ReplaceCodePipes(row) == "| `a` &#124; `b|c` |"
  {
    MisreadRowPieces();
    MisreadOutputPieces();
    EscapeSeparator();
    assert '|' !in a && sep[1] in sep;
    ReplaceAfterPipeFreeSpan(lead, a, sep, bc, end);
  }

  lemma MisreadRowPieces()
    ensures MisreadRow == "| " + ("`" + ("a" + ("`" + (" | " + ("`" + ("b|c" + ("`" + " |")))))))
  {
  }

  lemma MisreadOutputPieces()
    ensures "| `a` &#124; `b|c` |" == "| " + ("`" + ("a" + ("`" + (" &#124; " + ("`" + ("b|c" + ("`" + " |")))))))
  {
  }

  lemma EscapeSeparator()
    ensures EscapePipes(" | ") == " &#124; "
  {
  }

  /**
   * On a row `lead `a` sep `bc` end` whose first code span `a` has no pipe,
   * the scan escapes the cell separator `sep` and leaves the code span `bc`
   * alone.
   */
  lemma ReplaceAfterPipeFreeSpan(lead: string, a: string, sep: string, bc: string, end: string)
    requires '`' !in lead && '`' !in a && '`' !in sep && '`' !in bc && '`' !in end
    requires '|' !in a && '|' in sep
    ensures ReplaceCodePipes(lead + ("`" + (a + ("`" + (sep + ("`" + (bc + ("`" + end))))))))
         == lead + ("`" + (a + ("`" + (EscapePipes(sep) + ("`" + (bc + ("`" + end)))))))
  {
    var tail := bc + ("`" + end);
    ReplaceUnclosed(end);
    ReplacePlainPrefix(bc, "`" + end);
    ReplaceRunWithPipe(sep, tail);
    ReplaceRunWithoutPipe(a, sep + ("`" + tail));
    ReplacePlainPrefix(lead, "`" + (a + ("`" + (sep + ("`" + tail)))));
  }

  // ---------------------------------------------------------------------------
  // The intended rewrite: backticks paired from the left
  // ---------------------------------------------------------------------------

  /** `s[i]` is a pipe inside an inline code span, backticks being paired from the left. */
  predicate InCodeSpan(s: string, i: int)
    requires 0 <= i < |s|
  {
    s[i] == '|' && CountChar(s[..i], '`') % 2 == 1 && '`' in s[i + 1..]
  }

  /** At a backtick that is closed later, the index of the closing one. */
  function SpanEnd(s: string): (r: Option<nat>)
    ensures r.Some? ==> 1 <= r.value < |s| && s[0] == '`' && s[r.value] == '`'
  {
    if |s| == 0 || s[0] != '`' then None
    else
      var j := 1 + NextBacktick(s[1..]);
      if j < |s| then Some(j) else None
  }

  /** A code span has no backtick inside. */
  lemma SpanEndClean(s: string)
    requires SpanEnd(s).Some?
    ensures forall k :: 1 <= k < SpanEnd(s).value ==> s[k] != '`'
  {
    NextBacktickFirst(s[1..]);
    forall k | 1 <= k < SpanEnd(s).value ensures s[k] != '`' {
      assert s[k] == s[1..][k - 1];
    }
  }

  /**
   * The protection the pre-pass is meant to give: a backtick opens a code span
   * that the next backtick closes, the pipes inside are escaped, and scanning
   * resumes after the closing backtick whether or not the span held a pipe.
   */
  function EscapeCodeSpans(s: string): string
    decreases |s|
  {
    if s == [] then []
    else match SpanEnd(s)
      case Some(j) => "`" + EscapePipes(s[1..j]) + "`" + EscapeCodeSpans(s[j + 1..])
      case None => if s[0] == '`' then s else [s[0]] + EscapeCodeSpans(s[1..])
  }

  /** The positions `EscapeCodeSpans` escapes. */
  function SpanMask(s: string): (m: seq<bool>)
    ensures |m| == |s|
    decreases |s|
  {
    if s == [] then []
    else match SpanEnd(s)
      case Some(j) => [false] + PipeMask(s[1..j]) + [false] + SpanMask(s[j + 1..])
      case None => if s[0] == '`' then seq(|s|, k => false) else [false] + SpanMask(s[1..])
  }

  lemma {:induction false} EscapeCodeSpansIsMasked(s: string)
    ensures EscapeCodeSpans(s) == ApplyEscapes(s, SpanMask(s))
    decreases |s|
  {
    if s != [] {
      match SpanEnd(s)
      case Some(j) =>
        EscapeCodeSpansIsMasked(s[j + 1..]);
        ClosedSpanIsMasked(s, j);
        SpansUnfoldClosed(s, j);
      case None =>
        if s[0] == '`' {
          ApplyNoEscapes(s, SpanMask(s));
        } else {
          EscapeCodeSpansIsMasked(s[1..]);
        }
    }
  }

  lemma SpansUnfoldClosed(s: string, j: nat)
    requires SpanEnd(s) == Some(j)
    ensures EscapeCodeSpans(s) == [s[0]] + EscapePipes(s[1..j]) + [s[j]] + EscapeCodeSpans(s[j + 1..])
    ensures SpanMask(s) == [false] + PipeMask(s[1..j]) + [false] + SpanMask(s[j + 1..])
  {
    assert [s[0]] == "`" && [s[j]] == "`";
  }

  lemma ClosedSpanIsMasked(s: string, j: nat)
    requires 1 <= j < |s|
    requires EscapeCodeSpans(s[j + 1..]) == ApplyEscapes(s[j + 1..], SpanMask(s[j + 1..]))
    ensures [s[0]] + EscapePipes(s[1..j]) + [s[j]] + EscapeCodeSpans(s[j + 1..])
         == ApplyEscapes(s, [false] + PipeMask(s[1..j]) + [false] + SpanMask(s[j + 1..]))
  {
    SplitAround(s, j);
    EscapePipesIsMasked(s[1..j]);
    ApplyEscapesAroundSpan(s[0], s[1..j], s[j], s[j + 1..], PipeMask(s[1..j]), SpanMask(s[j + 1..]));
  }

  lemma SplitAround<X>(s: seq<X>, j: nat)
    requires 1 <= j < |s|
    ensures s == [s[0]] + s[1..j] + [s[j]] + s[j + 1..]
  {
  }

  lemma ApplyEscapesAroundSpan(c: char, t: string, d: char, rest: string, mt: seq<bool>, mr: seq<bool>)
    requires |mt| == |t| && |mr| == |rest|
    ensures ApplyEscapes([c] + t + [d] + rest, [false] + mt + [false] + mr)
         == [c] + ApplyEscapes(t, mt) + [d] + ApplyEscapes(rest, mr)
  {
    var a, b := ApplyEscapes(t, mt), ApplyEscapes(rest, mr);
    assert ApplyEscapes([c] + t, [false] + mt) == [c] + a by {
      ApplyEscapesAppend([c], [false], t, mt);
      ApplyEscapesUnmarked(c);
    }
    assert ApplyEscapes([c] + t + [d], [false] + mt + [false]) == [c] + a + [d] by {
      ApplyEscapesAppend([c] + t, [false] + mt, [d], [false]);
      ApplyEscapesUnmarked(d);
    }
    ApplyEscapesAppend([c] + t + [d], [false] + mt + [false], rest, mr);
  }

  lemma ApplyEscapesUnmarked(c: char)
    ensures ApplyEscapes([c], [false]) == [c]
  {
    assert [c][1..] == [];
  }

  lemma CountCharCons(c: char, t: string, x: char)
    ensures CountChar([c] + t, x) == (if c == x then 1 else 0) + CountChar(t, x)
  {
    assert ([c] + t)[1..] == t;
  }

  /** Past a leading non-backtick, the spans of `s` are those of `s[1..]`, shifted. */
  lemma InCodeSpanShift(s: string, i: int)
    requires 0 < i < |s| && s[0] != '`'
    ensures InCodeSpan(s, i) <==> InCodeSpan(s[1..], i - 1)
  {
    var rest := s[1..];
    assert s[..i] == [s[0]] + rest[..i - 1];
    CountCharCons(s[0], rest[..i - 1], '`');
    assert s[i + 1..] == rest[i..];
  }

  /** Between a backtick and the next one, every pipe is in a span. */
  lemma InCodeSpanInside(s: string, i: int)
    requires SpanEnd(s).Some? && 0 < i < SpanEnd(s).value
    ensures InCodeSpan(s, i) <==> s[i] == '|'
  {
    var j := SpanEnd(s).value;
    SpanEndClean(s);
    assert s[..i] == [s[0]] + s[1..i];
    assert '`' !in s[1..i] by {
      forall k | 0 <= k < |s[1..i]| ensures s[1..i][k] != '`' {
        assert s[1..i][k] == s[k + 1];
      }
    }
    CountCharAbsent(s[1..i], '`');
    CountCharCons(s[0], s[1..i], '`');
    assert s[i + 1..][j - i - 1] == s[j];
  }

  /** After a closed span, the spans of `s` are those of the rest, shifted. */
  lemma InCodeSpanAfter(s: string, i: int)
    requires SpanEnd(s).Some? && SpanEnd(s).value < i < |s|
    ensures InCodeSpan(s, i) <==> InCodeSpan(s[SpanEnd(s).value + 1..], i - (SpanEnd(s).value + 1))
  {
    var j := SpanEnd(s).value;
    var rest, i' := s[j + 1..], i - (j + 1);
    assert s[i] == rest[i'];
    assert CountChar(s[..i], '`') == 2 + CountChar(rest[..i'], '`') by {
      ClosedSpanBackticks(s, j, i);
    }
    assert s[i + 1..] == rest[i' + 1..];
  }

  /** A closed span contributes exactly its two backticks to any prefix that reaches past it. */
  lemma ClosedSpanBackticks(s: string, j: nat, i: int)
    requires SpanEnd(s) == Some(j) && j < i <= |s|
    ensures CountChar(s[..i], '`') == 2 + CountChar(s[j + 1..][..i - (j + 1)], '`')
  {
    var t, rest := s[1..j], s[j + 1..];
    SpanEndClean(s);
    assert s[..i] == ([s[0]] + t + [s[j]]) + rest[..i - (j + 1)];
    CountCharAppend([s[0]] + t + [s[j]], rest[..i - (j + 1)], '`');
    CountCharAppend([s[0]] + t, [s[j]], '`');
    CountCharCons(s[0], t, '`');
    assert '`' !in t by {
      forall k | 0 <= k < |t| ensures t[k] != '`' {
        assert t[k] == s[k + 1];
      }
    }
    CountCharAbsent(t, '`');
    assert CountChar([s[j]], '`') == 1;
  }

  /** A backtick that is never closed opens no span. */
  lemma InCodeSpanUnclosed(s: string, i: int)
    requires |s| >= 1 && s[0] == '`' && SpanEnd(s).None?
    requires 0 <= i < |s|
    ensures !InCodeSpan(s, i)
  {
    var j := 1 + NextBacktick(s[1..]);
    NextBacktickFirst(s[1..]);
    assert j == |s|;
    forall k | 1 <= k < |s| ensures s[k] != '`' {
      assert s[k] == s[1..][k - 1];
    }
    assert '`' !in s[i + 1..];
  }

  /** The intended rewrite escapes exactly the pipes inside code spans. */
  lemma {:induction false} SpanMaskIff(s: string, i: int)
    requires 0 <= i < |s|
    ensures SpanMask(s)[i] <==> InCodeSpan(s, i)
    decreases |s|, 2
  {
    var r := SpanEnd(s);
    if r.Some? {
      SpanMaskIffSpan(s, r.value, i);
    } else if s[0] == '`' {
      assert SpanMask(s) == seq(|s|, k => false);
      InCodeSpanUnclosed(s, i);
    } else {
      SpanMaskIffPlain(s, i);
    }
  }

  /** Where a span starts: its pipes are marked, and after it the rest's marks. */
  lemma {:induction false} SpanMaskIffSpan(s: string, j: nat, i: int)
    requires 0 <= i < |s| && SpanEnd(s) == Some(j)
    ensures SpanMask(s)[i] <==> InCodeSpan(s, i)
    decreases |s|, 1
  {
    SpanMaskUnfoldSpan(s, j, i);
    if 0 < i < j {
      InCodeSpanInside(s, i);
    } else if i > j {
      SpanMaskIff(s[j + 1..], i - (j + 1));
      InCodeSpanAfter(s, i);
    }
  }

  /** Away from a backtick, the marks are the rest's, one place on. */
  lemma {:induction false} SpanMaskIffPlain(s: string, i: int)
    requires 0 <= i < |s| && s[0] != '`'
    ensures SpanMask(s)[i] <==> InCodeSpan(s, i)
    decreases |s|, 1
  {
    assert SpanMask(s) == [false] + SpanMask(s[1..]);
    if i > 0 {
      assert SpanMask(s)[i] == SpanMask(s[1..])[i - 1];
      SpanMaskIff(s[1..], i - 1);
      InCodeSpanShift(s, i);
    }
  }

  /** The intended mask where a closed span starts. */
  lemma SpanMaskSpanStep(s: string, j: nat)
    requires SpanEnd(s) == Some(j)
    ensures SpanMask(s) == [false] + PipeMask(s[1..j]) + [false] + SpanMask(s[j + 1..])
  {
  }

  /** A mark of the intended mask at a closed span: a pipe inside it, the rest's mark after it. */
  lemma SpanMaskUnfoldSpan(s: string, j: nat, i: int)
    requires 0 <= i < |s| && SpanEnd(s) == Some(j)
    ensures 0 < i < j ==> (SpanMask(s)[i] <==> s[i] == '|')
    ensures i == 0 || i == j ==> !SpanMask(s)[i] && s[i] == '`'
    ensures j < i ==> SpanMask(s)[i] == SpanMask(s[j + 1..])[i - (j + 1)]
  {
    var t := s[1..j];
    SpanMaskSpanStep(s, j);
    MaskAroundIndex(SpanMask(s), t, SpanMask(s[j + 1..]), i);
    if 0 < i < j {
      assert t[i - 1] == s[i];
    }
  }

  lemma SpansUnfoldPlain(s: string)
    requires s != [] && s[0] != '`'
    ensures EscapeCodeSpans(s) == [s[0]] + EscapeCodeSpans(s[1..])
  {
  }

  /** Text without a backtick is copied by the intended rewrite. */
  lemma {:induction false} SpansPlainPrefix(x: string, y: string)
    requires '`' !in x
    ensures EscapeCodeSpans(x + y) == x + EscapeCodeSpans(y)
    decreases |x|
  {
    if x != [] {
      assert x[0] in x;
      assert (x + y)[1..] == x[1..] + y;
      assert forall c :: c in x[1..] ==> c in x;
      SpansPlainPrefix(x[1..], y);
      SpansUnfoldPlain(x + y);
      AppendAssoc([x[0]], x[1..], EscapeCodeSpans(y));
      assert [x[0]] + x[1..] == x;
    } else {
      assert x + y == y;
    }
  }

  /** A closed span: its pipes are escaped and the rewrite resumes after it. */
  lemma SpansClosedRun(mid: string, tail: string)
    requires '`' !in mid
    ensures EscapeCodeSpans("`" + (mid + ("`" + tail))) == "`" + (EscapePipes(mid) + ("`" + EscapeCodeSpans(tail)))
  {
    var s := "`" + (mid + ("`" + tail));
    assert s[1..] == mid + ("`" + tail);
    AppendAssoc(mid, "`", tail);
    NextBacktickAfterPlain(mid, tail);
    assert s[1..|mid| + 1] == mid;
    assert s[|mid| + 2..] == tail;
    assert SpanEnd(s) == Some(|mid| + 1);
    assert EscapeCodeSpans(s) == "`" + EscapePipes(mid) + "`" + EscapeCodeSpans(tail);
    AppendAssoc("`", EscapePipes(mid), "`");
    AppendAssoc("`" + EscapePipes(mid), "`", EscapeCodeSpans(tail));
    AppendAssoc("`", EscapePipes(mid), "`" + EscapeCodeSpans(tail));
  }

  /** On the same rows, the intended rewrite pairs the backticks and escapes only inside `bc`. */
  lemma SpansPairedRow(lead: string, a: string, sep: string, bc: string, end: string)
    requires '`' !in lead && '`' !in a && '`' !in sep && '`' !in bc && '`' !in end
    requires '|' !in a
    ensures EscapeCodeSpans(lead + ("`" + (a + ("`" + (sep + ("`" + (bc + ("`" + end))))))))
         == lead + ("`" + (a + ("`" + (sep + ("`" + (EscapePipes(bc) + ("`" + end)))))))
  {
    SpansPlainPrefix(end, []);
    assert end + [] == end;
    SpansClosedRun(bc, end);
    SpansPlainPrefix(sep, "`" + (bc + ("`" + end)));
    SpansClosedRun(a, sep + ("`" + (bc + ("`" + end))));
    EscapePipesNoPipe(a);
    SpansPlainPrefix(lead, "`" + (a + ("`" + (sep + ("`" + (bc + ("`" + end)))))));
  }

  lemma {:induction false} EscapePipesNoPipe(t: string)
    requires '|' !in t
    ensures EscapePipes(t) == t
    decreases |t|
  {
    if t != [] {
      assert t[0] in t;
      assert forall c :: c in t[1..] ==> c in t;
      EscapePipesNoPipe(t[1..]);
      assert [t[0]] + t[1..] == t;
    }
  }

  /** The intended rewrite turns the misread row into the intended one. */
  lemma MisreadRowIntended()
    ensures EscapeCodeSpans(MisreadRow) == "| `a` | `b&#124;c` |"
  {
    SpansMisreadRow(MisreadRow, "| ", "a", " | ", "b|c", " |", "b&#124;c");
  }

  lemma SpansMisreadRow(row: string, lead: string, a: string, sep: string, bc: string, end: string, escaped: string)
    requires row == MisreadRow
    requires lead == "| " && a == "a" && sep == " | " && bc == "b|c" && end == " |" && escaped == "b&#124;c"
    ensures EscapeCodeSpans(row) == "| `a` | `b&#124;c` |"
  {
    MisreadRowPieces();
    IntendedOutputPieces();
    EscapeCodeSpanContent();
    SpansPairedRow(lead, a, sep, bc, end);
  }

  lemma IntendedOutputPieces()
    ensures "| `a` | `b&#124;c` |" == "| " + ("`" + ("a" + ("`" + (" | " + ("`" + ("b&#124;c" + ("`" + " |")))))))
  {
  }

  lemma EscapeCodeSpanContent()
    ensures EscapePipes("b|c") == "b&#124;c"
  {
  }

  // ---------------------------------------------------------------------------
  // The line-wise pre-pass
  // ---------------------------------------------------------------------------

  /** `line.trim().startsWith('|') || (line.includes('|') && line.includes('---'))`. */
  predicate IsTableLine(line: string) {
    StartsWith(Trim(line), "|") || (Contains(line, "|") && Contains(line, "---"))
  }

  /** The trimmed line starts with `|` exactly when its first non-blank character is `|`. */
  lemma IsTableLineIff(line: string)
    ensures IsTableLine(line) <==>
      (TrimStart(line) != [] && TrimStart(line)[0] == '|') || (Contains(line, "|") && Contains(line, "---"))
  {
    TrimStartsWithChar(line, '|');
  }

  /** Which code-span rewrite a table row gets: the regex as written, or the intended pairing. */
  datatype Pairing = AsWritten | Intended

  /** The rewrite of one table row. */
  function EscapeRow(pairing: Pairing, line: string): string {
    match pairing
    case AsWritten => ReplaceCodePipes(line)
    case Intended => EscapeCodeSpans(line)
  }

  /** Neither rewrite puts a newline into a line that has none. */
  lemma EscapeRowNoNewline(pairing: Pairing, line: string)
    requires '\n' !in line
    ensures '\n' !in EscapeRow(pairing, line)
  {
    match pairing
    case AsWritten => ReplaceCodePipesNoNewline(line);
    case Intended =>
      EscapeCodeSpansIsMasked(line);
      ApplyEscapesNoNewline(line, SpanMask(line));
  }

  /** One line of the pre-pass. */
  function PreprocessLine(line: string, pairing: Pairing): string {
    if IsTableLine(line) then EscapeRow(pairing, line) else line
  }

  /** Split into lines, rewrite the table rows, join again with newlines. */
  function PreprocessWith(content: string, pairing: Pairing): string {
    var lines := Split(content, '\n');
    Join(seq(|lines|, i requires 0 <= i < |lines| => PreprocessLine(lines[i], pairing)), '\n')
  }

  /** `preprocessTablePipes` as written. */
  function PreprocessTablePipes(content: string): string {
    PreprocessWith(content, AsWritten)
  }

  /** `preprocessTablePipes` with the intended code-span pairing. */
  function PreprocessTablePipesIntended(content: string): string {
    PreprocessWith(content, Intended)
  }

  /**
   * The pre-pass keeps the line structure: the output's lines are the
   * input's lines, each one rewritten if it is a table row and untouched
   * otherwise.
   */
  lemma PreprocessKeepsLines(content: string, pairing: Pairing)
    ensures var lines := Split(content, '\n');
            var out := Split(PreprocessWith(content, pairing), '\n');
            |out| == |lines| &&
            forall i :: 0 <= i < |lines| ==>
              out[i] == (if IsTableLine(lines[i]) then EscapeRow(pairing, lines[i]) else lines[i])
  {
    var lines := Split(content, '\n');
    var mapped := seq(|lines|, i requires 0 <= i < |lines| => PreprocessLine(lines[i], pairing));
    assert forall i :: 0 <= i < |mapped| ==> '\n' !in mapped[i] by {
      forall i | 0 <= i < |mapped| ensures '\n' !in mapped[i] {
        assert '\n' !in lines[i];
        if IsTableLine(lines[i]) {
          EscapeRowNoNewline(pairing, lines[i]);
        }
      }
    }
    SplitJoin(mapped, '\n');
  }

  /** The pre-pass as written keeps the number of lines and alters only table rows. */
  lemma PreprocessTablePipesKeepsLines(content: string)
    ensures var lines := Split(content, '\n');
            var out := Split(PreprocessTablePipes(content), '\n');
            |out| == |lines| &&
            forall i :: 0 <= i < |lines| ==>
              out[i] == (if IsTableLine(lines[i]) then ReplaceCodePipes(lines[i]) else lines[i])
  {
    PreprocessKeepsLines(content, AsWritten);
  }

  /** The intended pre-pass keeps the number of lines and alters only table rows. */
  lemma PreprocessIntendedKeepsLines(content: string)
    ensures var lines := Split(content, '\n');
            var out := Split(PreprocessTablePipesIntended(content), '\n');
            |out| == |lines| &&
            forall i :: 0 <= i < |lines| ==>
              out[i] == (if IsTableLine(lines[i]) then EscapeCodeSpans(lines[i]) else lines[i])
  {
    PreprocessKeepsLines(content, Intended);
  }

  // ---------------------------------------------------------------------------
  // Code elements
  // ---------------------------------------------------------------------------

  /** `\w`: ASCII letters, digits and underscore. */
  predicate IsWordChar(c: char) {
    ('a' <= c <= 'z') || ('A' <= c <= 'Z') || ('0' <= c <= '9') || c == '_'
  }

  /** Length of the longest prefix of word characters. */
  function WordRunLength(s: string): (n: nat)
    ensures n <= |s|
    ensures forall k :: 0 <= k < n ==> IsWordChar(s[k])
    ensures n < |s| ==> !IsWordChar(s[n])
    decreases |s|
  {
    if s == [] || !IsWordChar(s[0]) then 0 else 1 + WordRunLength(s[1..])
  }

  const LanguagePrefix: string := "language-"

  /** /language-(\w+)/ can match at offset `i`. */
  ghost predicate LanguageMatchAt(s: string, i: int) {
    0 <= i && i + |LanguagePrefix| < |s| && s[i..i + |LanguagePrefix|] == LanguagePrefix
    && IsWordChar(s[i + |LanguagePrefix|])
  }

  /** The captured group of /language-(\w+)/ on `s`, trying offsets from the left. */
  function FindLanguage(s: string): Option<string>
    decreases |s|
  {
    if s == [] then None
    else if StartsWith(s, LanguagePrefix) && WordRunLength(s[|LanguagePrefix|..]) > 0 then
      Some(s[|LanguagePrefix|..][..WordRunLength(s[|LanguagePrefix|..])])
    else FindLanguage(s[1..])
  }

  /** Matches of `s[1..]` are the matches of `s` one offset further right. */
  lemma LanguageMatchShift(s: string, i: int)
    requires |s| > 0 && i >= 0
    ensures LanguageMatchAt(s, i + 1) <==> LanguageMatchAt(s[1..], i)
  {
    var p := |LanguagePrefix|;
    if 0 <= i && i + p < |s[1..]| {
      assert s[1..][i..i + p] == s[i + 1..i + 1 + p];
      assert s[1..][i + p] == s[i + 1 + p];
    }
  }

  /** The match at offset `i` is the first one. */
  ghost predicate LeftmostLanguageMatch(s: string, i: int) {
    LanguageMatchAt(s, i) && forall j :: 0 <= j < i ==> !LanguageMatchAt(s, j)
  }

  /** The maximal word run after a `language-` at offset `i`. */
  function MatchedWord(s: string, i: nat): string
    requires i + |LanguagePrefix| <= |s|
  {
    s[i + |LanguagePrefix|..][..WordRunLength(s[i + |LanguagePrefix|..])]
  }

  /** The language found is the maximal word run after the leftmost `language-` followed by a word character. */
  lemma {:induction false} FindLanguageLeftmost(s: string)
    requires FindLanguage(s).Some?
    ensures exists i: nat ::
      i + |LanguagePrefix| <= |s| && LeftmostLanguageMatch(s, i) && FindLanguage(s).value == MatchedWord(s, i)
    decreases |s|
  {
    if StartsWith(s, LanguagePrefix) && WordRunLength(s[|LanguagePrefix|..]) > 0 {
      assert LeftmostLanguageMatch(s, 0) && FindLanguage(s).value == MatchedWord(s, 0);
    } else {
      FindLanguageLeftmost(s[1..]);
      var i: nat :| i + |LanguagePrefix| <= |s[1..]| && LeftmostLanguageMatch(s[1..], i) &&
        FindLanguage(s[1..]).value == MatchedWord(s[1..], i);
      LeftmostShift(s, i);
      assert FindLanguage(s) == FindLanguage(s[1..]);
    }
  }

  /** When offset 0 does not match, the first match of `s[1..]` is the first of `s`, one further right. */
  lemma LeftmostShift(s: string, i: nat)
    requires |s| > 0 && !(StartsWith(s, LanguagePrefix) && WordRunLength(s[|LanguagePrefix|..]) > 0)
    requires i + |LanguagePrefix| <= |s[1..]| && LeftmostLanguageMatch(s[1..], i)
    ensures LeftmostLanguageMatch(s, i + 1) && MatchedWord(s, i + 1) == MatchedWord(s[1..], i)
  {
    var p := |LanguagePrefix|;
    assert !LanguageMatchAt(s, 0);
    assert s[1..][i + p..] == s[i + 1 + p..];
    LanguageMatchShift(s, i);
    forall j | 0 <= j < i + 1 ensures !LanguageMatchAt(s, j) {
      if j > 0 {
        LanguageMatchShift(s, j - 1);
      }
    }
  }

  /** No language is found iff no offset matches. */
  lemma {:induction false} FindLanguageNone(s: string)
    requires FindLanguage(s).None?
    ensures forall i :: !LanguageMatchAt(s, i)
    decreases |s|
  {
    if s != [] {
      var p := |LanguagePrefix|;
      assert !LanguageMatchAt(s, 0);
      FindLanguageNone(s[1..]);
      forall i ensures !LanguageMatchAt(s, i) {
        if i > 0 {
          LanguageMatchShift(s, i - 1);
        }
      }
    }
  }

  /** `match ? match[1] : 'text'` on `className || ''`. */
  function CodeLanguage(className: Option<string>): (language: string)
    ensures FindLanguage(className.GetOr("")).None? ==> language == "text"
    ensures FindLanguage(className.GetOr("")).Some? ==>
      language == FindLanguage(className.GetOr("")).value && |language| >= 1 &&
      forall k :: 0 <= k < |language| ==> IsWordChar(language[k])
  {
    match FindLanguage(className.GetOr(""))
    case Some(w) => FindLanguageWord(className.GetOr("")); w
    case None => "text"
  }

  /** A found language is a non-empty word. */
  lemma {:induction false} FindLanguageWord(s: string)
    requires FindLanguage(s).Some?
    ensures |FindLanguage(s).value| >= 1
    ensures forall k :: 0 <= k < |FindLanguage(s).value| ==> IsWordChar(FindLanguage(s).value[k])
    decreases |s|
  {
    if !(StartsWith(s, LanguagePrefix) && WordRunLength(s[|LanguagePrefix|..]) > 0) {
      FindLanguageWord(s[1..]);
    }
  }

  /** `String(children).replace(/\n$/, '')`: one final newline is dropped. */
  function StripFinalNewline(s: string): (r: string)
    ensures |s| > 0 && s[|s| - 1] == '\n' ==> r + "\n" == s
    ensures !(|s| > 0 && s[|s| - 1] == '\n') ==> r == s
  {
    if |s| > 0 && s[|s| - 1] == '\n' then s[..|s| - 1] else s
  }

  /** Above this many lines a fenced block goes to the virtualised viewer. */
  const VirtualizeThreshold: int := 100

  /** What a `code` element renders as. */
  datatype CodeRendering =
    | InlineCode(className: Option<string>, text: string)
    | VirtualizedBlock(language: string, text: string)
    | HighlightedBlock(language: string, text: string)

  /**
   * `components.code`: a block needs both `!inline` and a `language-` class;
   * its text loses one final newline and is decoded (`decode` is the DOM
   * entity decoder), and more than 100 lines selects the virtualised viewer.
   * Anything else renders as inline code with the decoded children.
   */
  function RenderCode(inline: bool, className: Option<string>, children: string, decode: string -> string): (r: CodeRendering)
    ensures r.InlineCode? <==> inline || FindLanguage(className.GetOr("")).None?
    ensures r.InlineCode? ==> r.text == decode(children) && r.className == className
    ensures !r.InlineCode? ==> r.language == CodeLanguage(className) && r.text == decode(StripFinalNewline(children))
    ensures r.VirtualizedBlock? <==> !r.InlineCode? && |Split(r.text, '\n')| > VirtualizeThreshold
  {
    if !inline && FindLanguage(className.GetOr("")).Some? then
      var code := decode(StripFinalNewline(children));
      if |Split(code, '\n')| > VirtualizeThreshold then VirtualizedBlock(CodeLanguage(className), code)
      else HighlightedBlock(CodeLanguage(className), code)
    else InlineCode(className, decode(children))
  }

  /**
   * The block sent to the virtualised viewer is one the viewer, with its
   * default line limit, does virtualise; a highlighted block would not be.
   */
  lemma DispatchAgreesWithViewer(inline: bool, className: Option<string>, children: string, decode: string -> string)
    ensures var r := RenderCode(inline, className, children, decode);
            (r.VirtualizedBlock? ==>
              VirtualizedCodeBlock.ShouldVirtualize(|VirtualizedCodeBlock.Lines(r.text)|, VirtualizedCodeBlock.DefaultMaxLines)) &&
            (r.HighlightedBlock? ==>
              !VirtualizedCodeBlock.ShouldVirtualize(|VirtualizedCodeBlock.Lines(r.text)|, VirtualizedCodeBlock.DefaultMaxLines))
  {
  }

  // ---------------------------------------------------------------------------
  // Links and plugins
  // ---------------------------------------------------------------------------

  datatype LinkAttributes = LinkAttributes(target: Option<string>, rel: Option<string>)

  /** `href?.startsWith('http')`: the link leaves the application. */
  predicate IsExternal(href: Option<string>)
  {
    href.Some? && StartsWith(href.value, "http")
  }

  /**
   * The link renderer: an external `href` gets a new tab and no opener, but
   * the anchor's own `target` and `rel` (a raw HTML anchor may carry them)
   * are spread after the computed ones and win.
   */
  function LinkAttributesFor(href: Option<string>, ownTarget: Option<string>, ownRel: Option<string>): (a: LinkAttributes)
    ensures ownTarget.Some? ==> a.target == ownTarget
    ensures ownRel.Some? ==> a.rel == ownRel
    ensures ownTarget.None? ==> (a.target.Some? <==> IsExternal(href)) && (a.target.Some? ==> a.target.value == "_blank")
    ensures ownRel.None? ==> (a.rel.Some? <==> IsExternal(href)) && (a.rel.Some? ==> a.rel.value == "noopener noreferrer")
  {
    var computed := if IsExternal(href) then LinkAttributes(Some("_blank"), Some("noopener noreferrer"))
                    else LinkAttributes(None, None);
    LinkAttributes(if ownTarget.Some? then ownTarget else computed.target,
                   if ownRel.Some? then ownRel else computed.rel)
  }

  /**
   * A markdown link carries no attributes of its own, so its target and rel
   * are set together, and exactly for an external address.
   */
  lemma MarkdownLinkAttributes(href: Option<string>)
    ensures var a := LinkAttributesFor(href, None, None);
            a.target.Some? == a.rel.Some? == IsExternal(href)
  {
  }

  /** A raw anchor with its own `target` on an external address keeps it, beside the computed `rel`. */
  lemma OwnTargetOverrides()
    ensures LinkAttributesFor(Some("https://example.org"), Some("_self"), None) ==
      LinkAttributes(Some("_self"), Some("noopener noreferrer"))
  {
    assert StartsWith("https://example.org", "http");
  }

  datatype Plugin = RemarkGfm | RemarkMath | RehypeRaw | RehypeKatex

  datatype PluginLists = PluginLists(remark: seq<Plugin>, rehype: seq<Plugin>)

  /** GFM and raw HTML always; math (parsing and KaTeX) unless `enableMath` is false. */
  function Plugins(enableMath: Option<bool>): (p: PluginLists)
    ensures |p.remark| >= 1 && p.remark[0] == RemarkGfm
    ensures |p.rehype| >= 1 && p.rehype[0] == RehypeRaw
    ensures RemarkMath in p.remark <==> enableMath.GetOr(true)
    ensures RehypeKatex in p.rehype <==> enableMath.GetOr(true)
    ensures |p.remark| == |p.rehype| <= 2
  {
    if enableMath.GetOr(true) then PluginLists([RemarkGfm, RemarkMath], [RehypeRaw, RehypeKatex])
    else PluginLists([RemarkGfm], [RehypeRaw])
  }
}
