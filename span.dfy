/**
 * Compilation units and byte ranges into them: the source buffer with its
 * display path and cached size, line fetching, and the line, column and
 * lexeme queries of a span, with the `path:line:column` rendering.
 *
 * Content is a `string`; each element stands for one byte of the C++
 * `std::string`.
 */
module Spans {
  import opened Wrappers
  import opened Numerals

  /** One compilation unit: its content and the path it is displayed under. */
  datatype Source = Source(content: string, path: string) {
    /** The cached byte length of the content. */
    function Size(): nat {
      |content|
    }
  }

  const StaticPath := "<static>"

  /** `Source(content, path)`. */
  function NewSource(content: string, path: string): (src: Source)
    ensures src.content == content && src.path == path
    ensures src.Size() == |content|
  {
    Source(content, path)
  }

  /** `Source(content)`: a unit with no file behind it. */
  function StaticSource(content: string): (src: Source)
    ensures src.content == content && src.path == "<static>"
    ensures src.Size() == |content|
  {
    Source(content, StaticPath)
  }

  /** A byte range `(offset, length)` into a source. Any value is legal. */
  datatype Span = Span(source: Source, offset: nat, length: nat)

  /** The queries that need a position resolve only for spans that start
      inside the content and end no later than its end. */
  predicate InBounds(span: Span) {
    span.offset < span.source.Size() && span.offset + span.length <= span.source.Size()
  }

  /* ------------------------------------------------------------------------ */
  /* Counting and finding newlines                                            */
  /* ------------------------------------------------------------------------ */

  function CountNewlines(t: string): nat {
    if t == [] then 0 else CountNewlines(t[..|t| - 1]) + (if t[|t| - 1] == '\n' then 1 else 0)
  }

  lemma CountStep(s: string, i: nat)
    requires i < |s|
    ensures CountNewlines(s[..i + 1]) == CountNewlines(s[..i]) + (if s[i] == '\n' then 1 else 0)
  {
    assert s[..i + 1][..i] == s[..i];
  }

  lemma {:induction false} CountFlat(s: string, i: nat, j: nat)
    requires i <= j <= |s|
    requires forall k :: i <= k < j ==> s[k] != '\n'
    ensures CountNewlines(s[..j]) == CountNewlines(s[..i])
    decreases j - i
  {
    if i < j {
      CountStep(s, j - 1);
      CountFlat(s, i, j - 1);
    }
  }

  lemma {:induction false} CountMonotone(s: string, i: nat, j: nat)
    requires i <= j <= |s|
    ensures CountNewlines(s[..i]) <= CountNewlines(s[..j])
    decreases j - i
  {
    if i < j {
      CountStep(s, j - 1);
      CountMonotone(s, i, j - 1);
    }
  }

  /** A newline in `[i, j)` makes the count of `s[..j]` exceed that of `s[..i]`. */
  lemma CountGrows(s: string, i: nat, k: nat, j: nat)
    requires i <= k < j <= |s| && s[k] == '\n'
    ensures CountNewlines(s[..i]) < CountNewlines(s[..j])
  {
    CountMonotone(s, i, k);
    CountStep(s, k);
    CountMonotone(s, k + 1, j);
  }

  lemma CountWhole(s: string)
    ensures CountNewlines(s[..|s|]) == CountNewlines(s)
  {
    assert s[..|s|] == s;
  }

  /** `content.find('\n', from)`: the first newline at or after `from`. */
  function FindNewline(s: string, from: nat): (r: Option<nat>)
    requires from <= |s|
    ensures r.Some? ==> from <= r.value < |s| && s[r.value] == '\n'
    ensures r.Some? ==> forall k :: from <= k < r.value ==> s[k] != '\n'
    ensures r.None? ==> forall k :: from <= k < |s| ==> s[k] != '\n'
    decreases |s| - from
  {
    if from == |s| then None
    else if s[from] == '\n' then Some(from)
    else FindNewline(s, from + 1)
  }

  /** `content.rfind('\n', i)`: the last newline at or before `i`. */
  function RFindNewline(s: string, i: nat): (r: Option<nat>)
    requires i < |s|
    ensures r.Some? ==> r.value <= i && s[r.value] == '\n'
    ensures r.Some? ==> forall k :: r.value < k <= i ==> s[k] != '\n'
    ensures r.None? ==> forall k :: 0 <= k <= i ==> s[k] != '\n'
  {
    if s[i] == '\n' then Some(i)
    else if i == 0 then None
    else RFindNewline(s, i - 1)
  }

  /* ------------------------------------------------------------------------ */
  /* Lines                                                                    */
  /* ------------------------------------------------------------------------ */

  /** The index one past the end of the line starting at `a`: past its
      newline, or the end of the content. */
  function LineEnd(s: string, a: nat): (b: nat)
    requires a <= |s|
    ensures a <= b <= |s|
    ensures forall k :: a <= k < b - 1 ==> s[k] != '\n'
    ensures b == |s| || (b > a && s[b - 1] == '\n')
  {
    match FindNewline(s, a)
    case None => |s|
    case Some(e) => e + 1
  }

  /** Where line `ln` (1-based) starts: right after the `(ln-1)`-th newline;
      None when the content has fewer lines. */
  function LineStart(s: string, ln: nat): (r: Option<nat>)
    requires ln >= 1
    ensures r.Some? ==> r.value <= |s| && CountNewlines(s[..r.value]) == ln - 1
    ensures r.Some? ==> r.value == 0 || s[r.value - 1] == '\n'
    decreases ln
  {
    if ln == 1 then Some(0)
    else match LineStart(s, ln - 1)
      case None => None
      case Some(p) =>
        match FindNewline(s, p)
        case None => None
        case Some(e) =>
          CountFlat(s, p, e);
          CountStep(s, e);
          Some(e + 1)
  }

  /** Every index that starts line `ln` is the one LineStart finds. */
  lemma {:induction false} LineStartComplete(s: string, ln: nat, a: nat)
    requires ln >= 1 && a <= |s|
    requires CountNewlines(s[..a]) == ln - 1
    requires a == 0 || s[a - 1] == '\n'
    ensures LineStart(s, ln) == Some(a)
    decreases ln
  {
    if a > 0 {
      CountGrows(s, 0, a - 1, a);
    }
    if ln > 1 {
      var q := a - 1;
      var prev := LineStartBefore(s, q);
      CountFlat(s, prev, q);
      CountStep(s, q);
      LineStartComplete(s, ln - 1, prev);
      FindNewlineAt(s, prev, q);
    }
  }

  /** The start of the line that holds index `q`: just past the last
      newline before `q`, or 0. */
  lemma LineStartBefore(s: string, q: nat) returns (prev: nat)
    requires q < |s|
    ensures prev <= q && (prev == 0 || s[prev - 1] == '\n')
    ensures forall k :: prev <= k < q ==> s[k] != '\n'
  {
    if q == 0 {
      prev := 0;
    } else {
      match RFindNewline(s, q - 1)
      case None => prev := 0;
      case Some(t) => prev := t + 1;
    }
  }

  /** No newline at or after `from`: the search finds nothing. */
  lemma FindNewlineNone(s: string, from: nat)
    requires from <= |s|
    requires forall k :: from <= k < |s| ==> s[k] != '\n'
    ensures FindNewline(s, from) == None
  {
  }

  /** The first newline at or after `from` is the one that ends a run of
      other bytes. */
  lemma FindNewlineAt(s: string, from: nat, q: nat)
    requires from <= q < |s| && s[q] == '\n'
    requires forall k :: from <= k < q ==> s[k] != '\n'
    ensures FindNewline(s, from) == Some(q)
  {
  }

  /** Line `ln` exists exactly when `ln` is at most one more than the number
      of newlines. */
  lemma {:induction false} LineStartDefined(s: string, ln: nat)
    requires ln >= 1
    ensures LineStart(s, ln).Some? <==> ln <= 1 + CountNewlines(s)
    decreases ln
  {
    CountWhole(s);
    match LineStart(s, ln)
    case Some(a) =>
      CountMonotone(s, a, |s|);
    case None =>
      if ln > 1 {
        LineStartDefined(s, ln - 1);
        if ln <= 1 + CountNewlines(s) {
          var p := LineStart(s, ln - 1).value;
          assert FindNewline(s, p).None?;
          CountFlat(s, p, |s|);
          assert false;
        }
      }
  }

  /** The `ln`-th line with its newline, the last line without one: the
      intended meaning of `Source::line`. */
  function LineAt(s: string, ln: nat): (r: string)
    requires ln >= 1
    ensures |r| <= |s|
    ensures forall k :: 0 <= k < |r| - 1 ==> r[k] != '\n'
    ensures ln > 1 + CountNewlines(s) ==> r == []
  {
    LineStartDefined(s, ln);
    match LineStart(s, ln)
    case None => []
    case Some(a) => s[a..LineEnd(s, a)]
  }

  /** The case in which the scan of `Source::line` never meets the start of
      line `ln` although that line exists: the content ends in a newline
      and `ln` names the empty line after it. */
  predicate LineQuirk(s: string, ln: nat) {
    ln >= 2 && |s| > 0 && s[|s| - 1] == '\n' && ln == 1 + CountNewlines(s)
  }

  /** What `Source::line` returns, as written: in the quirk case `start`
      keeps its initial 0 and the first line comes back. */
  function LineOf(s: string, ln: nat): (r: string)
    requires ln >= 1
    ensures |r| <= |s|
    ensures forall k :: 0 <= k < |r| - 1 ==> r[k] != '\n'
    ensures ln > 1 + CountNewlines(s) ==> r == []
  {
    if LineQuirk(s, ln) then LineAt(s, 1) else LineAt(s, ln)
  }

  /** A scan of `Source::line` that meets line `ln` at index `a` (the
      first index whose newline count makes it line `ln`) returns the line
      that starts there. */
  lemma ScanFound(s: string, ln: nat, a: nat)
    requires ln >= 1 && a < |s|
    requires 1 + CountNewlines(s[..a]) == ln
    requires a > 0 ==> 1 + CountNewlines(s[..a - 1]) < ln
    ensures LineOf(s, ln) == s[a..LineEnd(s, a)]
  {
    if a > 0 {
      CountStep(s, a - 1);
    }
    LineStartComplete(s, ln, a);
    if s[|s| - 1] == '\n' {
      CountGrows(s, a, |s| - 1, |s|);
      CountWhole(s);
    }
    assert !LineQuirk(s, ln);
  }

  /** A scan of `Source::line` that runs off the end with its counter at
      `ln` returns the first line: `start` was never moved. */
  lemma ScanExhausted(s: string, ln: nat)
    requires ln >= 1 && ln == 1 + CountNewlines(s)
    requires |s| > 0 ==> 1 + CountNewlines(s[..|s| - 1]) < ln
    ensures LineOf(s, ln) == s[0..LineEnd(s, 0)]
  {
    LineStartComplete(s, 1, 0) by {
      assert s[..0] == [];
    }
    if |s| > 0 {
      CountStep(s, |s| - 1);
      CountWhole(s);
      assert LineQuirk(s, ln);
    } else {
      assert ln == 1;
    }
  }

  /** `Source::line(ln)`: scan for the start of line `ln`, then take the
      bytes up to and including the next newline, or to the end. */
  method Line(src: Source, ln: nat) returns (r: string)
    requires ln >= 1
    ensures r == LineOf(src.content, ln)
  {
    var s := src.content;
    var size := src.Size();
    var line := 1;
    var start := 0;
    var i := 0;
    while i < size
      invariant 0 <= i <= size
      invariant line == 1 + CountNewlines(s[..i])
      invariant line <= ln
      invariant i > 0 ==> 1 + CountNewlines(s[..i - 1]) < ln
      invariant start == 0
    {
      if line == ln {
        start := i;
        break;
      }
      if s[i] == '\n' {
        line := line + 1;
      }
      CountStep(s, i);
      i := i + 1;
    }
    if line < ln {
      CountWhole(s);
      LineStartDefined(s, ln);
      return [];
    }
    if i < size {
      ScanFound(s, ln, start);
    } else {
      CountWhole(s);
      ScanExhausted(s, ln);
    }
    var end := FindNewline(s, start);
    if end.None? {
      r := s[start..size];
    } else {
      r := s[start..end.value + 1];
    }
  }

  /* ------------------------------------------------------------------------ */
  /* Span queries                                                             */
  /* ------------------------------------------------------------------------ */

  /** `Span::line_number`: one more than the newlines before the offset. */
  function LineNumber(span: Span): (r: Option<nat>)
    ensures r.Some? <==> span.offset < span.source.Size()
    ensures r.Some? ==> 1 <= r.value <= 1 + CountNewlines(span.source.content)
  {
    if span.offset >= span.source.Size() then None
    else
      CountMonotone(span.source.content, span.offset, span.source.Size());
      CountWhole(span.source.content);
      Some(1 + CountNewlines(span.source.content[..span.offset]))
  }

  /** The loop of `Span::line_number`. */
  method ComputeLineNumber(span: Span) returns (r: Option<nat>)
    ensures r == LineNumber(span)
  {
    if span.offset >= span.source.Size() {
      return None;
    }
    var s := span.source.content;
    var line := 1;
    var i := 0;
    while i < span.offset
      invariant 0 <= i <= span.offset
      invariant line == 1 + CountNewlines(s[..i])
    {
      if s[i] == '\n' {
        line := line + 1;
      }
      CountStep(s, i);
      i := i + 1;
    }
    r := Some(line);
  }

  /** `Span::column_number`: the distance from the last newline at or before
      the offset, or `offset + 1` when there is none. A span that starts on a
      newline gets column 0. */
  function ColumnNumber(span: Span): (r: Option<nat>)
    ensures r.Some? <==> InBounds(span)
    ensures r.Some? ==> r.value <= span.offset + 1
    ensures r.Some? ==> forall k :: span.offset + 1 - r.value <= k <= span.offset ==> span.source.content[k] != '\n'
    ensures r.Some? ==> r.value == span.offset + 1 || span.source.content[span.offset - r.value] == '\n'
  {
    if !InBounds(span) then None
    else match RFindNewline(span.source.content, span.offset)
      case None => Some(span.offset + 1)
      case Some(i) => Some(span.offset - i)
  }

  /** `Span::lexeme`: the `length` bytes from `offset`, or nothing at all
      when the span is out of bounds. */
  function Lexeme(span: Span): (r: string)
    ensures InBounds(span) ==> |r| == span.length
    ensures InBounds(span) ==> forall i :: 0 <= i < |r| ==> r[i] == span.source.content[span.offset + i]
    ensures !InBounds(span) ==> r == []
  {
    if !InBounds(span) then [] else span.source.content[span.offset..span.offset + span.length]
  }

  /** The position text of a span: `path:line:column`, with `<y?>` and
      `<x?>` for a part that does not resolve. */
  function SpanText(span: Span): (r: string)
    ensures span.source.path + ":" <= r
  {
    var y := match LineNumber(span) case Some(v) => NatToString(v) case None => "<y?>";
    var x := match ColumnNumber(span) case Some(v) => NatToString(v) case None => "<x?>";
    span.source.path + ":" + y + ":" + x
  }

  /* ------------------------------------------------------------------------ */
  /* Properties                                                               */
  /* ------------------------------------------------------------------------ */

  /** Line and column agree with the line text: the byte at the offset of an
      in-bounds span that is not itself a newline sits at position
      `column - 1` of the line `line_number` names. */
  lemma LineColumnAgree(span: Span)
    requires InBounds(span) && span.source.content[span.offset] != '\n'
    ensures LineNumber(span).Some? && ColumnNumber(span).Some?
    ensures 1 <= ColumnNumber(span).value <= |LineOf(span.source.content, LineNumber(span).value)|
    ensures LineOf(span.source.content, LineNumber(span).value)[ColumnNumber(span).value - 1] == span.source.content[span.offset]
  {
    var s, o := span.source.content, span.offset;
    var y, x := LineNumber(span).value, ColumnNumber(span).value;
    var a := ColumnStart(span);
    LineStartComplete(s, y, a);
    LineOfAgrees(s, o);
    assert LineOf(s, y) == LineAt(s, y);
    LineContains(s, y, a, o);
    assert o - a == x - 1;
  }

  /** The offset `column_number` counts from: just after the last newline
      before the span, with as many newlines before it as the span. */
  lemma ColumnStart(span: Span) returns (a: nat)
    requires InBounds(span) && span.source.content[span.offset] != '\n'
    ensures LineNumber(span).Some? && ColumnNumber(span).Some?
    ensures a + ColumnNumber(span).value == span.offset + 1
    ensures a == 0 || span.source.content[a - 1] == '\n'
    ensures forall k :: a <= k <= span.offset ==> span.source.content[k] != '\n'
    ensures LineNumber(span).value == 1 + CountNewlines(span.source.content[..span.offset])
    ensures CountNewlines(span.source.content[..a]) == LineNumber(span).value - 1
  {
    var s, o := span.source.content, span.offset;
    var y, x := LineNumber(span).value, ColumnNumber(span).value;
    a := o + 1 - x;
    assert a == 0 || s[a - 1] == '\n';
    assert forall k :: a <= k <= o ==> s[k] != '\n';
    CountFlat(s, a, o);
  }

  /** A line that starts at `a` and has no newline in `[a, o]` holds the
      byte at `o` at position `o - a`. */
  lemma LineContains(s: string, ln: nat, a: nat, o: nat)
    requires ln >= 1 && a <= o < |s| && LineStart(s, ln) == Some(a)
    requires forall k :: a <= k <= o ==> s[k] != '\n'
    ensures o - a < |LineAt(s, ln)| && LineAt(s, ln)[o - a] == s[o]
  {
    var b := LineEnd(s, a);
    var line := s[a..b];
    assert LineAt(s, ln) == line;
    assert b > o by {
      if b != |s| {
        assert b > a && s[b - 1] == '\n';
        assert !(a <= b - 1 <= o);
      }
    }
    assert line[o - a] == s[o];
  }

  /** On every line number a position can have, `Source::line` as written
      returns the intended line. */
  lemma LineOfAgrees(s: string, offset: nat)
    requires offset < |s|
    ensures LineOf(s, 1 + CountNewlines(s[..offset])) == LineAt(s, 1 + CountNewlines(s[..offset]))
  {
    if s[|s| - 1] == '\n' {
      CountGrows(s, offset, |s| - 1, |s|);
      CountWhole(s);
    }
  }

  /** The quirk is real: on `"a\n"` line 2 comes back as the first line
      where the empty second line was meant, so the lines `Source::line`
      returns no longer put the content back together. */
  lemma LineQuirkWitness()
    ensures LineOf("a\n", 2) == "a\n"
    ensures LineAt("a\n", 2) == ""
    ensures LineOf("a\n", 1) + LineOf("a\n", 2) != "a\n"
  {
    var s := "a\n";
    assert s[..0] == "" && s[..1] == "a" && s[..2] == s;
    assert CountNewlines(s) == 1;
    assert LineStart(s, 2) == Some(2);
    assert FindNewline(s, 0) == Some(1);
    assert LineOf(s, 1) == s;
  }

  /** Lines 1 to `k` one after the other. */
  function JoinLines(s: string, k: nat): string {
    if k == 0 then [] else JoinLines(s, k - 1) + LineAt(s, k)
  }

  /** Lines 1 to `k` are the content up to the end of line `k`. */
  lemma {:induction false} JoinLinesPrefix(s: string, k: nat)
    requires k >= 1 && LineStart(s, k).Some?
    ensures JoinLines(s, k) == s[..LineEnd(s, LineStart(s, k).value)]
    decreases k
  {
    if k == 1 {
      JoinFirstLine(s);
    } else {
      PrevLineStart(s, k);
      JoinLinesPrefix(s, k - 1);
      JoinNextLine(s, k);
    }
  }

  /** A line that exists follows one that exists. */
  lemma PrevLineStart(s: string, k: nat)
    requires k >= 2 && LineStart(s, k).Some?
    ensures LineStart(s, k - 1).Some?
  {
  }

  lemma JoinFirstLine(s: string)
    ensures LineStart(s, 1) == Some(0) && JoinLines(s, 1) == s[..LineEnd(s, 0)]
  {
    assert JoinLines(s, 1) == JoinLines(s, 0) + LineAt(s, 1);
  }

  /** Adding line `k` to lines 1 to `k - 1` reaches the end of line `k`. */
  lemma JoinNextLine(s: string, k: nat)
    requires k >= 2 && LineStart(s, k - 1).Some? && LineStart(s, k).Some?
    requires JoinLines(s, k - 1) == s[..LineEnd(s, LineStart(s, k - 1).value)]
    ensures JoinLines(s, k) == s[..LineEnd(s, LineStart(s, k).value)]
  {
    var a := LineStart(s, k).value;
    NextLineStart(s, k, LineStart(s, k - 1).value);
    assert LineAt(s, k) == s[a..LineEnd(s, a)];
    SliceJoin(s, a, LineEnd(s, a));
  }

  /** Line `k` starts where line `k - 1` ends. */
  lemma NextLineStart(s: string, k: nat, p: nat)
    requires k >= 2 && LineStart(s, k - 1) == Some(p) && LineStart(s, k).Some?
    ensures LineStart(s, k).value == LineEnd(s, p)
  {
  }

  lemma SliceJoin(s: string, a: nat, b: nat)
    requires a <= b <= |s|
    ensures s[..a] + s[a..b] == s[..b]
  {
  }

  /** The intended lines put the content back together: line 1, then line 2,
      up to the last line, is the whole content. */
  lemma LinesJoin(s: string)
    ensures JoinLines(s, 1 + CountNewlines(s)) == s
  {
    var n, a := LastLine(s);
    JoinLinesPrefix(s, n);
    assert s[..|s|] == s;
  }

  /** The last line starts at `a` and runs to the end of the content. */
  lemma LastLine(s: string) returns (n: nat, a: nat)
    ensures n == 1 + CountNewlines(s) && LineStart(s, n) == Some(a) && LineEnd(s, a) == |s|
  {
    n := 1 + CountNewlines(s);
    LineStartDefined(s, n);
    a := LineStart(s, n).value;
    LineStartDefined(s, n + 1);
    assert LineStart(s, n + 1).None?;
  }

  /** The position text reads back: when both parts resolve it is the path,
      the line and the column in decimal, separated by colons; a span that
      starts past the content shows `<y?>` and `<x?>`; a span that starts
      inside but runs past the end shows its line and `<x?>`. */
  lemma SpanTextCases(span: Span)
    ensures InBounds(span) ==>
      exists y: string, x: string {:trigger DigitsValue(y), DigitsValue(x)} ::
        && IsDigitString(y) && IsDigitString(x)
        && SpanText(span) == span.source.path + ":" + y + ":" + x
        && DigitsValue(y) == LineNumber(span).value && DigitsValue(x) == ColumnNumber(span).value
    ensures span.offset >= span.source.Size() ==> SpanText(span) == span.source.path + ":<y?>:<x?>"
    ensures span.offset < span.source.Size() && !InBounds(span) ==>
      SpanText(span) == span.source.path + ":" + NatToString(LineNumber(span).value) + ":<x?>"
  {
    if InBounds(span) {
      var y, x := NatToString(LineNumber(span).value), NatToString(ColumnNumber(span).value);
      NatToStringRoundTrip(LineNumber(span).value);
      NatToStringRoundTrip(ColumnNumber(span).value);
      assert SpanText(span) == span.source.path + ":" + y + ":" + x;
    }
  }

  /** The text `Line 1\nLine 2\nLine 3`, one line at a time. */
  const ThreeLines := "Line 1\n" + "Line 2\n" + "Line 3"

  /** Newlines before each offset of the three-line text that matters. */
  lemma ThreeLineCounts(s: string)
    requires s == ThreeLines
    ensures CountNewlines(s[..6]) == 0 && CountNewlines(s[..7]) == 1
    ensures CountNewlines(s[..13]) == 1 && CountNewlines(s[..14]) == 2
    ensures CountNewlines(s[..19]) == 2
  {
    assert s[..0] == [];
    CountFlat(s, 0, 6);
    CountStep(s, 6);
    CountFlat(s, 7, 13);
    CountStep(s, 13);
    CountFlat(s, 14, 19);
  }

  /** The newline counts and newline-free runs the line scan meets. */
  lemma ThreeLineBreaks(s: string)
    requires s == ThreeLines
    ensures |s| == 20 && s[13] == '\n'
    ensures CountNewlines(s[..6]) == 0 && CountNewlines(s[..7]) == 1
    ensures CountNewlines(s[..13]) == 1 && CountNewlines(s[..14]) == 2
    ensures forall k :: 7 <= k < 13 ==> s[k] != '\n'
    ensures forall k :: 14 <= k < 20 ==> s[k] != '\n'
  {
    ThreeLineCounts(s);
  }

  /** The last newline at or before `i` is the one at `q`. */
  lemma RFindNewlineAt(s: string, i: nat, q: nat)
    requires q <= i < |s| && s[q] == '\n'
    requires forall k :: q < k <= i ==> s[k] != '\n'
    ensures RFindNewline(s, i) == Some(q)
  {
  }

  /** Span `(0, 4)` of the three-line text: line 1, column 1, `Line`. */
  lemma ThreeLineFirstSpan(src: Source)
    requires src.content == ThreeLines
    ensures LineNumber(Span(src, 0, 4)) == Some(1) && ColumnNumber(Span(src, 0, 4)) == Some(1)
    ensures Lexeme(Span(src, 0, 4)) == "Line"
  {
    assert src.content[..0] == [];
    assert RFindNewline(src.content, 0) == None;
  }

  /** Span `(7, 4)` of the three-line text: line 2, column 1, `Line`. */
  lemma ThreeLineSecondSpan(src: Source)
    requires src.content == ThreeLines
    ensures LineNumber(Span(src, 7, 4)) == Some(2) && ColumnNumber(Span(src, 7, 4)) == Some(1)
    ensures Lexeme(Span(src, 7, 4)) == "Line"
  {
    ThreeLineCounts(src.content);
    RFindNewlineAt(src.content, 7, 6);
  }

  /** Span `(19, 1)` of the three-line text: line 3, column 6, `3`. */
  lemma ThreeLineThirdSpan(src: Source)
    requires src.content == ThreeLines
    ensures LineNumber(Span(src, 19, 1)) == Some(3) && ColumnNumber(Span(src, 19, 1)) == Some(6)
    ensures Lexeme(Span(src, 19, 1)) == "3"
  {
    ThreeLineCounts(src.content);
    RFindNewlineAt(src.content, 19, 13);
  }

  /** `line(1)` of the three-line text keeps its newline. */
  lemma ThreeLineFirstLine(s: string)
    requires s == ThreeLines
    ensures LineOf(s, 1) == "Line 1\n"
  {
    assert s[..0] == [];
    LineOfBetween(s, 1, 0, 6);
    assert s[0..7] == "Line 1\n";
  }

  /** `line(2)` of the three-line text keeps its newline. */
  lemma ThreeLineSecondLine(s: string)
    requires s == ThreeLines
    ensures LineOf(s, 2) == "Line 2\n"
  {
    ThreeLineBreaks(s);
    LineOfBetween(s, 2, 7, 13);
    assert s[..14] == "Line 1\n" + "Line 2\n";
    assert s[7..14] == s[..14][7..];
  }

  /** `line(3)` of the three-line text runs to the end. */
  lemma ThreeLineThirdLine(s: string)
    requires s == ThreeLines
    ensures LineOf(s, 3) == "Line 3"
  {
    ThreeLineBreaks(s);
    LineOfToEnd(s, 3, 14);
    assert s[14..] == "Line 3";
  }

  /** A line the scan of `Source::line` meets at `a`, ending with the
      newline at `e`. */
  lemma LineOfBetween(s: string, ln: nat, a: nat, e: nat)
    requires ln >= 1 && a <= e < |s| && s[e] == '\n'
    requires 1 + CountNewlines(s[..a]) == ln && (a > 0 ==> 1 + CountNewlines(s[..a - 1]) < ln)
    requires forall k :: a <= k < e ==> s[k] != '\n'
    ensures LineOf(s, ln) == s[a..e + 1]
  {
    ScanFound(s, ln, a);
    FindNewlineAt(s, a, e);
  }

  /** A line the scan of `Source::line` meets at `a`, with no newline
      after it. */
  lemma LineOfToEnd(s: string, ln: nat, a: nat)
    requires ln >= 1 && a < |s|
    requires 1 + CountNewlines(s[..a]) == ln && (a > 0 ==> 1 + CountNewlines(s[..a - 1]) < ln)
    requires forall k :: a <= k < |s| ==> s[k] != '\n'
    ensures LineOf(s, ln) == s[a..]
  {
    ScanFound(s, ln, a);
    FindNewlineNone(s, a);
  }

  /** The rendering of span `(0, 4)` of a static source. */
  lemma ThreeLineSpanText()
    ensures SpanText(Span(StaticSource(ThreeLines), 0, 4)) == "<static>:1:1"
  {
    var s := ThreeLines;
    assert s[..0] == "";
    assert RFindNewline(s, 0) == None;
  }
}
