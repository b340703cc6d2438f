/**
 * The diagnostic taxonomy (issues, each with its display string and the
 * level it is reported at), the immutable diagnostic record, the
 * append-only diagnostic collection and the texts they are rendered as.
 */
module Diagnostics {
  import opened Wrappers
  import opened Numerals
  import opened Spans

  /** The three levels a diagnostic can have. */
  datatype Level = Error | Warning | Info

  /** The closed set of issues, in the order the issue list declares them. */
  datatype Issue = InvalidCharacter | InvalidString | UnterminatedString | InternalError

  /** The issue list: each issue with its display string and its level. */
  const IssueTable: seq<(Issue, string, Level)> := [
    (InvalidCharacter, "invalid character", Error),
    (InvalidString, "invalid string", Error),
    (UnterminatedString, "unterminated string", Error),
    (InternalError, "internal error", Error)
  ]

  /** The row of the issue list that declares `issue`. */
  function IssueIndex(issue: Issue): (i: nat)
    ensures i < |IssueTable| && IssueTable[i].0 == issue
  {
    match issue
    case InvalidCharacter => 0
    case InvalidString => 1
    case UnterminatedString => 2
    case InternalError => 3
  }

  /** `level_from_issue`: the level the issue list gives the issue. */
  function LevelFromIssue(issue: Issue): (l: Level)
    ensures l == IssueTable[IssueIndex(issue)].2
  {
    match issue
    case InvalidCharacter => Error
    case InvalidString => Error
    case UnterminatedString => Error
    case InternalError => Error
  }

  /** The display string of an issue, e.g. `invalid character`. */
  function IssueText(issue: Issue): (r: string)
    ensures r == IssueTable[IssueIndex(issue)].1
  {
    match issue
    case InvalidCharacter => "invalid character"
    case InvalidString => "invalid string"
    case UnterminatedString => "unterminated string"
    case InternalError => "internal error"
  }

  /** Every issue declared today is an error. */
  lemma EveryIssueIsError(issue: Issue)
    ensures LevelFromIssue(issue) == Error
  {
  }

  /** The issue list names each issue once and nothing else. */
  lemma IssuesClosed()
    ensures |IssueTable| == 4
    ensures forall issue: Issue :: (issue, IssueText(issue), LevelFromIssue(issue)) in IssueTable
    ensures forall i, j :: 0 <= i < j < |IssueTable| ==> IssueTable[i].0 != IssueTable[j].0
  {
    forall issue: Issue ensures (issue, IssueText(issue), LevelFromIssue(issue)) in IssueTable {
      assert IssueTable[IssueIndex(issue)] == (issue, IssueText(issue), LevelFromIssue(issue));
    }
  }

  /** The text a level is shown with. */
  function LevelText(level: Level): (r: string)
    ensures |r| >= 2 && r[|r| - 1] == ':'
  {
    match level
    case Error => "Error:"
    case Warning => "Warning:"
    case Info => "Info:"
  }

  /** Levels are told apart by their text. */
  lemma LevelTextDistinct(l1: Level, l2: Level)
    requires LevelText(l1) == LevelText(l2)
    ensures l1 == l2
  {
  }

  /** An immutable diagnostic: level, issue, span and message. */
  datatype Diagnostic = Diagnostic(level: Level, issue: Issue, span: Span, message: string)

  /** `Diagnostic(issue, span, message)`: the level is derived from the
      issue; span and message are kept as given. */
  function NewDiagnostic(issue: Issue, span: Span, message: string): (d: Diagnostic)
    ensures d.level == LevelFromIssue(issue) && d.issue == issue
    ensures d.span == span && d.message == message
  {
    Diagnostic(LevelFromIssue(issue), issue, span, message)
  }

  /** Two diagnostics of the same issue always have the same level. */
  lemma SameIssueSameLevel(i: Issue, s1: Span, m1: string, s2: Span, m2: string)
    ensures NewDiagnostic(i, s1, m1).level == NewDiagnostic(i, s2, m2).level
  {
  }

  /** The text of a diagnostic: level, issue, position, the source line and
      the help message. The C++ takes the line number's value without a
      check, which throws when the span starts past the content: None.
      The line is fetched with `Source::line` as written (`LineOf`); the
      contract shows it is always the intended line of the span. */
  function DiagnosticText(d: Diagnostic): (r: Option<string>)
    ensures r.Some? <==> LineNumber(d.span).Some?
    ensures r.Some? ==>
              r.value == LevelText(d.level) + " " + IssueText(d.issue) + "  -> " + SpanText(d.span) + "\n"
                         + "  " + LineAt(d.span.source.content, LineNumber(d.span).value) + "\n"
                         + "Help: " + d.message
  {
    match LineNumber(d.span)
    case None => None
    case Some(y) =>
      LineOfAgrees(d.span.source.content, d.span.offset);
      Some(LevelText(d.level) + " " + IssueText(d.issue) + "  -> " + SpanText(d.span) + "\n"
           + "  " + LineOf(d.span.source.content, y) + "\n"
           + "Help: " + d.message)
  }

  /** What the loop of `print_all` has written: the text so far, and whether
      it ran to the end. Writing a diagnostic whose line number is missing
      throws before any of its text is written, so the output stops with
      the entries of the diagnostics before it. */
  datatype Written = Written(text: string, finished: bool)

  /** The entries `print_all` writes for `ds`, one line per diagnostic in
      order, up to the first one that cannot be rendered. */
  function DiagEntries(ds: seq<Diagnostic>): Written {
    if ds == [] then Written("", true)
    else
      var w := DiagEntries(ds[..|ds| - 1]);
      if !w.finished then w
      else match DiagnosticText(ds[|ds| - 1])
        case None => Written(w.text, false)
        case Some(t) => Written(w.text + t + "\n", true)
  }

  /** The loop runs to the end exactly when every diagnostic starts inside
      its source. */
  lemma {:induction false} DiagEntriesDefined(ds: seq<Diagnostic>)
    ensures DiagEntries(ds).finished <==> forall i :: 0 <= i < |ds| ==> ds[i].span.offset < ds[i].span.source.Size()
    decreases |ds|
  {
    if ds != [] {
      DiagEntriesDefined(ds[..|ds| - 1]);
      DiagEntriesLast(ds);
      AllInsideSnoc(ds);
    }
  }

  /** Every diagnostic of `ds` starts inside its source exactly when every
      one before the last does and the last does too. */
  lemma AllInsideSnoc(ds: seq<Diagnostic>)
    requires ds != []
    ensures var init := ds[..|ds| - 1];
      (forall i :: 0 <= i < |ds| ==> ds[i].span.offset < ds[i].span.source.Size()) <==>
      (forall i :: 0 <= i < |init| ==> init[i].span.offset < init[i].span.source.Size())
        && ds[|ds| - 1].span.offset < ds[|ds| - 1].span.source.Size()
  {
    var init := ds[..|ds| - 1];
    assert forall i :: 0 <= i < |init| ==> init[i] == ds[i];
  }

  lemma DiagEntriesLast(ds: seq<Diagnostic>)
    requires ds != []
    ensures DiagEntries(ds).finished <==>
      DiagEntries(ds[..|ds| - 1]).finished && ds[|ds| - 1].span.offset < ds[|ds| - 1].span.source.Size()
  {
    var d := ds[|ds| - 1];
    assert DiagnosticText(d).Some? <==> d.span.offset < d.span.source.Size();
  }

  /** One more diagnostic after a finished prefix: its text and a newline
      are added, or the loop stops with the text it had. */
  lemma DiagEntriesStep(ds: seq<Diagnostic>, i: nat)
    requires i < |ds| && DiagEntries(ds[..i]).finished
    ensures DiagEntries(ds[..i + 1]) == match DiagnosticText(ds[i])
      case None => Written(DiagEntries(ds[..i]).text, false)
      case Some(t) => Written(DiagEntries(ds[..i]).text + t + "\n", true)
  {
    assert ds[..i + 1][..i] == ds[..i];
  }

  /** Once the loop has stopped, nothing more is written. */
  lemma {:induction false} DiagEntriesFailed(ds: seq<Diagnostic>, i: nat)
    requires i <= |ds| && !DiagEntries(ds[..i]).finished
    ensures DiagEntries(ds) == DiagEntries(ds[..i])
    decreases |ds| - i
  {
    if i < |ds| {
      var next := ds[..i + 1];
      assert next[..|next| - 1] == ds[..i];
      assert DiagEntries(next) == DiagEntries(ds[..i]);
      DiagEntriesFailed(ds, i + 1);
    } else {
      assert ds[..i] == ds;
    }
  }

  /** The output when diagnostic `i` is the first whose line number is
      missing: the entries of the ones before it, and no more. */
  lemma {:induction false} DiagEntriesStopAt(ds: seq<Diagnostic>, i: nat)
    requires i < |ds| && ds[i].span.offset >= ds[i].span.source.Size()
    requires forall j :: 0 <= j < i ==> ds[j].span.offset < ds[j].span.source.Size()
    ensures DiagEntries(ds[..i]).finished
    ensures DiagEntries(ds) == Written(DiagEntries(ds[..i]).text, false)
  {
    PrefixFinished(ds, i);
    DiagEntriesHalt(ds, i);
    DiagEntriesFailed(ds, i + 1);
  }

  /** A diagnostic that starts past its source stops a loop that had
      finished the ones before it, with their text. */
  lemma DiagEntriesHalt(ds: seq<Diagnostic>, i: nat)
    requires i < |ds| && DiagEntries(ds[..i]).finished
    requires ds[i].span.offset >= ds[i].span.source.Size()
    ensures DiagEntries(ds[..i + 1]) == Written(DiagEntries(ds[..i]).text, false)
  {
    assert ds[..i + 1][..i] == ds[..i];
  }

  /** The loop gets past every diagnostic before `i` when each of them
      starts inside its source. */
  lemma PrefixFinished(ds: seq<Diagnostic>, i: nat)
    requires i <= |ds|
    requires forall j :: 0 <= j < i ==> ds[j].span.offset < ds[j].span.source.Size()
    ensures DiagEntries(ds[..i]).finished
  {
    var pre := ds[..i];
    assert forall j :: 0 <= j < |pre| ==> pre[j] == ds[j];
    DiagEntriesDefined(pre);
  }

  /** What `DiagCollect::print_all` writes: the entries, then the final
      newline only when the loop ran to the end. */
  function DiagListing(ds: seq<Diagnostic>): (r: Written)
    ensures r.finished == DiagEntries(ds).finished
    ensures DiagEntries(ds).text <= r.text
    ensures r.finished ==> |r.text| == |DiagEntries(ds).text| + 1 && r.text[|r.text| - 1] == '\n'
    ensures !r.finished ==> r.text == DiagEntries(ds).text
  {
    var w := DiagEntries(ds);
    if w.finished then Written(w.text + "\n", true) else w
  }

  /** The diagnostic vector: append-only, in detection order. */
  class DiagCollect {
    var items: seq<Diagnostic>

    /** `DiagCollect()`: empty. */
    constructor ()
      ensures items == []
    {
      items := [];
    }

    /** `push`: appends at the end; nothing is dropped or reordered. */
    method Push(d: Diagnostic)
      modifies this
      ensures items == old(items) + [d]
      ensures |items| == |old(items)| + 1 && items[..|old(items)|] == old(items)
    {
      items := items + [d];
    }

    /** `print_all`, with the text it writes returned instead, and whether
        it returned normally or stopped at a diagnostic it could not render. */
    method PrintAll() returns (out: Written)
      ensures out == DiagListing(items)
    {
      var ds := items;
      var body := "";
      var i := 0;
      while i < |ds|
        invariant 0 <= i <= |ds|
        invariant DiagEntries(ds[..i]) == Written(body, true)
      {
        DiagEntriesStep(ds, i);
        var t := DiagnosticText(ds[i]);
        if t.None? {
          DiagEntriesFailed(ds, i + 1);
          return Written(body, false);
        }
        body := body + t.value + "\n";
        i := i + 1;
      }
      assert ds[..i] == ds;
      out := Written(body + "\n", true);
    }
  }
}
