/**
 * The scanning engine. A lexer holds a byte cursor into one source and
 * pushes into a token collection and a diagnostic collection; `Lex` loops
 * over `LexOnce` until the end-of-input token has been pushed.
 *
 * The value-level functions below (SkipWs, IdentLast, NumberScan,
 * LexOnceSpec, Scan) say, cursor value by cursor value, what the methods of
 * the Lexer class compute; the lemmas after them state what that means for
 * the token stream: one Eof at the end with a fixed span, in-bounds spans
 * in ascending order, and every uncovered byte whitespace.
 *
 * Cursor convention of the C++: the helpers leave the cursor on the LAST
 * byte of the token they read and `lex()` takes the final step; a step
 * that reaches the end puts the cursor at `size + k`.
 */
module Lexing {
  import opened Wrappers
  import opened Numerals
  import opened Spans
  import opened Tokens
  import opened Diagnostics

  /* ------------------------------------------------------------------------ */
  /* Byte classes (ASCII)                                                     */
  /* ------------------------------------------------------------------------ */

  predicate IsAlpha(c: char) {
    'A' <= c <= 'Z' || 'a' <= c <= 'z'
  }

  /** A byte that starts an identifier also continues one, and is never a
      digit, so `lex_once` cannot confuse it with the start of a number. */
  predicate IsIdentStart(c: char)
    ensures IsIdentStart(c) ==> IsIdentCont(c) && !IsNumberStart(c)
  {
    IsAlpha(c) || c == '_'
  }

  /** No identifier byte is whitespace. */
  predicate IsIdentCont(c: char)
    ensures IsIdentCont(c) ==> !IsWhitespace(c)
  {
    IsAlpha(c) || IsDigit(c) || c == '_'
  }

  /** A byte that starts a number also continues one; it would continue an
      identifier too, but never starts one. */
  predicate IsNumberStart(c: char)
    ensures IsNumberStart(c) ==> IsNumberCont(c) && IsIdentCont(c)
  {
    IsDigit(c)
  }

  /** The bytes a number continues with: digits and the dot; none of them
      is whitespace. */
  predicate IsNumberCont(c: char)
    ensures IsNumberCont(c) ==> !IsWhitespace(c)
  {
    IsDigit(c) || c == '.'
  }

  /** Space, tab, carriage return, vertical tab and backspace. Newline is
      not whitespace: it is a token. */
  predicate IsWhitespace(c: char)
    ensures IsWhitespace(c) ==> c != '\n'
  {
    c == ' ' || c == '\t' || c == '\r' || c == '\U{B}' || c == '\U{8}'
  }

  /* ------------------------------------------------------------------------ */
  /* Keywords                                                                 */
  /* ------------------------------------------------------------------------ */

  predicate IsKeyword(k: Kind) {
    k == Function || k == If || k == Else || k == For || k == Break || k == Continue
  }

  /** The six keywords and the text each is displayed as. */
  lemma KeywordSpellings()
    ensures forall kw :: IsKeyword(kw) ==>
      || (kw == If && Repr(kw) == "if") || (kw == Else && Repr(kw) == "else")
      || (kw == Function && Repr(kw) == "function") || (kw == For && Repr(kw) == "for")
      || (kw == Break && Repr(kw) == "break") || (kw == Continue && Repr(kw) == "continue")
  {
  }

  /** `keyword_or_identifier`: a keyword exactly when the text is that
      keyword's display string (case-sensitive), otherwise Identifier. */
  function KeywordOrIdentifier(sv: string): (k: Kind)
    ensures k == Identifier || IsKeyword(k)
    ensures IsKeyword(k) ==> Repr(k) == sv
  {
    KeywordSpellings();
    if sv == "if" then If
    else if sv == "else" then Else
    else if sv == "function" then Function
    else if sv == "for" then For
    else if sv == "break" then Break
    else if sv == "continue" then Continue
    else Identifier
  }

  /** A word is an Identifier exactly when no keyword is spelled that way. */
  lemma IdentifierUnlessKeyword(sv: string)
    ensures KeywordOrIdentifier(sv) == Identifier <==> forall kw :: IsKeyword(kw) ==> Repr(kw) != sv
  {
    KeywordSpellings();
  }

  /* ------------------------------------------------------------------------ */
  /* The cursor                                                               */
  /* ------------------------------------------------------------------------ */

  /** `peek(k)`: the byte `k` past the cursor, `'\0'` past the end. */
  function PeekAt(s: string, c: nat, k: nat): (ch: char)
    ensures c + k >= |s| ==> ch == '\0'
    ensures c + k < |s| ==> ch == s[c + k]
  {
    if c + k >= |s| then '\0' else s[c + k]
  }

  /** `eat(k)`: `k` bytes on, except that a step reaching the end first
      moves the cursor to the end, so it lands on `size + k`. */
  function Advance(n: nat, c: nat, k: nat): (c': nat)
    ensures c <= n ==> c' >= c + k
    ensures c + k < n ==> c' == c + k
    ensures c + k >= n ==> c' == n + k
  {
    var c1 := if c + k >= n then n else c;
    c1 + k
  }

  /** Where end of input is reported: 0 for empty content, one past the
      end otherwise (the last step overshoots). */
  function EofOffset(n: nat): nat {
    if n == 0 then 0 else n + 1
  }

  /** The cursor values `lex()` can meet: inside the content, or the one
      value end of input is reported at. */
  predicate Reachable(n: nat, c: nat) {
    c < n || c == EofOffset(n)
  }

  /** The position in `[0, n]` a cursor value stands for. */
  function Pos(n: nat, c: nat): nat {
    if c < n then c else n
  }

  lemma AdvanceReachable(n: nat, c: nat)
    requires c < n
    ensures Reachable(n, Advance(n, c, 1)) && Pos(n, Advance(n, c, 1)) == c + 1
  {
  }

  /** From any cursor `lex()` can meet, a step of one byte or more never
      moves the cursor back, and moves it forward while it is inside the
      content; past the end it stays put only on the Eof cursor. */
  lemma AdvanceNeverBack(n: nat, c: nat, k: nat)
    requires Reachable(n, c) && k >= 1
    ensures Advance(n, c, k) >= c
    ensures c < n ==> Advance(n, c, k) > c
    ensures Advance(n, c, k) == c <==> c == EofOffset(n) && n > 0 && k == 1
  {
  }

  /* ------------------------------------------------------------------------ */
  /* What the scanning helpers compute                                        */
  /* ------------------------------------------------------------------------ */

  /** `skip_whitespace` from cursor `c`. */
  function SkipWs(s: string, c: nat): (r: nat)
    ensures r >= c
    ensures r < |s| ==> !IsWhitespace(s[r])
    ensures forall i :: c <= i < r && i < |s| ==> IsWhitespace(s[i])
    ensures Reachable(|s|, c) ==> Reachable(|s|, r)
    ensures c >= |s| ==> r == c
    decreases |s| - c
  {
    if IsWhitespace(PeekAt(s, c, 0)) then SkipWs(s, Advance(|s|, c, 1)) else c
  }

  /** `lex_identifier` from cursor `c`: the index of the last byte of the
      maximal run of identifier bytes after `c`. */
  function IdentLast(s: string, c: nat): (r: nat)
    requires c < |s|
    ensures c <= r < |s|
    ensures forall i :: c < i <= r ==> IsIdentCont(s[i])
    ensures r + 1 < |s| ==> !IsIdentCont(s[r + 1])
    decreases |s| - c
  {
    if IsIdentCont(PeekAt(s, c, 1)) then IdentLast(s, Advance(|s|, c, 1)) else c
  }

  /** The run `IdentLast` finds is the only one with its contract: any
      index ending a maximal run of identifier bytes after `c` is it. */
  lemma {:induction false} IdentLastUnique(s: string, c: nat, e: nat)
    requires c <= e < |s|
    requires forall i :: c < i <= e ==> IsIdentCont(s[i])
    requires e + 1 < |s| ==> !IsIdentCont(s[e + 1])
    ensures IdentLast(s, c) == e
    decreases e - c
  {
    if c < e {
      assert PeekAt(s, c, 1) == s[c + 1];
      IdentLastUnique(s, c + 1, e);
    }
  }

  /** `lex_number` from cursor `c` with the kind found so far: the index of
      the last byte of the number and its kind. A dot is taken only while
      the kind is still Integer and a digit follows the dot. */
  function NumberScan(s: string, c: nat, kind: Kind): (r: (nat, Kind))
    requires c < |s| && (kind == Integer || kind == Decimal)
    ensures c <= r.0 < |s|
    ensures r.1 == Integer || r.1 == Decimal
    ensures kind == Decimal ==> r.1 == Decimal
    decreases |s| - c
  {
    var p1 := PeekAt(s, c, 1);
    if !IsNumberCont(p1) then (c, kind)
    else if p1 == '.' && !(kind == Integer && IsNumberStart(PeekAt(s, c, 2))) then (c, kind)
    else NumberScan(s, Advance(|s|, c, 1), if p1 == '.' then Decimal else kind)
  }

  /** What `lex_number` reads: number bytes only, each dot followed by a
      digit and taken only while the kind is still Integer, and as far as
      possible: the next byte is no digit, and no dot a digit follows unless
      a dot was already taken. */
  lemma NumberScanShape(s: string, c: nat, kind: Kind)
    requires c < |s| && (kind == Integer || kind == Decimal)
    ensures var r := NumberScan(s, c, kind);
      && (c + 1 < |s| && IsDigit(s[c + 1]) ==> r.0 > c)
      && (forall i :: c < i <= r.0 ==> IsNumberCont(s[i]))
      && (forall i :: c < i <= r.0 && s[i] == '.' ==> kind == Integer && i < r.0 && IsDigit(s[i + 1]))
      && (r.0 + 1 < |s| ==> !IsDigit(s[r.0 + 1]))
      && (r.0 + 1 < |s| && s[r.0 + 1] == '.' ==> r.1 == Decimal || r.0 + 2 >= |s| || !IsDigit(s[r.0 + 2]))
  {
    NumberScanRun(s, c, kind);
    NumberScanMaximal(s, c, kind);
  }

  /** The bytes `lex_number` takes: number bytes, each dot taken only while
      the kind is Integer and followed by a digit. */
  lemma {:induction false} NumberScanRun(s: string, c: nat, kind: Kind)
    requires c < |s| && (kind == Integer || kind == Decimal)
    ensures var r := NumberScan(s, c, kind);
      && (c + 1 < |s| && IsDigit(s[c + 1]) ==> r.0 > c)
      && (forall i :: c < i <= r.0 ==> IsNumberCont(s[i]))
      && (forall i :: c < i <= r.0 && s[i] == '.' ==> kind == Integer && i < r.0 && IsDigit(s[i + 1]))
    decreases |s| - c
  {
    var p1 := PeekAt(s, c, 1);
    var r := NumberScan(s, c, kind);
    if IsNumberCont(p1) && !(p1 == '.' && !(kind == Integer && IsNumberStart(PeekAt(s, c, 2)))) {
      assert Advance(|s|, c, 1) == c + 1;
      var kind' := if p1 == '.' then Decimal else kind;
      assert r == NumberScan(s, c + 1, kind');
      NumberScanRun(s, c + 1, kind');
      assert p1 == s[c + 1];
    } else {
      assert r == (c, kind);
    }
  }

  /** `lex_number` stops only where the number cannot go on. */
  lemma {:induction false} NumberScanMaximal(s: string, c: nat, kind: Kind)
    requires c < |s| && (kind == Integer || kind == Decimal)
    ensures var r := NumberScan(s, c, kind);
      && (r.0 + 1 < |s| ==> !IsDigit(s[r.0 + 1]))
      && (r.0 + 1 < |s| && s[r.0 + 1] == '.' ==> r.1 == Decimal || r.0 + 2 >= |s| || !IsDigit(s[r.0 + 2]))
    decreases |s| - c
  {
    var p1 := PeekAt(s, c, 1);
    var r := NumberScan(s, c, kind);
    if IsNumberCont(p1) && !(p1 == '.' && !(kind == Integer && IsNumberStart(PeekAt(s, c, 2)))) {
      assert Advance(|s|, c, 1) == c + 1;
      var kind' := if p1 == '.' then Decimal else kind;
      assert r == NumberScan(s, c + 1, kind');
      NumberScanMaximal(s, c + 1, kind');
    } else {
      assert r == (c, kind);
      assert c + 1 < |s| ==> p1 == s[c + 1];
      assert c + 2 < |s| ==> PeekAt(s, c, 2) == s[c + 2];
    }
  }

  /** The kind `lex_number` settles on: Decimal exactly when a dot was
      taken (or the kind already was), and at most one dot is taken. */
  lemma NumberScanKind(s: string, c: nat, kind: Kind)
    requires c < |s| && (kind == Integer || kind == Decimal)
    ensures var r := NumberScan(s, c, kind);
      && (r.1 == Decimal <==> (kind == Decimal || exists i :: c < i <= r.0 && s[i] == '.'))
      && (forall i, j :: c < i < j <= r.0 && s[i] == '.' ==> s[j] != '.')
  {
    NumberScanDecimal(s, c, kind);
    NumberScanOneDot(s, c, kind);
  }

  lemma {:induction false} NumberScanDecimal(s: string, c: nat, kind: Kind)
    requires c < |s| && (kind == Integer || kind == Decimal)
    ensures var r := NumberScan(s, c, kind);
      r.1 == Decimal <==> (kind == Decimal || exists i :: c < i <= r.0 && s[i] == '.')
    decreases |s| - c
  {
    var p1 := PeekAt(s, c, 1);
    if IsNumberCont(p1) && !(p1 == '.' && !(kind == Integer && IsNumberStart(PeekAt(s, c, 2)))) {
      assert Advance(|s|, c, 1) == c + 1;
      var kind' := if p1 == '.' then Decimal else kind;
      NumberScanDecimal(s, c + 1, kind');
      var r := NumberScan(s, c, kind);
      assert r == NumberScan(s, c + 1, kind');
      if p1 == '.' {
        assert s[c + 1] == '.';
      } else {
        assert forall i :: c < i <= r.0 && s[i] == '.' ==> c + 1 < i;
      }
    }
  }

  lemma {:induction false} NumberScanOneDot(s: string, c: nat, kind: Kind)
    requires c < |s| && (kind == Integer || kind == Decimal)
    ensures var r := NumberScan(s, c, kind);
      forall i, j :: c < i < j <= r.0 && s[i] == '.' ==> s[j] != '.'
    decreases |s| - c
  {
    var p1 := PeekAt(s, c, 1);
    if IsNumberCont(p1) && !(p1 == '.' && !(kind == Integer && IsNumberStart(PeekAt(s, c, 2)))) {
      assert Advance(|s|, c, 1) == c + 1;
      var kind' := if p1 == '.' then Decimal else kind;
      NumberScanOneDot(s, c + 1, kind');
      NumberScanShape(s, c + 1, kind');
      var r := NumberScan(s, c, kind);
      assert r == NumberScan(s, c + 1, kind');
    }
  }

  /** The bytes a fixed token starts with. */
  predicate IsFixedStart(c: char) {
    c == '\n' || c == '(' || c == ')' || c == '[' || c == ']' || c == '{' || c == '}'
    || c == '.' || c == ',' || c == ':' || c == ';' || c == '?' || c == '%'
    || c == '+' || c == '-' || c == '*' || c == '/' || c == '<' || c == '>'
    || c == '!' || c == '=' || c == '&' || c == '|'
  }

  /** The fixed tokens of the `switch` in `lex_once`, by longest match on the
      current byte and the two after it: the kind and the length. */
  function Punctuation(ch: char, p1: char, p2: char): (r: Option<(Kind, nat)>)
    ensures r.Some? <==> IsFixedStart(ch)
    ensures r.Some? ==> 1 <= r.value.1 <= 3
    ensures r.Some? && r.value.1 >= 2 ==> IsFixedStart(p1)
    ensures r.Some? && r.value.1 == 3 ==> p2 == '='
    ensures r.Some? ==> (r.value.0 == Newline <==> ch == '\n')
    ensures r.Some? ==> Spelling(r.value.0).Some?
  {
    match ch
    case '\n' => Some((Newline, 1))
    case '(' => Some((LParen, 1))
    case ')' => Some((RParen, 1))
    case '[' => Some((LBrac, 1))
    case ']' => Some((RBrac, 1))
    case '{' => Some((LCurl, 1))
    case '}' => Some((RCurl, 1))
    case '.' => Some((Dot, 1))
    case ',' => Some((Comma, 1))
    case ':' => Some((Colon, 1))
    case ';' => Some((Semicolon, 1))
    case '?' => Some((Question, 1))
    case '%' => Some((Percent, 1))
    case '+' =>
      if p1 == '+' then Some((PlusPlus, 2))
      else if p1 == '=' then Some((PlusEqual, 2))
      else Some((Plus, 1))
    case '-' =>
      if p1 == '-' then Some((MinusMinus, 2))
      else if p1 == '=' then Some((MinusEqual, 2))
      else Some((Minus, 1))
    case '*' =>
      if p1 == '*' && p2 == '=' then Some((StarStarEqual, 3))
      else if p1 == '*' then Some((StarStar, 2))
      else if p1 == '=' then Some((StarEqual, 2))
      else Some((Star, 1))
    case '/' =>
      if p1 == '/' && p2 == '=' then Some((SlashSlashEqual, 3))
      else if p1 == '/' then Some((SlashSlash, 2))
      else if p1 == '=' then Some((SlashEqual, 2))
      else Some((Slash, 1))
    case '<' => if p1 == '=' then Some((LessEqual, 2)) else Some((Less, 1))
    case '>' => if p1 == '=' then Some((MoreEqual, 2)) else Some((More, 1))
    case '!' => if p1 == '=' then Some((BangEqual, 2)) else Some((Bang, 1))
    case '=' => if p1 == '=' then Some((EqualEqual, 2)) else Some((Equal, 1))
    case '&' => if p1 == '&' then Some((AndAnd, 2)) else Some((And, 1))
    case '|' => if p1 == '|' then Some((BarBar, 2)) else Some((Bar, 1))
    case _ => None
  }

  /** The source text each fixed token is read from: an independent table
      of the operator and punctuation spellings. */
  function Spelling(k: Kind): (r: Option<string>)
    ensures r.Some? ==> !IsKeyword(k) && k != Identifier && k != Integer && k != Decimal
    ensures r.Some? ==> k != String && k != Boolean && k != Eof
  {
    match k
    case LParen => Some("(")
    case RParen => Some(")")
    case LCurl => Some("{")
    case RCurl => Some("}")
    case LBrac => Some("[")
    case RBrac => Some("]")
    case Plus => Some("+")
    case PlusPlus => Some("++")
    case PlusEqual => Some("+=")
    case Minus => Some("-")
    case MinusMinus => Some("--")
    case MinusEqual => Some("-=")
    case Star => Some("*")
    case StarStar => Some("**")
    case StarEqual => Some("*=")
    case StarStarEqual => Some("**=")
    case Slash => Some("/")
    case SlashSlash => Some("//")
    case SlashEqual => Some("/=")
    case SlashSlashEqual => Some("//=")
    case And => Some("&")
    case AndAnd => Some("&&")
    case Bar => Some("|")
    case BarBar => Some("||")
    case Less => Some("<")
    case LessEqual => Some("<=")
    case More => Some(">")
    case MoreEqual => Some(">=")
    case Bang => Some("!")
    case BangEqual => Some("!=")
    case Equal => Some("=")
    case EqualEqual => Some("==")
    case Dot => Some(".")
    case Comma => Some(",")
    case Colon => Some(":")
    case Semicolon => Some(";")
    case Question => Some("?")
    case Percent => Some("%")
    case Newline => Some("\n")
    case _ => None
  }

  const InvalidCharMessage := "This character is not allowed."

  /** What one call of `lex_once` yields from cursor `c`: a token or a
      diagnostic, and the cursor it leaves (on the last byte it read). */
  datatype Step = Emit(token: Token, last: nat) | Report(diag: Diagnostic, last: nat)

  predicate IsEofStep(st: Step) {
    st.Emit? && st.token.kind == Eof
  }

  function StepSpan(st: Step): Span {
    if st.Emit? then st.token.span else st.diag.span
  }

  /** A byte that is not whitespace and starts no token. */
  predicate IsInvalidByte(c: char) {
    !IsWhitespace(c) && !IsIdentStart(c) && !IsNumberStart(c) && !IsFixedStart(c)
  }

  /** The token or diagnostic `lex_once` reads at `start`, the first byte
      after the whitespace: it covers non-whitespace bytes from `start` to
      where it leaves the cursor. The only diagnostic is a one-byte
      InvalidCharacter error on an invalid byte, and the String, Boolean
      and Eof kinds are never read here. */
  function ReadAt(src: Source, start: nat): (st: Step)
    requires start < src.Size() && !IsWhitespace(src.content[start])
    ensures start <= st.last < src.Size()
    ensures StepSpan(st) == Span(src, start, st.last - start + 1)
    ensures forall i :: start <= i <= st.last ==> !IsWhitespace(src.content[i])
    ensures st.Emit? ==> st.token.kind != String && st.token.kind != Boolean && st.token.kind != Eof
    ensures st.Report? ==>
      st.diag == NewDiagnostic(InvalidCharacter, Span(src, start, 1), InvalidCharMessage)
      && IsInvalidByte(src.content[start])
  {
    var ch := src.content[start];
    if IsIdentStart(ch) then ReadIdentifier(src, start)
    else if IsNumberStart(ch) then ReadNumber(src, start)
    else ReadFixed(src, start)
  }

  /** No whitespace byte belongs to a token class. */
  lemma ClassesApart()
    ensures forall c :: IsIdentCont(c) ==> !IsWhitespace(c)
    ensures forall c :: IsNumberCont(c) ==> !IsWhitespace(c)
    ensures forall c :: IsFixedStart(c) ==> !IsWhitespace(c)
  {
  }

  /** The identifier or keyword starting at `start`. */
  function ReadIdentifier(src: Source, start: nat): (st: Step)
    requires start < src.Size() && IsIdentStart(src.content[start])
    ensures st.Emit? && (st.token.kind == Identifier || IsKeyword(st.token.kind))
    ensures start <= st.last < src.Size()
    ensures st.token.span == Span(src, start, st.last - start + 1)
    ensures forall i :: start <= i <= st.last ==> IsIdentCont(src.content[i])
    ensures forall i :: start <= i <= st.last ==> !IsWhitespace(src.content[i])
  {
    var e := IdentLast(src.content, start);
    var span := Span(src, start, e - start + 1);
    Emit(Token(KeywordOrIdentifier(Lexeme(span)), span), e)
  }

  /** The number starting at `start`. */
  function ReadNumber(src: Source, start: nat): (st: Step)
    requires start < src.Size() && IsDigit(src.content[start])
    ensures st.Emit? && (st.token.kind == Integer || st.token.kind == Decimal)
    ensures start <= st.last < src.Size()
    ensures st.token.span == Span(src, start, st.last - start + 1)
    ensures forall i :: start <= i <= st.last ==> IsNumberCont(src.content[i])
    ensures forall i :: start <= i <= st.last ==> !IsWhitespace(src.content[i])
  {
    NumberScanRun(src.content, start, Integer);
    var r := NumberScan(src.content, start, Integer);
    Emit(Token(r.1, Span(src, start, r.0 - start + 1)), r.0)
  }

  /** The fixed token starting at `start`, or the InvalidCharacter
      diagnostic when no fixed token starts there. */
  function ReadFixed(src: Source, start: nat): (st: Step)
    requires start < src.Size()
    ensures st.Emit? <==> IsFixedStart(src.content[start])
    ensures start <= st.last < src.Size()
    ensures StepSpan(st) == Span(src, start, st.last - start + 1)
    ensures st.Emit? ==> forall i :: start <= i <= st.last ==> IsFixedStart(src.content[i])
    ensures st.Emit? ==> Spelling(st.token.kind).Some?
    ensures st.Emit? ==> forall i :: start <= i <= st.last ==> !IsWhitespace(src.content[i])
    ensures st.Emit? ==> st.token.kind != String && st.token.kind != Boolean && st.token.kind != Eof
    ensures st.Report? ==>
      st.diag == NewDiagnostic(InvalidCharacter, Span(src, start, 1), InvalidCharMessage)
  {
    var s := src.content;
    var p1 := PeekAt(s, start, 1);
    var p2 := PeekAt(s, start, 2);
    match Punctuation(s[start], p1, p2)
    case Some((kind, len)) =>
      assert IsFixedStart(s[start]);
      assert len >= 2 ==> start + 1 < |s| && s[start + 1] == p1;
      assert len == 3 ==> start + 2 < |s| && s[start + 2] == p2 && IsFixedStart('=');
      ClassesApart();
      Emit(Token(kind, Span(src, start, len)), start + len - 1)
    case None =>
      Report(NewDiagnostic(InvalidCharacter, Span(src, start, 1), InvalidCharMessage), start)
  }

  /** `lex_once` from cursor `c`: end of input, reported at `EofOffset`,
      exactly when only whitespace is left; otherwise what `ReadAt` reads
      at the first byte after the whitespace. */
  function LexOnceSpec(src: Source, c: nat): (st: Step)
    ensures var start := SkipWs(src.content, c);
      && (IsEofStep(st) <==> start >= src.Size())
      && (IsEofStep(st) && Reachable(src.Size(), c) ==>
            st.token.span == Span(src, EofOffset(src.Size()), 1) && st.last == EofOffset(src.Size()))
      && (!IsEofStep(st) ==> c <= start && st == ReadAt(src, start))
  {
    var start := SkipWs(src.content, c);
    if start >= src.Size() then Emit(Token(Eof, Span(src, start, 1)), start)
    else ReadAt(src, start)
  }

  /** One element of the output, in the order it is produced. */
  datatype Item = Tok(token: Token) | Diag(diag: Diagnostic)

  predicate IsEof(it: Item) {
    it.Tok? && it.token.kind == Eof
  }

  function ItemSpan(it: Item): Span {
    if it.Tok? then it.token.span else it.diag.span
  }

  function StepItem(st: Step): Item {
    if st.Emit? then Tok(st.token) else Diag(st.diag)
  }

  /** `lex()` from cursor `c`: everything produced up to and including the
      end-of-input token. */
  function Scan(src: Source, c: nat): (items: seq<Item>)
    requires Reachable(src.Size(), c)
    decreases src.Size() + 1 - c
  {
    var st := LexOnceSpec(src, c);
    if IsEofStep(st) then [Tok(st.token)]
    else
      AdvanceReachable(src.Size(), st.last);
      [StepItem(st)] + Scan(src, Advance(src.Size(), st.last, 1))
  }

  /** One step of `lex()` that is not the last. */
  lemma ScanCons(src: Source, c: nat)
    requires Reachable(src.Size(), c) && !IsEofStep(LexOnceSpec(src, c))
    ensures Reachable(src.Size(), Advance(src.Size(), LexOnceSpec(src, c).last, 1))
    ensures Scan(src, c) == [StepItem(LexOnceSpec(src, c))] + Scan(src, Advance(src.Size(), LexOnceSpec(src, c).last, 1))
  {
  }

  /** `lex()` pushes at most one item per byte left, plus the end-of-input
      token, and only that token once the cursor is past the content. */
  lemma {:induction false} ScanLength(src: Source, c: nat)
    requires Reachable(src.Size(), c)
    ensures 1 <= |Scan(src, c)| <= src.Size() - Pos(src.Size(), c) + 1
    ensures c >= src.Size() ==> |Scan(src, c)| == 1
    decreases src.Size() + 1 - c
  {
    var st := LexOnceSpec(src, c);
    if !IsEofStep(st) {
      ScanCons(src, c);
      var next := Advance(src.Size(), st.last, 1);
      assert c <= st.last < src.Size();
      ScanLength(src, next);
    }
  }

  /** The tokens among the items, in order. */
  function TokensOf(items: seq<Item>): (ts: seq<Token>)
  {
    if items == [] then []
    else (if items[0].Tok? then [items[0].token] else []) + TokensOf(items[1..])
  }

  /** The diagnostics among the items, in order. */
  function DiagsOf(items: seq<Item>): (ds: seq<Diagnostic>)
  {
    if items == [] then []
    else (if items[0].Diag? then [items[0].diag] else []) + DiagsOf(items[1..])
  }

  lemma {:induction false} TokensOfAppend(a: seq<Item>, b: seq<Item>)
    ensures TokensOf(a + b) == TokensOf(a) + TokensOf(b)
    ensures DiagsOf(a + b) == DiagsOf(a) + DiagsOf(b)
    decreases |a|
  {
    if a != [] {
      assert (a + b)[1..] == a[1..] + b;
      TokensOfAppend(a[1..], b);
    } else {
      assert a + b == b;
    }
  }

  lemma FilterToken(done: seq<Item>, t: Token)
    ensures TokensOf(done + [Tok(t)]) == TokensOf(done) + [t]
    ensures DiagsOf(done + [Tok(t)]) == DiagsOf(done)
  {
    TokensOfAppend(done, [Tok(t)]);
  }

  lemma FilterDiagnostic(done: seq<Item>, d: Diagnostic)
    ensures TokensOf(done + [Diag(d)]) == TokensOf(done)
    ensures DiagsOf(done + [Diag(d)]) == DiagsOf(done) + [d]
  {
    TokensOfAppend(done, [Diag(d)]);
  }

  /** Filtering keeps exactly the items of each sort. */
  lemma {:induction false} TokensOfMembers(items: seq<Item>)
    ensures forall t :: t in TokensOf(items) <==> Tok(t) in items
    ensures forall d :: d in DiagsOf(items) <==> Diag(d) in items
    decreases |items|
  {
    if items != [] {
      TokensOfMembers(items[1..]);
      assert items == [items[0]] + items[1..];
    }
  }

  /** The state `lex()` keeps as it goes: `whole` is everything it will
      produce, `done` what it has produced so far, the rest is what is left
      from cursor `c`, and the two vectors have grown by the tokens and the
      diagnostics of `done`. */
  predicate Progress(src: Source, c: nat, whole: seq<Item>, done: seq<Item>,
                     ts0: seq<Token>, ts: seq<Token>, ds0: seq<Diagnostic>, ds: seq<Diagnostic>)
  {
    && Reachable(src.Size(), c)
    && whole == done + Scan(src, c)
    && ts == ts0 + TokensOf(done)
    && ds == ds0 + DiagsOf(done)
  }

  /** One step of `lex()` that is not the last keeps `Progress`. */
  lemma ProgressStep(src: Source, c: nat, whole: seq<Item>, done: seq<Item>,
                     ts0: seq<Token>, ts: seq<Token>, ds0: seq<Diagnostic>, ds: seq<Diagnostic>)
    requires Progress(src, c, whole, done, ts0, ts, ds0, ds)
    requires !IsEofStep(LexOnceSpec(src, c))
    ensures var st := LexOnceSpec(src, c);
      Progress(src, Advance(src.Size(), st.last, 1), whole, done + [StepItem(st)], ts0,
               ts + (if st.Emit? then [st.token] else []), ds0, ds + (if st.Report? then [st.diag] else []))
  {
    var st := LexOnceSpec(src, c);
    var x := StepItem(st);
    var rest := Scan(src, Advance(src.Size(), st.last, 1));
    ScanCons(src, c);
    Regroup(whole, done, x, rest);
    if st.Emit? {
      GrowTokens(done, st.token, ts0, ts, ds0, ds);
    } else {
      GrowDiagnostics(done, st.diag, ts0, ts, ds0, ds);
    }
  }

  lemma Regroup(whole: seq<Item>, done: seq<Item>, x: Item, rest: seq<Item>)
    requires whole == done + ([x] + rest)
    ensures whole == (done + [x]) + rest
  {
  }

  lemma GrowTokens(done: seq<Item>, t: Token,
                   ts0: seq<Token>, ts: seq<Token>, ds0: seq<Diagnostic>, ds: seq<Diagnostic>)
    requires ts == ts0 + TokensOf(done) && ds == ds0 + DiagsOf(done)
    ensures ts + [t] == ts0 + TokensOf(done + [Tok(t)]) && ds == ds0 + DiagsOf(done + [Tok(t)])
  {
    FilterToken(done, t);
    assert ts + [t] == ts0 + (TokensOf(done) + [t]);
  }

  lemma GrowDiagnostics(done: seq<Item>, d: Diagnostic,
                        ts0: seq<Token>, ts: seq<Token>, ds0: seq<Diagnostic>, ds: seq<Diagnostic>)
    requires ts == ts0 + TokensOf(done) && ds == ds0 + DiagsOf(done)
    ensures ts == ts0 + TokensOf(done + [Diag(d)]) && ds + [d] == ds0 + DiagsOf(done + [Diag(d)])
  {
    FilterDiagnostic(done, d);
    assert ds + [d] == ds0 + (DiagsOf(done) + [d]);
  }

  /** The last step of `lex()`: everything has been produced. */
  lemma ProgressEof(src: Source, c: nat, whole: seq<Item>, done: seq<Item>,
                    ts0: seq<Token>, ts: seq<Token>, ds0: seq<Diagnostic>, ds: seq<Diagnostic>)
    requires Progress(src, c, whole, done, ts0, ts, ds0, ds)
    requires IsEofStep(LexOnceSpec(src, c))
    ensures var st := LexOnceSpec(src, c);
      && whole == done + [StepItem(st)]
      && ts + [st.token] == ts0 + TokensOf(whole)
      && ds == ds0 + DiagsOf(whole)
  {
    var st := LexOnceSpec(src, c);
    TokensOfAppend(done, [StepItem(st)]);
  }

  /* ------------------------------------------------------------------------ */
  /* What lex() produces                                                      */
  /* ------------------------------------------------------------------------ */

  /** Only the last item is end of input. */
  predicate EofOnlyLast(items: seq<Item>) {
    items != [] && IsEof(items[|items| - 1]) && forall j :: 0 <= j < |items| - 1 ==> !IsEof(items[j])
  }

  lemma EofOnlyLastCons(x: Item, rest: seq<Item>)
    requires !IsEof(x) && EofOnlyLast(rest)
    ensures EofOnlyLast([x] + rest) && ([x] + rest)[|rest|] == rest[|rest| - 1]
  {
    var items := [x] + rest;
    forall j | 1 <= j < |items| ensures items[j] == rest[j - 1] { }
  }

  /** The output ends with the one end-of-input item, at offset 0 for empty
      content and one past the end otherwise, with length 1. */
  lemma {:induction false} ScanEndsWithEof(src: Source, c: nat)
    requires Reachable(src.Size(), c)
    ensures var items := Scan(src, c);
      && items != []
      && EofOnlyLast(items)
      && items[|items| - 1] == Tok(Token(Eof, Span(src, EofOffset(src.Size()), 1)))
    decreases src.Size() + 1 - c
  {
    var st := LexOnceSpec(src, c);
    if !IsEofStep(st) {
      ScanCons(src, c);
      var next := Advance(src.Size(), st.last, 1);
      var rest := Scan(src, next);
      ScanEndsWithEof(src, next);
      EofOnlyLastCons(StepItem(st), rest);
      var items := Scan(src, c);
      assert items == [StepItem(st)] + rest;
      assert items[|items| - 1] == rest[|rest| - 1];
    } else {
      assert Scan(src, c) == [Tok(st.token)];
    }
  }

  /** The stretch of `s` from `p` on is tiled by `items`: each item other
      than the final Eof covers at least one byte, in bounds, none of them
      whitespace; the gaps between items are whitespace only. */
  predicate Tiles(s: string, p: nat, items: seq<Item>)
    decreases |items|
  {
    && items != []
    && (IsEof(items[0]) ==> |items| == 1 && forall i :: p <= i < |s| ==> IsWhitespace(s[i]))
    && (!IsEof(items[0]) ==>
          var sp := ItemSpan(items[0]);
          && p <= sp.offset && 1 <= sp.length && sp.offset + sp.length <= |s|
          && (forall i :: p <= i < sp.offset ==> IsWhitespace(s[i]))
          && (forall i :: sp.offset <= i < sp.offset + sp.length ==> !IsWhitespace(s[i]))
          && Tiles(s, sp.offset + sp.length, items[1..]))
  }

  lemma TilesCons(s: string, p: nat, x: Item, rest: seq<Item>)
    requires !IsEof(x)
    requires var sp := ItemSpan(x);
      && p <= sp.offset && 1 <= sp.length && sp.offset + sp.length <= |s|
      && (forall i :: p <= i < sp.offset ==> IsWhitespace(s[i]))
      && (forall i :: sp.offset <= i < sp.offset + sp.length ==> !IsWhitespace(s[i]))
      && Tiles(s, sp.offset + sp.length, rest)
    ensures Tiles(s, p, [x] + rest)
  {
    assert ([x] + rest)[1..] == rest;
  }

  lemma {:induction false} ScanTiles(src: Source, c: nat)
    requires Reachable(src.Size(), c)
    ensures Tiles(src.content, Pos(src.Size(), c), Scan(src, c))
    decreases src.Size() + 1 - c
  {
    var st := LexOnceSpec(src, c);
    if !IsEofStep(st) {
      ScanCons(src, c);
      var next := Advance(src.Size(), st.last, 1);
      ScanTiles(src, next);
      assert ItemSpan(StepItem(st)) == StepSpan(st);
      TilesCons(src.content, Pos(src.Size(), c), StepItem(st), Scan(src, next));
    }
  }

  /** Byte `b` lies in the span of some item other than the end-of-input one. */
  predicate Covered(items: seq<Item>, b: nat) {
    exists j :: 0 <= j < |items| && !IsEof(items[j])
      && ItemSpan(items[j]).offset <= b < ItemSpan(items[j]).offset + ItemSpan(items[j]).length
  }

  lemma {:induction false} TilesLowerBound(s: string, p: nat, items: seq<Item>)
    requires Tiles(s, p, items)
    ensures forall j :: 0 <= j < |items| && !IsEof(items[j]) ==> p <= ItemSpan(items[j]).offset
    decreases |items|
  {
    if !IsEof(items[0]) {
      var sp := ItemSpan(items[0]);
      TilesLowerBound(s, sp.offset + sp.length, items[1..]);
      forall j | 1 <= j < |items| && !IsEof(items[j]) ensures p <= ItemSpan(items[j]).offset {
        assert items[j] == items[1..][j - 1];
      }
    }
  }

  lemma {:induction false} TilesCover(s: string, p: nat, items: seq<Item>, b: nat)
    requires Tiles(s, p, items) && p <= b < |s|
    ensures IsWhitespace(s[b]) <==> !Covered(items, b)
    decreases |items|
  {
    if IsEof(items[0]) {
      assert !Covered(items, b);
    } else {
      var sp := ItemSpan(items[0]);
      var rest := items[1..];
      if b < sp.offset {
        TilesLowerBound(s, sp.offset + sp.length, rest);
        forall j | 0 <= j < |items| && !IsEof(items[j]) ensures b < ItemSpan(items[j]).offset {
          if j > 0 {
            assert items[j] == rest[j - 1];
          }
        }
      } else if b < sp.offset + sp.length {
        assert !IsWhitespace(s[b]);
        assert Covered(items, b) by {
          assert !IsEof(items[0]) && ItemSpan(items[0]).offset <= b < ItemSpan(items[0]).offset + ItemSpan(items[0]).length;
        }
      } else {
        TilesCover(s, sp.offset + sp.length, rest, b);
        if Covered(rest, b) {
          var j :| 0 <= j < |rest| && !IsEof(rest[j])
            && ItemSpan(rest[j]).offset <= b < ItemSpan(rest[j]).offset + ItemSpan(rest[j]).length;
          assert items[j + 1] == rest[j];
          assert Covered(items, b);
        }
        if Covered(items, b) {
          var j :| 0 <= j < |items| && !IsEof(items[j])
            && ItemSpan(items[j]).offset <= b < ItemSpan(items[j]).offset + ItemSpan(items[j]).length;
          assert j > 0;
          assert rest[j - 1] == items[j];
          assert Covered(rest, b);
        }
      }
    }
  }

  lemma {:induction false} TilesInBounds(s: string, p: nat, items: seq<Item>)
    requires Tiles(s, p, items)
    ensures forall j :: 0 <= j < |items| && !IsEof(items[j]) ==>
      1 <= ItemSpan(items[j]).length && ItemSpan(items[j]).offset + ItemSpan(items[j]).length <= |s|
    ensures forall i, j :: 0 <= i < j < |items| && !IsEof(items[j]) ==>
      ItemSpan(items[i]).offset + ItemSpan(items[i]).length <= ItemSpan(items[j]).offset
    decreases |items|
  {
    if !IsEof(items[0]) {
      var sp := ItemSpan(items[0]);
      var rest := items[1..];
      TilesInBounds(s, sp.offset + sp.length, rest);
      TilesLowerBound(s, sp.offset + sp.length, rest);
      forall j | 1 <= j < |items| ensures items[j] == rest[j - 1] { }
    }
  }

  /** The shape of each token read from content: identifiers and keywords
      are maximal runs of identifier bytes classified by the keyword table;
      numbers are maximal digit runs with at most one dot, each dot followed
      by a digit, Decimal exactly when the dot is there. */
  predicate WellFormedToken(s: string, t: Token) {
    && (t.kind == Identifier || IsKeyword(t.kind) ==> WellFormedWord(s, t))
    && (t.kind == Integer || t.kind == Decimal ==> WellFormedNumber(s, t))
  }

  /** An identifier or keyword: a maximal run of identifier bytes that
      starts with a letter or `_`, classified by the keyword table. */
  predicate WellFormedWord(s: string, t: Token) {
    var o, l := t.span.offset, t.span.length;
    WordRun(s, o, l) && t.kind == KeywordOrIdentifier(Lexeme(t.span))
  }

  /** `l` identifier bytes from `o`, the first a letter or `_`, and no
      identifier byte right after them. */
  predicate WordRun(s: string, o: nat, l: nat) {
    && o + l <= |s| && l >= 1 && IsIdentStart(s[o])
    && (forall i :: o <= i < o + l ==> IsIdentCont(s[i]))
    && (o + l < |s| ==> !IsIdentCont(s[o + l]))
  }

  /** A number: a digit, then digits and at most one dot, each dot followed
      by a digit, Decimal exactly when the dot is there, and no digit (nor
      a dot and a digit, for an Integer) right after it. */
  predicate WellFormedNumber(s: string, t: Token) {
    NumberBytes(s, t) && NumberMaximal(s, t)
  }

  /** The bytes of a number token and the kind they give. */
  predicate NumberBytes(s: string, t: Token) {
    var o, l := t.span.offset, t.span.length;
    && o + l <= |s| && l >= 1 && IsDigit(s[o])
    && (forall i :: o <= i < o + l ==> IsNumberCont(s[i]))
    && (forall i :: o <= i < o + l && s[i] == '.' ==> i + 1 < o + l && IsDigit(s[i + 1]))
    && (forall i, j :: o <= i < j < o + l && s[i] == '.' ==> s[j] != '.')
    && (t.kind == Decimal <==> exists i :: o <= i < o + l && s[i] == '.')
  }

  /** A number token cannot be extended. */
  predicate NumberMaximal(s: string, t: Token) {
    var o, l := t.span.offset, t.span.length;
    && (o + l < |s| ==> !IsDigit(s[o + l]))
    && (o + l < |s| && s[o + l] == '.' ==>
          t.kind == Decimal || o + l + 1 >= |s| || !IsDigit(s[o + l + 1]))
  }

  /** What every item `lex()` produces satisfies: its span lies in the
      source being lexed; a token is well formed and never String or
      Boolean; a diagnostic is a one-byte InvalidCharacter error on an
      invalid byte of the content. */
  predicate ItemFacts(src: Source, it: Item) {
    && ItemSpan(it).source == src
    && (it.Tok? ==>
          it.token.kind != String && it.token.kind != Boolean && WellFormedToken(src.content, it.token))
    && (it.Diag? ==>
          && it.diag == NewDiagnostic(InvalidCharacter, Span(src, it.diag.span.offset, 1), InvalidCharMessage)
          && it.diag.span.offset < src.Size()
          && IsInvalidByte(src.content[it.diag.span.offset]))
  }

  lemma IdentifierWellFormed(src: Source, start: nat)
    requires start < src.Size() && IsIdentStart(src.content[start])
    ensures WellFormedWord(src.content, ReadIdentifier(src, start).token)
  {
    IdentLastRun(src.content, start);
  }

  /** `IdentLast` from a letter or `_` ends a maximal identifier run. */
  lemma IdentLastRun(s: string, start: nat)
    requires start < |s| && IsIdentStart(s[start])
    ensures WordRun(s, start, IdentLast(s, start) - start + 1)
  {
    assert IsIdentCont(s[start]);
  }

  /** The word `ReadIdentifier` reads, given where it ends and its kind. */
  lemma IdentifierRead(src: Source, start: nat, last: nat, kind: Kind)
    requires start < src.Size() && IsIdentStart(src.content[start]) && IdentLast(src.content, start) == last
    requires KeywordOrIdentifier(src.content[start..last + 1]) == kind
    ensures ReadIdentifier(src, start) == Emit(Token(kind, Span(src, start, last - start + 1)), last)
  {
    LexemeSlice(src, start, last);
  }

  /** The text of an in-bounds span from `start` to `last`. */
  lemma LexemeSlice(src: Source, start: nat, last: nat)
    requires start <= last < src.Size()
    ensures Lexeme(Span(src, start, last - start + 1)) == src.content[start..last + 1]
  {
  }

  lemma NumberWellFormed(src: Source, start: nat)
    requires start < src.Size() && IsDigit(src.content[start])
    ensures WellFormedNumber(src.content, ReadNumber(src, start).token)
  {
    NumberBytesRead(src, start);
    NumberMaximalRead(src, start);
  }

  lemma NumberBytesRead(src: Source, start: nat)
    requires start < src.Size() && IsDigit(src.content[start])
    ensures NumberBytes(src.content, ReadNumber(src, start).token)
  {
    NumberScanBytes(src, start);
  }

  /** The run `NumberScan` finds from a digit has the bytes of a number. */
  lemma NumberScanBytes(src: Source, start: nat)
    requires start < src.Size() && IsDigit(src.content[start])
    ensures var r := NumberScan(src.content, start, Integer);
      NumberBytes(src.content, Token(r.1, Span(src, start, r.0 - start + 1)))
  {
    ScanRunBytes(src.content, start);
    ScanDotBytes(src.content, start);
  }

  /** Every byte of the run from a digit is a number byte, and each dot
      in it is followed by a digit inside it. */
  lemma ScanRunBytes(s: string, start: nat)
    requires start < |s| && IsDigit(s[start])
    ensures var r := NumberScan(s, start, Integer);
      && (forall i :: start <= i <= r.0 ==> IsNumberCont(s[i]))
      && (forall i :: start <= i <= r.0 && s[i] == '.' ==> i < r.0 && IsDigit(s[i + 1]))
  {
    NumberScanRun(s, start, Integer);
  }

  /** The run from a digit holds at most one dot, and is Decimal exactly
      when it holds one. */
  lemma ScanDotBytes(s: string, start: nat)
    requires start < |s| && IsDigit(s[start])
    ensures var r := NumberScan(s, start, Integer);
      && (forall i, j :: start <= i < j <= r.0 && s[i] == '.' ==> s[j] != '.')
      && (r.1 == Decimal <==> exists i :: start <= i <= r.0 && s[i] == '.')
  {
    var r := NumberScan(s, start, Integer);
    NumberScanKind(s, start, Integer);
    assert s[start] != '.';
    if r.1 == Decimal {
      var i :| start < i <= r.0 && s[i] == '.';
      assert start <= i <= r.0;
    }
  }

  lemma NumberMaximalRead(src: Source, start: nat)
    requires start < src.Size() && IsDigit(src.content[start])
    ensures NumberMaximal(src.content, ReadNumber(src, start).token)
  {
    var s := src.content;
    var r := NumberScan(s, start, Integer);
    assert ReadNumber(src, start).token == Token(r.1, Span(src, start, r.0 - start + 1));
    NumberScanMaximal(s, start, Integer);
  }

  lemma ReadAtFacts(src: Source, start: nat)
    requires start < src.Size() && !IsWhitespace(src.content[start])
    ensures ItemFacts(src, StepItem(ReadAt(src, start)))
  {
    var ch := src.content[start];
    if IsIdentStart(ch) {
      IdentifierFacts(src, start);
    } else if IsNumberStart(ch) {
      NumberFacts(src, start);
    } else {
      FixedFacts(src, start);
    }
  }

  lemma IdentifierFacts(src: Source, start: nat)
    requires start < src.Size() && IsIdentStart(src.content[start])
    ensures ItemFacts(src, StepItem(ReadIdentifier(src, start)))
  {
    IdentifierWellFormed(src, start);
  }

  lemma NumberFacts(src: Source, start: nat)
    requires start < src.Size() && IsDigit(src.content[start])
    ensures ItemFacts(src, StepItem(ReadNumber(src, start)))
  {
    NumberWellFormed(src, start);
  }

  lemma FixedFacts(src: Source, start: nat)
    requires start < src.Size() && !IsWhitespace(src.content[start])
    requires !IsIdentStart(src.content[start]) && !IsNumberStart(src.content[start])
    ensures ItemFacts(src, StepItem(ReadFixed(src, start)))
  {
  }

  lemma StepWellFormed(src: Source, c: nat)
    requires Reachable(src.Size(), c)
    ensures ItemFacts(src, StepItem(LexOnceSpec(src, c)))
  {
    var start := SkipWs(src.content, c);
    if start < src.Size() {
      ReadAtFacts(src, start);
    }
  }

  lemma {:induction false} ScanItems(src: Source, c: nat)
    requires Reachable(src.Size(), c)
    ensures forall it :: it in Scan(src, c) ==> ItemFacts(src, it)
    decreases src.Size() + 1 - c
  {
    StepWellFormed(src, c);
    var st := LexOnceSpec(src, c);
    if !IsEofStep(st) {
      AdvanceReachable(src.Size(), st.last);
      var next := Advance(src.Size(), st.last, 1);
      ScanItems(src, next);
      assert Scan(src, c) == [StepItem(st)] + Scan(src, next);
    } else {
      assert Scan(src, c) == [StepItem(st)];
    }
  }

  /** Coverage: every byte of the content is either whitespace or inside the
      span of an item produced, never both; every span other than the
      end-of-input one is in bounds and non-empty, and the spans come in
      ascending order without overlap. */
  lemma LexCoverage(src: Source)
    ensures var items := Scan(src, 0);
      && (forall b :: 0 <= b < src.Size() ==> (IsWhitespace(src.content[b]) <==> !Covered(items, b)))
      && (forall j :: 0 <= j < |items| && !IsEof(items[j]) ==>
            InBounds(ItemSpan(items[j])) && ItemSpan(items[j]).length >= 1)
      && (forall i, j :: 0 <= i < j < |items| && !IsEof(items[j]) ==>
            ItemSpan(items[i]).offset + ItemSpan(items[i]).length <= ItemSpan(items[j]).offset)
  {
    var items := Scan(src, 0);
    ScanTiles(src, 0);
    TilesInBounds(src.content, 0, items);
    forall b | 0 <= b < src.Size() ensures IsWhitespace(src.content[b]) <==> !Covered(items, b) {
      TilesCover(src.content, 0, items, b);
    }
    ScanItems(src, 0);
    forall j | 0 <= j < |items| && !IsEof(items[j]) ensures InBounds(ItemSpan(items[j])) {
      assert items[j] in items;
    }
  }

  /** Filtering a sequence whose only end-of-input item is its last keeps
      that item last and only. */
  lemma {:induction false} TokensOfEofOnlyLast(items: seq<Item>)
    requires EofOnlyLast(items)
    ensures var ts := TokensOf(items);
      && ts != [] && ts[|ts| - 1] == items[|items| - 1].token
      && forall j :: 0 <= j < |ts| - 1 ==> ts[j].kind != Eof
    decreases |items|
  {
    if |items| > 1 {
      var rest := items[1..];
      assert EofOnlyLast(rest) by {
        forall j | 0 <= j < |rest| - 1 ensures !IsEof(rest[j]) {
          assert rest[j] == items[j + 1];
        }
      }
      TokensOfEofOnlyLast(rest);
      assert !IsEof(items[0]);
    }
  }

  /** The token vector `lex()` fills ends with its only Eof token, every
      token is well formed, and String and Boolean never occur. */
  lemma LexTokens(src: Source)
    ensures var ts := TokensOf(Scan(src, 0));
      && ts != [] && ts[|ts| - 1] == Token(Eof, Span(src, EofOffset(src.Size()), 1))
      && (forall j :: 0 <= j < |ts| - 1 ==> ts[j].kind != Eof)
      && (forall t :: t in ts ==>
            t.span.source == src && t.kind != String && t.kind != Boolean && WellFormedToken(src.content, t))
  {
    var items := Scan(src, 0);
    ScanEndsWithEof(src, 0);
    TokensOfEofOnlyLast(items);
    ScanItems(src, 0);
    TokensOfMembers(items);
  }

  /** The diagnostic vector `lex()` fills holds one InvalidCharacter error
      of length 1 for each invalid byte met, with the fixed help message. */
  lemma LexDiagnostics(src: Source)
    ensures forall d :: d in DiagsOf(Scan(src, 0)) ==>
      && d == NewDiagnostic(InvalidCharacter, Span(src, d.span.offset, 1), InvalidCharMessage)
      && d.level == Error
      && d.span.offset < src.Size()
      && IsInvalidByte(src.content[d.span.offset])
  {
    ScanItems(src, 0);
    TokensOfMembers(Scan(src, 0));
    forall d | d in DiagsOf(Scan(src, 0)) ensures d.level == Error {
      EveryIssueIsError(d.issue);
    }
  }

  /** Printing the diagnostics `lex()` produced never reaches the throwing
      path of the diagnostic printer: the listing runs to the end. */
  lemma LexListingComplete(src: Source)
    ensures DiagListing(DiagsOf(Scan(src, 0))).finished
  {
    var ds := DiagsOf(Scan(src, 0));
    LexDiagnostics(src);
    assert forall i :: 0 <= i < |ds| ==> ds[i] in ds;
    DiagEntriesDefined(ds);
  }

  /* ------------------------------------------------------------------------ */
  /* The fixed tokens: longest match                                          */
  /* ------------------------------------------------------------------------ */

  /** The fixed token read at a byte is spelled by the bytes it covers. */
  lemma PunctuationSpelling(ch: char, p1: char, p2: char)
    ensures Punctuation(ch, p1, p2).Some? ==>
      Spelling(Punctuation(ch, p1, p2).value.0) == Some([ch, p1, p2][..Punctuation(ch, p1, p2).value.1])
  {
    var r := Punctuation(ch, p1, p2);
    if r.Some? {
      var w := [ch, p1, p2];
      if r.value.1 == 1 {
        PunctuationSpellingOne(ch, p1, p2);
        assert w[..1] == [ch];
      } else if r.value.1 == 2 {
        PunctuationSpellingTwo(ch, p1, p2);
        assert w[..2] == [ch, p1];
      } else {
        PunctuationSpellingThree(ch, p1, p2);
        assert w[..3] == w;
      }
    }
  }

  lemma PunctuationSpellingOne(ch: char, p1: char, p2: char)
    requires Punctuation(ch, p1, p2).Some? && Punctuation(ch, p1, p2).value.1 == 1
    ensures Spelling(Punctuation(ch, p1, p2).value.0) == Some([ch])
  {
    if ch in {'+', '-', '*', '/', '<', '>', '!', '=', '&', '|'} {
      PunctuationSpellingOperator(ch, p1, p2);
    } else if ch in {'\n', '(', ')', '[', ']', '{', '}'} {
      PunctuationSpellingBracket(ch, p1, p2);
    } else {
      PunctuationSpellingMark(ch, p1, p2);
    }
  }

  lemma PunctuationSpellingBracket(ch: char, p1: char, p2: char)
    requires ch in {'\n', '(', ')', '[', ']', '{', '}'}
    ensures Punctuation(ch, p1, p2).Some? && Spelling(Punctuation(ch, p1, p2).value.0) == Some([ch])
  {
  }

  lemma PunctuationSpellingMark(ch: char, p1: char, p2: char)
    requires ch in {'.', ',', ':', ';', '?', '%'}
    ensures Punctuation(ch, p1, p2).Some? && Spelling(Punctuation(ch, p1, p2).value.0) == Some([ch])
  {
  }

  lemma PunctuationSpellingOperator(ch: char, p1: char, p2: char)
    requires ch in {'+', '-', '*', '/', '<', '>', '!', '=', '&', '|'}
    requires Punctuation(ch, p1, p2).Some? && Punctuation(ch, p1, p2).value.1 == 1
    ensures Spelling(Punctuation(ch, p1, p2).value.0) == Some([ch])
  {
    if ch in {'+', '-', '*', '/', '<'} {
      OneByteArithmetic(ch, p1, p2);
    } else {
      OneByteLogical(ch, p1, p2);
    }
  }

  lemma OneByteArithmetic(ch: char, p1: char, p2: char)
    requires ch in {'+', '-', '*', '/', '<'}
    requires Punctuation(ch, p1, p2).Some? && Punctuation(ch, p1, p2).value.1 == 1
    ensures Spelling(Punctuation(ch, p1, p2).value.0) == Some([ch])
  {
  }

  lemma OneByteLogical(ch: char, p1: char, p2: char)
    requires ch in {'>', '!', '=', '&', '|'}
    requires Punctuation(ch, p1, p2).Some? && Punctuation(ch, p1, p2).value.1 == 1
    ensures Spelling(Punctuation(ch, p1, p2).value.0) == Some([ch])
  {
  }

  lemma PunctuationSpellingTwo(ch: char, p1: char, p2: char)
    requires Punctuation(ch, p1, p2).Some? && Punctuation(ch, p1, p2).value.1 == 2
    ensures Spelling(Punctuation(ch, p1, p2).value.0) == Some([ch, p1])
  {
  }

  lemma PunctuationSpellingThree(ch: char, p1: char, p2: char)
    requires Punctuation(ch, p1, p2).Some? && Punctuation(ch, p1, p2).value.1 == 3
    ensures Spelling(Punctuation(ch, p1, p2).value.0) == Some([ch, p1, p2])
  {
  }

  /** Longest match: whenever some spelling is a prefix of the next three
      bytes, a fixed token is read and it is at least that long. */
  lemma PunctuationLongest(ch: char, p1: char, p2: char, k: Kind)
    requires Spelling(k).Some? && Spelling(k).value <= [ch, p1, p2]
    ensures Punctuation(ch, p1, p2).Some? && |Spelling(k).value| <= Punctuation(ch, p1, p2).value.1
  {
    var i := Ordinal(k);
    if i < 7 {
      LongestBelow7(ch, p1, p2, k);
    } else if i < 14 {
      LongestBelow14(ch, p1, p2, k);
    } else if i < 21 {
      LongestBelow21(ch, p1, p2, k);
    } else if i < 28 {
      LongestBelow28(ch, p1, p2, k);
    } else if i < 35 {
      LongestBelow35(ch, p1, p2, k);
    } else {
      LongestBelow51(ch, p1, p2, k);
    }
  }

  /** The bytes of a short prefix of `[ch, p1, p2]`. */
  lemma PrefixBytes(w: string, ch: char, p1: char, p2: char)
    requires 1 <= |w| <= 3 && w <= [ch, p1, p2]
    ensures w[0] == ch && (|w| >= 2 ==> w[1] == p1) && (|w| >= 3 ==> w[2] == p2)
  {
  }

  lemma LongestBelow7(ch: char, p1: char, p2: char, k: Kind)
    requires 0 <= Ordinal(k) < 7
    requires Spelling(k).Some? && Spelling(k).value <= [ch, p1, p2]
    ensures Punctuation(ch, p1, p2).Some? && |Spelling(k).value| <= Punctuation(ch, p1, p2).value.1
  {
    PrefixBytes(Spelling(k).value, ch, p1, p2);
  }

  lemma LongestBelow14(ch: char, p1: char, p2: char, k: Kind)
    requires 7 <= Ordinal(k) < 14
    requires Spelling(k).Some? && Spelling(k).value <= [ch, p1, p2]
    ensures Punctuation(ch, p1, p2).Some? && |Spelling(k).value| <= Punctuation(ch, p1, p2).value.1
  {
    PrefixBytes(Spelling(k).value, ch, p1, p2);
  }

  lemma LongestBelow21(ch: char, p1: char, p2: char, k: Kind)
    requires 14 <= Ordinal(k) < 21
    requires Spelling(k).Some? && Spelling(k).value <= [ch, p1, p2]
    ensures Punctuation(ch, p1, p2).Some? && |Spelling(k).value| <= Punctuation(ch, p1, p2).value.1
  {
    PrefixBytes(Spelling(k).value, ch, p1, p2);
  }

  lemma LongestBelow28(ch: char, p1: char, p2: char, k: Kind)
    requires 21 <= Ordinal(k) < 28
    requires Spelling(k).Some? && Spelling(k).value <= [ch, p1, p2]
    ensures Punctuation(ch, p1, p2).Some? && |Spelling(k).value| <= Punctuation(ch, p1, p2).value.1
  {
    PrefixBytes(Spelling(k).value, ch, p1, p2);
  }

  lemma LongestBelow35(ch: char, p1: char, p2: char, k: Kind)
    requires 28 <= Ordinal(k) < 35
    requires Spelling(k).Some? && Spelling(k).value <= [ch, p1, p2]
    ensures Punctuation(ch, p1, p2).Some? && |Spelling(k).value| <= Punctuation(ch, p1, p2).value.1
  {
    PrefixBytes(Spelling(k).value, ch, p1, p2);
  }

  lemma LongestBelow51(ch: char, p1: char, p2: char, k: Kind)
    requires 35 <= Ordinal(k) < 51
    requires Spelling(k).Some? && Spelling(k).value <= [ch, p1, p2]
    ensures Punctuation(ch, p1, p2).Some? && |Spelling(k).value| <= Punctuation(ch, p1, p2).value.1
  {
    PrefixBytes(Spelling(k).value, ch, p1, p2);
  }

  /** Display strings agree with spellings except for `PlusEqual`, shown as
      `++=` though read from `+=`, and `Newline`, shown as `<\n>`. */
  lemma ReprMatchesSpelling(k: Kind)
    requires Spelling(k).Some? && k != PlusEqual && k != Newline
    ensures Repr(k) == Spelling(k).value
  {
  }

  /* ------------------------------------------------------------------------ */
  /* The lexer object                                                         */
  /* ------------------------------------------------------------------------ */

  class Lexer {
    const source: Source
    const diagnostics: DiagCollect
    const tokens: TokenCollect
    var cursor: nat

    predicate Valid()
      reads this
    {
      Reachable(source.Size(), cursor)
    }

    /** `Lexer(source, tokens, diagnostics)`: the cursor starts at 0. */
    constructor (source: Source, tokens: TokenCollect, diagnostics: DiagCollect)
      ensures this.source == source && this.tokens == tokens && this.diagnostics == diagnostics
      ensures cursor == 0 && Valid()
    {
      this.source := source;
      this.tokens := tokens;
      this.diagnostics := diagnostics;
      cursor := 0;
    }

    /** `is_at_end(k)`. */
    function IsAtEnd(k: nat): (r: bool)
      reads this
      ensures r <==> cursor + k >= source.Size()
    {
      cursor + k >= source.Size()
    }

    /** `peek(k)`. */
    function Peek(k: nat): (ch: char)
      reads this
      ensures ch == PeekAt(source.content, cursor, k)
    {
      if IsAtEnd(k) then '\0' else source.content[cursor + k]
    }

    /** `current()`: `peek(0)`. */
    function Current(): (ch: char)
      reads this
      ensures ch == PeekAt(source.content, cursor, 0)
    {
      Peek(0)
    }

    /** `eat(k)`. */
    method Eat(k: nat)
      modifies this
      ensures cursor == Advance(source.Size(), old(cursor), k)
    {
      if IsAtEnd(k) {
        cursor := source.Size();
      }
      cursor := cursor + k;
    }

    /** `skip_whitespace()`. */
    method SkipWhitespace()
      requires Valid()
      modifies this
      ensures Valid() && cursor == SkipWs(source.content, old(cursor))
    {
      while IsWhitespace(Current())
        invariant Valid()
        invariant SkipWs(source.content, cursor) == SkipWs(source.content, old(cursor))
        decreases source.Size() - cursor
      {
        Eat(1);
      }
    }

    /** `lex_identifier()`: called on an identifier start. */
    method LexIdentifier() returns (t: Token)
      requires Valid() && cursor < source.Size() && IsIdentStart(source.content[cursor])
      modifies this
      ensures cursor == IdentLast(source.content, old(cursor)) && Valid()
      ensures t == Token(KeywordOrIdentifier(Lexeme(Span(source, old(cursor), cursor - old(cursor) + 1))),
                         Span(source, old(cursor), cursor - old(cursor) + 1))
      ensures Emit(t, cursor) == ReadIdentifier(source, old(cursor))
    {
      var start := cursor;
      while IsIdentCont(Peek(1))
        invariant start <= cursor < source.Size()
        invariant IdentLast(source.content, cursor) == IdentLast(source.content, start)
        decreases source.Size() - cursor
      {
        assert cursor + 1 < source.Size();
        Eat(1);
      }
      assert cursor == IdentLast(source.content, start);
      var span := Span(source, start, cursor - start + 1);
      var sv := Lexeme(span);
      var kind := KeywordOrIdentifier(sv);
      t := Token(kind, span);
    }

    /** `lex_number()`: called on a digit. */
    method LexNumber() returns (t: Token)
      requires Valid() && cursor < source.Size() && IsDigit(source.content[cursor])
      modifies this
      ensures var r := NumberScan(source.content, old(cursor), Integer);
        && cursor == r.0 && Valid()
        && t == Token(r.1, Span(source, old(cursor), cursor - old(cursor) + 1))
      ensures Emit(t, cursor) == ReadNumber(source, old(cursor))
    {
      var start := cursor;
      var kind := Integer;
      while IsNumberCont(Peek(1))
        invariant start <= cursor < source.Size()
        invariant kind == Integer || kind == Decimal
        invariant NumberScan(source.content, cursor, kind) == NumberScan(source.content, start, Integer)
        decreases source.Size() - cursor
      {
        if Peek(1) == '.' {
          if kind == Integer && IsNumberStart(Peek(2)) {
            kind := Decimal;
          } else {
            break;
          }
        }
        Eat(1);
      }
      t := Token(kind, Span(source, start, cursor - start + 1));
    }

    /** `lex_once()`: one token, or one diagnostic pushed and no token. */
    method LexOnce() returns (t: Option<Token>)
      requires Valid()
      modifies this, diagnostics
      ensures var st := LexOnceSpec(source, old(cursor));
        && cursor == st.last
        && (st.Emit? ==> t == Some(st.token) && diagnostics.items == old(diagnostics.items))
        && (st.Report? ==> t == None && diagnostics.items == old(diagnostics.items) + [st.diag])
    {
      ghost var st := LexOnceSpec(source, cursor);
      SkipWhitespace();
      var ch := Peek(0);
      if IsAtEnd(0) {
        assert st == Emit(Token(Eof, Span(source, cursor, 1)), cursor);
        return Some(Token(Eof, Span(source, cursor, 1)));
      }
      assert st == ReadAt(source, cursor);
      if IsIdentStart(ch) {
        assert st == ReadIdentifier(source, cursor);
        var tok := LexIdentifier();
        return Some(tok);
      }
      if IsNumberStart(ch) {
        assert st == ReadNumber(source, cursor);
        var tok := LexNumber();
        return Some(tok);
      }
      assert st == ReadFixed(source, cursor);
      t := LexFixed();
    }

    /** The `switch` of `lex_once`: a fixed token, or an InvalidCharacter
        diagnostic pushed and no token. */
    method LexFixed() returns (t: Option<Token>)
      requires cursor < source.Size()
      modifies this, diagnostics
      ensures var st := ReadFixed(source, old(cursor));
        && cursor == st.last
        && (st.Emit? ==> t == Some(st.token) && diagnostics.items == old(diagnostics.items))
        && (st.Report? ==> t == None && diagnostics.items == old(diagnostics.items) + [st.diag])
    {
      var start := cursor;
      var ch := Peek(0);
      var peek1 := Peek(1);
      var peek2 := Peek(2);
      var m := Punctuation(ch, peek1, peek2);
      if m.Some? {
        var (kind, len) := m.value;
        if len > 1 {
          Eat(len - 1);
        }
        return Some(Token(kind, Span(source, start, len)));
      }
      var diag := NewDiagnostic(InvalidCharacter, Span(source, start, cursor - start + 1), InvalidCharMessage);
      diagnostics.Push(diag);
      return None;
    }

    /** `lex()`: lex until the end-of-input token has been pushed. */
    method Lex()
      requires Valid()
      modifies this, tokens, diagnostics
      ensures Valid() && cursor == EofOffset(source.Size())
      ensures tokens.items == old(tokens.items) + TokensOf(Scan(source, old(cursor)))
      ensures diagnostics.items == old(diagnostics.items) + DiagsOf(Scan(source, old(cursor)))
    {
      ghost var whole := Scan(source, cursor);
      ghost var done: seq<Item> := [];
      while true
        invariant Valid()
        invariant Progress(source, cursor, whole, done, old(tokens.items), tokens.items,
                           old(diagnostics.items), diagnostics.items)
        decreases source.Size() + 1 - cursor
      {
        ghost var before := cursor;
        ghost var st := LexOnceSpec(source, before);
        ghost var ts, ds := tokens.items, diagnostics.items;
        var maybeToken := LexOnce();
        if maybeToken.Some? {
          var token := maybeToken.value;
          tokens.Push(token);
          if token.kind == Eof {
            ProgressEof(source, before, whole, done, old(tokens.items), ts, old(diagnostics.items), ds);
            done := done + [StepItem(st)];
            break;
          }
        }
        ProgressStep(source, before, whole, done, old(tokens.items), ts, old(diagnostics.items), ds);
        done := done + [StepItem(st)];
        Eat(1);
      }
    }
  }
}
/** Worked inputs: what the scanning rules read from a few concrete texts. */
module LexingExamples {
  import opened Wrappers
  import opened Spans
  import opened Tokens
  import opened Lexing

  /** `3.14` is one Decimal. */
  lemma DecimalExample()
    ensures NumberScan("3.14", 0, Integer) == (3, Decimal)
  {
    assert NumberScan("3.14", 1, Decimal) == (3, Decimal);
  }

  /** `3.x` stops before the dot: the dot is not followed by a digit. */
  lemma DotWithoutDigitExample()
    ensures NumberScan("3.x", 0, Integer) == (0, Integer)
  {
  }

  /** In `1.2.3` the second dot is left for the next token. */
  lemma SecondDotExample()
    ensures NumberScan("1.2.3", 0, Integer) == (2, Decimal)
  {
    assert NumberScan("1.2.3", 1, Decimal) == (2, Decimal);
  }

  /** Longest match on operators; a backquote starts no token. */
  lemma FixedExamples()
    ensures Punctuation('*', '*', '=') == Some((StarStarEqual, 3))
    ensures Punctuation('/', '/', 'x') == Some((SlashSlash, 2))
    ensures Punctuation('+', '=', '=') == Some((PlusEqual, 2))
    ensures Punctuation('`', '\0', '\0') == None
  {
  }

  /** Keywords are case-sensitive. */
  lemma KeywordExamples()
    ensures KeywordOrIdentifier("function") == Function
    ensures KeywordOrIdentifier("Function") == Identifier
  {
    assert "Function"[0] != "function"[0] && "Function"[0] != "continue"[0];
  }

  /** Empty content yields just Eof at offset 0; content of whitespace only
      yields just Eof one past the end. */
  lemma EofExamples()
    ensures Scan(StaticSource(""), 0) == [Tok(Token(Eof, Span(StaticSource(""), 0, 1)))]
    ensures Scan(StaticSource(" "), 0) == [Tok(Token(Eof, Span(StaticSource(" "), 2, 1)))]
  {
    assert SkipWs(" ", 0) == 2;
  }

  const MainText := "main := function() 1234"

  /** The tokens `lex()` pushes for `main := function() 1234`. */
  function MainTokens(src: Source): seq<Token> {
    [Token(Identifier, Span(src, 0, 4)), Token(Colon, Span(src, 5, 1)), Token(Equal, Span(src, 6, 1)),
     Token(Function, Span(src, 8, 8)), Token(LParen, Span(src, 16, 1)), Token(RParen, Span(src, 17, 1)),
     Token(Integer, Span(src, 19, 4)), Token(Eof, Span(src, 24, 1))]
  }

  /** `main := function() 1234`: eight tokens, Identifier `main`, Colon,
      Equal, Function, LParen, RParen, Integer `1234` and Eof one past the
      end, and no diagnostic. */
  lemma MainExample()
    ensures var src := StaticSource(MainText);
      var items := Scan(src, 0);
      && TokensOf(items) == [
           Token(Identifier, Span(src, 0, 4)), Token(Colon, Span(src, 5, 1)), Token(Equal, Span(src, 6, 1)),
           Token(Function, Span(src, 8, 8)), Token(LParen, Span(src, 16, 1)), Token(RParen, Span(src, 17, 1)),
           Token(Integer, Span(src, 19, 4)), Token(Eof, Span(src, 24, 1))]
      && DiagsOf(items) == []
      && Lexeme(Span(src, 0, 4)) == "main" && Lexeme(Span(src, 19, 4)) == "1234"
  {
    var src := StaticSource(MainText);
    var ts := MainTokens(src);
    MainScan(src);
    OnlyTokens(ts);
    MainLexemes(src);
  }

  /** Items that are all tokens filter to those tokens and no diagnostic. */
  lemma {:induction false} OnlyTokens(ts: seq<Token>)
    ensures TokensOf(seq(|ts|, i requires 0 <= i < |ts| => Tok(ts[i]))) == ts
    ensures DiagsOf(seq(|ts|, i requires 0 <= i < |ts| => Tok(ts[i]))) == []
    decreases |ts|
  {
    var items := seq(|ts|, i requires 0 <= i < |ts| => Tok(ts[i]));
    if ts != [] {
      OnlyTokens(ts[1..]);
      assert items[1..] == seq(|ts[1..]|, i requires 0 <= i < |ts[1..]| => Tok(ts[1..][i]));
      assert ts == [ts[0]] + ts[1..];
    }
  }

  lemma MainLexemes(src: Source)
    requires src.content == MainText
    ensures Lexeme(Span(src, 0, 4)) == "main" && Lexeme(Span(src, 19, 4)) == "1234"
  {
    assert src.content[0..4] == "main" && src.content[19..23] == "1234";
  }

  lemma MainScan(src: Source)
    requires src.content == MainText
    ensures var ts := MainTokens(src);
      Scan(src, 0) == seq(|ts|, i requires 0 <= i < |ts| => Tok(ts[i]))
  {
    var ts := MainTokens(src);
    MainStep0(src);
    MainStep4(src);
    MainStep6(src);
    MainStep7(src);
    MainStep16(src);
    MainStep17(src);
    MainStep18(src);
    MainStep24(src);
    MainChain(ts, Scan(src, 0), Scan(src, 4), Scan(src, 6), Scan(src, 7),
              Scan(src, 16), Scan(src, 17), Scan(src, 18), Scan(src, 24));
  }

  /** Eight steps of a scan put together: pure sequence reasoning. */
  lemma MainChain(ts: seq<Token>, r0: seq<Item>, r4: seq<Item>, r6: seq<Item>, r7: seq<Item>,
                  r16: seq<Item>, r17: seq<Item>, r18: seq<Item>, r24: seq<Item>)
    requires |ts| == 8
    requires r0 == [Tok(ts[0])] + r4 && r4 == [Tok(ts[1])] + r6 && r6 == [Tok(ts[2])] + r7
    requires r7 == [Tok(ts[3])] + r16 && r16 == [Tok(ts[4])] + r17 && r17 == [Tok(ts[5])] + r18
    requires r18 == [Tok(ts[6])] + r24 && r24 == [Tok(ts[7])]
    ensures r0 == seq(|ts|, i requires 0 <= i < |ts| => Tok(ts[i]))
  {
    assert r0 == [Tok(ts[0]), Tok(ts[1]), Tok(ts[2]), Tok(ts[3]), Tok(ts[4]), Tok(ts[5]), Tok(ts[6]), Tok(ts[7])];
  }

  /** A step of `lex()` that pushes token `t` and moves on to `next`. */
  lemma TokenStep(src: Source, c: nat, t: Token, last: nat, next: nat)
    requires Reachable(src.Size(), c) && LexOnceSpec(src, c) == Emit(t, last) && t.kind != Eof
    requires next == Advance(src.Size(), last, 1)
    ensures Scan(src, c) == [Tok(t)] + Scan(src, next)
  {
    ScanCons(src, c);
  }

  /** A step of `lex_once` that reads a fixed token at the first byte
      after the whitespace. */
  lemma FixedStep(src: Source, c: nat, start: nat, kind: Kind, len: nat)
    requires start < src.Size() && SkipWs(src.content, c) == start
    requires !IsIdentStart(src.content[start]) && !IsNumberStart(src.content[start])
    requires Punctuation(src.content[start], PeekAt(src.content, start, 1), PeekAt(src.content, start, 2)) == Some((kind, len))
    ensures LexOnceSpec(src, c) == Emit(Token(kind, Span(src, start, len)), start + len - 1)
  {
    assert ReadAt(src, start) == ReadFixed(src, start);
  }

  /** A step of `lex_once` that reads a word at the first byte after the
      whitespace. */
  lemma WordStep(src: Source, c: nat, start: nat, last: nat, kind: Kind)
    requires start < src.Size() && SkipWs(src.content, c) == start
    requires IsIdentStart(src.content[start]) && IdentLast(src.content, start) == last
    requires KeywordOrIdentifier(src.content[start..last + 1]) == kind
    ensures LexOnceSpec(src, c) == Emit(Token(kind, Span(src, start, last - start + 1)), last)
  {
    var ch := src.content[start];
    assert !IsWhitespace(ch) && !IsNumberStart(ch) by {
      assert IsAlpha(ch) || ch == '_';
    }
    IdentifierRead(src, start, last, kind);
    assert ReadAt(src, start) == ReadIdentifier(src, start);
    assert LexOnceSpec(src, c) == ReadAt(src, start);
  }

  lemma MainStep0(src: Source)
    requires src.content == MainText
    ensures Scan(src, 0) == [Tok(MainTokens(src)[0])] + Scan(src, 4)
  {
    MainWordFacts(src.content);
    WordStep(src, 0, 0, 3, Identifier);
    TokenStep(src, 0, MainTokens(src)[0], 3, 4);
  }

  lemma MainWordFacts(s: string)
    requires s == MainText
    ensures SkipWs(s, 0) == 0 && IsIdentStart(s[0]) && IdentLast(s, 0) == 3
    ensures KeywordOrIdentifier(s[0..4]) == Identifier
  {
    MainWordEnds(s);
    MainWordIsIdentifier(s[0..4]);
  }

  lemma MainWordEnds(s: string)
    requires s == MainText
    ensures SkipWs(s, 0) == 0 && IsIdentStart(s[0]) && IdentLast(s, 0) == 3
  {
    assert s[0] == 'm' && s[1] == 'a' && s[2] == 'i' && s[3] == 'n' && s[4] == ' ';
    IdentLastUnique(s, 0, 3);
  }

  lemma MainWordIsIdentifier(w: string)
    requires w == MainText[0..4]
    ensures KeywordOrIdentifier(w) == Identifier
  {
    assert w == "main";
  }

  lemma MainStep7(src: Source)
    requires src.content == MainText
    ensures Scan(src, 7) == [Tok(MainTokens(src)[3])] + Scan(src, 16)
  {
    MainLex7(src);
    TokenStep(src, 7, MainTokens(src)[3], 15, 16);
  }

  lemma MainLex7(src: Source)
    requires src.content == MainText
    ensures LexOnceSpec(src, 7) == Emit(Token(Function, Span(src, 8, 8)), 15)
  {
    MainKeywordFacts(src.content);
    WordStep(src, 7, 8, 15, Function);
  }

  lemma MainKeywordFacts(s: string)
    requires s == MainText
    ensures SkipWs(s, 7) == 8 && IsIdentStart(s[8]) && IdentLast(s, 8) == 15
    ensures KeywordOrIdentifier(s[8..16]) == Function
  {
    MainKeywordEnds(s);
    FunctionKeyword(s[8..16]);
  }

  lemma MainKeywordEnds(s: string)
    requires s == MainText
    ensures SkipWs(s, 7) == 8 && IsIdentStart(s[8]) && IdentLast(s, 8) == 15
  {
    assert s[7] == ' ' && s[8] == 'f' && s[16] == '(';
    assert s[9] == 'u' && s[10] == 'n' && s[11] == 'c' && s[12] == 't';
    assert s[13] == 'i' && s[14] == 'o' && s[15] == 'n';
    IdentLastUnique(s, 8, 15);
  }

  lemma FunctionKeyword(w: string)
    requires w == MainText[8..16]
    ensures KeywordOrIdentifier(w) == Function
  {
    assert w == "function";
  }

  /** A step of `lex()` that pushes a one-byte fixed token and moves on
      to the byte after it. */
  lemma FixedTokenStep(src: Source, c: nat, start: nat, kind: Kind)
    requires c <= start && start + 1 < src.Size() && SkipWs(src.content, c) == start
    requires !IsIdentStart(src.content[start]) && !IsNumberStart(src.content[start])
    requires Punctuation(src.content[start], PeekAt(src.content, start, 1), PeekAt(src.content, start, 2)) == Some((kind, 1))
    requires kind != Eof
    ensures Scan(src, c) == [Tok(Token(kind, Span(src, start, 1)))] + Scan(src, start + 1)
  {
    FixedStep(src, c, start, kind, 1);
    TokenStep(src, c, Token(kind, Span(src, start, 1)), start, start + 1);
  }

  lemma MainStep4(src: Source)
    requires src.content == MainText
    ensures Scan(src, 4) == [Tok(MainTokens(src)[1])] + Scan(src, 6)
  {
    MainColonAt(src.content);
    FixedTokenStep(src, 4, 5, Colon);
  }

  lemma MainColonAt(s: string)
    requires s == MainText
    ensures SkipWs(s, 4) == 5 && !IsIdentStart(s[5]) && !IsNumberStart(s[5])
    ensures Punctuation(s[5], PeekAt(s, 5, 1), PeekAt(s, 5, 2)) == Some((Colon, 1))
  {
    assert s[4] == ' ' && s[5] == ':' && s[6] == '=' && s[7] == ' ';
  }

  lemma MainStep6(src: Source)
    requires src.content == MainText
    ensures Scan(src, 6) == [Tok(MainTokens(src)[2])] + Scan(src, 7)
  {
    MainEqualAt(src.content);
    FixedTokenStep(src, 6, 6, Equal);
  }

  lemma MainEqualAt(s: string)
    requires s == MainText
    ensures SkipWs(s, 6) == 6 && !IsIdentStart(s[6]) && !IsNumberStart(s[6])
    ensures Punctuation(s[6], PeekAt(s, 6, 1), PeekAt(s, 6, 2)) == Some((Equal, 1))
  {
    assert s[6] == '=' && s[7] == ' ' && s[8] == 'f';
  }

  lemma MainStep16(src: Source)
    requires src.content == MainText
    ensures Scan(src, 16) == [Tok(MainTokens(src)[4])] + Scan(src, 17)
  {
    MainLParenAt(src.content);
    FixedTokenStep(src, 16, 16, LParen);
  }

  lemma MainLParenAt(s: string)
    requires s == MainText
    ensures SkipWs(s, 16) == 16 && !IsIdentStart(s[16]) && !IsNumberStart(s[16])
    ensures Punctuation(s[16], PeekAt(s, 16, 1), PeekAt(s, 16, 2)) == Some((LParen, 1))
  {
    assert s[16] == '(' && s[17] == ')' && s[18] == ' ';
  }

  lemma MainStep17(src: Source)
    requires src.content == MainText
    ensures Scan(src, 17) == [Tok(MainTokens(src)[5])] + Scan(src, 18)
  {
    MainRParenAt(src.content);
    FixedTokenStep(src, 17, 17, RParen);
  }

  lemma MainRParenAt(s: string)
    requires s == MainText
    ensures SkipWs(s, 17) == 17 && !IsIdentStart(s[17]) && !IsNumberStart(s[17])
    ensures Punctuation(s[17], PeekAt(s, 17, 1), PeekAt(s, 17, 2)) == Some((RParen, 1))
  {
    assert s[17] == ')' && s[18] == ' ' && s[19] == '1';
  }

  lemma MainStep18(src: Source)
    requires src.content == MainText
    ensures Scan(src, 18) == [Tok(MainTokens(src)[6])] + Scan(src, 24)
  {
    MainLex18(src);
    TokenStep(src, 18, MainTokens(src)[6], 22, 24);
  }

  lemma MainLex18(src: Source)
    requires src.content == MainText
    ensures LexOnceSpec(src, 18) == Emit(Token(Integer, Span(src, 19, 4)), 22)
  {
    MainNumberAt(src.content);
    assert ReadAt(src, 19) == ReadNumber(src, 19);
  }

  lemma MainNumberAt(s: string)
    requires s == MainText
    ensures SkipWs(s, 18) == 19 && !IsIdentStart(s[19]) && IsNumberStart(s[19])
    ensures NumberScan(s, 19, Integer) == (22, Integer)
  {
    assert s[18] == ' ' && s[19] == '1' && s[20] == '2' && s[21] == '3' && s[22] == '4';
    assert NumberScan(s, 21, Integer) == (22, Integer);
  }

  lemma MainStep24(src: Source)
    requires src.content == MainText
    ensures Scan(src, 24) == [Tok(MainTokens(src)[7])]
  {
    assert SkipWs(src.content, 24) == 24;
  }
}
