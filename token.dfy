/**
 * The token taxonomy (the 51 entries of the token list, in declaration
 * order, each with its display string), the immutable token record, and the
 * append-only token collection with its listing text.
 */
module Tokens {
  import opened Wrappers
  import opened Numerals
  import opened Spans

  /** The closed set of token kinds, in the order the token list declares them. */
  datatype Kind =
    LParen | RParen | LCurl | RCurl | LBrac | RBrac
    | Plus | PlusPlus | PlusEqual | Minus | MinusMinus | MinusEqual | Star | StarStar | StarEqual | StarStarEqual | Slash | SlashSlash | SlashEqual | SlashSlashEqual
    | And | AndAnd | Bar | BarBar | Less | LessEqual | More | MoreEqual | Bang | BangEqual | Equal | EqualEqual
    | Dot | Comma | Colon | Semicolon | Question | Percent
    | Function | If | Else | For | Break | Continue
    | Identifier | Decimal | Integer | String | Boolean
    | Eof | Newline

  /** The kind with enumerator value `i`: the `i`-th entry of the token list. */
  function KindAt(i: nat): Kind
    requires i < 51
  {
    match i
    case 0 => LParen
    case 1 => RParen
    case 2 => LCurl
    case 3 => RCurl
    case 4 => LBrac
    case 5 => RBrac
    case 6 => Plus
    case 7 => PlusPlus
    case 8 => PlusEqual
    case 9 => Minus
    case 10 => MinusMinus
    case 11 => MinusEqual
    case 12 => Star
    case 13 => StarStar
    case 14 => StarEqual
    case 15 => StarStarEqual
    case 16 => Slash
    case 17 => SlashSlash
    case 18 => SlashEqual
    case 19 => SlashSlashEqual
    case 20 => And
    case 21 => AndAnd
    case 22 => Bar
    case 23 => BarBar
    case 24 => Less
    case 25 => LessEqual
    case 26 => More
    case 27 => MoreEqual
    case 28 => Bang
    case 29 => BangEqual
    case 30 => Equal
    case 31 => EqualEqual
    case 32 => Dot
    case 33 => Comma
    case 34 => Colon
    case 35 => Semicolon
    case 36 => Question
    case 37 => Percent
    case 38 => Function
    case 39 => If
    case 40 => Else
    case 41 => For
    case 42 => Break
    case 43 => Continue
    case 44 => Identifier
    case 45 => Decimal
    case 46 => Integer
    case 47 => String
    case 48 => Boolean
    case 49 => Eof
    case 50 => Newline
  }

  /** Every kind once, in declaration order. */
  const AllKinds: seq<Kind> := seq(51, i requires 0 <= i < 51 => KindAt(i))

  /** The display string of each kind, as the token list has it (note
      `PlusEqual` is displayed as `++=`). */
  function Repr(k: Kind): (r: string)
    ensures r != []
  {
    match k
    case LParen => "("
    case RParen => ")"
    case LCurl => "{"
    case RCurl => "}"
    case LBrac => "["
    case RBrac => "]"
    case Plus => "+"
    case PlusPlus => "++"
    case PlusEqual => "++="
    case Minus => "-"
    case MinusMinus => "--"
    case MinusEqual => "-="
    case Star => "*"
    case StarStar => "**"
    case StarEqual => "*="
    case StarStarEqual => "**="
    case Slash => "/"
    case SlashSlash => "//"
    case SlashEqual => "/="
    case SlashSlashEqual => "//="
    case And => "&"
    case AndAnd => "&&"
    case Bar => "|"
    case BarBar => "||"
    case Less => "<"
    case LessEqual => "<="
    case More => ">"
    case MoreEqual => ">="
    case Bang => "!"
    case BangEqual => "!="
    case Equal => "="
    case EqualEqual => "=="
    case Dot => "."
    case Comma => ","
    case Colon => ":"
    case Semicolon => ";"
    case Question => "?"
    case Percent => "%"
    case Function => "function"
    case If => "if"
    case Else => "else"
    case For => "for"
    case Break => "break"
    case Continue => "continue"
    case Identifier => "identifier"
    case Decimal => "decimal"
    case Integer => "integer"
    case String => "string"
    case Boolean => "boolean"
    case Eof => "<eof>"
    case Newline => "<\\n>"
  }

  /** Reading a display string back, as a tool reading a token dump would:
      the kind shown by `r`, if any. It goes by length first, then by the
      characters that tell the candidates apart. */
  function KindOfRepr(r: string): Option<Kind>
  {
    if |r| == 1 then OneCharKind(r[0])
    else if |r| == 2 then TwoCharKind(r)
    else if |r| == 3 then ThreeCharKind(r)
    else WordKind(r)
  }

  function OneCharKind(c: char): Option<Kind> {
    if c == '(' then Some(LParen)
    else if c == ')' then Some(RParen)
    else if c == '{' then Some(LCurl)
    else if c == '}' then Some(RCurl)
    else if c == '[' then Some(LBrac)
    else if c == ']' then Some(RBrac)
    else if c == '+' then Some(Plus)
    else if c == '-' then Some(Minus)
    else if c == '*' then Some(Star)
    else if c == '/' then Some(Slash)
    else if c == '&' then Some(And)
    else if c == '|' then Some(Bar)
    else if c == '<' then Some(Less)
    else if c == '>' then Some(More)
    else if c == '!' then Some(Bang)
    else if c == '=' then Some(Equal)
    else if c == '.' then Some(Dot)
    else if c == ',' then Some(Comma)
    else if c == ':' then Some(Colon)
    else if c == ';' then Some(Semicolon)
    else if c == '?' then Some(Question)
    else if c == '%' then Some(Percent)
    else None
  }

  /** Two-character displays: a doubled operator, an operator followed by
      `=`, or the keyword `if`. */
  function TwoCharKind(r: string): Option<Kind>
    requires |r| == 2
  {
    var c := r[0];
    if r[1] == c then
      if c == '+' then Some(PlusPlus)
      else if c == '-' then Some(MinusMinus)
      else if c == '*' then Some(StarStar)
      else if c == '/' then Some(SlashSlash)
      else if c == '&' then Some(AndAnd)
      else if c == '|' then Some(BarBar)
      else if c == '=' then Some(EqualEqual)
      else None
    else if r[1] == '=' then
      if c == '-' then Some(MinusEqual)
      else if c == '*' then Some(StarEqual)
      else if c == '/' then Some(SlashEqual)
      else if c == '<' then Some(LessEqual)
      else if c == '>' then Some(MoreEqual)
      else if c == '!' then Some(BangEqual)
      else None
    else if c == 'i' && r[1] == 'f' then Some(If)
    else None
  }

  /** Three-character displays: a doubled operator followed by `=`, or the
      keyword `for`. */
  function ThreeCharKind(r: string): Option<Kind>
    requires |r| == 3
  {
    var c := r[0];
    if r[1] == c && r[2] == '=' then
      if c == '+' then Some(PlusEqual)
      else if c == '*' then Some(StarStarEqual)
      else if c == '/' then Some(SlashSlashEqual)
      else None
    else if r == "for" then Some(For)
    else None
  }

  /** Longer displays: the remaining keywords and the kind names. */
  function WordKind(r: string): Option<Kind> {
    if r == "function" then Some(Function)
    else if r == "else" then Some(Else)
    else if r == "break" then Some(Break)
    else if r == "continue" then Some(Continue)
    else if r == "identifier" then Some(Identifier)
    else if r == "decimal" then Some(Decimal)
    else if r == "integer" then Some(Integer)
    else if r == "string" then Some(String)
    else if r == "boolean" then Some(Boolean)
    else if r == "<eof>" then Some(Eof)
    else if r == "<\\n>" then Some(Newline)
    else None
  }

  /** Each kind has its own display string: reading it back gives the kind,
      so no two kinds are displayed alike. */
  lemma ReprRoundTrip(k: Kind)
    ensures KindOfRepr(Repr(k)) == Some(k)
  {
    var i := Ordinal(k);
    if i < 13 {
      ReprRoundTripFrom0(k);
    } else if i < 26 {
      ReprRoundTripFrom13(k);
    } else if i < 38 {
      ReprRoundTripFrom26(k);
    } else {
      ReprRoundTripFrom38(k);
    }
  }

  lemma ReprRoundTripFrom0(k: Kind)
    requires 0 <= Ordinal(k) < 13
    ensures KindOfRepr(Repr(k)) == Some(k)
  {
  }

  lemma ReprRoundTripFrom13(k: Kind)
    requires 13 <= Ordinal(k) < 26
    ensures KindOfRepr(Repr(k)) == Some(k)
  {
  }

  lemma ReprRoundTripFrom26(k: Kind)
    requires 26 <= Ordinal(k) < 38
    ensures KindOfRepr(Repr(k)) == Some(k)
  {
  }

  lemma ReprRoundTripFrom38(k: Kind)
    requires 38 <= Ordinal(k) < 51
    ensures KindOfRepr(Repr(k)) == Some(k)
  {
  }

  /** No two kinds share a display string. */
  lemma ReprInjective(k1: Kind, k2: Kind)
    requires Repr(k1) == Repr(k2)
    ensures k1 == k2
  {
    ReprRoundTrip(k1);
    ReprRoundTrip(k2);
  }

  /** The enumerator value of a kind: its position in the token list. */
  function Ordinal(k: Kind): (i: nat)
    ensures i < 51
  {
    match k
    case LParen => 0
    case RParen => 1
    case LCurl => 2
    case RCurl => 3
    case LBrac => 4
    case RBrac => 5
    case Plus => 6
    case PlusPlus => 7
    case PlusEqual => 8
    case Minus => 9
    case MinusMinus => 10
    case MinusEqual => 11
    case Star => 12
    case StarStar => 13
    case StarEqual => 14
    case StarStarEqual => 15
    case Slash => 16
    case SlashSlash => 17
    case SlashEqual => 18
    case SlashSlashEqual => 19
    case And => 20
    case AndAnd => 21
    case Bar => 22
    case BarBar => 23
    case Less => 24
    case LessEqual => 25
    case More => 26
    case MoreEqual => 27
    case Bang => 28
    case BangEqual => 29
    case Equal => 30
    case EqualEqual => 31
    case Dot => 32
    case Comma => 33
    case Colon => 34
    case Semicolon => 35
    case Question => 36
    case Percent => 37
    case Function => 38
    case If => 39
    case Else => 40
    case For => 41
    case Break => 42
    case Continue => 43
    case Identifier => 44
    case Decimal => 45
    case Integer => 46
    case String => 47
    case Boolean => 48
    case Eof => 49
    case Newline => 50
  }

  /** The kind set is closed: 51 kinds, each listed once. */
  lemma KindsClosed()
    ensures |AllKinds| == 51
    ensures forall k: Kind :: k in AllKinds
    ensures forall i, j :: 0 <= i < j < |AllKinds| ==> AllKinds[i] != AllKinds[j]
  {
    forall k: Kind ensures k in AllKinds {
      ListedAtOrdinal(k);
      assert AllKinds[Ordinal(k)] == k;
    }
    forall i, j | 0 <= i < j < |AllKinds| ensures AllKinds[i] != AllKinds[j] {
      OrdinalOfListed(i);
      OrdinalOfListed(j);
    }
  }

  /** The enumerator value of the `i`-th entry is `i`; shown a few entries
      at a time. */
  lemma OrdinalOfListed(i: nat)
    requires i < 51
    ensures Ordinal(KindAt(i)) == i
  {
    if i < 6 {
      OrdinalOfListedBelow6(i);
    } else if i < 12 {
      OrdinalOfListedBelow12(i);
    } else if i < 18 {
      OrdinalOfListedBelow18(i);
    } else if i < 24 {
      OrdinalOfListedBelow24(i);
    } else if i < 30 {
      OrdinalOfListedBelow30(i);
    } else if i < 36 {
      OrdinalOfListedBelow36(i);
    } else if i < 42 {
      OrdinalOfListedBelow42(i);
    } else if i < 47 {
      OrdinalOfListedBelow47(i);
    } else {
      OrdinalOfListedBelow51(i);
    }
  }

  lemma OrdinalOfListedBelow6(i: nat)
    requires 0 <= i < 6
    ensures Ordinal(KindAt(i)) == i
  {
  }

  lemma OrdinalOfListedBelow12(i: nat)
    requires 6 <= i < 12
    ensures Ordinal(KindAt(i)) == i
  {
  }

  lemma OrdinalOfListedBelow18(i: nat)
    requires 12 <= i < 18
    ensures Ordinal(KindAt(i)) == i
  {
  }

  lemma OrdinalOfListedBelow24(i: nat)
    requires 18 <= i < 24
    ensures Ordinal(KindAt(i)) == i
  {
  }

  lemma OrdinalOfListedBelow30(i: nat)
    requires 24 <= i < 30
    ensures Ordinal(KindAt(i)) == i
  {
  }

  lemma OrdinalOfListedBelow36(i: nat)
    requires 30 <= i < 36
    ensures Ordinal(KindAt(i)) == i
  {
  }

  lemma OrdinalOfListedBelow42(i: nat)
    requires 36 <= i < 42
    ensures Ordinal(KindAt(i)) == i
  {
  }

  lemma OrdinalOfListedBelow47(i: nat)
    requires 42 <= i < 47
    ensures Ordinal(KindAt(i)) == i
  {
  }

  lemma OrdinalOfListedBelow51(i: nat)
    requires 47 <= i < 51
    ensures Ordinal(KindAt(i)) == i
  {
  }

  /** Each kind is the entry its enumerator value points at. */
  lemma ListedAtOrdinal(k: Kind)
    ensures KindAt(Ordinal(k)) == k
  {
    var i := Ordinal(k);
    if i < 10 {
      ListedAtOrdinalBelow10(k);
    } else if i < 20 {
      ListedAtOrdinalBelow20(k);
    } else if i < 30 {
      ListedAtOrdinalBelow30(k);
    } else if i < 40 {
      ListedAtOrdinalBelow40(k);
    } else {
      ListedAtOrdinalBelow51(k);
    }
  }

  lemma ListedAtOrdinalBelow10(k: Kind)
    requires 0 <= Ordinal(k) < 10
    ensures KindAt(Ordinal(k)) == k
  {
  }

  lemma ListedAtOrdinalBelow20(k: Kind)
    requires 10 <= Ordinal(k) < 20
    ensures KindAt(Ordinal(k)) == k
  {
  }

  lemma ListedAtOrdinalBelow30(k: Kind)
    requires 20 <= Ordinal(k) < 30
    ensures KindAt(Ordinal(k)) == k
  {
  }

  lemma ListedAtOrdinalBelow40(k: Kind)
    requires 30 <= Ordinal(k) < 40
    ensures KindAt(Ordinal(k)) == k
  {
  }

  lemma ListedAtOrdinalBelow51(k: Kind)
    requires 40 <= Ordinal(k) < 51
    ensures KindAt(Ordinal(k)) == k
  {
  }

  /* ------------------------------------------------------------------------ */
  /* Tokens                                                                   */
  /* ------------------------------------------------------------------------ */

  /** An immutable (kind, span) pair. */
  datatype Token = Token(kind: Kind, span: Span)

  /** `Token(kind, span)`: stores both unchanged. */
  function NewToken(kind: Kind, span: Span): (t: Token)
    ensures t.kind == kind && t.span == span
  {
    Token(kind, span)
  }

  /** The kinds whose rendering also shows the lexeme. */
  predicate ShowsLexeme(k: Kind) {
    k == Identifier || k == Decimal || k == Integer || k == String
  }

  /** The text of a token: its position, its display string in brackets,
      and for literal classes its lexeme in quotes. */
  function TokenText(t: Token): (r: string)
    ensures SpanText(t.span) + " [" + Repr(t.kind) + "]" <= r
  {
    SpanText(t.span) + " [" + Repr(t.kind) + "]"
    + (if ShowsLexeme(t.kind) then " '" + Lexeme(t.span) + "'" else "")
  }

  /** A token's text is its position and its bracketed display string; a
      literal token that lies in its source then quotes exactly the bytes
      it covers, one that does not quotes nothing. */
  lemma TokenTextParts(t: Token)
    ensures ShowsLexeme(t.kind) && InBounds(t.span) ==>
      TokenText(t) == SpanText(t.span) + " [" + Repr(t.kind) + "]"
                      + (" '" + t.span.source.content[t.span.offset..t.span.offset + t.span.length] + "'")
    ensures ShowsLexeme(t.kind) && !InBounds(t.span) ==>
      TokenText(t) == SpanText(t.span) + " [" + Repr(t.kind) + "]" + " ''"
    ensures !ShowsLexeme(t.kind) ==> TokenText(t) == SpanText(t.span) + " [" + Repr(t.kind) + "]"
  {
    if ShowsLexeme(t.kind) && !InBounds(t.span) {
      assert " '" + Lexeme(t.span) + "'" == " ''";
    }
  }

  /** One numbered line of the listing. */
  function Entry(i: nat, t: Token): string {
    "  " + NatToString(i) + ": " + TokenText(t) + "\n"
  }

  /** The numbered lines for `ts`, numbered from 0 in order. */
  function Entries(ts: seq<Token>): (r: string)
    ensures r == [] <==> ts == []
  {
    if ts == [] then "" else Entries(ts[..|ts| - 1]) + Entry(|ts| - 1, ts[|ts| - 1])
  }

  function ListingHeader(path: string): string {
    "Printing tokens for file: `" + path + "`:\n"
  }

  /** What `TokenCollect::print_all` writes. */
  function ListingText(path: string, ts: seq<Token>): (r: string)
    ensures ListingHeader(path) + Entries(ts) <= r
    ensures |r| == |ListingHeader(path)| + |Entries(ts)| + 1 && r[|r| - 1] == '\n'
  {
    ListingHeader(path) + Entries(ts) + "\n"
  }

  /** Pushing a token only extends the listing: the earlier entries and
      their numbers stay, and the new one is numbered by its position. */
  lemma ListingExtends(ts: seq<Token>, t: Token)
    ensures Entries(ts + [t]) == Entries(ts) + Entry(|ts|, t)
  {
    var u := ts + [t];
    assert u[..|u| - 1] == ts;
  }

  lemma EntriesStep(ts: seq<Token>, i: nat)
    requires i < |ts|
    ensures Entries(ts[..i + 1]) == Entries(ts[..i]) + Entry(i, ts[i])
  {
    assert ts[..i + 1][..i] == ts[..i];
  }

  /** The entries of a prefix of the tokens begin the entries of all of them. */
  lemma {:induction false} EntriesPrefix(ts: seq<Token>, m: nat)
    requires m <= |ts|
    ensures Entries(ts[..m]) <= Entries(ts)
    decreases |ts| - m
  {
    if m == |ts| {
      assert ts[..m] == ts;
    } else {
      var init := ts[..|ts| - 1];
      assert init[..m] == ts[..m];
      EntriesPrefix(init, m);
    }
  }

  /** The listing shows the tokens in order, numbered from 0: entry `i` is
      token `i`, right after the entries of the tokens before it. */
  lemma EntryInListing(ts: seq<Token>, i: nat)
    requires i < |ts|
    ensures Entries(ts[..i]) + Entry(i, ts[i]) <= Entries(ts)
  {
    assert ts[..i + 1][..i] == ts[..i];
    EntriesPrefix(ts, i + 1);
  }

  /** The token vector: append-only, owned with the source it was lexed from. */
  class TokenCollect {
    const source: Source
    var items: seq<Token>

    /** `TokenCollect(source)`: empty. */
    constructor (source: Source)
      ensures this.source == source && items == []
    {
      this.source := source;
      items := [];
    }

    /** `data()`: the tokens in push order. */
    function Data(): (r: seq<Token>)
      reads this
      ensures r == items
    {
      items
    }

    /** `push`: appends at the end, leaving earlier tokens as they were. */
    method Push(t: Token)
      modifies this
      ensures items == old(items) + [t]
      ensures |items| == |old(items)| + 1 && items[..|old(items)|] == old(items)
    {
      items := items + [t];
    }

    /** `print_all`, with the text it writes returned instead. */
    method PrintAll() returns (out: string)
      ensures out == ListingText(source.path, items)
    {
      var ts := items;
      var body := "";
      var i := 0;
      while i < |ts|
        invariant 0 <= i <= |ts|
        invariant body == Entries(ts[..i])
      {
        EntriesStep(ts, i);
        body := body + Entry(i, ts[i]);
        i := i + 1;
      }
      assert ts[..i] == ts;
      out := ListingHeader(source.path) + body + "\n";
    }
  }

  /** A new vector for `source` followed by pushes of `ts`, one by one:
      `data()` then gives back exactly `ts`, in push order. */
  method Collect(source: Source, ts: seq<Token>) returns (c: TokenCollect)
    ensures fresh(c) && c.source == source
    ensures c.Data() == ts
  {
    c := new TokenCollect(source);
    var i := 0;
    while i < |ts|
      invariant 0 <= i <= |ts|
      invariant c.Data() == ts[..i]
    {
      c.Push(ts[i]);
      assert ts[..i + 1] == ts[..i] + [ts[i]];
      i := i + 1;
    }
    assert ts[..i] == ts;
  }
}
