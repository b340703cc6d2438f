# Alta lexer front end in Dafny

A model of the front end of the Alta compiler: the byte-level lexer, the
source and span position arithmetic it reports positions with, the token and
diagnostic taxonomies with their append-only collections and rendered texts,
and the operator flag table.

- `span.dfy` (module `Spans`): a `Source` (content, display path, cached
  size) and a `Span` (offset, length). `Source::line` is the loop method
  `Line`, specified by `LineOf`. `LineOf` keeps the behaviour of the code as
  written. `LineAt` is the intended line. The module also has line number,
  column number, lexeme and the `path:line:column` text.
- `token.dfy` (module `Tokens`): the 51 token kinds in declaration order and
  their display strings. It also holds a decoder reading a display string
  back, the immutable `Token`, the class `TokenCollect` and the text of a
  token listing.
- `diagnostic.dfy` (module `Diagnostics`): the issue table with display
  strings and levels, and the level texts. It also holds the immutable
  `Diagnostic`, the class `DiagCollect` and the diagnostic text.
- `operator.dfy` (module `Operators`): the `uint8_t` flag set as `bv8` with
  `|` and `&`, the operator table and the operator text.
- `lexer.dfy` (module `Lexing`): the byte classes, `keyword_or_identifier`
  and the class `Lexer` with a `cursor` field and the two collections.
  - Each method is proved against a value-level function of the cursor:
    `SkipWs`, `IdentLast`, `NumberScan`, `Punctuation`, `LexOnceSpec`.
  - `Lex` is proved to append exactly the tokens and diagnostics of `Scan`,
    the whole run of `lex()` as a sequence of items.
  - Lemmas about `Scan` state the output shape: one `Eof`, last, at the
    documented offset; in-bounds, non-empty, ascending spans; whitespace
    exactly where nothing is covered; well-formed identifiers and numbers.
  - Module `LexingExamples` works through concrete inputs.
- `numerals.dfy` (module `Numerals`): decimal rendering of line and column
  numbers, with its round trip.
- `wrappers.dfy` (module `Wrappers`): the `Option` type used for
  `std::optional`.

The cursor convention of the C++ is kept exactly.
- The helpers leave the cursor on the last byte of what they read.
- `lex()` always takes the final one-byte step.
- `eat(k)` from a cursor with `cursor + k >= size` moves the cursor to
  `size + k`.
- So the `Eof` token sits at offset 0 for empty content and at `size + 1`
  otherwise (`EofOffset`).

## Model

| member | source | states |
|---|---|---|
| Spans.FindNewline | src/common/span.cpp:42 | `find('\n', start)`: the result is a newline at or after `start` with none between; None means no newline from `start` on |
| Spans.RFindNewline | src/common/span.cpp:72 | `rfind('\n', offset)`: the result is the last newline at or before the offset; None means none at or before it |
| Spans.LineEnd | src/common/span.cpp:41-50 | the line from `a` runs to just past its first newline, or to the end of the content if there is none |
| Spans.LineStart | src/common/span.cpp:23-34 | where line `ln` starts: an index after exactly `ln - 1` newlines that is 0 or follows a newline |
| Spans.LineStartComplete | src/common/span.cpp:23-34 | any index with `ln - 1` newlines before it that is 0 or follows a newline is the one `LineStart` finds |
| Spans.LineStartDefined | src/common/span.cpp:36-39 | line `ln` exists exactly when `ln <= 1 +` the number of newlines |
| Spans.LineAt | src/common/span.cpp:20-51 | the intended line `ln`: a piece of the content with a newline only as its last byte, empty past the last line; `Spans.LinesJoin` proves the lines join back to the content |
| Spans.LineOf | src/common/span.cpp:20-51 | `Source::line` as written: also a single line, empty past the last line; `Spans.LineOfAgrees` proves it is `LineAt` on every line number a position can have, `Spans.LineQuirkWitness` shows where it is not |
| Spans.ScanFound | src/common/span.cpp:23-50 | when the scan of `Source::line` meets line `ln` at index `a`, the line is `content[a..LineEnd(a))` |
| Spans.ScanExhausted | src/common/span.cpp:23-50 | when the scan runs off the end with its counter at `ln`, `start` stays 0 and the first line is returned |
| Spans.Line | src/common/span.cpp:20-51 | the loop of `Source::line` (find the start, then the end) returns exactly `LineOf(content, ln)` |
| Spans.LineNumber | src/common/span.cpp:53-66 | None exactly when the offset is not below the size, otherwise a line number between 1 and 1 + the number of newlines |
| Spans.ComputeLineNumber | src/common/span.cpp:53-66 | the counting loop of `line_number` returns `LineNumber` |
| Spans.ColumnStart | src/common/span.cpp:53-76 | for an offset not on a newline the column counts from the start of its line, and the line number counts the newlines before that start |
| Spans.ColumnNumber | src/common/span.cpp:68-76 | None exactly when the span is out of bounds; otherwise the distance to the last newline at or before the offset (offset + 1 if none), so a span starting on a newline gets column 0 |
| Spans.Lexeme | src/common/span.cpp:78-83 | empty when out of bounds, otherwise the `length` bytes of the content from the offset |
| Spans.SpanText | src/common/span.cpp:85-95 | the position text begins with the path and a colon; `Spans.SpanTextCases` proves the line and column parts read back to `line_number` and `column_number`, with `<y?>` and `<x?>` when they do not resolve |
| Spans.LineColumnAgree | src/common/span.cpp:20-76 | the byte at an in-bounds offset that is not a newline is byte `column - 1` of `line(line_number)` |
| Spans.LineContains | src/common/span.cpp:41-50 | a line that starts at `a` and has no newline in `[a, o]` holds byte `o` at position `o - a` |
| Spans.LineOfAgrees | src/common/span.cpp:20-51 | on every line number a position in the content can have, `Source::line` as written returns the intended line |
| Spans.LineQuirkWitness | src/common/span.cpp:23-49 | on `"a\n"`, line 2 comes back as `"a\n"` (the intended line is empty), so lines 1 and 2 no longer join to the content |
| Spans.JoinLinesPrefix | src/common/span.cpp:41-50 | the intended lines 1 to `k` put together are the content up to the end of line `k` |
| Spans.LinesJoin | src/common/span.cpp:20-51 | the intended lines, one after the other, give back the whole content |
| Spans.LastLine | src/common/span.cpp:41-46 | the last line starts after the last newline and runs to the end of the content |
| Spans.SpanTextCases | src/common/span.cpp:85-95 | the position text is `path:y:x` with the decimal line and column read back to their values; it shows `<y?>` and `<x?>` when neither resolves, and only `<x?>` when the offset is inside but the span runs past the end |
| Spans.ThreeLineCounts | tests/tests.cpp:20-23 | the newlines before offsets 6, 7, 13, 14 and 19 of the three-line test text |
| Spans.ThreeLineFirstSpan | tests/tests.cpp:26-31 | span `(0, 4)` has line 1, column 1 and lexeme `Line` |
| Spans.ThreeLineSecondSpan | tests/tests.cpp:32-37 | span `(7, 4)` has line 2, column 1 and lexeme `Line` |
| Spans.ThreeLineThirdSpan | tests/tests.cpp:38-43 | span `(19, 1)` has line 3, column 6 and lexeme `3` |
| Spans.ThreeLineFirstLine | tests/tests.cpp:52 | `line(1)` is `"Line 1\n"` |
| Spans.ThreeLineSecondLine | tests/tests.cpp:53 | `line(2)` is `"Line 2\n"` |
| Spans.ThreeLineThirdLine | tests/tests.cpp:54 | `line(3)` is `"Line 3"` |
| Spans.LineOfBetween | src/common/span.cpp:23-49 | a line the scan meets at `a` that ends with the newline at `e` is `content[a..e]` with the newline |
| Spans.LineOfToEnd | src/common/span.cpp:44-46 | a line the scan meets at `a` with no newline after it runs to the end |
| Spans.ThreeLineSpanText | tests/tests.cpp:57-70 | span `(0, 4)` of a static source renders as `<static>:1:1` |
| Numerals.NatToString | src/common/span.cpp:88-91 | `std::to_string` of a count: decimal digits only, no leading zero |
| Numerals.NatToStringRoundTrip | src/common/span.cpp:88-91 | reading the decimal text back gives the number |
| Tokens.Repr | include/lexer/token.hpp:8-65 | every kind has a non-empty display string; `Tokens.ReprRoundTrip` proves the decoder reads it back to the kind |
| Tokens.ReprRoundTrip | include/lexer/token.hpp:8-65 | reading a kind's display string back gives the kind, so each kind has its own string (including `PlusEqual` shown as `++=`) |
| Tokens.ReprInjective | include/lexer/token.hpp:8-65 | no two kinds share a display string |
| Tokens.Ordinal | include/lexer/token.hpp:67-72 | the enumerator value of every kind is below 51 |
| Tokens.KindsClosed | include/lexer/token.hpp:8-72 | the kind set is exactly the 51 list entries, each listed once |
| Tokens.OrdinalOfListed | include/lexer/token.hpp:67-72 | the `i`-th list entry has enumerator value `i` |
| Tokens.ListedAtOrdinal | include/lexer/token.hpp:67-72 | each kind is the entry its enumerator value points at |
| Tokens.TokenText | src/lexer/token.cpp:38-60 | a token text begins with its position and bracketed display string; `Tokens.TokenTextParts` gives the whole text, with the quoted lexeme for literal kinds |
| Tokens.Entries | src/lexer/token.cpp:19-32 | the numbered lines are empty exactly when there are no tokens; `Tokens.ListingExtends` and `Tokens.EntryInListing` prove entry `i` is token `i` numbered `i` |
| Tokens.ListingText | src/lexer/token.cpp:19-32 | the listing is the header, then the entries, then one final newline |
| Tokens.TokenTextParts | src/lexer/token.cpp:38-60 | token text is the span text, then ` [`, the display string and `]`; the lexeme in quotes follows only for Identifier, Decimal, Integer and String, and is empty when the span is out of bounds |
| Tokens.ListingExtends | src/lexer/token.cpp:19-32 | one more token adds one more numbered entry and leaves the earlier entries as they were |
| Tokens.EntriesPrefix | src/lexer/token.cpp:19-32 | the listing of a prefix of the tokens begins the listing of all of them |
| Tokens.EntryInListing | src/lexer/token.cpp:19-32 | entry `i` of the listing is token `i` numbered `i`, after the entries of the tokens before it |
| Tokens.TokenCollect.constructor | src/lexer/token.cpp:10-12 | a new collection keeps its source and is empty |
| Tokens.TokenCollect.Push | src/lexer/token.cpp:17 | appends at the end: one more item, the earlier items unchanged |
| Tokens.TokenCollect.PrintAll | src/lexer/token.cpp:19-32 | the counting loop writes the header, then each token numbered from 0, then the final newline |
| Tokens.Collect | src/lexer/token.cpp:10-17 | a new vector followed by pushes of `t1 .. tn` gives `data() == [t1 .. tn]` |
| Diagnostics.IssueIndex | include/common/diagnostic.hpp:8-12 | every issue has its row in the issue list |
| Diagnostics.LevelFromIssue | src/common/diagnostic.cpp:59-73 | the level is the one the issue list gives the issue |
| Diagnostics.IssueText | src/common/diagnostic.cpp:25-36 | the issue text is its display string from the issue list |
| Diagnostics.EveryIssueIsError | include/common/diagnostic.hpp:8-12 | every issue declared today has level Error |
| Diagnostics.IssuesClosed | include/common/diagnostic.hpp:8-29 | the issue list has the four issues, each once, with its display string and level |
| Diagnostics.LevelText | src/common/diagnostic.cpp:11-23 | each level text ends with a colon; `Diagnostics.LevelTextDistinct` proves the three texts tell the levels apart |
| Diagnostics.LevelTextDistinct | src/common/diagnostic.cpp:11-23 | the texts `Error:`, `Warning:` and `Info:` tell the three levels apart |
| Diagnostics.NewDiagnostic | src/common/diagnostic.cpp:79-81 | the level comes from `level_from_issue`; issue, span and message are stored verbatim |
| Diagnostics.SameIssueSameLevel | src/common/diagnostic.cpp:79-81 | two diagnostics of the same issue have the same level, whatever their span and message |
| Diagnostics.DiagnosticText | src/common/diagnostic.cpp:38-53 | the text exists exactly when the line number resolves; it is the level, the issue, `  -> ` and the position, a newline, two spaces and the source line of the span (fetched with `Source::line` as written and proved to be the intended line), a newline, then `Help: ` and the message |
| Diagnostics.DiagEntriesDefined | src/common/diagnostic.cpp:92-97 | the loop of `print_all` runs to the end exactly when every diagnostic starts inside its source |
| Diagnostics.DiagEntriesStep | src/common/diagnostic.cpp:92-97 | after a finished prefix, one more diagnostic adds its text and a newline, or stops the loop with the text written so far |
| Diagnostics.DiagEntriesFailed | src/common/diagnostic.cpp:92-97 | once the loop has stopped, nothing more is written |
| Diagnostics.DiagEntriesStopAt | src/common/diagnostic.cpp:92-97 | when diagnostic `i` is the first whose line number is missing, the output is the entries of the diagnostics before it, unfinished |
| Diagnostics.DiagListing | src/common/diagnostic.cpp:92-97 | the final newline is written only when the loop ran to the end; otherwise the output is the entries written before the exception |
| Diagnostics.DiagCollect.constructor | src/common/diagnostic.cpp:87 | a new collection is empty |
| Diagnostics.DiagCollect.Push | src/common/diagnostic.cpp:99 | appends at the end: one more item, the earlier items unchanged |
| Diagnostics.DiagCollect.PrintAll | src/common/diagnostic.cpp:92-97 | the loop writes each diagnostic's text and a newline in order, then a final newline; at the first diagnostic whose line number is missing it stops, having written the entries before it |
| Operators.Or | src/common/operator.cpp:6-9 | `operator|` has bit `i` exactly when either operand has it |
| Operators.OrBits | src/common/operator.cpp:6-9 | bitwise or on `uint8_t` is the union of the bit sets |
| Operators.And | src/common/operator.cpp:11-14 | `operator&` has bit `i` exactly when both operands have it |
| Operators.AndBits | src/common/operator.cpp:11-14 | bitwise and on `uint8_t` is the intersection of the bit sets |
| Operators.MaskBits | src/common/operator.cpp:6-14 | tested against one flag, union and intersection act bit by bit |
| Operators.BitsDetermine | include/common/operator.hpp:8 | two flag sets with the same bits are equal |
| Operators.FlagBits | include/common/operator.hpp:8-14 | None has no bit and Assign, Binary, Unary and Logical each have only their own bit |
| Operators.OrLaws | src/common/operator.cpp:6-9 | union is commutative, associative and idempotent, with None as identity |
| Operators.AndLaws | src/common/operator.cpp:11-14 | `(a \| b) & b == b` and `a & None == None` |
| Operators.OpIndex | include/common/operator.hpp:19-31 | every operator kind has its row in the operator list |
| Operators.OpRepr | include/common/operator.hpp:19-25 | the text of an operator is the one its row gives |
| Operators.OpToken | include/common/operator.hpp:19-25 | the token kind of an operator is the one its row gives |
| Operators.FlagsOf | src/common/operator.cpp:16-26 | `get_flag_from_kind` returns the flags of the kind's row |
| Operators.OperatorsClosed | include/common/operator.hpp:19-31 | the list has the six operators, each once |
| Operators.OperatorFlags | include/common/operator.hpp:20-25 | Sub carries Binary and Unary, Assign carries only Assign, the others only Binary, and none carries Logical |
| Operators.OperatorSpelledByToken | include/common/operator.hpp:19-25 | Add/Plus, Sub/Minus, Mul/Star, Div/Slash, Exp/StarStar, Assign/Equal: each operator's text is its token's source spelling, and distinct operators use distinct tokens |
| Operators.NewOperator | src/common/operator.cpp:28-29 | the constructor keeps the kind and takes the flags from the operator list |
| Operators.OperatorText | src/common/operator.cpp:31-44 | the text is `op(`, the operator's text and `)` |
| Operators.OperatorTextInjective | src/common/operator.cpp:31-44 | operator texts tell the kinds apart |
| Lexing.KeywordSpellings | src/lexer/lexer.cpp:13-27 | the six keywords are spelled `if`, `else`, `function`, `for`, `break`, `continue` |
| Lexing.KeywordOrIdentifier | src/lexer/lexer.cpp:13-31 | the result is Identifier or a keyword, and a keyword only when the text is exactly its spelling |
| Lexing.IsIdentStart | src/lexer/lexer.cpp:33 | an identifier start byte also continues one and is never a digit; `Lexing.ClassesApart` proves no token byte is whitespace |
| Lexing.IsIdentCont | src/lexer/lexer.cpp:34 | no identifier byte is whitespace |
| Lexing.IsNumberStart | src/lexer/lexer.cpp:35 | a number start byte continues a number and an identifier |
| Lexing.IsNumberCont | src/lexer/lexer.cpp:36 | no number byte is whitespace |
| Lexing.IsWhitespace | src/lexer/lexer.cpp:37-39 | whitespace is not a newline, letter, digit, `_` or `.` |
| Lexing.IdentifierUnlessKeyword | src/lexer/lexer.cpp:13-31 | a word is an Identifier exactly when no keyword is spelled that way |
| Lexing.Advance | src/lexer/lexer.cpp:62-66 | `eat(k)` gives `cursor + k` when that is below the size, otherwise `size + k`; from a cursor at or below the size it never goes back |
| Lexing.AdvanceReachable | src/lexer/lexer.cpp:62-66 | one step from inside the content reaches the next byte or the end-of-input offset |
| Lexing.AdvanceNeverBack | src/lexer/lexer.cpp:62-66 | from every cursor `lex()` can meet, a step of one or more bytes never moves back, moves forward inside the content, and stays put only for a one-byte step on the end-of-input offset |
| Lexing.SkipWs | src/lexer/lexer.cpp:50-53 | the cursor passes exactly the run of space, tab, CR, VT and backspace bytes and stops on the first other byte or at the end |
| Lexing.IdentLast | src/lexer/lexer.cpp:72-79 | the last byte of the maximal run of identifier bytes after the start |
| Lexing.IdentLastUnique | src/lexer/lexer.cpp:72-79 | any end with that property is the one `IdentLast` finds |
| Lexing.NumberScan | src/lexer/lexer.cpp:88-104 | the last byte of the number and its kind, Integer or Decimal, never back to Integer once Decimal |
| Lexing.NumberScanShape | src/lexer/lexer.cpp:88-104 | the bytes read are number bytes and each dot read is followed by a digit |
| Lexing.NumberScanRun | src/lexer/lexer.cpp:92-104 | each byte taken is a digit or a dot, and a dot is taken only with a digit after it while the kind is Integer |
| Lexing.NumberScanMaximal | src/lexer/lexer.cpp:92-101 | the scan stops only before a byte that is not a number byte, or before a dot it may not take |
| Lexing.NumberScanKind | src/lexer/lexer.cpp:93-101 | the kind is Decimal exactly when a dot was taken or the scan started as Decimal, and at most one dot is taken |
| Lexing.NumberScanDecimal | src/lexer/lexer.cpp:93-98 | the kind is Decimal exactly when the scan started as Decimal or took a dot |
| Lexing.NumberScanOneDot | src/lexer/lexer.cpp:93-101 | a number read from Integer holds at most one dot |
| Lexing.Punctuation | src/lexer/lexer.cpp:132-257 | the switch matches exactly the fixed-token start bytes; it reads 1 to 3 bytes (3 only with a trailing `=`), gives Newline exactly for `'\n'`, and every kind it gives has a spelling |
| Lexing.Spelling | src/lexer/lexer.cpp:132-257 | only fixed tokens have a spelling: no keyword, Identifier, number, String, Boolean or Eof |
| Lexing.PunctuationSpelling | src/lexer/lexer.cpp:132-257 | the fixed token read at a byte is spelled by exactly the bytes it covers |
| Lexing.PunctuationLongest | src/lexer/lexer.cpp:161-256 | longest match: whenever a spelling is a prefix of the next three bytes, the token read is at least that long |
| Lexing.ReprMatchesSpelling | include/lexer/token.hpp:8-65 | every fixed token's display string is its spelling, except Newline and `PlusEqual` (shown as `++=`) |
| Lexing.ReadAt | src/lexer/lexer.cpp:118-264 | from a non-whitespace byte, one token or one InvalidCharacter diagnostic whose span starts there, ends at the returned cursor and holds no whitespace; never String, Boolean or Eof |
| Lexing.ClassesApart | src/lexer/lexer.cpp:33-39 | no whitespace byte starts or continues a token |
| Lexing.ReadIdentifier | src/lexer/lexer.cpp:72-86 | an Identifier or keyword token spanning identifier bytes from the start to the cursor |
| Lexing.ReadNumber | src/lexer/lexer.cpp:88-110 | an Integer or Decimal token spanning number bytes from the start to the cursor |
| Lexing.ReadFixed | src/lexer/lexer.cpp:129-264 | a fixed token exactly when the byte starts one; otherwise an InvalidCharacter error of length 1 with message `This character is not allowed.` |
| Lexing.LexOnceSpec | src/lexer/lexer.cpp:113-265 | after skipping whitespace: Eof at the end-of-input offset when at the end, otherwise the step read at that byte |
| Lexing.Scan | src/lexer/lexer.cpp:271-288 | the loop of `lex()` as the sequence of items it pushes, ending at the first end-of-input step; `Lexing.ScanLength`, `Lexing.ScanEndsWithEof` and `Lexing.LexTokens` state its length and shape |
| Lexing.ScanLength | src/lexer/lexer.cpp:271-288 | `lex()` pushes at least one item and at most one per byte left plus the end-of-input token; exactly one once the cursor is past the content |
| Lexing.ScanCons | src/lexer/lexer.cpp:271-288 | a step that is not Eof is followed by the rest of the scan one byte past its last byte |
| Lexing.TokensOfAppend | src/lexer/lexer.cpp:271-288 | the tokens and the diagnostics of two runs put together are those of each in order |
| Lexing.TokensOfMembers | src/lexer/lexer.cpp:271-288 | a token or diagnostic is pushed exactly when it is an item of the run |
| Lexing.ProgressStep | src/lexer/lexer.cpp:271-288 | one non-final round of `lex()` keeps the loop invariant: what was pushed is the run so far, and the rest is the scan from the new cursor |
| Lexing.ProgressEof | src/lexer/lexer.cpp:271-288 | the Eof round leaves everything pushed |
| Lexing.ScanEndsWithEof | src/lexer/lexer.cpp:113-123 | the run ends with its only end-of-input item, `Eof` of length 1 at offset 0 for empty content and `size + 1` otherwise |
| Lexing.ScanTiles | src/lexer/lexer.cpp:271-288 | the items tile the content from the cursor: whitespace between them, each span right after the previous one |
| Lexing.TilesCover | src/lexer/lexer.cpp:50-53 | a byte is whitespace exactly when no item covers it |
| Lexing.TilesInBounds | src/lexer/lexer.cpp:271-288 | item spans are in bounds, non-empty, ascending and disjoint |
| Lexing.IdentifierWellFormed | src/lexer/lexer.cpp:72-86 | an identifier token is a maximal run of identifier bytes starting with a letter or `_`, and its kind comes from the keyword table applied to its lexeme |
| Lexing.IdentLastRun | src/lexer/lexer.cpp:72-79 | the run from a letter or `_` to `IdentLast` is a maximal identifier run |
| Lexing.NumberWellFormed | src/lexer/lexer.cpp:88-110 | a number token is a digit run with at most one dot, each dot followed by a digit, Decimal exactly when it holds a dot, and it cannot be extended |
| Lexing.NumberBytesRead | src/lexer/lexer.cpp:88-110 | the bytes of a number token and the kind they give |
| Lexing.NumberMaximalRead | src/lexer/lexer.cpp:92-101 | a number token cannot be extended by the byte after it |
| Lexing.ReadAtFacts | src/lexer/lexer.cpp:118-264 | what is read at a non-whitespace byte is a well-formed token or an InvalidCharacter error on an invalid byte |
| Lexing.StepWellFormed | src/lexer/lexer.cpp:113-265 | every step of `lex_once` yields a well-formed item |
| Lexing.ScanItems | src/lexer/lexer.cpp:271-288 | every item of the run is well formed |
| Lexing.LexCoverage | src/lexer/lexer.cpp:271-288 | every byte is whitespace exactly when no item covers it; spans other than Eof are in bounds, non-empty, ascending and disjoint |
| Lexing.TokensOfEofOnlyLast | src/lexer/lexer.cpp:276-283 | after filtering, the Eof token stays last and only |
| Lexing.LexTokens | src/lexer/lexer.cpp:271-288 | the tokens end with the only Eof, at the documented offset; every token is of this source, well formed, and never String or Boolean |
| Lexing.LexDiagnostics | src/lexer/lexer.cpp:259-264 | every diagnostic is an InvalidCharacter error of length 1 on an invalid byte, with the fixed help message |
| Lexing.LexListingComplete | src/lexer/lexer.cpp:259-264 | printing the diagnostics `lex()` produced never reaches the throwing path: the listing runs to the end |
| Lexing.Lexer.constructor | src/lexer/lexer.cpp:45-47 | stores the source and both collections; the cursor starts at 0 |
| Lexing.Lexer.Eat | src/lexer/lexer.cpp:62-66 | moves the cursor as `Advance` says and changes nothing else |
| Lexing.Lexer.SkipWhitespace | src/lexer/lexer.cpp:50-53 | the loop leaves the cursor where `SkipWs` says |
| Lexing.Lexer.LexIdentifier | src/lexer/lexer.cpp:72-86 | the loop leaves the cursor on the last identifier byte and returns the keyword-or-identifier token of that lexeme, as `ReadIdentifier` says |
| Lexing.Lexer.LexNumber | src/lexer/lexer.cpp:88-110 | the loop leaves the cursor where `NumberScan` says and returns the token `ReadNumber` says |
| Lexing.Lexer.LexOnce | src/lexer/lexer.cpp:113-265 | returns the token of `LexOnceSpec` and leaves the diagnostics alone, or pushes its diagnostic and returns none; the cursor ends on the step's last byte |
| Lexing.Lexer.LexFixed | src/lexer/lexer.cpp:129-264 | the switch: a fixed token by longest match, or an InvalidCharacter diagnostic pushed and no token |
| Lexing.Lexer.Lex | src/lexer/lexer.cpp:271-288 | terminates with the cursor at the end-of-input offset, having appended exactly the tokens and the diagnostics of `Scan` |
| LexingExamples.DecimalExample | src/lexer/lexer.cpp:88-110 | `3.14` is one Decimal covering all four bytes |
| LexingExamples.DotWithoutDigitExample | src/lexer/lexer.cpp:93-101 | in `3.x` the number stops before the dot, as an Integer |
| LexingExamples.SecondDotExample | src/lexer/lexer.cpp:93-101 | in `1.2.3` the number is the Decimal `1.2`; the second dot is left |
| LexingExamples.FixedExamples | src/lexer/lexer.cpp:183-212 | `**=` is read whole, `//x` gives `//`, `+==` gives `+=`, and a backquote starts no token |
| LexingExamples.KeywordExamples | src/lexer/lexer.cpp:13-31 | `function` is a keyword and `Function` an Identifier |
| LexingExamples.EofExamples | src/lexer/lexer.cpp:113-123 | empty content gives only Eof at 0; a single space gives only Eof at 2 |
| LexingExamples.MainExample | src/lexer/lexer.cpp:271-288 | `main := function() 1234` gives Identifier, Colon, Equal, Function, LParen, RParen, Integer and Eof at 24, and no diagnostic |

## Left out

- The parser and the AST (`src/parser/`, `include/parser/`) are not part of this model: they are stubs and library calls.
- Writing to `std::cout` and the `ostream` plumbing are not modelled. `print_all` and the stream insertion operators are modelled as the text they produce.
- `std::isalpha`, `std::isalnum` and `std::isdigit` are modelled in the "C" locale, as ASCII classes.
- String literals are not lexed: that code is commented out at src/lexer/lexer.cpp:112. InvalidString and UnterminatedString are declared but never produced.
- Content is a `string` whose elements stand for bytes.
  - The model does not capture `char` sign or values above 127.
  - `size_t` and `unsigned` are unbounded `nat`, so wrap-around at 2^64 is not modelled.
  - The `int` line counter of `line_number` is also unbounded.
- `TokenCollect` follows src/lexer/token.cpp:10, which takes the source. The no-argument constructor declared at include/lexer/token.hpp:84 is not modelled.
- `Lexer::push`, declared at include/lexer/lexer.hpp:22, is never defined, so there is nothing to model.
- `lex_once` returns an optional token, as in the .cpp. The `std::expected` return type in include/lexer/lexer.hpp:27 is not modelled.
- The header comment at include/common/span.hpp:37-43 says `-1` is returned out of bounds. The code returns an empty optional, and the model follows the code.
- The `default:` branches of the switches (`<unknown kind>`, `<unknown severity>`, `?`, `Flag::None`) are not modelled. Every enumerator has its own case, so they cannot be reached.
- `begin()`/`end()` iteration of the collections is modelled as the `items` sequence.
- Aliasing between the lexer's collections and other holders of them is not modelled. The lexer's `tokens` and `diagnostics` are distinct objects.
- The `assert(ln > 0)` of `Source::line` is the precondition `ln >= 1`.
- Whitespace is not part of any span, so the "coverage" proved is this: bytes not covered by a token or diagnostic are exactly the whitespace.
- The end-of-input offset is `size + 1` for non-empty content, not `size`. That is what the code does, because the final `eat()` of `lex()` overshoots.
- Diagnostics.DiagnosticText: when `line_number()` is empty, the C++ `.value()` throws. The model gives None there.
- Diagnostics.DiagCollect.PrintAll: the exception is not modelled as such. The output stops after the entries of the diagnostics before the failing one, and `finished` is false. `Lexing.LexListingComplete` shows the lexer never produces such a diagnostic.
- Spans.ThreeLineSpanText: states that the rendering equals `<static>:1:1`, which is stronger than the test's "contains".

## Findings

| source | as written | input that shows it | evidently intended | confidence | as-written member | corrected member |
|---|---|---|---|---|---|---|
| src/common/span.cpp:23-49 | The scan for the start of line `ln` ends without setting `start` when line `ln` begins at the very end of the content. `start` stays 0 and the first line is returned. | content `"a\n"`, `ln = 2`: returns `"a\n"` | the empty last line `""`, so that the lines join back to the content | not executed | Spans.LineQuirkWitness | Spans.LinesJoin |
