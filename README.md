# bang-log: statement-end resolution and log insertion

Bang Log is a VS Code extension with two commands. `bang-log.clog` inserts
`console.log('<file> > <text>:', <text>);` below the statement around the
cursor. `bang-log.clogBefore` inserts it above the cursor's line. The text is
the selection, or the word at the cursor when nothing is selected.

This project models the two parts of `src/extension.ts` that decide what is
inserted and where:

- `findStatementEnd` (module `StatementBoundary`). A bracket-stack scan runs
  from the start of the document up to the cursor. If a bracket is still
  open there, the scan goes on from the cursor. It stops at a `;` met while
  no bracket is open, or at the end of a later line where no bracket is open
  and the next line is blank, begins with a statement keyword, or does not
  exist. The scan is written as the source's nested loops (`ContextStack`,
  `ScanLineForward`, `EndsAtLineEnd`, `FindStatementEnd`). Each is proved
  against a function of the document: `ContextStack` against the stack
  before the cursor (`StackAt`), `ScanLineForward` against the stack at the
  end of the line (`LinesStack`) and the `;` test (`SemicolonStop`),
  `EndsAtLineEnd` against the end-of-line test (`LineEndStop`), and
  `FindStatementEnd` against `StatementEnd`, the first line at or after the
  cursor where the scan stops.
- `doLog` (modules `LogLabel` and `LogCommand`). It chooses the quote
  (a backtick for text of several lines, `'` otherwise), escapes the text
  for that literal and builds the label. It then chooses the insertion point
  and the indentation, and builds the inserted text. `LogLabel` has a small
  reader of JavaScript string literals as the label's partner: reading the
  label back gives the file name and the text. `LogCommand` has a model of
  the editor's insert (`Document.InsertText`). Applying the planned edit
  puts the log statement on lines of its own, at the proved place, with the
  proved indentation, and keeps every other line.

`JsText` models the JavaScript string helpers the code uses. `Document`
models the text document as a sequence of lines. `Scenarios` replays the
repository's integration tests on concrete documents. The file name there is
`test.ts`, and the cursor is at the end of the selected word.

The cursor that `doLog` passes on is `selection.active`. When a word is
selected from left to right, that is the word's end. In the one-line object
test (`src/test/extension.test.ts:146-155`) the cursor is therefore at
column 18, and the `{` at column 12 is still open there. The statement ends
at the `;` of line 0. A reading in which the cursor is at top level, because
the brace closes before it, does not match the code. The model follows the
code. The inserted line is the same either way.

## Model

| member | source | states |
|---|---|---|
| StatementBoundary.StatementEnd | src/extension.ts:72-119 | a statement end exists only when a bracket is open at the cursor; it is then at the end of a line at or after the cursor's where the forward scan stops; `StatementEndIsFirstStop` proves that it exists exactly when some such line does and that it is the first one |
| StatementBoundary.ContextStack | src/extension.ts:49-70 | the first pass leaves on the stack exactly the brackets still open just before the cursor, scanning from the start of the document |
| StatementBoundary.ScanLineForward | src/extension.ts:80-99 | one line of the forward pass reports a `;` exactly when the line has one at depth zero at or after the start column; without one, it leaves the stack as it is at the end of the line |
| StatementBoundary.EndsAtLineEnd | src/extension.ts:101-116 | the end-of-line test holds exactly when no bracket is open, the line is after the cursor's, and the next line is blank (after trim), starts with a statement keyword, or does not exist |
| StatementBoundary.FindStatementEnd | src/extension.ts:43-120 | the resolver returns exactly `StatementEnd`: None at top level or when the scan never stops, otherwise the end of the first line where it stops |
| StatementBoundary.StatementEndIsFirstStop | src/extension.ts:72-119 | a statement end exists if and only if a bracket is open at the cursor and the forward scan stops on some line; it is then at the end of the first such line, at or after the cursor's line |
| StatementBoundary.SemicolonOnCursorLine | src/extension.ts:95-97 | inside brackets, a `;` at depth zero after the cursor on its own line ends the statement on that line |
| StatementBoundary.NeverClosedMeansNone | src/extension.ts:79-119 | when the brackets open at the cursor never all close again, there is no statement end |
| StatementBoundary.TopLevelIgnoresWhatFollows | src/extension.ts:72-75 | at top level the result is None, whatever the document holds after the cursor |
| StatementBoundary.LinesStackUsesEarlierLines | src/extension.ts:52-70 | the stack at the start of a line depends only on the lines before it |
| StatementBoundary.Step | src/extension.ts:59-67 | one character of the scan, in both passes (also lines 86-94): `CloserPopsOnlyItsOpener` states that a closer pops only its own opener and never pushes, and `StackHoldsOnlyOpeners` that only openers are pushed |
| StatementBoundary.CloserPopsOnlyItsOpener | src/extension.ts:61-67 | a closing bracket never pushes; it pops exactly when the top of the stack is its own opening bracket |
| StatementBoundary.StackHoldsOnlyOpeners | src/extension.ts:44-67 | only opening brackets are ever on the stack |
| StatementBoundary.ScanAppend | src/extension.ts:56-69 | the scan is a left fold: scanning `a + b` scans `a`, then `b` from where `a` left the stack |
| StatementBoundary.ScanNoBrackets | src/extension.ts:56-69 | text without brackets leaves the stack unchanged |
| StatementBoundary.ScanSkipPlain | src/extension.ts:83-94 | scanning a stretch of a line that holds no bracket leaves the stack unchanged |
| StatementBoundary.NoSemicolonNoStop | src/extension.ts:95-98 | a line without `;` never stops the scan at a `;` |
| StatementBoundary.StartsStatement | src/extension.ts:109 | the keyword regular expression: `KeywordIsPlainPrefix`, `StatementStartsWithKeywordLetter` and `NonKeywordLines` state what it accepts and rejects |
| StatementBoundary.KeywordIsPlainPrefix | src/extension.ts:109 | the keyword test is a prefix match with no word boundary: `constant`, `types` and `if(x)` all start a statement |
| StatementBoundary.StatementStartsWithKeywordLetter | src/extension.ts:109 | a line that starts a statement begins with the first letter of one of the keywords |
| StatementBoundary.NonKeywordLines | src/extension.ts:107-109 | `.then(f)`, `}` and text still carrying its indentation do not start a statement |
| JsText.FirstNonWhitespace | src/extension.ts:173 | the first non-whitespace column: all white space before it, and a non-whitespace character at it unless it is the line's length |
| JsText.Trim | src/extension.ts:107 | `trim()` is empty exactly for blank text; otherwise it begins and ends with non-whitespace, and it is the text from its first non-whitespace character, less trailing white space |
| JsText.TrimUnpadded | src/extension.ts:107 | text that begins and ends with non-whitespace is its own trim |
| JsText.Spaces | src/extension.ts:173 | `' '.repeat(n)` is n spaces |
| JsText.IndentedFirstNonWhitespace | src/extension.ts:173-174 | code indented with n spaces has its first non-whitespace character in column n |
| LogLabel.IsMultiline | src/extension.ts:151 | the test for a CR or LF anywhere in the text; `WrapChar` states that it alone chooses the backtick |
| LogLabel.WrapChar | src/extension.ts:151-152 | the label is wrapped in a backtick exactly when the text holds `\r` or `\n`, and in `'` otherwise |
| LogLabel.Label | src/extension.ts:162 | the label begins and ends with the wrap character |
| LogLabel.EscapeText | src/extension.ts:158-160 | the escaping of the text for its literal: `ReadQuoted`, `ReadTemplate` and `LabelRoundTrip` state that the escaped text reads back as the text, and `EscapeTwoPasses` that the two chained `replace` calls escape both characters in one pass |
| LogLabel.LabelRoundTrip | src/extension.ts:150-162 | reading the label as a JavaScript literal gives `<file> > <text>:`, with the text's line breaks as a template literal reads them, for a plain file name and text without backslashes |
| LogLabel.ReadQuoted | src/extension.ts:160 | single-quote escaping of text of one line reads back as the text |
| LogLabel.ReadTemplate | src/extension.ts:159 | backtick-and-dollar escaping reads back in a template literal as the text with `\r\n` and `\r` turned into `\n` |
| LogLabel.EscapeTwoPasses | src/extension.ts:159 | escaping backticks and then dollars is one pass escaping both |
| LogLabel.EscapeCharsNone | src/extension.ts:158-160 | text with none of the escaped characters is left as it is |
| LogLabel.OneLineLabel | src/extension.ts:150-162 | text of one line with no single quote gives the label `'<file> > <text>:'` |
| LogLabel.BackslashQuoteBreaksLabel | src/extension.ts:158-162 | the text `\'` gives a label that is not a valid literal: the text's own backslash escapes the one added before the quote, so the quote ends the literal early |
| LogLabel.BackslashPairLoggedAsOne | src/extension.ts:158-162 | the text `\\` is logged as a single backslash, because backslashes are not escaped |
| LogLabel.QuoteInFileNameBreaksLabel | src/extension.ts:155-162 | a file name with a `'` gives a label that is not a valid literal, because the file name is not escaped |
| LogCommand.LogCall | src/extension.ts:174 | the template `${startSpace}console.log(${logMessage}, ${text});`, used at lines 174, 188, 193, 201 and 206: `LogCallStartsAt` states where its code starts and that it ends with `;` |
| LogCommand.LogCallStartsAt | src/extension.ts:173-174 | the call indented with n spaces has its code start in column n on its first line, and ends with `;` |
| LogCommand.LogStatement | src/extension.ts:173-174 | the log statement's first line starts its code in the column where the indentation line's code starts, and the statement ends with `;` |
| LogCommand.OneLineLog | src/extension.ts:162-174 | a file name and text of one line, without a single quote, give one line: the indentation, then `console.log('<file> > <text>:', <text>);` |
| LogCommand.Placement | src/extension.ts:169-209 | the insertion point is a valid position of the document |
| LogCommand.Plan | src/extension.ts:164-209 | the planned edit's position is a valid position of the document |
| LogCommand.DoLog | src/extension.ts:122-209 | an unsupported language gives a warning; no selection and no word gives a warning; otherwise the edit logs the selection (or the word) with the statement end resolved in after mode only |
| LogCommand.PlacementInsertsWholeLines | src/extension.ts:169-209 | applying the edit inserts the log's lines whole at `LogLineIndex` (above the cursor's line in before mode, below the reference line in after mode) and keeps every other line in order |
| LogCommand.PlacementAtLineStart | src/extension.ts:170-201 | insertion at column 0 with a trailing line break puts the log's lines before line k |
| LogCommand.PlacementAtDocumentEnd | src/extension.ts:189-207 | insertion at the end of the last line with a leading line break appends the log's lines to the document |
| LogCommand.PlanInsertsIndentedLog | src/extension.ts:164-209 | the log's lines go in whole at `LogLineIndex`, and the first one starts its code in the column where the indentation line's code starts |
| LogCommand.ReferenceLine | src/extension.ts:176-207 | the line the log follows in after mode: `AfterModeFollowsStatement` states that it is the statement end's line, or the cursor's line when there is none |
| LogCommand.IndentSource | src/extension.ts:170-207 | the line whose indentation the log takes: `PlanInsertsIndentedLog` states that the log's first line starts its code where that line's code starts |
| LogCommand.AfterModeFollowsStatement | src/extension.ts:175-208 | in after mode the log goes right below the statement's last line, or right below the cursor's line when there is no statement end; never above the cursor's line |
| Document.InsertText | src/extension.ts:213 | the editor's insert on lines: the document gains one line fewer than the inserted text has lines (`SplitLines`), and the lines before and after the one the text goes into are kept; `InsertTextSplicesText` states that it is the text spliced in at the position's offset |
| Document.JoinSplitLines | src/extension.ts:212-214 | splitting inserted text at line breaks and joining it with `\n` gives the text back, when it has no `\r` |
| Document.InsertLinesBefore | src/extension.ts:170-174 | inserting `t + "\n"` at column 0 of line k puts t's lines whole before line k |
| Document.InsertLinesAtEnd | src/extension.ts:189-194 | inserting `"\n" + t` at the end of the last line appends t's lines to the document |
| Document.InsertTextSplicesText | src/extension.ts:212-214 | inserting into the lines is inserting into the text: joining the new lines gives the old text with the inserted text spliced in at the position's offset |
| Scenarios.LogOfWord | src/extension.ts:162-174 | a plain word, from a line whose code starts in column 0, is logged as `console.log('test.ts > <word>:', <word>);` |
| Scenarios.TopLevelDeclarationHasNoEnd | src/test/extension.test.ts:124-133 | a word in a top-level declaration has no statement end |
| Scenarios.LogBelowTopLevelDeclaration | src/test/extension.test.ts:124-133 | the log of `name` goes between the two declarations |
| Scenarios.LogAboveTopLevelDeclaration | src/test/extension.test.ts:135-144 | with `clogBefore`, the log goes above the first declaration |
| Scenarios.OneLineObjectEnd | src/test/extension.test.ts:146-155 | inside an object literal on one line, the statement ends at that line's end, because of its `;` |
| Scenarios.LogBelowOneLineObject | src/test/extension.test.ts:146-155 | the log goes on the line after the object literal |
| Scenarios.ArrowAtDocumentEndEnd | src/test/extension.test.ts:157-170 | inside an arrow function's object passed to a call, the statement ends on the last line, at the `;` after the last bracket closes |
| Scenarios.LogAfterArrowAtDocumentEnd | src/test/extension.test.ts:157-170 | the statement ends on the last line, so the log is appended to the document after a line break |
| Scenarios.ObjectWithoutSemicolonEnd | src/test/extension.test.ts:172-187 | without a `;`, the statement ends at the closing brace's line because the next line begins with `const` |
| Scenarios.LogBelowObjectWithoutSemicolon | src/test/extension.test.ts:172-187 | the log goes between the closing brace and the next declaration |
| Scenarios.InnerSemicolonIsNested | src/test/extension.test.ts:270-289 | the `;` after the inner object is met with two braces open and does not stop the scan |
| Scenarios.MethodInObjectEnd | src/test/extension.test.ts:270-289 | the statement ends at the outer object's `};`, on the last line |
| Scenarios.LogAfterMethodInObject | src/test/extension.test.ts:270-289 | the log is appended below the outer object |
| Scenarios.LogAfterOnlyLine | src/extension.ts:195-207 | at top level on the only line of a document, there is no statement end and the log is appended after a line break at the end of that line |

## Left out

- `activate` and `deactivate` (`src/extension.ts:18-35`, `221-222`) only register the two commands; `DoLog` takes the `before` flag they pass.
- The case with no active editor (`src/extension.ts:123-126`) is not modelled: `DoLog` takes the document's lines and language as parameters.
- Warning and error messages are not modelled: `DoLog` returns `Unsupported` or `NothingToLog` where the source shows a warning.
- The asynchronous `editor.edit(...).then(...)` and the failure message are not modelled (`src/extension.ts:212-218`). `DoLog` returns the edit, and `Document.InsertText` states what applying it does.
- `getWordRangeAtPosition` and `getText` (the word rules of the language) are not modelled. The selected text and the word at the cursor are inputs; `None` stands for "no word".
- `path.basename` is not modelled: the file name is an input.
- Columns are indices into `seq<char>`. VS Code counts UTF-16 code units, so text outside the Basic Multilingual Plane is not modelled.
- The cursor must be a valid position of the document (`ValidPosition`). The editor always gives one.
- The document is a sequence of lines, joined with `"\n"`. Inserted text is split into lines at `\r\n`, `\r` and `\n` (`SplitLines`), which is what the editor's normalisation of inserted line breaks does to the lines. The document's own end-of-line string is not modelled: a CRLF document is joined with `"\n"` all the same.
- `LogLabel.ReadBody` reads only the escapes the label can contain (`\\`, `\'`, `\"`, `` \` ``, `\$`). Other escape sequences are read as failures. That is enough for the round trip, but it is not a full JavaScript lexer.
- LogLabel.LabelRoundTrip: requires the text to have no backslash, and the file name to have no `'`, backslash, backtick, `$` or line break. The source escapes neither backslashes nor the file name, so the round trip does not hold beyond that. `BackslashQuoteBreaksLabel`, `BackslashPairLoggedAsOne` and `QuoteInFileNameBreaksLabel` show inputs where it fails.
- LogCommand.Placement: its contract states only that the position is valid. What the edit does is stated by `PlacementInsertsWholeLines` and `PlanInsertsIndentedLog`.
- LogCommand.Plan: its contract states only that the position is valid, for the same reason.
- Two commands run one after the other never split each other's log: each edit inserts whole lines (`PlacementInsertsWholeLines`), but no lemma composes two edits.
- Scenarios: the other integration tests (nested objects, arrays, function arguments, ternaries, `export`, destructuring, spread) follow the same steps as the ones modelled and are not replayed.
