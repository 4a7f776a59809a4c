/** The `bang-log.clog` and `bang-log.clogBefore` commands: the edit that
    inserts `console.log(label, text);` into the document, either on a new
    line before the cursor's line or after the statement the cursor is in. */
module LogCommand {
  import opened Document
  import opened JsText
  import opened StatementBoundary
  import opened LogLabel

  /** The editor languages the commands work in. */
  const SupportedLanguages: seq<string> :=
    ["javascript", "typescript", "javascriptreact", "typescriptreact", "vue", "svelte"]

  /** An insertion of `text` at `dest`. */
  datatype Edit = Edit(dest: Position, text: string)

  /** What a command does: warn about the language, warn that there is nothing
      to log, or insert the log. */
  datatype Outcome = Unsupported | NothingToLog | Insert(edit: Edit)

  /** `${startSpace}console.log(${logMessage}, ${text});` */
  function LogCall(indent: string, message: string, text: string): string {
    indent + "console.log(" + message + ", " + text + ");"
  }

  /** Indentation with `n` spaces puts the start of the call in column `n`,
      on the first line of the call, whatever the label and the text. */
  lemma LogCallStartsAt(n: nat, message: string, text: string)
    ensures FirstNonWhitespace(SplitLines(LogCall(Spaces(n), message, text))[0]) == n
    ensures LogCall(Spaces(n), message, text)[|LogCall(Spaces(n), message, text)| - 1] == ';'
  {
    var head := Spaces(n) + "console.log(";
    var rest := message + ", " + text + ");";
    LogCallShape(Spaces(n), message, text);
    IndentedCallHasNoBreak(n);
    SplitLinesFirstLine(head, rest);
    var first := "console.log(" + SplitLines(rest)[0];
    IndentedFirstNonWhitespace(n, first);
    assert head + SplitLines(rest)[0] == Spaces(n) + first;
  }

  lemma LogCallShape(indent: string, message: string, text: string)
    ensures LogCall(indent, message, text) == (indent + "console.log(") + (message + ", " + text + ");")
  {
  }

  lemma IndentedCallHasNoBreak(n: nat)
    ensures !HasLineBreak(Spaces(n) + "console.log(")
  {
    var head := Spaces(n) + "console.log(";
    assert forall i :: 0 <= i < n ==> head[i] == ' ';
    assert forall i :: n <= i < |head| ==> head[i] == "console.log("[i - n];
  }

  /** The log statement, indented with as many spaces as `line` has white space
      in front of its code: its first line starts its code in the column where
      `line`'s code starts. */
  function LogStatement(line: string, fileName: string, text: string): (s: string)
    ensures FirstNonWhitespace(SplitLines(s)[0]) == FirstNonWhitespace(line)
    ensures s != [] && s[|s| - 1] == ';'
  {
    var n := FirstNonWhitespace(line);
    LogCallStartsAt(n, Label(fileName, text), text);
    LogCall(Spaces(n), Label(fileName, text), text)
  }

  /** A file name and a text of one line, without a single quote, give a log
      statement of one line: the label quoted with `'` and nothing escaped. */
  lemma OneLineLog(line: string, fileName: string, text: string)
    requires !HasLineBreak(fileName)
    requires forall i :: 0 <= i < |text| ==> text[i] != '\r' && text[i] != '\n' && text[i] != '\''
    ensures SplitLines(LogStatement(line, fileName, text))
      == [LogCall(Spaces(FirstNonWhitespace(line)), "'" + fileName + " > " + text + ":'", text)]
  {
    var n := FirstNonWhitespace(line);
    var message := "'" + fileName + " > " + text + ":'";
    OneLineLabel(fileName, text);
    assert !HasLineBreak(text);
    QuotedNoBreak(fileName, text);
    SpacesNoBreak(n);
    LogCallNoBreak(Spaces(n), message, text);
    SplitLinesNoBreak(LogCall(Spaces(n), message, text));
  }

  lemma SpacesNoBreak(n: nat)
    ensures !HasLineBreak(Spaces(n))
  {
  }

  lemma QuotedNoBreak(fileName: string, text: string)
    requires !HasLineBreak(fileName) && !HasLineBreak(text)
    ensures !HasLineBreak("'" + fileName + " > " + text + ":'")
  {
    var q, sep, tail := "'", " > ", ":'";
    assert !HasLineBreak(q) && !HasLineBreak(sep) && !HasLineBreak(tail);
    NoBreakJoined(q, fileName);
    NoBreakJoined(q + fileName, sep);
    NoBreakJoined(q + fileName + sep, text);
    NoBreakJoined(q + fileName + sep + text, tail);
  }

  lemma LogCallNoBreak(indent: string, message: string, text: string)
    requires !HasLineBreak(indent) && !HasLineBreak(message) && !HasLineBreak(text)
    ensures !HasLineBreak(LogCall(indent, message, text))
  {
    var open, comma, close := "console.log(", ", ", ");";
    assert !HasLineBreak(open) && !HasLineBreak(comma) && !HasLineBreak(close);
    NoBreakJoined(indent, open);
    NoBreakJoined(indent + open, message);
    NoBreakJoined(indent + open + message, comma);
    NoBreakJoined(indent + open + message + comma, text);
    NoBreakJoined(indent + open + message + comma + text, close);
  }

  lemma NoBreakJoined(a: string, b: string)
    requires !HasLineBreak(a) && !HasLineBreak(b)
    ensures !HasLineBreak(a + b)
  {
    forall i | 0 <= i < |a + b| ensures !IsLineBreak((a + b)[i]) {
      if i >= |a| {
        assert (a + b)[i] == b[i - |a|];
      }
    }
  }

  /** The line the log follows in after mode: the line on which the statement
      ends when there is one, the cursor's line otherwise. */
  function ReferenceLine(active: Position, statementEnd: Option<Position>): nat {
    if statementEnd.Some? then statementEnd.value.line else active.line
  }

  /** The line whose indentation the log takes: the cursor's line in before
      mode, the reference line in after mode. */
  function IndentSource(active: Position, before: bool, statementEnd: Option<Position>): nat {
    if before then active.line else ReferenceLine(active, statementEnd)
  }

  /** The index the log's first line takes in the new document. */
  function LogLineIndex(active: Position, before: bool, statementEnd: Option<Position>): nat {
    if before then active.line else ReferenceLine(active, statementEnd) + 1
  }

  /** Where the statement `s` goes. In before mode: at the start of the
      cursor's line, followed by a line break. In after mode: at the start of
      the line after the reference line, followed by a line break, or, when
      the reference line is the last one, at its end after a line break. */
  function Placement(lines: seq<string>, active: Position, before: bool,
                     statementEnd: Option<Position>, s: string): (e: Edit)
    requires ValidPosition(lines, active)
    requires statementEnd.Some? ==> statementEnd.value.line < |lines|
    ensures ValidPosition(lines, e.dest)
  {
    if before then
      Edit(Position(active.line, 0), s + "\n")
    else
      var r := ReferenceLine(active, statementEnd);
      if r + 1 < |lines| then Edit(Position(r + 1, 0), s + "\n")
      else Edit(Position(r, |lines[r]|), "\n" + s)
  }

  /** The edit that logs `text`. */
  function Plan(lines: seq<string>, active: Position, before: bool, statementEnd: Option<Position>,
                fileName: string, text: string): (e: Edit)
    requires ValidPosition(lines, active)
    requires statementEnd.Some? ==> statementEnd.value.line < |lines|
    ensures ValidPosition(lines, e.dest)
  {
    var from := IndentSource(active, before, statementEnd);
    Placement(lines, active, before, statementEnd, LogStatement(lines[from], fileName, text))
  }

  /** The command itself, with the editor's state as parameters: the document's
      lines and language, the cursor (`selection.active`), the selected text and
      the word at the cursor (`None` when the cursor is on no word). */
  method DoLog(lines: seq<string>, languageId: string, active: Position, selected: string,
               wordAtCursor: Option<string>, before: bool, fileName: string)
    returns (outcome: Outcome)
    requires ValidPosition(lines, active)
    ensures languageId !in SupportedLanguages ==> outcome == Unsupported
    ensures languageId in SupportedLanguages && selected == [] && wordAtCursor.None?
      ==> outcome == NothingToLog
    ensures languageId in SupportedLanguages && (selected != [] || wordAtCursor.Some?) ==>
      var text := if selected != [] then selected else wordAtCursor.value;
      outcome == Insert(Plan(lines, active, before,
                             if before then None else StatementEnd(lines, active), fileName, text))
  {
    if languageId !in SupportedLanguages {
      return Unsupported;
    }
    var text := selected;
    if text == [] {
      match wordAtCursor
      case Some(word) =>
        text := word;
      case None =>
        return NothingToLog;
    }
    var statementEnd: Option<Position> := None;
    if !before {
      statementEnd := FindStatementEnd(lines, active);
      StatementEndIsFirstStop(lines, active);
    }
    return Insert(Plan(lines, active, before, statementEnd, fileName, text));
  }

  /** Applying the edit turns the statement into whole lines of their own:
      in before mode just above the cursor's line, in after mode just below the
      reference line; every line of the document is kept, in order. */
  lemma PlacementInsertsWholeLines(lines: seq<string>, active: Position, before: bool,
                                   statementEnd: Option<Position>, s: string)
    requires ValidPosition(lines, active)
    requires statementEnd.Some? ==> statementEnd.value.line < |lines|
    requires s != [] && s[|s| - 1] == ';'
    ensures var e := Placement(lines, active, before, statementEnd, s);
      var k := LogLineIndex(active, before, statementEnd);
      k <= |lines| && InsertText(lines, e.dest, e.text) == lines[..k] + SplitLines(s) + lines[k..]
  {
    if before || ReferenceLine(active, statementEnd) + 1 < |lines| {
      PlacementAtLineStart(lines, active, before, statementEnd, s);
    } else {
      PlacementAtDocumentEnd(lines, active, statementEnd, s);
    }
  }

  lemma PlacementAtLineStart(lines: seq<string>, active: Position, before: bool,
                             statementEnd: Option<Position>, s: string)
    requires ValidPosition(lines, active)
    requires statementEnd.Some? ==> statementEnd.value.line < |lines|
    requires s != [] && s[|s| - 1] == ';'
    requires before || ReferenceLine(active, statementEnd) + 1 < |lines|
    ensures var e := Placement(lines, active, before, statementEnd, s);
      var k := LogLineIndex(active, before, statementEnd);
      k < |lines| && InsertText(lines, e.dest, e.text) == lines[..k] + SplitLines(s) + lines[k..]
  {
    var k := LogLineIndex(active, before, statementEnd);
    assert Placement(lines, active, before, statementEnd, s) == Edit(Position(k, 0), s + "\n");
    InsertLinesBefore(lines, k, s);
  }

  lemma PlacementAtDocumentEnd(lines: seq<string>, active: Position,
                               statementEnd: Option<Position>, s: string)
    requires ValidPosition(lines, active)
    requires statementEnd.Some? ==> statementEnd.value.line < |lines|
    requires ReferenceLine(active, statementEnd) + 1 == |lines|
    ensures var e := Placement(lines, active, false, statementEnd, s);
      var k := LogLineIndex(active, false, statementEnd);
      k == |lines| && InsertText(lines, e.dest, e.text) == lines[..k] + SplitLines(s) + lines[k..]
  {
    var last := |lines| - 1;
    assert Placement(lines, active, false, statementEnd, s)
      == Edit(Position(last, |lines[last]|), "\n" + s);
    InsertLinesAtEnd(lines, s);
    AppendAtEnd(lines, SplitLines(s));
  }

  lemma AppendAtEnd<T>(a: seq<T>, b: seq<T>)
    ensures a + b == a[..|a|] + b + a[|a|..]
  {
    assert a[..|a|] == a && a[|a|..] == [];
  }

  /** The log of `text` becomes whole lines at `LogLineIndex`, and its first line
      starts its code where the line it takes its indentation from does. */
  lemma PlanInsertsIndentedLog(lines: seq<string>, active: Position, before: bool,
                               statementEnd: Option<Position>, fileName: string, text: string)
    requires ValidPosition(lines, active)
    requires statementEnd.Some? ==> statementEnd.value.line < |lines|
    ensures var e := Plan(lines, active, before, statementEnd, fileName, text);
      var k := LogLineIndex(active, before, statementEnd);
      var from := IndentSource(active, before, statementEnd);
      var log := SplitLines(LogStatement(lines[from], fileName, text));
      k <= |lines| && InsertText(lines, e.dest, e.text) == lines[..k] + log + lines[k..]
      && FirstNonWhitespace(log[0]) == FirstNonWhitespace(lines[from])
  {
    var from := IndentSource(active, before, statementEnd);
    PlacementInsertsWholeLines(lines, active, before, statementEnd,
                               LogStatement(lines[from], fileName, text));
  }

  /** In after mode the log goes right below the line on which the cursor's
      statement ends, or right below the cursor's line when there is no such
      statement; it is never above the cursor's line. */
  lemma AfterModeFollowsStatement(lines: seq<string>, active: Position)
    requires ValidPosition(lines, active)
    ensures var end := StatementEnd(lines, active);
      var k := LogLineIndex(active, false, end);
      active.line < k <= |lines|
      && (end.Some? ==> k == end.value.line + 1)
      && (end.None? ==> k == active.line + 1)
  {
    StatementEndIsFirstStop(lines, active);
  }
}
