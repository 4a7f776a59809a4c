/** Concrete documents on which the command's behaviour is known: the log
    goes on its own line after the statement around the cursor, or before the
    cursor's line for `clogBefore`. The file name is `test.ts` and the cursor
    is at the end of the selected word, where a selection made from left to
    right leaves it. */
module Scenarios {
  import opened Document
  import opened JsText
  import opened StatementBoundary
  import opened LogLabel
  import opened LogCommand

  /** The line that logs `word` from `test.ts` at column 0. */
  function TestLog(word: string): string {
    "console.log('test.ts > " + word + ":', " + word + ");"
  }

  /** A word of one line without a single quote. */
  predicate PlainWord(word: string) {
    forall i :: 0 <= i < |word| ==> word[i] != '\r' && word[i] != '\n' && word[i] != '\''
  }

  /** The log of a one-line word without a quote, in `test.ts`, from a line
      whose code starts in column 0. */
  lemma LogOfWord(line: string, word: string)
    requires line != [] && !IsWhitespace(line[0])
    requires PlainWord(word)
    ensures SplitLines(LogStatement(line, "test.ts", word)) == [TestLog(word)]
  {
    assert "'" + "test.ts" + " > " + word + ":'" == "'test.ts > " + word + ":'";
    assert LogCall([], "'test.ts > " + word + ":'", word) == TestLog(word);
    assert !HasLineBreak("test.ts");
    OneLineLog(line, "test.ts", word);
    assert FirstNonWhitespace(line) == 0;
    assert Spaces(0) == [];
  }

  /** The log of `word`, taking its indentation from a line that starts with
      code, becomes one line of its own at `LogLineIndex`. */
  lemma WordLogged(lines: seq<string>, active: Position, before: bool, end: Option<Position>,
                   word: string)
    requires ValidPosition(lines, active) && (end.Some? ==> end.value.line < |lines|)
    requires var l := lines[IndentSource(active, before, end)]; l != [] && !IsWhitespace(l[0])
    requires PlainWord(word)
    ensures var e := Plan(lines, active, before, end, "test.ts", word);
      var k := LogLineIndex(active, before, end);
      k <= |lines| && InsertText(lines, e.dest, e.text) == lines[..k] + [TestLog(word)] + lines[k..]
  {
    PlanInsertsIndentedLog(lines, active, before, end, "test.ts", word);
    LogOfWord(lines[IndentSource(active, before, end)], word);
  }

  const TwoDeclarations: seq<string> := ["const name = \"test\";", "const value = 123;"]

  /** `name` selected in a declaration at top level: no bracket is open at the
      cursor, so the statement has no end to find. */
  lemma TopLevelDeclarationHasNoEnd(lines: seq<string>)
    requires lines == TwoDeclarations
    ensures StatementEnd(lines, Position(0, 10)) == None
  {
    assert lines[0][..10] == "const name";
    ScanNoBrackets([], "const name");
  }

  /** ... and the log goes right below the cursor's line. */
  lemma LogBelowTopLevelDeclaration(lines: seq<string>)
    requires lines == TwoDeclarations
    ensures var e := Plan(lines, Position(0, 10), false, StatementEnd(lines, Position(0, 10)),
                          "test.ts", "name");
      InsertText(lines, e.dest, e.text)
      == [lines[0], TestLog("name"), lines[1]]
  {
    assert PlainWord("name");
    TopLevelDeclarationHasNoEnd(lines);
    WordLogged(lines, Position(0, 10), false, None, "name");
    assert lines[..1] == [lines[0]] && lines[1..] == [lines[1]];
  }

  /** The same selection with `clogBefore`: the log goes right above the
      cursor's line. */
  lemma LogAboveTopLevelDeclaration(lines: seq<string>)
    requires lines == TwoDeclarations
    ensures var e := Plan(lines, Position(0, 10), true, None, "test.ts", "name");
      InsertText(lines, e.dest, e.text)
      == [TestLog("name")] + lines
  {
    assert PlainWord("name");
    WordLogged(lines, Position(0, 10), true, None, "name");
    assert lines[..0] == [] && lines[0..] == lines;
  }

  const OneLineObject: seq<string> := ["const obj = { name, value };", "const next = \"something\";"]

  /** `name` selected inside an object literal written on one line: the
      statement ends at its `;`, on the cursor's line. */
  lemma OneLineObjectEnd(lines: seq<string>)
    requires lines == OneLineObject
    ensures StatementEnd(lines, Position(0, 18)) == Some(Position(0, 28))
  {
    OneLineObjectOpens(lines[0]);
    OneLineObjectCloses(lines[0]);
    assert SemicolonAt(lines, 0, 27);
    InsideBracketsEndFrom(lines, Position(0, 18));
    StopHere(lines, Position(0, 18), 0);
  }

  lemma OneLineObjectOpens(s: string)
    requires s == OneLineObject[0]
    ensures Scan([], s[..18]) == "{"
  {
    assert s[..0] == [];
    ScanSkipPlain([], s, 0, 12);
    ScanExtend([], s, 12);
    ScanSkipPlain([], s, 13, 18);
  }

  lemma OneLineObjectCloses(s: string)
    requires s == OneLineObject[0] && Scan([], s[..18]) == "{"
    ensures Scan([], s[..27]) == []
  {
    ScanSkipPlain([], s, 18, 26);
    ScanExtend([], s, 26);
  }

  /** ... and the log goes on the next line. */
  lemma LogBelowOneLineObject(lines: seq<string>)
    requires lines == OneLineObject
    ensures var e := Plan(lines, Position(0, 18), false, StatementEnd(lines, Position(0, 18)),
                          "test.ts", "name");
      InsertText(lines, e.dest, e.text) == [lines[0], TestLog("name"), lines[1]]
  {
    assert PlainWord("name");
    OneLineObjectEnd(lines);
    WordLogged(lines, Position(0, 18), false, Some(Position(0, 28)), "name");
    assert lines[..1] == [lines[0]] && lines[1..] == [lines[1]];
  }

  const ObjectWithoutSemicolon: seq<string> :=
    ["const obj = {", "  name,", "  value", "}", "const next = \"test\""]

  /** `name` selected inside an object literal whose statement has no `;`: the
      statement ends at the end of the line that closes the brace, because
      the next line begins with `const`. */
  lemma ObjectWithoutSemicolonEnd(lines: seq<string>)
    requires lines == ObjectWithoutSemicolon
    ensures StatementEnd(lines, Position(1, 6)) == Some(Position(3, 1))
  {
    var pos := Position(1, 6);
    ObjectWithoutSemicolonStacks(lines);
    NoSemicolonNoStop(lines, pos, 1);
    NoSemicolonNoStop(lines, pos, 2);
    NoSemicolonNoStop(lines, pos, 3);
    ObjectWithoutSemicolonNextLine(lines);
    InsideBracketsEndFrom(lines, pos);
    NoStopHere(lines, pos, 1);
    NoStopHere(lines, pos, 2);
    StopHere(lines, pos, 3);
  }

  lemma ObjectWithoutSemicolonStacks(lines: seq<string>)
    requires lines == ObjectWithoutSemicolon
    ensures StackAt(lines, 1, 6) == "{"
    ensures LinesStack(lines, 3) == "{" && LinesStack(lines, 4) == []
  {
    ObjectOpens(lines[0]);
    ScanSkipPlain("{", lines[1], 0, 6);
    assert lines[1][..0] == [];
    ScanNoBrackets("{", lines[1]);
    ScanNoBrackets("{", lines[2]);
    assert lines[3][..0] == [];
  }

  lemma ObjectOpens(s: string)
    requires s == "const obj = {"
    ensures Scan([], s) == "{"
  {
    assert s[..0] == [] && s[..13] == s;
    ScanSkipPlain([], s, 0, 12);
    ScanExtend([], s, 12);
  }

  lemma ObjectWithoutSemicolonNextLine(lines: seq<string>)
    requires lines == ObjectWithoutSemicolon
    ensures NextLineEndsStatement(lines, 3)
  {
    TrimUnpadded(lines[4]);
    assert "const" in StatementKeywords && "const" <= lines[4];
  }

  /** ... and the log goes on the line after the closing brace. */
  lemma LogBelowObjectWithoutSemicolon(lines: seq<string>)
    requires lines == ObjectWithoutSemicolon
    ensures var e := Plan(lines, Position(1, 6), false, StatementEnd(lines, Position(1, 6)),
                          "test.ts", "name");
      InsertText(lines, e.dest, e.text) == lines[..4] + [TestLog("name")] + lines[4..]
  {
    assert PlainWord("name");
    ObjectWithoutSemicolonEnd(lines);
    assert !IsWhitespace(lines[3][0]);
    WordLogged(lines, Position(1, 6), false, Some(Position(3, 1)), "name");
  }

  const ArrowAtDocumentEnd: seq<string> := ["items.map(item => ({", "  id,", "  name,", "}));"]

  /** `id` selected inside an object literal returned by an arrow function
      passed to a call: the statement ends at the `;` after the last closing
      bracket, on the last line of the document. */
  lemma ArrowAtDocumentEndEnd(lines: seq<string>)
    requires lines == ArrowAtDocumentEnd
    ensures StatementEnd(lines, Position(1, 4)) == Some(Position(3, 4))
  {
    var pos := Position(1, 4);
    ArrowStacks(lines);
    ArrowCloses(lines);
    assert SemicolonAt(lines, 3, 3);
    NoSemicolonNoStop(lines, pos, 1);
    NoSemicolonNoStop(lines, pos, 2);
    InsideBracketsEndFrom(lines, pos);
    NoStopHere(lines, pos, 1);
    NoStopHere(lines, pos, 2);
    StopHere(lines, pos, 3);
  }

  lemma ArrowOpens(s: string)
    requires s == ArrowAtDocumentEnd[0]
    ensures Scan([], s) == "(({"
  {
    ArrowCallOpens(s);
    assert s[..20] == s;
    ScanExtend([], s, 18);
    ScanExtend([], s, 19);
  }

  lemma ArrowCallOpens(s: string)
    requires s == ArrowAtDocumentEnd[0]
    ensures Scan([], s[..18]) == "("
  {
    assert s[..0] == [];
    ScanSkipPlain([], s, 0, 9);
    ScanExtend([], s, 9);
    ScanSkipPlain([], s, 10, 18);
  }

  lemma ArrowStacks(lines: seq<string>)
    requires lines == ArrowAtDocumentEnd
    ensures StackAt(lines, 1, 4) == "(({"
    ensures LinesStack(lines, 3) == "(({"
  {
    ArrowOpens(lines[0]);
    ScanSkipPlain("(({", lines[1], 0, 4);
    assert lines[1][..0] == [];
    ScanNoBrackets("(({", lines[1]);
    ScanNoBrackets("(({", lines[2]);
  }

  lemma ArrowCloses(lines: seq<string>)
    requires lines == ArrowAtDocumentEnd && LinesStack(lines, 3) == "(({"
    ensures StackAt(lines, 3, 3) == []
  {
    var s := lines[3];
    assert s[..0] == [];
    ScanExtend("(({", s, 0);
    ScanExtend("(({", s, 1);
    ScanExtend("(({", s, 2);
  }

  /** ... and, the statement ending on the last line, the log goes at the
      end of the document on a line of its own. */
  lemma LogAfterArrowAtDocumentEnd(lines: seq<string>)
    requires lines == ArrowAtDocumentEnd
    ensures var e := Plan(lines, Position(1, 4), false, StatementEnd(lines, Position(1, 4)),
                          "test.ts", "id");
      e.dest == Position(3, 4) && InsertText(lines, e.dest, e.text) == lines + [TestLog("id")]
  {
    assert PlainWord("id");
    ArrowAtDocumentEndEnd(lines);
    assert !IsWhitespace(lines[3][0]);
    WordLogged(lines, Position(1, 4), false, Some(Position(3, 4)), "id");
    assert lines[..4] == lines && lines[4..] == [];
  }

  const MethodInObject: seq<string> :=
    ["const obj = {", "  method: function() {", "    return {", "      value,", "    };", "  }", "};"]

  /** `value` selected in an object returned from a method of an object: the
      `;` after the inner object is met while two braces are still open and
      does not end the statement; the one after the outer object does. */
  lemma MethodInObjectEnd(lines: seq<string>)
    requires lines == MethodInObject
    ensures StatementEnd(lines, Position(3, 11)) == Some(Position(6, 2))
  {
    var pos := Position(3, 11);
    MethodInObjectStacks(lines);
    InnerSemicolonIsNested(lines);
    MethodInObjectCloses(lines);
    NoSemicolonNoStop(lines, pos, 3);
    NoSemicolonNoStop(lines, pos, 5);
    assert SemicolonAt(lines, 6, 1);
    InsideBracketsEndFrom(lines, pos);
    NoStopHere(lines, pos, 3);
    NoStopHere(lines, pos, 4);
    NoStopHere(lines, pos, 5);
    StopHere(lines, pos, 6);
  }

  lemma MethodOpens(s: string)
    requires s == MethodInObject[1]
    ensures Scan("{", s) == "{{"
  {
    assert s[..0] == [] && s[..22] == s;
    ScanSkipPlain("{", s, 0, 18);
    ScanExtend("{", s, 18);
    ScanExtend("{", s, 19);
    ScanSkipPlain("{", s, 20, 21);
    ScanExtend("{", s, 21);
  }

  lemma ReturnOpens(s: string)
    requires s == MethodInObject[2]
    ensures Scan("{{", s) == "{{{"
  {
    assert s[..0] == [] && s[..12] == s;
    ScanSkipPlain("{{", s, 0, 11);
    ScanExtend("{{", s, 11);
  }

  lemma MethodInObjectStacks(lines: seq<string>)
    requires lines == MethodInObject
    ensures StackAt(lines, 3, 11) == "{{{"
    ensures LinesStack(lines, 4) == "{{{"
  {
    ObjectOpens(lines[0]);
    MethodOpens(lines[1]);
    ReturnOpens(lines[2]);
    assert lines[3][..0] == [];
    ScanSkipPlain("{{{", lines[3], 0, 11);
    ScanNoBrackets("{{{", lines[3]);
  }

  /** The `;` of line 4 comes after the inner object's brace closes, with the
      method's and the outer object's braces still open. */
  lemma InnerSemicolonIsNested(lines: seq<string>)
    requires lines == MethodInObject && LinesStack(lines, 4) == "{{{"
    ensures StackAt(lines, 4, 5) == "{{"
    ensures LinesStack(lines, 5) == "{{"
    ensures !SemicolonStop(lines, Position(3, 11), 4)
  {
    var s := lines[4];
    assert s[..0] == [] && s[..6] == s;
    ScanSkipPlain("{{{", s, 0, 4);
    ScanExtend("{{{", s, 4);
    ScanExtend("{{{", s, 5);
    assert forall c :: 0 <= c < |s| && s[c] == ';' ==> c == 5;
  }

  lemma MethodInObjectCloses(lines: seq<string>)
    requires lines == MethodInObject && LinesStack(lines, 5) == "{{"
    ensures LinesStack(lines, 6) == "{"
    ensures StackAt(lines, 6, 1) == []
  {
    var s := lines[5];
    assert s[..0] == [] && s[..3] == s;
    ScanSkipPlain("{{", s, 0, 2);
    ScanExtend("{{", s, 2);
    assert lines[6][..0] == [];
    ScanExtend("{", lines[6], 0);
  }

  /** ... and the log goes at the end of the document, below the outer
      object's `};`. */
  lemma LogAfterMethodInObject(lines: seq<string>)
    requires lines == MethodInObject
    ensures var e := Plan(lines, Position(3, 11), false, StatementEnd(lines, Position(3, 11)),
                          "test.ts", "value");
      InsertText(lines, e.dest, e.text) == lines + [TestLog("value")]
  {
    assert PlainWord("value");
    MethodInObjectEnd(lines);
    assert !IsWhitespace(lines[6][0]);
    WordLogged(lines, Position(3, 11), false, Some(Position(6, 2)), "value");
    assert lines[..7] == lines && lines[7..] == [];
  }

  const OneStatement: seq<string> := ["const x = 1;"]

  /** `x` selected in the only line of a document, at top level: there is no
      statement end, and the cursor's line is the last one, so the log is
      appended after a line break at the end of that line. */
  lemma LogAfterOnlyLine(lines: seq<string>)
    requires lines == OneStatement
    ensures StatementEnd(lines, Position(0, 7)) == None
    ensures var e := Plan(lines, Position(0, 7), false, None, "test.ts", "x");
      e.dest == Position(0, 12) && InsertText(lines, e.dest, e.text) == lines + [TestLog("x")]
  {
    assert PlainWord("x");
    assert lines[0][..7] == "const x";
    ScanNoBrackets([], "const x");
    WordLogged(lines, Position(0, 7), false, None, "x");
    assert lines[..1] == lines && lines[1..] == [];
  }
}
