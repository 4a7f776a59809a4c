/** Statement-boundary resolution: where does the top-level statement around
    the cursor end?  A bracket-depth scan runs from the start of the document
    up to the cursor; if that leaves a bracket open, the scan goes on from the
    cursor until a `;` at depth zero, or the end of a later line at depth zero
    that is followed by a blank line, a line that begins a new statement, or
    nothing at all. */
module StatementBoundary {
  import opened Document
  import opened JsText

  predicate IsOpener(c: char) {
    c == '{' || c == '[' || c == '('
  }

  predicate IsCloser(c: char) {
    c == '}' || c == ']' || c == ')'
  }

  /** `close` is the closing bracket of the opening bracket `open`. */
  predicate Pairs(open: char, close: char) {
    (open == '{' && close == '}') || (open == '[' && close == ']') || (open == '(' && close == ')')
  }

  predicate AllOpeners(stack: seq<char>) {
    forall i :: 0 <= i < |stack| ==> IsOpener(stack[i])
  }

  /** The scan's treatment of one character; the top of the stack is its last element. */
  function Step(stack: seq<char>, ch: char): seq<char> {
    if IsOpener(ch) then stack + [ch]
    else if IsCloser(ch) && |stack| > 0 && Pairs(stack[|stack| - 1], ch) then stack[..|stack| - 1]
    else stack
  }

  /** The stack after scanning every character of `s`, starting from `stack`. */
  function Scan(stack: seq<char>, s: string): seq<char>
    decreases |s|
  {
    if s == [] then stack else Step(Scan(stack, s[..|s| - 1]), s[|s| - 1])
  }

  /** The stack after scanning every character of lines 0 to n - 1. */
  function LinesStack(lines: seq<string>, n: nat): seq<char>
    requires n <= |lines|
  {
    if n == 0 then [] else Scan(LinesStack(lines, n - 1), lines[n - 1])
  }

  /** The stack after scanning every character before position (l, c). */
  function StackAt(lines: seq<string>, l: nat, c: nat): seq<char>
    requires l < |lines| && c <= |lines[l]|
  {
    Scan(LinesStack(lines, l), lines[l][..c])
  }

  /** The first column of line `l` that the forward scan looks at. */
  function StartColumn(pos: Position, l: nat): nat {
    if l == pos.line then pos.character else 0
  }

  /** Character `c` of line `l` is a `;` met while no bracket is open. */
  predicate SemicolonAt(lines: seq<string>, l: nat, c: nat)
    requires l < |lines| && c < |lines[l]|
  {
    lines[l][c] == ';' && StackAt(lines, l, c) == []
  }

  /** The forward scan meets such a `;` on line `l`. */
  predicate SemicolonStop(lines: seq<string>, pos: Position, l: nat)
    requires l < |lines|
  {
    exists c :: StartColumn(pos, l) <= c < |lines[l]| && SemicolonAt(lines, l, c)
  }

  /** The leading words that mark the start of a new statement. */
  const StatementKeywords: seq<string> :=
    ["const", "let", "var", "function", "class", "if", "for", "while",
     "return", "export", "import", "interface", "type"]

  /** The regular expression `^(const|let|...|type)` matches `t`: a plain
      prefix test, with no word boundary after the keyword. */
  predicate StartsStatement(t: string) {
    exists k :: k in StatementKeywords && k <= t
  }

  /** What follows line `l` ends the statement there: no line at all, a blank
      line, or a line that begins with a statement keyword. */
  predicate NextLineEndsStatement(lines: seq<string>, l: nat)
    requires l < |lines|
  {
    l + 1 == |lines|
    || (var t := Trim(lines[l + 1]); t == [] || StartsStatement(t))
  }

  /** The forward scan ends the statement at the end of line `l` without a `;`. */
  predicate LineEndStop(lines: seq<string>, pos: Position, l: nat)
    requires l < |lines|
  {
    l > pos.line && LinesStack(lines, l + 1) == [] && NextLineEndsStatement(lines, l)
  }

  predicate StopsAt(lines: seq<string>, pos: Position, l: nat)
    requires l < |lines|
  {
    SemicolonStop(lines, pos, l) || LineEndStop(lines, pos, l)
  }

  /** For each line of the document, whether the forward scan from `pos` stops there. */
  function StopLines(lines: seq<string>, pos: Position): (stops: seq<bool>)
    ensures |stops| == |lines|
    ensures forall l :: pos.line <= l < |lines| ==> (stops[l] <==> StopsAt(lines, pos, l))
  {
    seq(|lines|, l requires 0 <= l < |lines| => pos.line <= l && StopsAt(lines, pos, l))
  }

  /** The first index from `from` on where `b` holds. */
  function FirstTrue(b: seq<bool>, from: nat): (r: Option<nat>)
    requires from <= |b|
    ensures r.Some? ==> from <= r.value < |b| && b[r.value]
    decreases |b| - from
  {
    if from == |b| then None
    else if b[from] then Some(from)
    else FirstTrue(b, from + 1)
  }

  /** Where the statement ends when the forward scan has reached line `l`
      without stopping before it. */
  function EndFrom(lines: seq<string>, pos: Position, l: nat): Option<Position>
    requires pos.line <= l <= |lines|
  {
    match FirstTrue(StopLines(lines, pos), l)
    case None => None
    case Some(k) => Some(Position(k, |lines[k]|))
  }

  /** Where the statement around `pos` ends, or None when `pos` is at top level
      or the document ends first. */
  function StatementEnd(lines: seq<string>, pos: Position): (end: Option<Position>)
    requires ValidPosition(lines, pos)
    ensures end.Some? ==> StackAt(lines, pos.line, pos.character) != []
    ensures end.Some? ==>
      pos.line <= end.value.line < |lines| && end.value.character == |lines[end.value.line]|
      && StopsAt(lines, pos, end.value.line)
  {
    if StackAt(lines, pos.line, pos.character) == [] then None
    else EndFrom(lines, pos, pos.line)
  }

  /** The first pass: the brackets still open just before the cursor, scanning
      from the start of the document. */
  method ContextStack(lines: seq<string>, pos: Position) returns (stack: seq<char>)
    requires ValidPosition(lines, pos)
    ensures stack == StackAt(lines, pos.line, pos.character)
  {
    stack := [];
    for lineNum := 0 to pos.line + 1
      invariant lineNum <= pos.line ==> stack == LinesStack(lines, lineNum)
      invariant lineNum == pos.line + 1 ==> stack == StackAt(lines, pos.line, pos.character)
    {
      var text := lines[lineNum];
      var endChar := if lineNum == pos.line then pos.character else |text|;
      for ch := 0 to endChar
        invariant stack == Scan(LinesStack(lines, lineNum), text[..ch])
      {
        var c := text[ch];
        if IsOpener(c) {
          stack := stack + [c];
        } else if IsCloser(c) {
          if |stack| > 0 && Pairs(stack[|stack| - 1], c) {
            stack := stack[..|stack| - 1];
          }
        }
        ScanExtend(LinesStack(lines, lineNum), text, ch);
      }
      assert text[..|text|] == text;
    }
  }

  /** The forward scan over one line, from its start column: it stops early at
      a `;` met while no bracket is open, and otherwise leaves the stack as it
      is at the end of the line. */
  method ScanLineForward(lines: seq<string>, pos: Position, lineNum: nat, stack0: seq<char>)
    returns (stack: seq<char>, semicolon: bool)
    requires pos.line <= lineNum < |lines| && ValidPosition(lines, pos)
    requires stack0 == StackAt(lines, lineNum, StartColumn(pos, lineNum))
    ensures semicolon == SemicolonStop(lines, pos, lineNum)
    ensures !semicolon ==> stack == LinesStack(lines, lineNum + 1)
  {
    stack := stack0;
    var text := lines[lineNum];
    var startChar := if lineNum == pos.line then pos.character else 0;
    for ch := startChar to |text|
      invariant stack == StackAt(lines, lineNum, ch)
      invariant forall c :: startChar <= c < ch ==> !SemicolonAt(lines, lineNum, c)
    {
      var c := text[ch];
      if c == ';' && |stack| == 0 {
        SemicolonHere(lines, pos, lineNum, ch);
        return stack, true;
      }
      NoSemicolonHere(lines, lineNum, ch, stack);
      if IsOpener(c) {
        stack := stack + [c];
      } else if IsCloser(c) {
        if |stack| > 0 && Pairs(stack[|stack| - 1], c) {
          stack := stack[..|stack| - 1];
        }
      }
      ScanExtend(LinesStack(lines, lineNum), text, ch);
    }
    NoSemicolonOnLine(lines, pos, lineNum);
    LineEndStack(lines, lineNum);
    return stack, false;
  }

  /** The test made at the end of a line the forward scan got through without
      a `;`: the statement ends there when no bracket is open, the line is not
      the cursor's, and the next line is blank, begins a new statement, or
      does not exist. */
  method EndsAtLineEnd(lines: seq<string>, pos: Position, lineNum: nat, stack: seq<char>)
    returns (stop: bool)
    requires lineNum < |lines| && stack == LinesStack(lines, lineNum + 1)
    ensures stop == LineEndStop(lines, pos, lineNum)
  {
    stop := false;
    if |stack| == 0 && lineNum > pos.line {
      if lineNum + 1 < |lines| {
        var nextLineText := Trim(lines[lineNum + 1]);
        if nextLineText == [] || StartsStatement(nextLineText) {
          stop := true;
        }
      } else {
        stop := true;
      }
    }
  }

  /** The resolver itself: the first pass, then a forward pass from the cursor
      that returns as soon as the statement ends. */
  method FindStatementEnd(lines: seq<string>, pos: Position) returns (r: Option<Position>)
    requires ValidPosition(lines, pos)
    ensures r == StatementEnd(lines, pos)
  {
    var stack := ContextStack(lines, pos);
    if |stack| == 0 {
      return None;
    }
    assert StackAt(lines, pos.line, pos.character) != [];

    // From the cursor on, until the statement ends.
    var lineNum := pos.line;
    assert StatementEnd(lines, pos) == EndFrom(lines, pos, lineNum);
    while lineNum < |lines|
      invariant pos.line <= lineNum <= |lines|
      invariant lineNum < |lines| ==> stack == StackAt(lines, lineNum, StartColumn(pos, lineNum))
      invariant StatementEnd(lines, pos) == EndFrom(lines, pos, lineNum)
    {
      var semicolon;
      stack, semicolon := ScanLineForward(lines, pos, lineNum, stack);
      if semicolon {
        StopHere(lines, pos, lineNum);
        return Some(Position(lineNum, |lines[lineNum]|));
      }
      var lineEnd := EndsAtLineEnd(lines, pos, lineNum, stack);
      if lineEnd {
        StopHere(lines, pos, lineNum);
        return Some(Position(lineNum, |lines[lineNum]|));
      }
      NoStopHere(lines, pos, lineNum);
      LineEndStack(lines, lineNum);
      lineNum := lineNum + 1;
    }
    return None;
  }

  lemma InsideBracketsEndFrom(lines: seq<string>, pos: Position)
    requires ValidPosition(lines, pos) && StackAt(lines, pos.line, pos.character) != []
    ensures StatementEnd(lines, pos) == EndFrom(lines, pos, pos.line)
  {
  }

  lemma StopHere(lines: seq<string>, pos: Position, l: nat)
    requires pos.line <= l < |lines| && StopsAt(lines, pos, l)
    ensures EndFrom(lines, pos, l) == Some(Position(l, |lines[l]|))
  {
  }

  lemma NoStopHere(lines: seq<string>, pos: Position, l: nat)
    requires pos.line <= l < |lines| && !StopsAt(lines, pos, l)
    ensures EndFrom(lines, pos, l) == EndFrom(lines, pos, l + 1)
  {
  }

  lemma SemicolonHere(lines: seq<string>, pos: Position, l: nat, c: nat)
    requires l < |lines| && StartColumn(pos, l) <= c < |lines[l]|
    requires lines[l][c] == ';' && StackAt(lines, l, c) == []
    ensures SemicolonStop(lines, pos, l)
  {
    assert SemicolonAt(lines, l, c);
  }

  lemma NoSemicolonHere(lines: seq<string>, l: nat, c: nat, stack: seq<char>)
    requires l < |lines| && c < |lines[l]| && stack == StackAt(lines, l, c)
    requires !(lines[l][c] == ';' && |stack| == 0)
    ensures !SemicolonAt(lines, l, c)
  {
  }

  lemma NoSemicolonOnLine(lines: seq<string>, pos: Position, l: nat)
    requires l < |lines|
    requires forall c :: StartColumn(pos, l) <= c < |lines[l]| ==> !SemicolonAt(lines, l, c)
    ensures !SemicolonStop(lines, pos, l)
  {
  }

  lemma ScanExtend(stack: seq<char>, s: string, k: nat)
    requires k < |s|
    ensures Scan(stack, s[..k + 1]) == Step(Scan(stack, s[..k]), s[k])
  {
    assert s[..k + 1][..k] == s[..k];
  }

  /** The stack at the end of line `l` is the stack at the start of line l + 1. */
  lemma LineEndStack(lines: seq<string>, l: nat)
    requires l < |lines|
    ensures StackAt(lines, l, |lines[l]|) == LinesStack(lines, l + 1)
    ensures l + 1 < |lines| ==> StackAt(lines, l + 1, 0) == LinesStack(lines, l + 1)
  {
    assert lines[l][..|lines[l]|] == lines[l];
    if l + 1 < |lines| {
      assert lines[l + 1][..0] == [];
    }
  }

  /** A closing bracket never pushes: it removes the top of the stack when the
      top is its own opening bracket, and otherwise (a mismatched closer, or an
      empty stack) leaves the stack as it was. */
  lemma CloserPopsOnlyItsOpener(stack: seq<char>, ch: char)
    requires IsCloser(ch)
    ensures Step(stack, ch) <= stack
    ensures |Step(stack, ch)| >= |stack| - 1
    ensures |Step(stack, ch)| < |stack| <==> |stack| > 0 && Pairs(stack[|stack| - 1], ch)
  {
  }

  lemma {:induction false} ScanKeepsOpeners(stack: seq<char>, s: string)
    requires AllOpeners(stack)
    ensures AllOpeners(Scan(stack, s))
    decreases |s|
  {
    if s != [] {
      ScanKeepsOpeners(stack, s[..|s| - 1]);
    }
  }

  lemma {:induction false} LinesStackOpeners(lines: seq<string>, n: nat)
    requires n <= |lines|
    ensures AllOpeners(LinesStack(lines, n))
  {
    if n > 0 {
      LinesStackOpeners(lines, n - 1);
      ScanKeepsOpeners(LinesStack(lines, n - 1), lines[n - 1]);
    }
  }

  /** Only opening brackets are ever on the stack, so looking up the closer of
      the top element is always defined. */
  lemma StackHoldsOnlyOpeners(lines: seq<string>, l: nat, c: nat)
    requires l < |lines| && c <= |lines[l]|
    ensures AllOpeners(StackAt(lines, l, c))
  {
    LinesStackOpeners(lines, l);
    ScanKeepsOpeners(LinesStack(lines, l), lines[l][..c]);
  }

  lemma {:induction false} FirstTrueIsFirst(b: seq<bool>, from: nat)
    requires from <= |b|
    ensures FirstTrue(b, from).Some? <==> exists l :: from <= l < |b| && b[l]
    ensures FirstTrue(b, from).Some? ==> forall l :: from <= l < FirstTrue(b, from).value ==> !b[l]
    decreases |b| - from
  {
    if from < |b| && !b[from] {
      FirstTrueIsFirst(b, from + 1);
    }
  }

  /** The resolver finds a statement end exactly when the cursor is inside an
      open bracket and the forward scan stops somewhere; the end is then the
      end of the first line where it stops, at or after the cursor's line. */
  lemma StatementEndIsFirstStop(lines: seq<string>, pos: Position)
    requires ValidPosition(lines, pos)
    ensures StatementEnd(lines, pos).Some?
      <==> StackAt(lines, pos.line, pos.character) != []
           && exists l :: pos.line <= l < |lines| && StopsAt(lines, pos, l)
    ensures StatementEnd(lines, pos).Some? ==>
      var p := StatementEnd(lines, pos).value;
      pos.line <= p.line < |lines| && p.character == |lines[p.line]| && StopsAt(lines, pos, p.line)
      && forall l :: pos.line <= l < p.line ==> !StopsAt(lines, pos, l)
  {
    FirstTrueIsFirst(StopLines(lines, pos), pos.line);
  }

  /** A `;` met at depth zero on the cursor's own line, at or after the cursor,
      ends the statement on that line. */
  lemma SemicolonOnCursorLine(lines: seq<string>, pos: Position, c: nat)
    requires ValidPosition(lines, pos)
    requires StackAt(lines, pos.line, pos.character) != []
    requires pos.character <= c < |lines[pos.line]| && SemicolonAt(lines, pos.line, c)
    ensures StatementEnd(lines, pos) == Some(Position(pos.line, |lines[pos.line]|))
  {
    assert StopsAt(lines, pos, pos.line);
  }

  /** If the brackets open at the cursor never all close again before the end
      of the document, there is no statement end. */
  lemma NeverClosedMeansNone(lines: seq<string>, pos: Position)
    requires ValidPosition(lines, pos)
    requires forall l, c ::
      pos.line <= l < |lines| && StartColumn(pos, l) <= c <= |lines[l]| ==> StackAt(lines, l, c) != []
    ensures StatementEnd(lines, pos) == None
  {
    forall l | pos.line <= l < |lines| ensures !StopsAt(lines, pos, l) {
      LineEndStack(lines, l);
      assert StackAt(lines, l, |lines[l]|) != [];
    }
    FirstTrueIsFirst(StopLines(lines, pos), pos.line);
  }

  lemma {:induction false} LinesStackUsesEarlierLines(lines: seq<string>, other: seq<string>, n: nat)
    requires n <= |lines| && n <= |other| && lines[..n] == other[..n]
    ensures LinesStack(lines, n) == LinesStack(other, n)
  {
    if n > 0 {
      assert lines[..n - 1] == lines[..n][..n - 1] && other[..n - 1] == other[..n][..n - 1];
      assert lines[n - 1] == lines[..n][n - 1] && other[n - 1] == other[..n][n - 1];
      LinesStackUsesEarlierLines(lines, other, n - 1);
    }
  }

  /** A cursor at top level gives no statement end, whatever follows it: any
      document that agrees with this one up to the cursor gives none either. */
  lemma TopLevelIgnoresWhatFollows(lines: seq<string>, other: seq<string>, pos: Position)
    requires ValidPosition(lines, pos) && ValidPosition(other, pos)
    requires lines[..pos.line] == other[..pos.line]
    requires lines[pos.line][..pos.character] == other[pos.line][..pos.character]
    requires StackAt(lines, pos.line, pos.character) == []
    ensures StatementEnd(lines, pos) == None && StatementEnd(other, pos) == None
  {
    LinesStackUsesEarlierLines(lines, other, pos.line);
  }

  /** The scan is a left fold: scanning `a + b` scans `a`, then `b` from there. */
  lemma {:induction false} ScanAppend(stack: seq<char>, a: string, b: string)
    ensures Scan(stack, a + b) == Scan(Scan(stack, a), b)
    decreases |b|
  {
    if b == [] {
      assert a + b == a;
    } else {
      var ab := a + b;
      assert ab[..|ab| - 1] == a + b[..|b| - 1];
      assert ab[|ab| - 1] == b[|b| - 1];
      ScanAppend(stack, a, b[..|b| - 1]);
    }
  }

  predicate NoBrackets(s: string) {
    forall i :: 0 <= i < |s| ==> !IsOpener(s[i]) && !IsCloser(s[i])
  }

  /** Text without brackets leaves the stack as it is. */
  lemma {:induction false} ScanNoBrackets(stack: seq<char>, s: string)
    requires NoBrackets(s)
    ensures Scan(stack, s) == stack
    decreases |s|
  {
    if s != [] {
      assert NoBrackets(s[..|s| - 1]) by {
        forall i | 0 <= i < |s| - 1 ensures s[..|s| - 1][i] == s[i] {}
      }
      ScanNoBrackets(stack, s[..|s| - 1]);
      assert !IsOpener(s[|s| - 1]) && !IsCloser(s[|s| - 1]);
    }
  }

  /** Characters `i` to `j - 1` of `s` hold no bracket, so scanning through
      them changes nothing. */
  lemma {:induction false} ScanSkipPlain(stack: seq<char>, s: string, i: nat, j: nat)
    requires i <= j <= |s|
    requires forall k :: i <= k < j ==> !IsOpener(s[k]) && !IsCloser(s[k])
    ensures Scan(stack, s[..j]) == Scan(stack, s[..i])
    decreases j - i
  {
    if i < j {
      ScanSkipPlain(stack, s, i, j - 1);
      ScanExtend(stack, s, j - 1);
    }
  }

  /** A line without a `;` never stops the scan at a `;`. */
  lemma NoSemicolonNoStop(lines: seq<string>, pos: Position, l: nat)
    requires l < |lines|
    requires forall c :: 0 <= c < |lines[l]| ==> lines[l][c] != ';'
    ensures !SemicolonStop(lines, pos, l)
  {
  }

  /** The keyword test is a prefix match without a word boundary. */
  lemma KeywordIsPlainPrefix()
    ensures StartsStatement("constant") && StartsStatement("types") && StartsStatement("if(x)")
  {
    assert "const" in StatementKeywords && "const" <= "constant";
    assert "type" in StatementKeywords && "type" <= "types";
    assert "if" in StatementKeywords && "if" <= "if(x)";
  }

  /** Every statement keyword begins with one of these letters. */
  lemma {:induction false} StatementStartsWithKeywordLetter(t: string)
    requires StartsStatement(t)
    ensures t != [] && t[0] in "clvfiwret"
  {
    var k :| k in StatementKeywords && k <= t;
    assert k[0] == t[0];
  }

  /** A continuation line such as `.then(f)`, a closing bracket, or text that
      still has its indentation does not begin a statement. */
  lemma NonKeywordLines()
    ensures !StartsStatement(".then(f)") && !StartsStatement("}") && !StartsStatement("  const")
  {
    if StartsStatement(".then(f)") { StatementStartsWithKeywordLetter(".then(f)"); }
    if StartsStatement("}") { StatementStartsWithKeywordLetter("}"); }
    if StartsStatement("  const") { StatementStartsWithKeywordLetter("  const"); }
  }
}
