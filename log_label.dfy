/** The label that prefixes every logged value: the file name and the logged
    text inside a JavaScript string literal, quoted with `'` for one line of
    text and with a backtick (a template literal) for several, with the
    characters that would end or break that literal escaped. A small reader
    of JavaScript string literals stands beside it as its partner: reading
    the label back yields the file name and the text. */
module LogLabel {
  import opened Document

  /** `/\r\n|\r|\n/.test(text)`. */
  predicate IsMultiline(text: string) {
    exists i :: 0 <= i < |text| && (text[i] == '\r' || text[i] == '\n')
  }

  /** The quote that wraps the label. */
  function WrapChar(text: string): (w: char)
    ensures w == '`' <==> IsMultiline(text)
    ensures w == '`' || w == '\''
  {
    if IsMultiline(text) then '`' else '\''
  }

  /** `c` with a backslash in front when it is one of `cs`. */
  function EscapeOne(c: char, cs: string): string {
    if c in cs then ['\\', c] else [c]
  }

  /** Every character of `s` that is one of `cs` gets a backslash in front:
      `s.replace(/c/g, '\\' + c)` when `cs` is the single character `c`. */
  function EscapeChars(s: string, cs: string): string
    decreases |s|
  {
    if s == [] then [] else EscapeOne(s[0], cs) + EscapeChars(s[1..], cs)
  }

  /** The escaping of the text for its literal: backticks and then `$` in a
      template literal, single quotes in a quoted one. */
  function EscapeText(text: string): string {
    if IsMultiline(text) then EscapeChars(EscapeChars(text, "`"), "$")
    else EscapeChars(text, "'")
  }

  /** The label: `${wrap}${fileName} > ${escapedText}:${wrap}`. */
  function Label(fileName: string, text: string): (quoted: string)
    ensures |quoted| >= 2 && quoted[0] == quoted[|quoted| - 1] == WrapChar(text)
  {
    [WrapChar(text)] + fileName + " > " + EscapeText(text) + ":" + [WrapChar(text)]
  }

  // ---------------------------------------------------------------------------
  // Reading a JavaScript string literal back.

  function Prepend(p: string, o: Option<string>): Option<string> {
    match o
    case None => None
    case Some(v) => Some(p + v)
  }

  /** The value of the characters between the quotes of a literal wrapped in
      `wrap` (`'` or a backtick), or `None` when they do not form the body of
      one such literal: an unescaped `wrap` would close the literal early, a
      `${` would open a substitution in a template, a line break may not appear
      in a quoted literal, and a backslash must start one of the escapes
      `\\`, `\'`, `\"`, `` \` ``, `\$` (the only ones this reader knows).
      A template turns "\r\n" and "\r" in its source into "\n". */
  function ReadBody(s: string, wrap: char): Option<string>
    decreases |s|
  {
    if s == [] then Some([])
    else if s[0] == '\\' then
      if |s| >= 2 && s[1] in "\\'\"`$" then Prepend([s[1]], ReadBody(s[2..], wrap)) else None
    else if s[0] == wrap then None
    else if wrap == '`' && s[0] == '$' && |s| >= 2 && s[1] == '{' then None
    else if wrap == '`' && s[0] == '\r' then
      if |s| >= 2 && s[1] == '\n' then Prepend("\n", ReadBody(s[2..], wrap))
      else Prepend("\n", ReadBody(s[1..], wrap))
    else if wrap != '`' && (s[0] == '\r' || s[0] == '\n') then None
    else Prepend([s[0]], ReadBody(s[1..], wrap))
  }

  /** The value of a complete string literal quoted with `'` or a backtick. */
  function ReadLiteral(s: string): Option<string> {
    if |s| >= 2 && s[0] == s[|s| - 1] && (s[0] == '\'' || s[0] == '`') then
      ReadBody(s[1..|s| - 1], s[0])
    else None
  }

  /** The value a template literal gives to raw text: "\r\n" and "\r" become "\n". */
  function NormaliseLineBreaks(t: string): string
    decreases |t|
  {
    if t == [] then []
    else if t[0] == '\r' && |t| >= 2 && t[1] == '\n' then "\n" + NormaliseLineBreaks(t[2..])
    else if t[0] == '\r' then "\n" + NormaliseLineBreaks(t[1..])
    else [t[0]] + NormaliseLineBreaks(t[1..])
  }

  /** The value the label's literal is meant to have. */
  function LabelValue(fileName: string, text: string): string {
    fileName + " > " + (if IsMultiline(text) then NormaliseLineBreaks(text) else text) + ":"
  }

  /** Characters that mean nothing special in either kind of literal. */
  predicate Plain(s: string) {
    forall i :: 0 <= i < |s| ==> s[i] !in "\\'`$\r\n"
  }

  predicate NoBackslash(s: string) {
    forall i :: 0 <= i < |s| ==> s[i] != '\\'
  }

  // ---------------------------------------------------------------------------
  // The label reads back as the file name and the text.

  /** The label is a single literal whose value is the file name, " > ", the
      text (with its line breaks as a template gives them) and ":", as long as
      the text has no backslash and the file name no character that is special
      in a literal. */
  lemma LabelRoundTrip(fileName: string, text: string)
    requires Plain(fileName) && NoBackslash(text)
    ensures ReadLiteral(Label(fileName, text)) == Some(LabelValue(fileName, text))
  {
    var w := WrapChar(text);
    var head := fileName + " > ";
    ReadLabel(fileName, text);
    var value := if IsMultiline(text) then NormaliseLineBreaks(text) else text;
    if IsMultiline(text) {
      EscapeTwoPasses(text);
      ReadTemplate(text, ":");
    } else {
      forall i | 0 <= i < |text| ensures text[i] != '\r' && text[i] != '\n' {
        if text[i] == '\r' || text[i] == '\n' {
          assert IsMultiline(text);
        }
      }
      ReadQuoted(text, ":");
    }
    assert ReadBody(":", w) == Some(":") by {
      assert ":" == [':'] + [];
      ReadBodyChar(':', [], w);
    }
    assert head + (value + ":") == LabelValue(fileName, text);
  }

  /** Reading the label reads the file name and " > " as they are. */
  lemma ReadLabel(fileName: string, text: string)
    requires Plain(fileName)
    ensures ReadLiteral(Label(fileName, text))
      == Prepend(fileName + " > ", ReadBody(EscapeText(text) + ":", WrapChar(text)))
  {
    var w := WrapChar(text);
    var quoted := Label(fileName, text);
    var head := fileName + " > ";
    assert quoted[1..|quoted| - 1] == head + (EscapeText(text) + ":");
    assert Plain(head) by {
      assert forall i :: |fileName| <= i < |head| ==> head[i] == " > "[i - |fileName|];
    }
    ReadPlain(head, EscapeText(text) + ":", w);
  }

  /** Plain characters read as themselves. */
  lemma {:induction false} ReadPlain(p: string, rest: string, wrap: char)
    requires Plain(p) && (wrap == '`' || wrap == '\'')
    ensures ReadBody(p + rest, wrap) == Prepend(p, ReadBody(rest, wrap))
    decreases |p|
  {
    if p == [] {
      assert p + rest == rest;
      PrependNothing(ReadBody(rest, wrap));
    } else {
      assert p + rest == [p[0]] + (p[1..] + rest);
      assert p[0] !in "\\'`$\r\n";
      ReadBodyChar(p[0], p[1..] + rest, wrap);
      ReadPlain(p[1..], rest, wrap);
      PrependTwice([p[0]], p[1..], ReadBody(rest, wrap));
      assert [p[0]] + p[1..] == p;
    }
  }

  /** A quoted literal reads its escaped text back as the text. */
  lemma {:induction false} ReadQuoted(t: string, rest: string)
    requires NoBackslash(t)
    requires forall i :: 0 <= i < |t| ==> t[i] != '\r' && t[i] != '\n'
    ensures ReadBody(EscapeChars(t, "'") + rest, '\'') == Prepend(t, ReadBody(rest, '\''))
    decreases |t|
  {
    if t == [] {
      assert EscapeChars(t, "'") + rest == rest;
      PrependNothing(ReadBody(rest, '\''));
    } else {
      var c := t[0];
      var tail := EscapeChars(t[1..], "'") + rest;
      assert EscapeChars(t, "'") + rest == EscapeOne(c, "'") + tail;
      if c == '\'' {
        ReadBodyEscape(c, tail, '\'');
      } else {
        ReadBodyChar(c, tail, '\'');
      }
      ReadQuoted(t[1..], rest);
      PrependTwice([c], t[1..], ReadBody(rest, '\''));
      assert [c] + t[1..] == t;
    }
  }

  /** The two passes of the template escaping are one pass over both characters. */
  lemma {:induction false} EscapeTwoPasses(t: string)
    ensures EscapeChars(EscapeChars(t, "`"), "$") == EscapeChars(t, "`$")
    decreases |t|
  {
    if t != [] {
      var c := t[0];
      EscapeCharsAppend(EscapeOne(c, "`"), EscapeChars(t[1..], "`"), "$");
      EscapeTwoPasses(t[1..]);
      if c == '`' {
        EscapeCharsCons('\\', [c], "$");
        EscapeCharsCons(c, [], "$");
      } else {
        EscapeCharsCons(c, [], "$");
      }
    }
  }

  /** Text with none of the characters `cs` is left as it is. */
  lemma {:induction false} EscapeCharsNone(s: string, cs: string)
    requires forall i :: 0 <= i < |s| ==> s[i] !in cs
    ensures EscapeChars(s, cs) == s
    decreases |s|
  {
    if s != [] {
      EscapeCharsNone(s[1..], cs);
      assert [s[0]] + s[1..] == s;
    }
  }

  /** One line of text without a single quote is quoted as it is:
      `'${fileName} > ${text}:'`. */
  lemma OneLineLabel(fileName: string, text: string)
    requires forall i :: 0 <= i < |text| ==> text[i] != '\r' && text[i] != '\n' && text[i] != '\''
    ensures Label(fileName, text) == "'" + fileName + " > " + text + ":'"
  {
    assert !IsMultiline(text);
    EscapeCharsNone(text, "'");
  }

  lemma EscapeCharsCons(c: char, s: string, cs: string)
    ensures EscapeChars([c] + s, cs) == EscapeOne(c, cs) + EscapeChars(s, cs)
  {
    assert ([c] + s)[1..] == s;
  }

  lemma {:induction false} EscapeCharsAppend(a: string, b: string, cs: string)
    ensures EscapeChars(a + b, cs) == EscapeChars(a, cs) + EscapeChars(b, cs)
    decreases |a|
  {
    if a == [] {
      assert a + b == b;
    } else {
      assert a + b == [a[0]] + (a[1..] + b);
      EscapeCharsCons(a[0], a[1..] + b, cs);
      EscapeCharsAppend(a[1..], b, cs);
    }
  }

  /** A template reads its escaped text back as the text with its line breaks
      normalised, as long as what follows does not begin with a "\n" that a
      final "\r" of the text would absorb. */
  lemma {:induction false} ReadTemplate(t: string, rest: string)
    requires NoBackslash(t)
    requires rest == [] || rest[0] != '\n'
    ensures ReadBody(EscapeChars(t, "`$") + rest, '`')
      == Prepend(NormaliseLineBreaks(t), ReadBody(rest, '`'))
    decreases |t|
  {
    if t == [] {
      assert EscapeChars(t, "`$") + rest == rest;
      PrependNothing(ReadBody(rest, '`'));
    } else if t[0] == '\r' && |t| >= 2 && t[1] == '\n' {
      ReadTemplate(t[2..], rest);
      ReadTemplateCrLf(t, rest);
    } else {
      ReadTemplate(t[1..], rest);
      ReadTemplateChar(t, rest);
    }
  }

  /** The step of `ReadTemplate` over a "\r\n" at the front of the text. */
  lemma ReadTemplateCrLf(t: string, rest: string)
    requires |t| >= 2 && t[0] == '\r' && t[1] == '\n'
    requires ReadBody(EscapeChars(t[2..], "`$") + rest, '`')
      == Prepend(NormaliseLineBreaks(t[2..]), ReadBody(rest, '`'))
    ensures ReadBody(EscapeChars(t, "`$") + rest, '`')
      == Prepend(NormaliseLineBreaks(t), ReadBody(rest, '`'))
  {
    var e2 := EscapeChars(t[2..], "`$");
    var tail := e2 + rest;
    assert t[1..] == ['\n'] + t[2..];
    EscapeCharsCons('\n', t[2..], "`$");
    assert t == ['\r'] + t[1..];
    EscapeCharsCons('\r', t[1..], "`$");
    assert EscapeChars(t, "`$") == "\r" + ("\n" + e2);
    CrLfFront(e2, rest);
    ReadBodyCrLf(tail);
    assert NormaliseLineBreaks(t) == "\n" + NormaliseLineBreaks(t[2..]);
    PrependTwice("\n", NormaliseLineBreaks(t[2..]), ReadBody(rest, '`'));
  }

  lemma CrLfFront(e: string, rest: string)
    ensures "\r" + ("\n" + e) + rest == "\r\n" + (e + rest)
  {
  }

  /** The step of `ReadTemplate` over one character at the front of the text. */
  lemma ReadTemplateChar(t: string, rest: string)
    requires t != [] && NoBackslash(t)
    requires !(t[0] == '\r' && |t| >= 2 && t[1] == '\n')
    requires rest == [] || rest[0] != '\n'
    requires ReadBody(EscapeChars(t[1..], "`$") + rest, '`')
      == Prepend(NormaliseLineBreaks(t[1..]), ReadBody(rest, '`'))
    ensures ReadBody(EscapeChars(t, "`$") + rest, '`')
      == Prepend(NormaliseLineBreaks(t), ReadBody(rest, '`'))
  {
    var c := t[0];
    var v := if c == '\r' then "\n" else [c];
    var tail := EscapeChars(t[1..], "`$") + rest;
    assert EscapeChars(t, "`$") + rest == EscapeOne(c, "`$") + tail;
    if c == '`' || c == '$' {
      ReadBodyEscape(c, tail, '`');
    } else if c == '\r' {
      ReadTemplateCr(t, rest);
    } else {
      ReadBodyChar(c, tail, '`');
    }
    assert NormaliseLineBreaks(t) == v + NormaliseLineBreaks(t[1..]);
    PrependTwice(v, NormaliseLineBreaks(t[1..]), ReadBody(rest, '`'));
  }

  /** A lone "\r" of the text reads as "\n". */
  lemma ReadTemplateCr(t: string, rest: string)
    requires t != [] && t[0] == '\r' && !(|t| >= 2 && t[1] == '\n')
    requires rest == [] || rest[0] != '\n'
    ensures var tail := EscapeChars(t[1..], "`$") + rest;
      ReadBody("\r" + tail, '`') == Prepend("\n", ReadBody(tail, '`'))
  {
    var tail := EscapeChars(t[1..], "`$") + rest;
    if t[1..] == [] {
      assert tail == rest;
    } else {
      EscapeCharsCons(t[1], t[2..], "`$");
      assert t[1..] == [t[1]] + t[2..];
      assert tail[0] == EscapeOne(t[1], "`$")[0];
    }
    ReadBodyCr(tail);
  }

  // One step of `ReadBody`, by the kind of the first character.

  lemma ReadBodyEscape(c: char, tail: string, wrap: char)
    requires c in "\\'\"`$"
    ensures ReadBody(['\\', c] + tail, wrap) == Prepend([c], ReadBody(tail, wrap))
  {
    assert (['\\', c] + tail)[2..] == tail;
  }

  lemma ReadBodyCrLf(tail: string)
    ensures ReadBody("\r\n" + tail, '`') == Prepend("\n", ReadBody(tail, '`'))
  {
    assert ("\r\n" + tail)[2..] == tail;
  }

  lemma ReadBodyCr(tail: string)
    requires tail == [] || tail[0] != '\n'
    ensures ReadBody("\r" + tail, '`') == Prepend("\n", ReadBody(tail, '`'))
  {
    assert ("\r" + tail)[1..] == tail;
  }

  lemma ReadBodyChar(c: char, tail: string, wrap: char)
    requires c != '\\' && c != wrap
    requires wrap == '`' ==> c != '$' && c != '\r'
    requires wrap != '`' ==> c != '\r' && c != '\n'
    ensures ReadBody([c] + tail, wrap) == Prepend([c], ReadBody(tail, wrap))
  {
    assert ([c] + tail)[1..] == tail;
  }

  lemma ReadBodyCloses(tail: string, wrap: char)
    requires wrap != '\\'
    ensures ReadBody([wrap] + tail, wrap) == None
  {
  }

  lemma PrependNothing(o: Option<string>)
    ensures Prepend([], o) == o
  {
    if o.Some? {
      assert [] + o.value == o.value;
    }
  }

  lemma PrependTwice(a: string, b: string, o: Option<string>)
    ensures Prepend(a, Prepend(b, o)) == Prepend(a + b, o)
  {
    if o.Some? {
      assert a + (b + o.value) == a + b + o.value;
    }
  }

  // ---------------------------------------------------------------------------
  // What the escaping does not cover.

  /** Backslashes in the text are not escaped: a selected `\'` becomes `\\'`,
      whose quote closes the literal early. */
  lemma BackslashQuoteBreaksLabel()
    ensures ReadLiteral(Label("a.ts", "\\'")) == None
  {
    var text := "\\'";
    assert !IsMultiline(text) by {
      assert forall i :: 0 <= i < |text| ==> text[i] == '\\' || text[i] == '\'';
    }
    assert Plain("a.ts");
    ReadLabel("a.ts", text);
    assert EscapeText(text) == "\\\\'" by {
      EscapeCharsCons('\\', "'", "'");
      EscapeCharsCons('\'', [], "'");
      assert text == ['\\'] + "'";
    }
    assert EscapeText(text) + ":" == ['\\', '\\'] + ("'" + ":");
    ReadBodyEscape('\\', "'" + ":", '\'');
    ReadBodyCloses(":", '\'');
  }

  /** A selected pair of backslashes is logged as one. */
  lemma BackslashPairLoggedAsOne()
    ensures ReadLiteral(Label("a.ts", "\\\\")) == Some("a.ts > \\:")
  {
    var text := "\\\\";
    assert !IsMultiline(text) by {
      assert forall i :: 0 <= i < |text| ==> text[i] == '\\';
    }
    assert Plain("a.ts");
    ReadLabel("a.ts", text);
    assert EscapeText(text) == text by {
      EscapeCharsCons('\\', "\\", "'");
      EscapeCharsCons('\\', [], "'");
      assert text == ['\\'] + "\\";
    }
    assert text + ":" == ['\\', '\\'] + ":";
    ReadBodyEscape('\\', ":", '\'');
    assert ReadBody(":", '\'') == Some(":") by {
      assert ":" == [':'] + [];
      ReadBodyChar(':', [], '\'');
    }
    assert ReadBody(text + ":", '\'') == Some("\\" + ":");
    assert WrapChar(text) == '\'';
    assert "a.ts > " + ("\\" + ":") == "a.ts > \\:";
    assert "a.ts" + " > " == "a.ts > ";
  }

  /** The file name is not escaped: a quote in it closes the literal early. */
  lemma QuoteInFileNameBreaksLabel()
    ensures ReadLiteral(Label("it's.ts", "x")) == None
  {
    var quoted := Label("it's.ts", "x");
    assert !IsMultiline("x");
    var rest := "s.ts > " + EscapeText("x") + ":";
    assert quoted[1..|quoted| - 1] == "it" + ("'" + rest);
    assert Plain("it");
    ReadPlain("it", "'" + rest, '\'');
    ReadBodyCloses(rest, '\'');
  }
}
