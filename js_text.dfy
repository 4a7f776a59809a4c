/** The JavaScript string operations the command relies on: white space as
    `String.prototype.trim` and the regular-expression class `\s` see it,
    trimming, the editor's first-non-whitespace column, and `String.prototype.repeat`
    for indentation. */
module JsText {

  /** ECMAScript's WhiteSpace and LineTerminator characters. */
  predicate IsWhitespace(c: char) {
    c == '\t' || c == '\n' || c == '\U{B}' || c == '\U{C}' || c == '\r' || c == ' '
    || c == '\U{A0}' || c == '\U{1680}' || ('\U{2000}' <= c <= '\U{200A}')
    || c == '\U{2028}' || c == '\U{2029}' || c == '\U{202F}' || c == '\U{205F}'
    || c == '\U{3000}' || c == '\U{FEFF}'
  }

  predicate AllWhitespace(s: string) {
    forall i :: 0 <= i < |s| ==> IsWhitespace(s[i])
  }

  /** The index of the first character that is not white space, or the length
      of `s` when it is all white space (the editor's
      `firstNonWhitespaceCharacterIndex`). */
  function FirstNonWhitespace(s: string): (n: nat)
    ensures n <= |s|
    ensures AllWhitespace(s[..n])
    ensures n < |s| ==> !IsWhitespace(s[n])
  {
    if s == [] || !IsWhitespace(s[0]) then 0
    else
      var k := FirstNonWhitespace(s[1..]);
      assert s[..k + 1] == [s[0]] + s[1..][..k];
      1 + k
  }

  /** The length of `s` without its trailing white space. */
  function TrimmedEnd(s: string): (m: nat)
    ensures m <= |s|
    ensures AllWhitespace(s[m..])
    ensures m > 0 ==> !IsWhitespace(s[m - 1])
  {
    if s == [] || !IsWhitespace(s[|s| - 1]) then |s|
    else
      var k := TrimmedEnd(s[..|s| - 1]);
      assert s[k..] == s[..|s| - 1][k..] + [s[|s| - 1]];
      k
  }

  /** `s.trim()`: `s` without its leading and trailing white space. It is empty
      exactly when `s` is blank, and otherwise begins and ends with a
      character that is not white space. */
  function Trim(s: string): (t: string)
    ensures t == [] <==> AllWhitespace(s)
    ensures t != [] ==> !IsWhitespace(t[0]) && !IsWhitespace(t[|t| - 1])
    ensures var n := FirstNonWhitespace(s);
      t <= s[n..] && AllWhitespace(s[n + |t|..])
  {
    var n := FirstNonWhitespace(s);
    if n == |s| then
      assert s[..n] == s;
      []
    else
      var m := TrimmedEnd(s);
      assert !IsWhitespace(s[n]);
      s[n..m]
  }

  /** A string that begins and ends with something other than white space is
      its own trim. */
  lemma TrimUnpadded(s: string)
    requires s != [] && !IsWhitespace(s[0]) && !IsWhitespace(s[|s| - 1])
    ensures Trim(s) == s
  {
    assert s[..0] == [];
    assert s[|s|..] == [];
    assert s[0..|s|] == s;
  }

  /** `' '.repeat(n)`. */
  function Spaces(n: nat): (r: string)
    ensures |r| == n
    ensures forall i :: 0 <= i < n ==> r[i] == ' '
  {
    if n == 0 then [] else Spaces(n - 1) + " "
  }

  /** Indenting with spaces keeps the first non-whitespace column of what follows
      the indentation. */
  lemma {:induction false} IndentedFirstNonWhitespace(n: nat, rest: string)
    requires rest != [] && !IsWhitespace(rest[0])
    ensures FirstNonWhitespace(Spaces(n) + rest) == n
    decreases n
  {
    if n > 0 {
      var s := Spaces(n) + rest;
      assert s[0] == ' ';
      assert s[1..] == Spaces(n - 1) + rest by {
        assert Spaces(n) == " " + Spaces(n - 1) by {
          SpacesCons(n);
        }
      }
      IndentedFirstNonWhitespace(n - 1, rest);
    } else {
      assert Spaces(0) + rest == rest;
    }
  }

  lemma {:induction false} SpacesCons(n: nat)
    requires n > 0
    ensures Spaces(n) == " " + Spaces(n - 1)
  {
    var a, b := Spaces(n), " " + Spaces(n - 1);
    assert |a| == |b|;
    forall i | 0 <= i < |a| ensures a[i] == b[i] {
      if i > 0 {
        assert b[i] == Spaces(n - 1)[i - 1];
      }
    }
  }
}
