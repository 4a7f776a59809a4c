/** The editor's view of a document: lines of text without their terminators,
    positions in (line, character) coordinates, and the text insertion the
    command hands to the editor. */
module Document {

  datatype Option<T> = None | Some(value: T)

  /** A caret location, both coordinates 0-based. */
  datatype Position = Position(line: nat, character: nat)

  /** A position inside the document: an existing line, and a column at most
      that line's length (the column just past the last character is allowed). */
  predicate ValidPosition(lines: seq<string>, p: Position) {
    p.line < |lines| && p.character <= |lines[p.line]|
  }

  predicate IsLineBreak(c: char) {
    c == '\r' || c == '\n'
  }

  predicate HasLineBreak(s: string) {
    exists i :: 0 <= i < |s| && IsLineBreak(s[i])
  }

  /** The lines of `s`, split at "\r\n", "\r" and "\n" as the editor splits the
      text it inserts; there is always at least one (possibly empty) line. */
  function SplitLines(s: string): (parts: seq<string>)
    ensures |parts| >= 1
    decreases |s|
  {
    if s == [] then [""]
    else if s[0] == '\r' && |s| >= 2 && s[1] == '\n' then [""] + SplitLines(s[2..])
    else if IsLineBreak(s[0]) then [""] + SplitLines(s[1..])
    else
      var rest := SplitLines(s[1..]);
      [[s[0]] + rest[0]] + rest[1..]
  }

  /** The text of a non-empty sequence of lines, joined with "\n". */
  function JoinLines(lines: seq<string>): string
    requires |lines| >= 1
  {
    if |lines| == 1 then lines[0] else lines[0] + "\n" + JoinLines(lines[1..])
  }

  /** Splitting text that uses "\n" as its only line terminator and joining the
      lines again gives back the text. */
  lemma {:induction false} JoinSplitLines(s: string)
    requires forall i :: 0 <= i < |s| ==> s[i] != '\r'
    ensures JoinLines(SplitLines(s)) == s
    decreases |s|
  {
    if s == [] {
    } else if s[0] == '\n' {
      JoinSplitLines(s[1..]);
      assert s == "\n" + s[1..];
    } else {
      JoinSplitLines(s[1..]);
      var rest := SplitLines(s[1..]);
      if |rest| == 1 {
        assert s == [s[0]] + s[1..];
      } else {
        assert ([[s[0]] + rest[0]] + rest[1..])[1..] == rest[1..];
        assert s == [s[0]] + s[1..];
      }
    }
  }

  lemma {:induction false} SplitLinesNoBreak(s: string)
    requires !HasLineBreak(s)
    ensures SplitLines(s) == [s]
    decreases |s|
  {
    if s != [] {
      assert !HasLineBreak(s[1..]) by {
        forall i | 0 <= i < |s[1..]| ensures !IsLineBreak(s[1..][i]) {
          assert s[1..][i] == s[i + 1];
        }
      }
      SplitLinesNoBreak(s[1..]);
      assert !IsLineBreak(s[0]);
      assert s == [s[0]] + s[1..];
    }
  }

  /** Text without a line break in front of `rest` joins the first line of `rest`. */
  lemma {:induction false} SplitLinesFirstLine(head: string, rest: string)
    requires !HasLineBreak(head)
    ensures SplitLines(head + rest)[0] == head + SplitLines(rest)[0]
    decreases |head|
  {
    if head == [] {
      assert head + rest == rest;
    } else {
      var s := head + rest;
      assert s[0] == head[0] && s[1..] == head[1..] + rest;
      assert !IsLineBreak(head[0]);
      assert !HasLineBreak(head[1..]) by {
        forall i | 0 <= i < |head[1..]| ensures !IsLineBreak(head[1..][i]) {
          assert head[1..][i] == head[i + 1];
        }
      }
      SplitLinesPlainStep(s);
      SplitLinesFirstLine(head[1..], rest);
      assert [head[0]] + (head[1..] + SplitLines(rest)[0]) == head + SplitLines(rest)[0];
    }
  }

  /** A "\n" that does not follow a "\r" separates the lines of `a` from those of `b`. */
  lemma {:induction false} SplitLinesAtNewline(a: string, b: string)
    requires a == [] || a[|a| - 1] != '\r'
    ensures SplitLines(a + "\n" + b) == SplitLines(a) + SplitLines(b)
    decreases |a|
  {
    var t := a + "\n" + b;
    if a == [] {
      assert t == "\n" + b;
      assert t[1..] == b;
    } else {
      var k := if a[0] == '\r' && |a| >= 2 && a[1] == '\n' then 2 else 1;
      SplitLinesAtNewline(a[k..], b);
      SplitLinesHead(a, b, k);
    }
  }

  /** One step of SplitLinesAtNewline: the first `k` characters of `a` are
      its first "\r\n" or its first character. */
  lemma {:induction false} SplitLinesHead(a: string, b: string, k: nat)
    requires a != [] && a[|a| - 1] != '\r'
    requires k == if a[0] == '\r' && |a| >= 2 && a[1] == '\n' then 2 else 1
    requires SplitLines(a[k..] + "\n" + b) == SplitLines(a[k..]) + SplitLines(b)
    ensures SplitLines(a + "\n" + b) == SplitLines(a) + SplitLines(b)
  {
    var t := a + "\n" + b;
    assert t[k..] == a[k..] + "\n" + b;
    if k == 2 {
      SplitLinesHeadCrLf(a, b);
    } else if IsLineBreak(a[0]) {
      SplitLinesHeadBreak(a, b);
    } else {
      SplitLinesHeadPlain(a, b);
    }
  }

  lemma {:induction false} SplitLinesHeadCrLf(a: string, b: string)
    requires |a| >= 2 && a[0] == '\r' && a[1] == '\n'
    requires SplitLines(a[2..] + "\n" + b) == SplitLines(a[2..]) + SplitLines(b)
    ensures SplitLines(a + "\n" + b) == SplitLines(a) + SplitLines(b)
  {
    var t := a + "\n" + b;
    assert t[2..] == a[2..] + "\n" + b;
    assert t[0] == '\r' && t[1] == '\n';
    SplitLinesBreakStep(t, 2);
    SplitLinesBreakStep(a, 2);
    EmptyLineFirst(SplitLines(a[2..]), SplitLines(b));
  }

  lemma {:induction false} SplitLinesHeadBreak(a: string, b: string)
    requires a != [] && a[|a| - 1] != '\r' && IsLineBreak(a[0])
    requires !(a[0] == '\r' && |a| >= 2 && a[1] == '\n')
    requires SplitLines(a[1..] + "\n" + b) == SplitLines(a[1..]) + SplitLines(b)
    ensures SplitLines(a + "\n" + b) == SplitLines(a) + SplitLines(b)
  {
    var t := a + "\n" + b;
    assert t[1..] == a[1..] + "\n" + b;
    assert t[0] == a[0];
    assert a[0] == '\r' ==> |a| >= 2 && t[1] == a[1];
    SplitLinesBreakStep(t, 1);
    SplitLinesBreakStep(a, 1);
    EmptyLineFirst(SplitLines(a[1..]), SplitLines(b));
  }

  lemma {:induction false} SplitLinesHeadPlain(a: string, b: string)
    requires a != [] && !IsLineBreak(a[0])
    requires SplitLines(a[1..] + "\n" + b) == SplitLines(a[1..]) + SplitLines(b)
    ensures SplitLines(a + "\n" + b) == SplitLines(a) + SplitLines(b)
  {
    var t := a + "\n" + b;
    assert t[1..] == a[1..] + "\n" + b;
    assert t[0] == a[0];
    SplitLinesPlainStep(t);
    SplitLinesPlainStep(a);
    JoinFirstLine([a[0]], SplitLines(a[1..]), SplitLines(b));
  }

  /** One step of `SplitLines` at a line break of length `k` at the front of `s`
      ("\r\n" when `k` is 2). */
  lemma SplitLinesBreakStep(s: string, k: nat)
    requires k == 1 || k == 2
    requires k <= |s| && IsLineBreak(s[0])
    requires (k == 2) == (s[0] == '\r' && |s| >= 2 && s[1] == '\n')
    ensures SplitLines(s) == [""] + SplitLines(s[k..])
  {
  }

  /** One step of `SplitLines` at a character that is not a line break. */
  lemma SplitLinesPlainStep(s: string)
    requires s != [] && !IsLineBreak(s[0])
    ensures SplitLines(s) == [[s[0]] + SplitLines(s[1..])[0]] + SplitLines(s[1..])[1..]
  {
  }

  lemma EmptyLineFirst(ra: seq<string>, rb: seq<string>)
    ensures [""] + (ra + rb) == ([""] + ra) + rb
  {
  }

  lemma JoinFirstLine(x: string, ra: seq<string>, rb: seq<string>)
    requires |ra| >= 1
    ensures [x + (ra + rb)[0]] + (ra + rb)[1..] == ([x + ra[0]] + ra[1..]) + rb
  {
    assert (ra + rb)[1..] == ra[1..] + rb;
  }

  /** The document after the editor inserts `s` at `p`: the first line of `s`
      joins the text before `p`, the last joins the text after it, and the
      lines in between become lines of their own. */
  function InsertText(lines: seq<string>, p: Position, s: string): (after: seq<string>)
    requires ValidPosition(lines, p)
    ensures |after| == |lines| + |SplitLines(s)| - 1
    ensures after[..p.line] == lines[..p.line]
    ensures after[p.line + |SplitLines(s)|..] == lines[p.line + 1..]
  {
    var line := lines[p.line];
    lines[..p.line] + Spliced(line[..p.character], SplitLines(s), line[p.character..]) + lines[p.line + 1..]
  }

  /** The run of lines that replaces a line split into `before` and `after`
      when `parts` are inserted between the two halves. */
  function Spliced(before: string, parts: seq<string>, after: string): seq<string>
    requires |parts| >= 1
  {
    var n := |parts|;
    if n == 1 then [before + parts[0] + after]
    else [before + parts[0]] + parts[1..n - 1] + [parts[n - 1] + after]
  }

  /** Inserting `t` and a "\n" at the start of line `k` puts the lines of `t`
      in front of line `k` and leaves every other line as it was. */
  lemma InsertLinesBefore(lines: seq<string>, k: nat, t: string)
    requires k < |lines|
    requires t == [] || t[|t| - 1] != '\r'
    ensures InsertText(lines, Position(k, 0), t + "\n") == lines[..k] + SplitLines(t) + lines[k..]
  {
    var line := lines[k];
    var ts := SplitLines(t);
    SplitLinesTrailingBreak(t);
    assert line[..0] == "" && line[0..] == line;
    SplicedEndsWithBreak(ts, line);
    assert InsertText(lines, Position(k, 0), t + "\n") == lines[..k] + (ts + [line]) + lines[k + 1..];
    SliceCons(lines, k);
    Regroup(lines[..k], ts, [line], lines[k + 1..]);
  }

  lemma SliceCons<T>(s: seq<T>, k: nat)
    requires k < |s|
    ensures s[k..] == [s[k]] + s[k + 1..]
  {
  }

  lemma SliceAround<T>(s: seq<T>, k: nat)
    requires k < |s|
    ensures s == s[..k] + [s[k]] + s[k + 1..]
  {
  }

  lemma SliceSnoc<T>(s: seq<T>)
    requires |s| >= 1
    ensures s[..|s| - 1] + [s[|s| - 1]] == s
  {
  }

  lemma Regroup<T>(a: seq<T>, b: seq<T>, c: seq<T>, d: seq<T>)
    ensures a + (b + c) + d == a + b + (c + d)
  {
  }

  lemma SplitLinesTrailingBreak(t: string)
    requires t == [] || t[|t| - 1] != '\r'
    ensures SplitLines(t + "\n") == SplitLines(t) + [""]
  {
    assert t + "\n" == t + "\n" + "";
    SplitLinesAtNewline(t, "");
    assert SplitLines("") == [""];
  }

  lemma SplitLinesLeadingBreak(t: string)
    ensures SplitLines("\n" + t) == [""] + SplitLines(t)
  {
    assert "\n" + t == [] + "\n" + t;
    SplitLinesAtNewline([], t);
    assert SplitLines([]) == [""];
  }

  lemma SplicedEndsWithBreak(ts: seq<string>, after: string)
    requires |ts| >= 1
    ensures Spliced("", ts + [""], after) == ts + [after]
  {
    var parts := ts + [""];
    var n := |parts|;
    assert n >= 2;
    assert parts[n - 1] + after == after;
    assert parts[1..n - 1] == ts[1..];
    assert "" + parts[0] == ts[0];
    assert [ts[0]] + ts[1..] == ts;
  }

  /** Inserting a "\n" and `t` at the end of the last line appends the lines
      of `t` to the document. */
  lemma InsertLinesAtEnd(lines: seq<string>, t: string)
    requires |lines| >= 1
    ensures var last := |lines| - 1;
      InsertText(lines, Position(last, |lines[last]|), "\n" + t) == lines + SplitLines(t)
  {
    var last := |lines| - 1;
    var line := lines[last];
    var ts := SplitLines(t);
    SplitLinesLeadingBreak(t);
    assert line[..|line|] == line && line[|line|..] == "";
    SplicedStartsWithBreak(line, ts);
    assert InsertText(lines, Position(last, |line|), "\n" + t) == lines[..last] + ([line] + ts) + lines[last + 1..];
    assert lines[last + 1..] == [];
    SliceSnoc(lines);
    Regroup(lines[..last], [line], ts, []);
  }

  lemma SplicedStartsWithBreak(before: string, ts: seq<string>)
    requires |ts| >= 1
    ensures Spliced(before, [""] + ts, "") == [before] + ts
  {
    var parts := [""] + ts;
    var n := |parts|;
    assert n >= 2;
    assert parts[n - 1] + "" == ts[|ts| - 1];
    assert parts[1..n - 1] == ts[..|ts| - 1];
    assert before + parts[0] == before;
    assert ts[..|ts| - 1] + [ts[|ts| - 1]] == ts;
  }

  /** Offset of `p` in the joined text of `lines`. */
  function Offset(lines: seq<string>, p: Position): nat
    requires ValidPosition(lines, p)
  {
    if p.line == 0 then p.character
    else |JoinLines(lines[..p.line])| + 1 + p.character
  }

  lemma {:induction false} JoinLinesAppend(a: seq<string>, b: seq<string>)
    requires |a| >= 1 && |b| >= 1
    ensures JoinLines(a + b) == JoinLines(a) + "\n" + JoinLines(b)
    decreases |a|
  {
    if |a| == 1 {
      assert (a + b)[1..] == b;
    } else {
      assert (a + b)[1..] == a[1..] + b;
      JoinLinesAppend(a[1..], b);
    }
  }

  /** Gluing text to the first and last of a run of lines glues it to the joined text. */
  lemma {:induction false} JoinLinesWrapped(x: string, parts: seq<string>, y: string)
    requires |parts| >= 1
    ensures JoinLines(Spliced(x, parts, y)) == x + JoinLines(parts) + y
  {
    var n := |parts|;
    if n > 1 {
      var mid := [x + parts[0]] + parts[1..n - 1];
      JoinLinesAppend(mid, [parts[n - 1] + y]);
      JoinLinesAppend(parts[..n - 1], [parts[n - 1]]);
      assert parts == parts[..n - 1] + [parts[n - 1]];
      if n == 2 {
        assert mid == [x + parts[0]];
      } else {
        JoinLinesAppend([x + parts[0]], parts[1..n - 1]);
        JoinLinesAppend([parts[0]], parts[1..n - 1]);
        assert parts[..n - 1] == [parts[0]] + parts[1..n - 1];
      }
    }
  }

  /** The joined text of the lines before a run of lines, with its separator. */
  function JoinedBefore(pre: seq<string>): string {
    if pre == [] then "" else JoinLines(pre) + "\n"
  }

  /** The joined text of the lines after a run of lines, with its separator. */
  function JoinedAfter(post: seq<string>): string {
    if post == [] then "" else "\n" + JoinLines(post)
  }

  lemma {:induction false} JoinLinesAround(pre: seq<string>, mid: seq<string>, post: seq<string>)
    requires |mid| >= 1
    ensures JoinLines(pre + mid + post) == JoinedBefore(pre) + JoinLines(mid) + JoinedAfter(post)
  {
    assert pre + mid + post == pre + (mid + post);
    JoinLinesBefore(pre, mid + post);
    JoinLinesAfter(mid, post);
    var B, M, A := JoinedBefore(pre), JoinLines(mid), JoinedAfter(post);
    assert B + (M + A) == B + M + A;
  }

  lemma JoinLinesBefore(pre: seq<string>, rest: seq<string>)
    requires |rest| >= 1
    ensures JoinLines(pre + rest) == JoinedBefore(pre) + JoinLines(rest)
  {
    if pre != [] {
      JoinLinesAppend(pre, rest);
    } else {
      assert pre + rest == rest;
    }
  }

  lemma JoinLinesAfter(mid: seq<string>, post: seq<string>)
    requires |mid| >= 1
    ensures JoinLines(mid + post) == JoinLines(mid) + JoinedAfter(post)
  {
    if post != [] {
      JoinLinesAppend(mid, post);
      assert JoinLines(mid) + "\n" + JoinLines(post) == JoinLines(mid) + ("\n" + JoinLines(post));
    } else {
      assert mid + post == mid;
    }
  }

  /** The inserted run of lines joins to the text around the position with `s` in between. */
  lemma {:induction false} InsertTextJoined(lines: seq<string>, p: Position, s: string)
    requires ValidPosition(lines, p)
    requires forall i :: 0 <= i < |s| ==> s[i] != '\r'
    ensures var line := lines[p.line];
      JoinLines(InsertText(lines, p, s))
      == JoinedBefore(lines[..p.line]) + (line[..p.character] + s + line[p.character..])
         + JoinedAfter(lines[p.line + 1..])
  {
    var line := lines[p.line];
    var x, y := line[..p.character], line[p.character..];
    var parts := SplitLines(s);
    var inserted := Spliced(x, parts, y);
    JoinLinesWrapped(x, parts, y);
    JoinSplitLines(s);
    assert InsertText(lines, p, s) == lines[..p.line] + inserted + lines[p.line + 1..];
    JoinLinesAround(lines[..p.line], inserted, lines[p.line + 1..]);
  }

  /** Inserting into the lines is inserting into the text: joining the new
      lines gives the old text with `s` spliced in at the position's offset. */
  lemma {:induction false} InsertTextSplicesText(lines: seq<string>, p: Position, s: string)
    requires ValidPosition(lines, p)
    requires forall i :: 0 <= i < |s| ==> s[i] != '\r'
    ensures var old_ := JoinLines(lines);
      var k := Offset(lines, p);
      k <= |old_| &&
      JoinLines(InsertText(lines, p, s)) == old_[..k] + s + old_[k..]
  {
    var line := lines[p.line];
    var x, y := line[..p.character], line[p.character..];
    var P, Q := JoinedBefore(lines[..p.line]), JoinedAfter(lines[p.line + 1..]);
    var old_ := JoinLines(lines);
    assert old_ == P + (x + y) + Q by {
      SliceAround(lines, p.line);
      assert line == x + y;
      JoinLinesAround(lines[..p.line], [line], lines[p.line + 1..]);
    }
    InsertTextJoined(lines, p, s);
    assert Offset(lines, p) == |P| + |x|;
    SpliceAt(P, x, y, Q, s);
  }

  lemma SpliceAt(P: string, x: string, y: string, Q: string, s: string)
    ensures var t := P + (x + y) + Q;
      t[..|P| + |x|] + s + t[|P| + |x|..] == P + (x + s + y) + Q
  {
    var t := P + (x + y) + Q;
    assert t[..|P| + |x|] == P + x;
    assert t[|P| + |x|..] == y + Q;
  }
}
