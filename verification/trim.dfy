/** `ModuleMetaClass._trim` (src/pynusmv/model.py:1683-1713): the
    re-indentation of a constraint body before it is printed under its
    section header, with the Python string operations it relies on
    (`expandtabs`, `splitlines`, `strip`, `lstrip`, `rstrip`). */
module Trimming {
  import opened Wrappers
  import opened Text

  // ---------------------------------------------------------------------
  // Python's character classes
  // ---------------------------------------------------------------------

  /** `str.isspace()`: what `strip`, `lstrip` and `rstrip` remove. */
  predicate IsWhitespace(c: char) {
    c == ' ' || '\t' <= c <= '\r' || '\U{1C}' <= c <= '\U{1F}' || c == '\U{85}' || c == '\U{A0}'
    || c == '\U{1680}' || '\U{2000}' <= c <= '\U{200A}' || c == '\U{2028}' || c == '\U{2029}'
    || c == '\U{202F}' || c == '\U{205F}' || c == '\U{3000}'
  }

  /** The line boundaries of `str.splitlines()` (`\r\n` is one boundary):
      `\n`, `\v`, `\f`, `\r`, the separators `\x1c`-`\x1e`, `\x85`, and
      the line and paragraph separators. */
  predicate IsLineBreak(c: char) {
    '\n' <= c <= '\r' || '\U{1C}' <= c <= '\U{1E}' || c == '\U{85}' || c == '\U{2028}' || c == '\U{2029}'
  }

  predicate NoLineBreak(s: string) {
    forall i | 0 <= i < |s| :: !IsLineBreak(s[i])
  }

  predicate AllSpace(s: string) {
    forall i | 0 <= i < |s| :: IsWhitespace(s[i])
  }

  // ---------------------------------------------------------------------
  // strip, lstrip, rstrip
  // ---------------------------------------------------------------------

  /** The number of leading whitespace characters. */
  function LeadingSpace(s: string): (n: nat)
    ensures n <= |s|
    ensures AllSpace(s[..(n)])
    ensures n < |s| ==> !IsWhitespace(s[n])
    decreases |s|
  {
    if |s| > 0 && IsWhitespace(s[0]) then
      var n := 1 + LeadingSpace(s[1..]);
      assert s[..n] == [s[0]] + s[1..][..n - 1];
      n
    else 0
  }

  /** The number of trailing whitespace characters. */
  function TrailingSpace(s: string): (n: nat)
    ensures n <= |s|
    ensures AllSpace(s[|s| - n..])
    ensures n < |s| ==> !IsWhitespace(s[|s| - n - 1])
    decreases |s|
  {
    if |s| > 0 && IsWhitespace(s[|s| - 1]) then
      var m := TrailingSpace(s[..|s| - 1]);
      TrailingWhitespaceGrows(s, m);
      1 + m
    else 0
  }

  /** One more whitespace character at the end of a text. */
  lemma TrailingWhitespaceGrows(s: string, m: nat)
    requires |s| > 0 && IsWhitespace(s[|s| - 1]) && m < |s|
    requires AllSpace(s[..|s| - 1][|s| - 1 - m..])
    requires m < |s| - 1 ==> !IsWhitespace(s[..|s| - 1][|s| - 1 - m - 1])
    ensures AllSpace(s[|s| - (m + 1)..])
    ensures m + 1 < |s| ==> !IsWhitespace(s[|s| - (m + 1) - 1])
  {
    var t := s[..|s| - 1][|s| - 1 - m..];
    var u := s[|s| - (m + 1)..];
    forall i | 0 <= i < |u| ensures IsWhitespace(u[i]) {
      if i < m {
        assert u[i] == t[i];
      }
    }
  }

  /** `s.lstrip()`. */
  function LStrip(s: string): (r: string)
    ensures |r| <= |s| && r == s[|s| - |r|..]
    ensures AllSpace(s[..|s| - |r|])
    ensures |r| == 0 || !IsWhitespace(r[0])
  {
    s[LeadingSpace(s)..]
  }

  /** `s.rstrip()`. */
  function RStrip(s: string): (r: string)
    ensures |r| <= |s| && r == s[..|r|]
    ensures AllSpace(s[|r|..])
    ensures |r| == 0 || !IsWhitespace(r[|r| - 1])
  {
    s[..|s| - TrailingSpace(s)]
  }

  /** `s.strip()`. */
  function Strip(s: string): (r: string)
    ensures |r| == 0 || (!IsWhitespace(r[0]) && !IsWhitespace(r[|r| - 1]))
  {
    RStrip(LStrip(s))
  }

  /** `len(line) - len(line.lstrip())`. */
  function Indent(line: string): (n: nat)
    ensures n <= |line|
  {
    |line| - |LStrip(line)|
  }

  /** A line that `lstrip` leaves non-empty. */
  predicate NonBlank(line: string) {
    |LStrip(line)| > 0
  }

  // ---------------------------------------------------------------------
  // expandtabs and splitlines
  // ---------------------------------------------------------------------

  function Spaces(n: nat): (r: string)
    ensures |r| == n && forall i | 0 <= i < n :: r[i] == ' '
  {
    seq(n, _ => ' ')
  }

  /** `s.expandtabs()` from column `col`: a tab moves to the next multiple
      of 8, a newline or carriage return goes back to column 0. */
  function ExpandFrom(s: string, col: nat): (r: string)
    ensures |r| >= |s|
    ensures forall i | 0 <= i < |r| :: r[i] != '\t'
    decreases |s|
  {
    if |s| == 0 then ""
    else if s[0] == '\t' then
      var w := 8 - col % 8;
      Spaces(w) + ExpandFrom(s[1..], col + w)
    else if s[0] == '\n' || s[0] == '\r' then [s[0]] + ExpandFrom(s[1..], 0)
    else [s[0]] + ExpandFrom(s[1..], col + 1)
  }

  function ExpandTabs(s: string): (r: string)
    ensures |r| >= |s|
    ensures forall i | 0 <= i < |r| :: r[i] != '\t'
  {
    ExpandFrom(s, 0)
  }

  /** The position of the first line boundary, or `|s|`. */
  function BreakAt(s: string): (i: nat)
    ensures i <= |s|
    ensures NoLineBreak(s[..(i)])
    ensures i < |s| ==> IsLineBreak(s[i])
    decreases |s|
  {
    if |s| == 0 || IsLineBreak(s[0]) then 0
    else
      var i := 1 + BreakAt(s[1..]);
      assert s[..i] == [s[0]] + s[1..][..i - 1];
      i
  }

  /** `s.splitlines()`: the text between boundaries; a final boundary does
      not open an empty last line. */
  function SplitLines(s: string): (lines: seq<string>)
    ensures forall i | 0 <= i < |lines| :: NoLineBreak(lines[i])
    ensures |s| > 0 ==> |lines| > 0
    decreases |s|
  {
    var i := BreakAt(s);
    if |s| == 0 then []
    else if i == |s| then [s]
    else
      var j := if s[i] == '\r' && i + 1 < |s| && s[i + 1] == '\n' then i + 2 else i + 1;
      [s[..i]] + SplitLines(s[j..])
  }

  // ---------------------------------------------------------------------
  // _trim
  // ---------------------------------------------------------------------

  /** The least indentation of the non-blank lines; `None` plays
      `sys.maxsize`, left when every line is blank. */
  function MinIndent(lines: seq<string>): (m: Option<nat>)
    ensures m.None? <==> forall i | 0 <= i < |lines| :: !NonBlank(lines[i])
    ensures m.Some? ==> forall i | 0 <= i < |lines| && NonBlank(lines[i]) :: m.value <= Indent(lines[i])
    ensures m.Some? ==> exists i | 0 <= i < |lines| :: NonBlank(lines[i]) && Indent(lines[i]) == m.value
    decreases |lines|
  {
    if |lines| == 0 then None
    else
      var rest := MinIndent(lines[1..]);
      assert forall i | 1 <= i < |lines| :: lines[1..][i - 1] == lines[i];
      if rest.Some? && (!NonBlank(lines[0]) || rest.value < Indent(lines[0])) then
        var k :| 0 <= k < |lines[1..]| && NonBlank(lines[1..][k]) && Indent(lines[1..][k]) == rest.value;
        assert lines[k + 1] == lines[1..][k];
        rest
      else if !NonBlank(lines[0]) then None
      else Some(Indent(lines[0]))
  }

  /** `line[n:]`, which is empty when the line is shorter. */
  function Drop(line: string, n: nat): string {
    if n <= |line| then line[n..] else ""
  }

  /** The lines after removing the blank ones at the end, then at the
      start. */
  function DropTrailingBlank(lines: seq<string>): (r: seq<string>)
    ensures |r| <= |lines| && r == lines[..|r|]
    ensures |r| == 0 || r[|r| - 1] != ""
    ensures forall i | |r| <= i < |lines| :: lines[i] == ""
    decreases |lines|
  {
    if |lines| > 0 && lines[|lines| - 1] == "" then
      var r := DropTrailingBlank(lines[..|lines| - 1]);
      assert lines[..|lines| - 1][..|r|] == lines[..|r|];
      assert forall i | |r| <= i < |lines| - 1 :: lines[i] == lines[..|lines| - 1][i];
      r
    else lines
  }

  function DropLeadingBlank(lines: seq<string>): (r: seq<string>)
    ensures |r| <= |lines| && r == lines[|lines| - |r|..]
    ensures |r| == 0 || r[0] != ""
    ensures forall i | 0 <= i < |lines| - |r| :: lines[i] == ""
    decreases |lines|
  {
    if |lines| > 0 && lines[0] == "" then
      var r := DropLeadingBlank(lines[1..]);
      assert lines[1..][|lines| - 1 - |r|..] == lines[|lines| - |r|..];
      assert forall i | 1 <= i < |lines| - |r| :: lines[i] == lines[1..][i - 1];
      r
    else lines
  }

  /** The continuation lines without the least indentation of the
      non-blank ones and without trailing whitespace; none at all when
      every continuation line is blank. */
  function Dedent(tail: seq<string>): (r: seq<string>)
    ensures |r| == 0 || |r| == |tail|
  {
    match MinIndent(tail)
    case None => []
    case Some(n) => seq(|tail|, i requires 0 <= i < |tail| => RStrip(Drop(tail[i], n)))
  }

  /** The first line stripped, then the dedented continuation lines. */
  function StrippedLines(lines: seq<string>): seq<string>
    requires |lines| > 0
  {
    [Strip(lines[0])] + Dedent(lines[1..])
  }

  /** The lines without the blank ones at the end, then at the start. */
  function DropBlankEdges(lines: seq<string>): seq<string> {
    DropLeadingBlank(DropTrailingBlank(lines))
  }

  /** The lines `_trim` keeps, before it indents them. */
  function TrimLines(s: string): seq<string> {
    if |s| == 0 then [] else DropBlankEdges(StrippedLines(SplitLines(ExpandTabs(s))))
  }

  /** Each kept line, after `indentation`. */
  function Indented(indentation: string, lines: seq<string>): (r: seq<string>)
    ensures |r| == |lines| && forall i | 0 <= i < |lines| :: r[i] == indentation + lines[i]
  {
    seq(|lines|, i requires 0 <= i < |lines| => indentation + lines[i])
  }

  /** `_trim(string, indentation)`. */
  function Trim(s: string, indentation: string): string {
    if |s| == 0 then "" else Join("\n", Indented(indentation, TrimLines(s)))
  }

  // ---------------------------------------------------------------------
  // Properties
  // ---------------------------------------------------------------------

  /** Nothing gives nothing, whatever the indentation. */
  lemma TrimEmpty(indentation: string)
    ensures Trim("", indentation) == ""
    ensures TrimLines("") == []
  {
  }

  /** A line with no boundary in it and no whitespace at its end. */
  predicate Clean(line: string) {
    NoLineBreak(line) && (|line| == 0 || !IsWhitespace(line[|line| - 1]))
  }

  lemma StripClean(s: string)
    requires NoLineBreak(s)
    ensures Clean(Strip(s))
  {
    var l := LStrip(s);
    assert forall i | 0 <= i < |l| :: l[i] == s[|s| - |l| + i];
    var r := RStrip(l);
    assert forall i | 0 <= i < |r| :: r[i] == l[i];
  }

  lemma DedentedClean(s: string, n: nat)
    requires NoLineBreak(s)
    ensures Clean(RStrip(Drop(s, n)))
  {
    var d := Drop(s, n);
    assert forall i | 0 <= i < |d| :: d[i] == s[n + i];
    var r := RStrip(d);
    assert forall i | 0 <= i < |r| :: r[i] == d[i];
  }

  lemma DedentClean(tail: seq<string>)
    requires forall i | 0 <= i < |tail| :: NoLineBreak(tail[i])
    ensures forall i | 0 <= i < |Dedent(tail)| :: Clean(Dedent(tail)[i])
  {
    match MinIndent(tail)
    case None =>
    case Some(n) =>
      forall i | 0 <= i < |tail| ensures Clean(Dedent(tail)[i]) {
        DedentedClean(tail[i], n);
      }
  }

  lemma StrippedLinesClean(lines: seq<string>)
    requires |lines| > 0 && forall i | 0 <= i < |lines| :: NoLineBreak(lines[i])
    ensures forall i | 0 <= i < |StrippedLines(lines)| :: Clean(StrippedLines(lines)[i])
  {
    var tail := lines[1..];
    assert forall i | 0 <= i < |tail| :: tail[i] == lines[i + 1];
    DedentClean(tail);
    StripClean(lines[0]);
    var all := StrippedLines(lines);
    forall i | 0 <= i < |all| ensures Clean(all[i]) {
      if i > 0 {
        assert all[i] == Dedent(tail)[i - 1];
      }
    }
  }

  lemma DropTrailingClean(lines: seq<string>)
    requires forall i | 0 <= i < |lines| :: Clean(lines[i])
    ensures forall i | 0 <= i < |DropTrailingBlank(lines)| :: Clean(DropTrailingBlank(lines)[i])
  {
    var t := DropTrailingBlank(lines);
    forall i | 0 <= i < |t| ensures Clean(t[i]) {
      assert t[i] == lines[i];
    }
  }

  lemma DropLeadingClean(lines: seq<string>)
    requires forall i | 0 <= i < |lines| :: Clean(lines[i])
    ensures forall i | 0 <= i < |DropLeadingBlank(lines)| :: Clean(DropLeadingBlank(lines)[i])
  {
    var r := DropLeadingBlank(lines);
    var k := |lines| - |r|;
    assert r == lines[k..];
    forall i | 0 <= i < |r| ensures Clean(r[i]) {
      assert r[i] == lines[k..][i] == lines[k + i];
      assert Clean(lines[k + i]);
    }
  }

  lemma DropBlankEdgesEnds(lines: seq<string>)
    ensures var r := DropBlankEdges(lines); |r| == 0 || (r[0] != "" && r[|r| - 1] != "")
  {
    var t := DropTrailingBlank(lines);
    var r := DropLeadingBlank(t);
    if |r| > 0 {
      assert r[|r| - 1] == t[|t| - 1];
    }
  }

  /** The kept lines have no line boundary in them, no whitespace at their
      ends, and are not blank at either end of the body. */
  lemma TrimLinesShape(s: string)
    ensures forall i | 0 <= i < |TrimLines(s)| :: Clean(TrimLines(s)[i])
    ensures |TrimLines(s)| == 0 || (TrimLines(s)[0] != "" && TrimLines(s)[|TrimLines(s)| - 1] != "")
  {
    if |s| > 0 {
      var lines := SplitLines(ExpandTabs(s));
      StrippedLinesClean(lines);
      DropTrailingClean(StrippedLines(lines));
      DropLeadingClean(DropTrailingBlank(StrippedLines(lines)));
      DropBlankEdgesEnds(StrippedLines(lines));
    }
  }

  /** The continuation lines lose exactly their least indentation: what
      is cut from each non-blank one is whitespace, and one of them is left
      starting with a non-whitespace character. */
  lemma DedentExact(tail: seq<string>)
    requires MinIndent(tail).Some?
    ensures forall i | 0 <= i < |tail| && NonBlank(tail[i]) ::
      AllSpace(tail[i][..MinIndent(tail).value])
    ensures exists i | 0 <= i < |tail| ::
      NonBlank(tail[i]) && |Drop(tail[i], MinIndent(tail).value)| > 0
      && !IsWhitespace(Drop(tail[i], MinIndent(tail).value)[0])
  {
    var n := MinIndent(tail).value;
    forall i | 0 <= i < |tail| && NonBlank(tail[i]) ensures AllSpace(tail[i][..n]) {
      CutIndentIsBlank(tail[i], n);
    }
    var k :| 0 <= k < |tail| && NonBlank(tail[k]) && Indent(tail[k]) == n;
    DropIndent(tail[k]);
    assert NonBlank(tail[k]) && |Drop(tail[k], n)| > 0 && !IsWhitespace(Drop(tail[k], n)[0]);
  }

  /** Cutting a line's own indentation leaves what `lstrip` leaves. */
  lemma DropIndent(line: string)
    ensures Drop(line, Indent(line)) == LStrip(line)
  {
  }

  lemma CutIndentIsBlank(line: string, n: nat)
    requires n <= Indent(line)
    ensures AllSpace(line[..(n)])
  {
    var m := Indent(line);
    assert AllSpace(line[..m]);
    assert forall j | 0 <= j < n :: line[..n][j] == line[..m][j];
  }

  lemma BreakFree(s: string)
    requires NoLineBreak(s)
    ensures BreakAt(s) == |s|
  {
  }

  lemma {:induction false} BreakAtPrefix(s: string, t: string)
    requires NoLineBreak(s) && |t| > 0 && IsLineBreak(t[0])
    ensures BreakAt(s + t) == |s|
    decreases |s|
  {
    if |s| > 0 {
      assert (s + t)[1..] == s[1..] + t;
      BreakAtPrefix(s[1..], t);
    } else {
      assert s + t == t;
    }
  }

  /** One step of `splitlines` over `line + "\n" + rest`. */
  lemma SplitFirstLine(line: string, rest: string)
    requires NoLineBreak(line) && |rest| > 0
    ensures SplitLines(line + "\n" + rest) == [line] + SplitLines(rest)
  {
    var s := line + "\n" + rest;
    BreakAtPrefix(line, "\n" + rest);
    assert s == line + ("\n" + rest);
    assert s[|line|] == '\n';
    assert s[..|line|] == line;
    assert s[|line| + 1..] == rest;
  }

  /** `splitlines` undoes `"\n".join` for lines without boundaries whose
      last line is not empty. */
  lemma {:induction false} SplitJoin(lines: seq<string>)
    requires forall i | 0 <= i < |lines| :: NoLineBreak(lines[i])
    requires |lines| == 0 || lines[|lines| - 1] != ""
    ensures SplitLines(Join("\n", lines)) == lines
    decreases |lines|
  {
    if |lines| == 1 {
      BreakFree(lines[0]);
    } else if |lines| > 1 {
      var tail := lines[1..];
      assert forall i | 0 <= i < |tail| :: tail[i] == lines[i + 1];
      assert tail[|tail| - 1] == lines[|lines| - 1];
      JoinNonEmpty(tail);
      SplitFirstLine(lines[0], Join("\n", tail));
      SplitJoin(tail);
      assert lines == [lines[0]] + tail;
    }
  }

  lemma JoinNonEmpty(lines: seq<string>)
    requires |lines| > 0 && lines[|lines| - 1] != ""
    ensures |Join("\n", lines)| > 0
  {
  }

  /** Every printed line starts with the indentation: splitting `_trim`'s
      result at its line boundaries gives the kept lines, each after
      `indentation`. */
  lemma TrimIndentsEveryLine(s: string, indentation: string)
    requires NoLineBreak(indentation)
    ensures SplitLines(Trim(s, indentation)) == Indented(indentation, TrimLines(s))
  {
    if |s| > 0 {
      var r := TrimLines(s);
      TrimLinesShape(s);
      SplitIndented(indentation, r);
      assert Trim(s, indentation) == Join("\n", Indented(indentation, r));
    }
  }

  /** Clean lines, the last one not empty, joined after an indentation
      split back into those indented lines. */
  lemma SplitIndented(indentation: string, r: seq<string>)
    requires NoLineBreak(indentation)
    requires forall i | 0 <= i < |r| :: Clean(r[i])
    requires |r| == 0 || r[|r| - 1] != ""
    ensures SplitLines(Join("\n", Indented(indentation, r))) == Indented(indentation, r)
  {
    var ls := Indented(indentation, r);
    forall i | 0 <= i < |ls| ensures NoLineBreak(ls[i]) {
      NoBreakConcat(indentation, r[i]);
    }
    if |r| > 0 {
      assert |ls[|ls| - 1]| >= |r[|r| - 1]| > 0;
    }
    SplitJoin(ls);
  }

  lemma NoBreakConcat(a: string, b: string)
    requires NoLineBreak(a) && NoLineBreak(b)
    ensures NoLineBreak(a + b)
  {
    assert forall j | |a| <= j < |a + b| :: (a + b)[j] == b[j - |a|];
  }

  /** Without tabs, `expandtabs` changes nothing. */
  lemma {:induction false} ExpandNoTabs(s: string, col: nat)
    requires forall i | 0 <= i < |s| :: s[i] != '\t'
    ensures ExpandFrom(s, col) == s
    decreases |s|
  {
    if |s| > 0 {
      ExpandNoTabs(s[1..], if s[0] == '\n' || s[0] == '\r' then 0 else col + 1);
      assert [s[0]] + s[1..] == s;
    }
  }

  /** The column `ExpandFrom` has reached once it has written `s`,
      starting at column `col`. */
  function ColumnAfter(s: string, col: nat): nat
    decreases |s|
  {
    if |s| == 0 then col
    else if s[0] == '\t' then ColumnAfter(s[1..], col + (8 - col % 8))
    else if s[0] == '\n' || s[0] == '\r' then ColumnAfter(s[1..], 0)
    else ColumnAfter(s[1..], col + 1)
  }

  /** Text without tabs in front is copied unchanged; what follows it is
      expanded from the column that text ends at. */
  lemma {:induction false} ExpandAfterTabFree(a: string, b: string, col: nat)
    requires forall i | 0 <= i < |a| :: a[i] != '\t'
    ensures ExpandFrom(a + b, col) == a + ExpandFrom(b, ColumnAfter(a, col))
    decreases |a|
  {
    if |a| == 0 {
      assert a + b == b;
    } else {
      var c := if a[0] == '\n' || a[0] == '\r' then 0 else col + 1;
      assert (a + b)[0] == a[0] && (a + b)[1..] == a[1..] + b;
      assert ExpandFrom(a + b, col) == [a[0]] + ExpandFrom(a[1..] + b, c);
      assert ColumnAfter(a, col) == ColumnAfter(a[1..], c);
      ExpandAfterTabFree(a[1..], b, c);
      ConsJoin(a, ExpandFrom(b, ColumnAfter(a, col)));
    }
  }

  lemma ConsJoin(a: string, b: string)
    requires |a| > 0
    ensures [a[0]] + (a[1..] + b) == a + b
  {
    assert [a[0]] + a[1..] == a;
  }

  /** A tab at column `col` becomes the spaces up to the next multiple of
      8. */
  lemma TabToNextStop(col: nat, rest: string)
    ensures ExpandFrom(['\t'] + rest, col)[..8 - col % 8] == Spaces(8 - col % 8)
    ensures (col + (8 - col % 8)) % 8 == 0
  {
    assert (['\t'] + rest)[1..] == rest;
  }

  /** A one-line body without tabs loses only its outer whitespace. */
  lemma TrimOneLine(s: string, indentation: string)
    requires NoLineBreak(s) && forall i | 0 <= i < |s| :: s[i] != '\t'
    requires |Strip(s)| > 0
    ensures Trim(s, indentation) == indentation + Strip(s)
  {
    ExpandNoTabs(s, 0);
    BreakFree(s);
    assert SplitLines(s) == [s];
    assert [s][1..] == [];
    assert StrippedLines([s]) == [Strip(s)];
  }
}
