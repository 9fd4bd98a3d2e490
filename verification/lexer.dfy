/** The lexical level of the SMV grammar (src/pynusmv/parser.py:139-179,
    482-484): identifiers, integers, word constants, symbols, whitespace and
    `--` comments. The grammar proper runs over the token sequence this
    module produces. */
module Lexer {
  import opened Wrappers
  import opened Numerals

  datatype Token =
    | TIdent(text: string)
      /** Unsigned decimal digits; a leading `-` is a separate symbol. */
    | TInt(text: string)
    | TWord(text: string)
    | TSym(text: string)

  // ---------------------------------------------------------------------
  // Character classes
  // ---------------------------------------------------------------------

  predicate IsAlpha(c: char) {
    ('a' <= c <= 'z') || ('A' <= c <= 'Z')
  }

  /** First character of an identifier: `alphas + "_"`. */
  predicate IsIdentStart(c: char) {
    IsAlpha(c) || c == '_'
  }

  /** Later characters of an identifier: `alphanums + "_$#-"`. */
  predicate IsIdentChar(c: char) {
    IsAlpha(c) || IsDigit(c) || c == '_' || c == '$' || c == '#' || c == '-'
  }

  predicate IsWordSign(c: char) {
    c == 'u' || c == 's'
  }

  predicate IsWordBase(c: char) {
    c in "bBoOdDhH"
  }

  predicate IsHexDigit(c: char) {
    IsDigit(c) || ('a' <= c <= 'f') || ('A' <= c <= 'F')
  }

  predicate IsWordValueChar(c: char) {
    IsHexDigit(c) || c == '_'
  }

  /** pyparsing's default whitespace. */
  predicate IsSpace(c: char) {
    c == ' ' || c == '\t' || c == '\n' || c == '\r'
  }

  // ---------------------------------------------------------------------
  // Lexical shapes
  // ---------------------------------------------------------------------

  predicate IsIdentifier(s: string) {
    |s| > 0 && IsIdentStart(s[0]) && forall i | 1 <= i < |s| :: IsIdentChar(s[i])
  }

  /** `Combine(Optional("-") + Word(nums))`. */
  predicate IsInteger(s: string) {
    if |s| > 0 && s[0] == '-' then |s| > 1 && AllDigits(s[1..])
    else |s| > 0 && AllDigits(s)
  }

  /** The number of characters of `s` from `i` on that satisfy `p`. */
  function Span(s: string, i: nat, p: char -> bool): (n: nat)
    requires i <= |s|
    ensures i + n <= |s|
    ensures forall k | i <= k < i + n :: p(s[k])
    ensures i + n == |s| || !p(s[i + n])
    decreases |s| - i
  {
    if i == |s| || !p(s[i]) then 0 else 1 + Span(s, i + 1, p)
  }

  /** Index just after the optional sign of a word constant. */
  function AfterSign(s: string): nat
    requires |s| > 0
  {
    if |s| > 1 && IsWordSign(s[1]) then 2 else 1
  }

  /** `0[us]?[bBoOdDhH][0-9]*_[0-9a-fA-F][0-9a-fA-F_]*`, the shape of
      `_word_constant` (parser.py:172-178). */
  predicate IsWordConstant(s: string) {
    |s| > 0 && s[0] == '0'
    && var b := AfterSign(s);
    b < |s| && IsWordBase(s[b])
    && var u := b + 1 + Span(s, b + 1, IsDigit);
    u + 1 < |s| && s[u] == '_' && IsHexDigit(s[u + 1])
    && forall k | u + 1 < k < |s| :: IsWordValueChar(s[k])
  }

  /** Length of the longest word-constant prefix of `s`, or 0. */
  function WordLength(s: string): (n: nat)
    ensures n <= |s|
    ensures n > 0 ==> IsWordConstant(s[..(n)])
    ensures n > 0 ==> n == |s| || !IsWordValueChar(s[n])
  {
    if |s| == 0 || s[0] != '0' then 0
    else
      var b := AfterSign(s);
      if b >= |s| || !IsWordBase(s[b]) then 0
      else WordAfterBase(s, b, b + 1 + Span(s, b + 1, IsDigit))
  }

  /** The rest of a word constant once its base letter is read: `u` is
      where the width digits end. */
  function WordAfterBase(s: string, b: nat, u: nat): (n: nat)
    requires |s| > 0 && s[0] == '0' && b == AfterSign(s) && b < |s| && IsWordBase(s[b])
    requires u == b + 1 + Span(s, b + 1, IsDigit)
    ensures n <= |s|
    ensures n > 0 ==> IsWordConstant(s[..(n)])
    ensures n > 0 ==> n == |s| || !IsWordValueChar(s[n])
  {
    if u + 1 >= |s| || s[u] != '_' || !IsHexDigit(s[u + 1]) then 0
    else
      var n := u + 2 + Span(s, u + 2, IsWordValueChar);
      WordPrefix(s, b, u, n);
      WordValueEnd(s, u + 2);
      n
  }

  /** Where the digits of a word value stop. */
  lemma WordValueEnd(s: string, i: nat)
    requires i <= |s|
    ensures var n := i + Span(s, i, IsWordValueChar);
      n == |s| || !IsWordValueChar(s[n])
  {
  }

  /** The prefix `WordLength` measures has the shape of a word constant. */
  lemma WordPrefix(s: string, b: nat, u: nat, n: nat)
    requires |s| > 0 && s[0] == '0' && b == AfterSign(s) && b < |s| && IsWordBase(s[b])
    requires u == b + 1 + Span(s, b + 1, IsDigit)
    requires u + 1 < |s| && s[u] == '_' && IsHexDigit(s[u + 1])
    requires n == u + 2 + Span(s, u + 2, IsWordValueChar)
    ensures IsWordConstant(s[..(n)])
  {
    var t := s[..n];
    assert t[0] == '0' && AfterSign(t) == b && IsWordBase(t[b]);
    SpanPrefix(s, n, b + 1, IsDigit);
    assert t[u] == '_' && IsHexDigit(t[u + 1]);
    forall k | u + 1 < k < n ensures IsWordValueChar(t[k]) {
      assert t[k] == s[k];
    }
  }

  /** `Span` only looks at the characters it counts and the one after. */
  lemma {:induction false} SpanPrefix(s: string, n: nat, i: nat, p: char -> bool)
    requires i <= n <= |s|
    requires i + Span(s, i, p) < n
    ensures Span(s[..(n)], i, p) == Span(s, i, p)
    decreases |s| - i
  {
    if i == |s| || !p(s[i]) {
    } else {
      SpanPrefix(s, n, i + 1, p);
    }
  }

  /** The symbols of the grammar, by length. */
  const Symbols3: set<string> := {"<->"}
  const Symbols2: set<string> := {"->", "::", ":=", "..", "<<", ">>", "<=", ">=", "!="}
  const Symbols1: set<char> := {'!', '-', '*', '/', '+', '<', '>', '=', '&', '|', '?',
                                ':', ';', ',', '(', ')', '[', ']', '{', '}', '.'}

  predicate IsSymbol(x: string) {
    x in Symbols3 || x in Symbols2 || (|x| == 1 && x[0] in Symbols1)
  }

  /** Length of the longest symbol `s` starts with, or 0. */
  function SymbolLength(s: string): (n: nat)
    ensures n <= |s|
    ensures n > 0 ==> IsSymbol(s[..(n)])
  {
    if |s| >= 3 && s[..3] in Symbols3 then 3
    else if |s| >= 2 && s[..2] in Symbols2 then 2
    else if |s| >= 1 && s[0] in Symbols1 then 1
    else 0
  }

  /** Index just after the end of the line starting at `i`. */
  function LineEnd(s: string, i: nat): (n: nat)
    requires i <= |s|
    ensures i <= n <= |s|
    decreases |s| - i
  {
    if i == |s| then i else if s[i] == '\n' then i + 1 else LineEnd(s, i + 1)
  }

  /** One step of the tokenizer: skip `n` characters, emit a token spelt
      by the next `n` characters, or fail. */
  datatype Step = Skip(n: nat) | Emit(tok: Token, n: nat) | Fail

  function NextStep(s: string): (r: Step)
    requires |s| > 0
    ensures r.Skip? || r.Emit? ==> 0 < r.n <= |s|
    ensures r.Emit? ==> r.tok.text == s[..(r.n)]
  {
    if IsSpace(s[0]) then Skip(1)
    else if |s| >= 2 && s[..2] == "--" then Skip(LineEnd(s, 2))
    else if IsIdentStart(s[0]) then IdentToken(s)
    else if IsDigit(s[0]) then NumberToken(s)
    else SymbolToken(s)
  }

  /** An identifier: the start character and every identifier character
      after it. */
  function IdentToken(s: string): (r: Step)
    requires |s| > 0 && IsIdentStart(s[0])
    ensures r.Emit? && 0 < r.n <= |s| && r.tok == TIdent(s[..(r.n)])
    ensures IsIdentifier(r.tok.text)
  {
    var n := 1 + Span(s, 1, IsIdentChar);
    Emit(TIdent(s[..n]), n)
  }

  /** A word constant when one starts here, otherwise the digits. */
  function NumberToken(s: string): (r: Step)
    requires |s| > 0 && IsDigit(s[0])
    ensures r.Emit? && 0 < r.n <= |s| && r.tok.text == s[..(r.n)]
    ensures ValidToken(r.tok)
  {
    var w := WordLength(s);
    if w > 0 then Emit(TWord(s[..w]), w)
    else
      var n := Span(s, 0, IsDigit);
      Emit(TInt(s[..n]), n)
  }

  /** The longest symbol, or failure. */
  function SymbolToken(s: string): (r: Step)
    ensures r.Fail? || (r.Emit? && 0 < r.n <= |s| && r.tok == TSym(s[..(r.n)]))
    ensures r.Emit? ==> IsSymbol(r.tok.text)
  {
    var n := SymbolLength(s);
    if n == 0 then Fail else Emit(TSym(s[..n]), n)
  }

  /** Split `s` into tokens, skipping whitespace and `--` comments. */
  function Tokenize(s: string): Result<seq<Token>>
    decreases |s|
  {
    if |s| == 0 then Ok([])
    else match NextStep(s)
      case Skip(n) => Tokenize(s[n..])
      case Emit(t, n) =>
        var rest :- Tokenize(s[n..]);
        Ok([t] + rest)
      case Fail => Err("unexpected character")
  }

  // ---------------------------------------------------------------------
  // Properties
  // ---------------------------------------------------------------------

  /** The tokens the tokenizer can produce. */
  predicate ValidToken(t: Token) {
    match t
    case TIdent(x) => IsIdentifier(x)
    case TInt(x) => |x| > 0 && AllDigits(x)
    case TWord(x) => IsWordConstant(x)
    case TSym(x) => IsSymbol(x)
  }

  lemma StepValid(s: string)
    requires |s| > 0 && NextStep(s).Emit?
    ensures ValidToken(NextStep(s).tok)
  {
  }

  /** Every token the tokenizer returns has its lexical shape. */
  lemma {:induction false} TokenizeValid(s: string)
    requires Tokenize(s).Ok?
    ensures forall t | t in Tokenize(s).value :: ValidToken(t)
    decreases |s|
  {
    if |s| > 0 {
      match NextStep(s)
      case Skip(n) => TokenizeValid(s[n..]);
      case Emit(t, n) => TokenizeValid(s[n..]); StepValid(s);
      case Fail =>
    }
  }

  /** The tokens written out, each followed by one space. */
  function Unlex(ts: seq<Token>): string
    decreases |ts|
  {
    if |ts| == 0 then "" else ts[0].text + " " + Unlex(ts[1..])
  }

  lemma {:induction false} SpanStopsInside(x: string, t: string, i: nat, p: char -> bool)
    requires i <= |x|
    requires i + Span(x, i, p) < |x|
    ensures Span(x + t, i, p) == Span(x, i, p)
    decreases |x| - i
  {
    if !p(x[i]) {
    } else {
      SpanStopsInside(x, t, i + 1, p);
    }
  }

  lemma {:induction false} SpanReachesEnd(x: string, t: string, i: nat, p: char -> bool)
    requires i <= |x|
    requires forall k | i <= k < |x| :: p(x[k])
    requires |t| > 0 && !p(t[0])
    ensures Span(x + t, i, p) == |x| - i
    decreases |x| - i
  {
    if i < |x| {
      SpanReachesEnd(x, t, i + 1, p);
    }
  }

  lemma SpaceSkipped(u: string)
    ensures Tokenize(" " + u) == Tokenize(u)
  {
    assert (" " + u)[1..] == u;
  }

  /** What starts with a character other than a blank or `-` is read by
      the production its first character picks. */
  lemma Dispatch(s: string)
    requires |s| > 0 && !IsSpace(s[0]) && s[0] != '-'
    ensures IsIdentStart(s[0]) ==> NextStep(s) == IdentToken(s)
    ensures IsDigit(s[0]) ==> NextStep(s) == NumberToken(s)
    ensures !IsIdentStart(s[0]) && !IsDigit(s[0]) ==> NextStep(s) == SymbolToken(s)
  {
    assert |s| >= 2 ==> s[..2][0] == s[0];
  }

  lemma IdentStep(x: string, u: string)
    requires IsIdentifier(x)
    ensures NextStep(x + (" " + u)) == Emit(TIdent(x), |x|)
  {
    var s := x + (" " + u);
    assert s[..|x|] == x;
    Dispatch(s);
    SpanReachesEnd(x, " " + u, 1, IsIdentChar);
  }

  lemma IntStep(x: string, u: string)
    requires |x| > 0 && AllDigits(x)
    ensures NextStep(x + (" " + u)) == Emit(TInt(x), |x|)
  {
    var s := x + (" " + u);
    assert s[..|x|] == x;
    Dispatch(s);
    assert WordLength(s) == 0 by {
      if s[0] == '0' {
        assert !IsWordSign(s[1]) && !IsWordBase(s[1]);
      }
    }
    SpanReachesEnd(x, " " + u, 0, IsDigit);
  }

  lemma WordStep(x: string, u: string)
    requires IsWordConstant(x)
    ensures NextStep(x + (" " + u)) == Emit(TWord(x), |x|)
  {
    var s := x + (" " + u);
    assert s[..|x|] == x;
    Dispatch(s);
    assert WordLength(s) == |x| by {
      WordLengthOf(x, u);
    }
  }

  /** A word constant followed by a blank is measured exactly. */
  lemma WordLengthOf(x: string, u: string)
    requires IsWordConstant(x)
    ensures WordLength(x + (" " + u)) == |x|
  {
    var s := x + (" " + u);
    var b := AfterSign(x);
    assert AfterSign(s) == b;
    var u0 := b + 1 + Span(x, b + 1, IsDigit);
    SpanStopsInside(x, " " + u, b + 1, IsDigit);
    assert b + 1 + Span(s, b + 1, IsDigit) == u0;
    assert u0 + 1 < |s| && s[u0] == '_' && IsHexDigit(s[u0 + 1]);
    SpanReachesEnd(x, " " + u, u0 + 2, IsWordValueChar);
  }

  lemma SymStep(x: string, u: string)
    requires IsSymbol(x)
    ensures NextStep(x + (" " + u)) == Emit(TSym(x), |x|)
  {
    var s := x + (" " + u);
    assert s[..|x|] == x;
    SymbolLengthOf(x, u);
    if x[0] == '-' {
      assert |s| >= 2 ==> s[..2] != "--" by {
        if |s| >= 2 { assert s[..2][1] == s[1]; }
      }
    } else {
      Dispatch(s);
    }
  }

  /** A symbol followed by a blank is measured exactly. */
  lemma SymbolLengthOf(x: string, u: string)
    requires IsSymbol(x)
    ensures SymbolLength(x + (" " + u)) == |x|
    ensures !IsSpace(x[0]) && !IsIdentStart(x[0]) && !IsDigit(x[0])
  {
    var s := x + (" " + u);
    assert s[..|x|] == x;
    assert s[|x|] == ' ';
    assert forall y | y in Symbols2 :: |y| == 2 && y[0] != ' ' && y[1] != ' ';
    if |x| == 1 {
      assert |s| >= 2 ==> s[..2] !in Symbols2 by {
        if |s| >= 2 { assert s[..2][1] == ' '; }
      }
      assert |s| >= 3 ==> s[..3] !in Symbols3 by {
        if |s| >= 3 { assert s[..3][1] == ' '; }
      }
    } else if |x| == 2 {
      assert |s| >= 3 ==> s[..3] !in Symbols3 by {
        if |s| >= 3 { assert s[..3][2] == ' '; }
      }
    }
  }

  /** A valid token followed by a space is one step of the tokenizer. */
  lemma StepOne(t: Token, u: string)
    requires ValidToken(t)
    ensures NextStep(t.text + (" " + u)) == Emit(t, |t.text|)
  {
    match t
    case TIdent(x) => IdentStep(x, u);
    case TInt(x) => IntStep(x, u);
    case TWord(x) => WordStep(x, u);
    case TSym(x) => SymStep(x, u);
  }

  /** A valid token followed by a space is read back as that token. */
  lemma TokenizeOne(t: Token, u: string)
    requires ValidToken(t)
    requires Tokenize(u).Ok?
    ensures Tokenize(t.text + " " + u) == Ok([t] + Tokenize(u).value)
  {
    var s := t.text + (" " + u);
    assert t.text + " " + u == s;
    StepOne(t, u);
    assert s[|t.text|..] == " " + u;
    SpaceSkipped(u);
  }

  /** Writing tokens out with spaces and tokenizing again gives them back. */
  lemma {:induction false} TokenizeUnlex(ts: seq<Token>)
    requires forall t | t in ts :: ValidToken(t)
    ensures Tokenize(Unlex(ts)) == Ok(ts)
    decreases |ts|
  {
    if |ts| > 0 {
      TokenizeUnlex(ts[1..]);
      TokenizeOne(ts[0], Unlex(ts[1..]));
      assert [ts[0]] + ts[1..] == ts;
    }
  }

  /** Tokenizing is stable: the tokens of a text, written out again, have
      the same tokens. */
  lemma TokenizeRoundTrip(s: string)
    requires Tokenize(s).Ok?
    ensures Tokenize(Unlex(Tokenize(s).value)) == Tokenize(s)
  {
    TokenizeValid(s);
    TokenizeUnlex(Tokenize(s).value);
  }
}
