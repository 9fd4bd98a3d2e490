/** The expression grammar of src/pynusmv/parser.py:139-305 as a recursive
    descent over the tokens of the `Lexer` module.

    The precedence chain is one function, `ParseLevel`, indexed by level
    (tightest first). Each level parses its operands at the next tighter
    level, collects its `operator operand` pairs the way `ZeroOrMore` does
    (an operator whose operand does not parse is left unconsumed), and hands
    them to the level's parse action from the `Folds` module. Alternatives
    joined by `|` are tried in order and the first success wins. */
module Grammar {
  import opened Wrappers
  import opened Ast
  import opened Numerals
  import opened Lexer
  import opened Folds

  /** A parse result and the tokens left after it. */
  datatype Parsed<T> = Parsed(value: T, rest: seq<Token>)

  // ---------------------------------------------------------------------
  // Levels, tightest first
  // ---------------------------------------------------------------------

  const LArray: nat := 0    // `_array`: a basic expression and its subscripts
  const LNot: nat := 1      // `_not`: prefix `!`
  const LConcat: nat := 2   // `_concat`: `::`
  const LMinus: nat := 3    // `_minus`: prefix `-`
  const LMult: nat := 4     // `_mult`: `*`, `/`, `mod`
  const LAdd: nat := 5      // `_add`: `+`, `-`
  const LShift: nat := 6    // `_shift`: `<<`, `>>`
  const LSet: nat := 7      // `_set`: a range, a shift expression or `{...}`
  const LUnion: nat := 8    // `_union`
  const LIn: nat := 9       // `_in`
  const LCmp: nat := 10     // `_comparison`
  const LAnd: nat := 11     // `_and`
  const LOr: nat := 12      // `_or`: `|`, `xor`, `xnor`
  const LIte: nat := 13     // `_ite`: `c ? a : b`
  const LIff: nat := 14     // `_iff`
  const LImplies: nat := 15 // `_implies`
  const Top: nat := 15      // `_basic_expr`

  /** The binary operator texts and the level that folds over each. */
  const OperatorLevels: map<string, nat> :=
    map["::" := LConcat,
        "*" := LMult, "/" := LMult, "mod" := LMult,
        "+" := LAdd, "-" := LAdd,
        "<<" := LShift, ">>" := LShift,
        "union" := LUnion,
        "in" := LIn,
        "=" := LCmp, "!=" := LCmp, "<" := LCmp, ">" := LCmp, "<=" := LCmp, ">=" := LCmp,
        "&" := LAnd,
        "|" := LOr, "xor" := LOr, "xnor" := LOr,
        "<->" := LIff,
        "->" := LImplies]

  /** `t` is one of the operators level `k` folds over. */
  predicate IsLevelOp(k: nat, t: string) {
    t in OperatorLevels && OperatorLevels[t] == k
  }

  /** The levels built by `ZeroOrMore(operator + operand)`. */
  predicate IsFoldLevel(k: nat) {
    k in {LConcat, LMult, LAdd, LShift, LUnion, LIn, LCmp, LAnd, LOr, LIff, LImplies}
  }

  /** `_implies` recurses into itself on the right; the other levels take
      their operands from the next tighter level. */
  function OperandLevel(k: nat): nat
    requires 0 < k
  {
    if k == LImplies then k else k - 1
  }

  /** The node class of the levels whose action builds one fixed class. */
  function FixedOp(k: nat): BinOp {
    if k == LConcat then Concat
    else if k == LUnion then Union
    else if k == LIn then In
    else if k == LAnd then And
    else if k == LIff then Iff
    else Implies
  }

  /** The levels whose action is `_reduce_list_to_expr`. */
  predicate UsesTable(k: nat) {
    k == LMult || k == LAdd || k == LShift || k == LCmp || k == LOr
  }

  /** The parse action of a fold level. `_concat` suppresses `::`, so its
      action sees the operands alone; the operands are all kept here (the
      written action drops every second one, see `Folds`). The other
      uniform levels keep their operator token and reduce over
      `t[0:1] + t[2::2]`. */
  function LevelAction(k: nat, first: Expr, pairs: seq<(string, Expr)>): Result<Expr> {
    if k == LConcat then ConcatAction([first] + Operands(pairs))
    else if UsesTable(k) then ReduceListToExpr(first, pairs)
    else ReduceNodes(FixedOp(k), EvenSlice(Interleaved(first, pairs)))
  }

  // ---------------------------------------------------------------------
  // Token tests
  // ---------------------------------------------------------------------

  /** The next token is spelt `s`. */
  predicate At(ts: seq<Token>, s: string) {
    |ts| > 0 && ts[0].text == s
  }

  /** The number of leading tokens spelt `s`. */
  function Marks(ts: seq<Token>, s: string): (m: nat)
    ensures m <= |ts|
    ensures forall i | 0 <= i < m :: ts[i].text == s
    ensures !At(ts[m..], s)
    decreases |ts|
  {
    if At(ts, s) then
      var m := 1 + Marks(ts[1..], s);
      assert ts[m..] == ts[1..][m - 1..];
      m
    else 0
  }

  /** A digit token, as the tokenizer produces them. */
  predicate IsIntToken(t: Token) {
    t.TInt? && AllDigits(t.text)
  }

  /** `_conversion`'s function names. */
  predicate IsConversionName(s: string) {
    s in {"word1", "bool", "toint", "signed", "unsigned"}
  }

  /** `_word_function`'s function names. */
  predicate IsWordFunctionName(s: string) {
    s in {"extend", "resize"}
  }

  // ---------------------------------------------------------------------
  // The precedence chain
  // ---------------------------------------------------------------------

  function ParseLevel(k: nat, ts: seq<Token>): (r: Result<Parsed<Expr>>)
    requires k <= Top
    ensures r.Ok? ==> |r.value.rest| < |ts|
    decreases |ts|, k, 3
  {
    if k == LArray then ParseArray(ts)
    else if k == LNot || k == LMinus then ParsePrefix(k, ts)
    else if k == LSet then ParseSet(ts)
    else if k == LIte then ParseIte(ts)
    else ParseFold(k, ts)
  }

  /** `ZeroOrMore("!") + _array` and `ZeroOrMore("-") + _concat`: every
      leading mark is consumed, then the operand must parse. */
  function ParsePrefix(k: nat, ts: seq<Token>): (r: Result<Parsed<Expr>>)
    requires k == LNot || k == LMinus
    ensures r.Ok? ==> |r.value.rest| < |ts|
    decreases |ts|, k, 2
  {
    var m := Marks(ts, if k == LNot then "!" else "-");
    var p :- ParseLevel(k - 1, ts[m..]);
    Ok(Parsed(PrefixChain(if k == LNot then Not else Minus, m, p.value), p.rest))
  }

  /** A fold level: an operand, then its `operator operand` pairs. */
  function ParseFold(k: nat, ts: seq<Token>): (r: Result<Parsed<Expr>>)
    requires 0 < k <= Top
    ensures r.Ok? ==> |r.value.rest| < |ts|
    decreases |ts|, k, 2
  {
    var first :- ParseLevel(k - 1, ts);
    var more := CollectPairs(k, first.rest);
    var e :- LevelAction(k, first.value, more.value);
    Ok(Parsed(e, more.rest))
  }

  /** `ZeroOrMore(oneOf(ops) + operand)`. */
  function CollectPairs(k: nat, ts: seq<Token>): (r: Parsed<seq<(string, Expr)>>)
    requires 0 < k <= Top
    ensures |r.rest| <= |ts|
    decreases |ts|, k, 0
  {
    if |ts| > 0 && IsLevelOp(k, ts[0].text) then
      match ParseLevel(OperandLevel(k), ts[1..])
      case Err(_) => Parsed([], ts)
      case Ok(p) =>
        var more := CollectPairs(k, p.rest);
        Parsed([(ts[0].text, p.value)] + more.value, more.rest)
    else Parsed([], ts)
  }

  /** `_ite <<= _or + Optional("?" + _ite + ":" + _ite)`. */
  function ParseIte(ts: seq<Token>): (r: Result<Parsed<Expr>>)
    ensures r.Ok? ==> |r.value.rest| < |ts|
    decreases |ts|, LIte, 2
  {
    var c :- ParseLevel(LOr, ts);
    if !At(c.rest, "?") then Ok(c)
    else match ParseLevel(LIte, c.rest[1..])
      case Err(_) => Ok(c)
      case Ok(a) =>
        if !At(a.rest, ":") then Ok(c)
        else match ParseLevel(LIte, a.rest[1..])
          case Err(_) => Ok(c)
          case Ok(b) => Ok(Parsed(Ite(c.value, a.value, b.value, None), b.rest))
  }

  /** `_set = _range_constant | _shift | _set_set`. */
  function ParseSet(ts: seq<Token>): (r: Result<Parsed<Expr>>)
    ensures r.Ok? ==> |r.value.rest| < |ts|
    decreases |ts|, LSet, 2
  {
    match ParseRange(ts)
    case Ok(p) => Ok(p)
    case Err(_) =>
      match ParseLevel(LShift, ts)
      case Ok(p) => Ok(p)
      case Err(_) =>
        if !At(ts, "{") then Err("expected an expression")
        else
          var els :- ParseList(ts[1..]);
          if !At(els.rest, "}") then Err("expected a closing brace")
          else Ok(Parsed(SetExpr(els.value, None), els.rest[1..]))
  }

  /** `_integer_number`: an optional `-` and digits. */
  function ParseInteger(ts: seq<Token>): (r: Result<Parsed<int>>)
    ensures r.Ok? ==> |r.value.rest| < |ts|
  {
    if |ts| > 0 && IsIntToken(ts[0]) then Ok(Parsed(StringToNat(ts[0].text) as int, ts[1..]))
    else if At(ts, "-") && |ts| > 1 && IsIntToken(ts[1]) then
      Ok(Parsed(0 - StringToNat(ts[1].text), ts[2..]))
    else Err("expected an integer")
  }

  /** `_range_constant`: `integer .. integer`. */
  function ParseRange(ts: seq<Token>): (r: Result<Parsed<Expr>>)
    ensures r.Ok? ==> |r.value.rest| < |ts|
  {
    var lo :- ParseInteger(ts);
    if !At(lo.rest, "..") then Err("expected ..")
    else
      var hi :- ParseInteger(lo.rest[1..]);
      Ok(Parsed(RangeConst(lo.value, hi.value, None), hi.rest))
  }

  /** `delimitedList(_basic_expr)`: one expression, then `, expression`
      while the expression after the comma parses. */
  function ParseList(ts: seq<Token>): (r: Result<Parsed<seq<Expr>>>)
    ensures r.Ok? ==> |r.value.rest| < |ts| && |r.value.value| > 0
    decreases |ts|, Top + 1, 1
  {
    var first :- ParseLevel(Top, ts);
    var more := CollectListTail(first.rest);
    Ok(Parsed([first.value] + more.value, more.rest))
  }

  function CollectListTail(ts: seq<Token>): (r: Parsed<seq<Expr>>)
    ensures |r.rest| <= |ts|
    decreases |ts|, Top + 1, 0
  {
    if !At(ts, ",") then Parsed([], ts)
    else match ParseLevel(Top, ts[1..])
      case Err(_) => Parsed([], ts)
      case Ok(p) =>
        var more := CollectListTail(p.rest);
        Parsed([p.value] + more.value, more.rest)
  }

  // ---------------------------------------------------------------------
  // Basic expressions
  // ---------------------------------------------------------------------

  /** `_array = _base + _ap`: with no subscript the basic expression
      itself, otherwise an `ArrayAccess` of its subscripts. */
  function ParseArray(ts: seq<Token>): (r: Result<Parsed<Expr>>)
    ensures r.Ok? ==> |r.value.rest| < |ts|
    decreases |ts|, LArray, 2
  {
    var b :- ParseBase(ts);
    var acc := CollectAccesses(b.rest);
    if |acc.value| == 0 then Ok(b)
    else Ok(Parsed(ArrayAccess(b.value, acc.value, None), acc.rest))
  }

  /** `_ap`: `[e]` subscripts and `[e : e]` bit selections, while they
      parse. */
  function CollectAccesses(ts: seq<Token>): (r: Parsed<seq<Expr>>)
    ensures |r.rest| <= |ts|
    decreases |ts|, LArray, 0
  {
    if !At(ts, "[") then Parsed([], ts)
    else match ParseLevel(Top, ts[1..])
      case Err(_) => Parsed([], ts)
      case Ok(i) =>
        if At(i.rest, "]") then
          var more := CollectAccesses(i.rest[1..]);
          Parsed([Subscript(i.value, None)] + more.value, more.rest)
        else if !At(i.rest, ":") then Parsed([], ts)
        else match ParseLevel(Top, i.rest[1..])
          case Err(_) => Parsed([], ts)
          case Ok(j) =>
            if !At(j.rest, "]") then Parsed([], ts)
            else
              var more := CollectAccesses(j.rest[1..]);
              Parsed([BitSelection(i.value, j.value, None)] + more.value, more.rest)
  }

  /** `_base`. An identifier token is a complex identifier unless a
      keyword form (`word1(...)`, `next(...)`, `case ... esac`, ...)
      parses from it: `^` keeps the longest alternative, and a keyword form
      that parses is always longer. A word, an integer, or a parenthesised
      expression otherwise. */
  function ParseBase(ts: seq<Token>): (r: Result<Parsed<Expr>>)
    ensures r.Ok? ==> |r.value.rest| < |ts|
    decreases |ts|, LArray, 1
  {
    if |ts| == 0 then Err("expected an expression")
    else if ts[0].TIdent? then
      if ts[0].text == "self" then
        var path := CollectSelectors(ts[1..]);
        Ok(Parsed(ComplexIdent(SelfRoot, path.value, None), path.rest))
      else
        match ParseKeywordForm(ts)
        case Ok(p) => Ok(p)
        case Err(_) =>
          var path := CollectSelectors(ts[1..]);
          Ok(Parsed(ComplexIdent(NameRoot(ts[0].text), path.value, None), path.rest))
    else if At(ts, "(") then
      var e :- ParseLevel(Top, ts[1..]);
      if At(e.rest, ")") then Ok(Parsed(e.value, e.rest[1..])) else Err("expected )")
    else if ts[0].TWord? then Ok(Parsed(WordConst(ts[0].text, None), ts[1..]))
    else
      var n :- ParseInteger(ts);
      Ok(Parsed(IntConst(n.value), n.rest))
  }

  /** `_cip`: `.self`, `.name` and `[e]` selectors, while they parse. */
  function CollectSelectors(ts: seq<Token>): (r: Parsed<seq<Selector>>)
    ensures |r.rest| <= |ts|
    decreases |ts|, LArray, 0
  {
    if At(ts, ".") && |ts| > 1 && ts[1].TIdent? then
      var s := if ts[1].text == "self" then DotSelf else Field(ts[1].text);
      var more := CollectSelectors(ts[2..]);
      Parsed([s] + more.value, more.rest)
    else if At(ts, "[") then
      match ParseLevel(Top, ts[1..])
      case Err(_) => Parsed([], ts)
      case Ok(i) =>
        if !At(i.rest, "]") then Parsed([], ts)
        else
          var more := CollectSelectors(i.rest[1..]);
          Parsed([Index(i.value)] + more.value, more.rest)
    else Parsed([], ts)
  }

  /** `_conversion`, `_word_function`, `_count`, `_next` and `_case`. */
  function ParseKeywordForm(ts: seq<Token>): (r: Result<Parsed<Expr>>)
    requires |ts| > 0
    ensures r.Ok? ==> |r.value.rest| < |ts|
    decreases |ts|, LArray, 0
  {
    var name := ts[0].text;
    if name == "case" then
      var arms :- ParseArms(ts[1..]);
      if At(arms.rest, "esac") then Ok(Parsed(Case(arms.value, None), arms.rest[1..]))
      else Err("expected esac")
    else if !At(ts[1..], "(") then Err("not a keyword form")
    else if IsConversionName(name) || name == "next" then
      var v :- ParseLevel(Top, ts[2..]);
      if !At(v.rest, ")") then Err("expected )")
      else if name == "next" then Ok(Parsed(Next(v.value, None), v.rest[1..]))
      else Ok(Parsed(Conversion(name, v.value, None), v.rest[1..]))
    else if IsWordFunctionName(name) then
      var v :- ParseLevel(Top, ts[2..]);
      if !At(v.rest, ",") then Err("expected ,")
      else
        var s :- ParseLevel(Top, v.rest[1..]);
        if !At(s.rest, ")") then Err("expected )")
        else
          var e :- WordFunctionAction(WordFunctionTokens(name, v.value, s.value));
          Ok(Parsed(e, s.rest[1..]))
    else if name == "count" then
      var vs :- ParseList(ts[2..]);
      if !At(vs.rest, ")") then Err("expected )")
      else Ok(Parsed(Count(vs.value[0], None), vs.rest[1..]))
    else Err("not a keyword form")
  }

  /** `OneOrMore(_basic_expr : _basic_expr ;)`. */
  function ParseArms(ts: seq<Token>): (r: Result<Parsed<seq<Arm>>>)
    ensures r.Ok? ==> |r.value.rest| < |ts| && |r.value.value| > 0
    decreases |ts|, Top + 1, 2
  {
    match ParseArm(ts)
    case None => Err("expected a case arm")
    case Some(a) =>
      var more := CollectArms(a.rest);
      Ok(Parsed([a.value] + more.value, more.rest))
  }

  function CollectArms(ts: seq<Token>): (r: Parsed<seq<Arm>>)
    ensures |r.rest| <= |ts|
    decreases |ts|, Top + 1, 1
  {
    match ParseArm(ts)
    case None => Parsed([], ts)
    case Some(a) =>
      var more := CollectArms(a.rest);
      Parsed([a.value] + more.value, more.rest)
  }

  /** `_case_case`: `condition : result ;`. */
  function ParseArm(ts: seq<Token>): (r: Option<Parsed<Arm>>)
    ensures r.Some? ==> |r.value.rest| < |ts|
    decreases |ts|, Top + 1, 0
  {
    match ParseLevel(Top, ts)
    case Err(_) => None
    case Ok(c) =>
      if !At(c.rest, ":") then None
      else match ParseLevel(Top, c.rest[1..])
        case Err(_) => None
        case Ok(v) =>
          if !At(v.rest, ";") then None
          else Some(Parsed(Arm(c.value, v.value), v.rest[1..]))
  }

  /** `simple_expression`. */
  function ParseExpr(ts: seq<Token>): (r: Result<Parsed<Expr>>)
    ensures r.Ok? ==> |r.value.rest| < |ts|
  {
    ParseLevel(Top, ts)
  }

  /** `parseAllString(simple_expression, s)`: the whole text must be
      consumed, and the result carries `s` as its source. */
  function ParseAllExpr(s: string): (r: Result<Expr>)
    ensures r.Ok? && !r.value.IntConst? ==> SourceOf(r.value) == Some(s)
  {
    var ts :- Tokenize(s);
    var p :- ParseExpr(ts);
    if |p.rest| != 0 then Err("expected end of text") else Ok(WithSource(p.value, s))
  }
}
