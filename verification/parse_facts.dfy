/** What the precedence chain of `Grammar` computes.

    The central fact is `Lift`: once a level has parsed an expression and
    the next token continues none of the looser levels, every looser level
    returns the same expression. With it, the fully parenthesised printer
    `Tokens` below is read back exactly (`ParsePrinted`), and two-operator
    chains fold as the precedence table says (`TighterBindsFirst`,
    `SameLevelAssociatesLeft`, `ImpliesAssociatesRight`). */
module ParseFacts {
  import opened Wrappers
  import opened Ast
  import opened Numerals
  import opened Lexer
  import opened Folds
  import opened Grammar

  // ---------------------------------------------------------------------
  // Operators and levels
  // ---------------------------------------------------------------------

  /** The level whose fold builds `op`. */
  function OpLevel(op: BinOp): (k: nat)
    ensures 0 < k <= Top && IsFoldLevel(k)
  {
    match op
    case Concat => LConcat
    case Mult => LMult case Div => LMult case Mod => LMult
    case Add => LAdd case Sub => LAdd
    case ShiftL => LShift case ShiftR => LShift
    case Union => LUnion
    case In => LIn
    case Eq => LCmp case Neq => LCmp case Lt => LCmp case Gt => LCmp
    case Le => LCmp case Ge => LCmp
    case And => LAnd
    case Or => LOr case Xor => LOr case Xnor => LOr
    case Iff => LIff
    case Implies => LImplies
  }

  /** The node class a fold level builds from an operator text. */
  function LevelBinOp(k: nat, t: string): BinOp {
    if UsesTable(k) && t in OTC then OTC[t] else FixedOp(k)
  }

  /** The token the lexer produces for an operator. */
  function OpToken(op: BinOp): Token {
    if op in {Mod, Union, In, Xor, Xnor} then TIdent(OperatorText(op)) else TSym(OperatorText(op))
  }

  /** The token `ts` starts with makes level `j` go on: a subscript or
      selector after a basic expression, an operator of a fold level, or
      the `?` of a conditional. */
  predicate Continues(j: nat, ts: seq<Token>) {
    |ts| > 0 &&
    ((j == LArray && ts[0].text in {"[", "."})
     || IsLevelOp(j, ts[0].text)
     || (j == LIte && ts[0].text == "?"))
  }

  /** Nothing in levels `0..k` continues at `ts`, and `ts` can follow an
      identifier or an integer without being read as part of it. */
  predicate StopsUpTo(k: nat, ts: seq<Token>) {
    (forall j | 0 <= j <= k :: !Continues(j, ts)) && !At(ts, "(") && !At(ts, "..")
  }

  /** An operator token belongs to its own level and continues no other. */
  lemma OpTokenLevel(op: BinOp, ts: seq<Token>, j: nat)
    ensures Continues(j, [OpToken(op)] + ts) <==> j == OpLevel(op)
    ensures OpToken(op).text == OperatorText(op)
    ensures !At([OpToken(op)] + ts, "(") && !At([OpToken(op)] + ts, "..")
    ensures LevelBinOp(OpLevel(op), OperatorText(op)) == op
  {
    var t := OperatorText(op);
    assert ([OpToken(op)] + ts)[0].text == t;
    OperatorTextLevel(op);
    assert t != "[" && t != "." && t != "?";
  }

  /** The spelling of an operator is filed under its level, and the table
      of its level, if that level uses one, maps it back. */
  lemma OperatorTextLevel(op: BinOp)
    ensures OperatorText(op) in OperatorLevels
    ensures OperatorLevels[OperatorText(op)] == OpLevel(op)
    ensures LevelBinOp(OpLevel(op), OperatorText(op)) == op
  {
    if op in {Concat, Mult, Div, Mod, Add} {
      TextLevelGroup1(op);
    } else if op in {Sub, ShiftL, ShiftR, Union, In} {
      TextLevelGroup2(op);
    } else if op in {Eq, Neq, Lt, Gt, Le, Ge} {
      TextLevelGroup3(op);
    } else {
      TextLevelGroup4(op);
    }
  }

  lemma TextLevelGroup1(op: BinOp)
    requires op == Concat || op == Mult || op == Div || op == Mod || op == Add
    ensures OperatorText(op) in OperatorLevels
    ensures OperatorLevels[OperatorText(op)] == OpLevel(op)
    ensures LevelBinOp(OpLevel(op), OperatorText(op)) == op
  {
    match op
    case Concat =>
    case Mult =>
    case Div =>
    case Mod =>
    case Add =>
  }

  lemma TextLevelGroup2(op: BinOp)
    requires op == Sub || op == ShiftL || op == ShiftR || op == Union || op == In
    ensures OperatorText(op) in OperatorLevels
    ensures OperatorLevels[OperatorText(op)] == OpLevel(op)
    ensures LevelBinOp(OpLevel(op), OperatorText(op)) == op
  {
    match op
    case Sub =>
    case ShiftL =>
    case ShiftR =>
    case Union =>
    case In =>
  }

  lemma TextLevelGroup3(op: BinOp)
    requires op == Eq || op == Neq || op == Lt || op == Gt || op == Le || op == Ge
    ensures OperatorText(op) in OperatorLevels
    ensures OperatorLevels[OperatorText(op)] == OpLevel(op)
    ensures LevelBinOp(OpLevel(op), OperatorText(op)) == op
  {
    match op
    case Eq =>
    case Neq =>
    case Lt =>
    case Gt =>
    case Le =>
    case Ge =>
  }

  lemma TextLevelGroup4(op: BinOp)
    requires op == And || op == Or || op == Xor || op == Xnor || op == Iff || op == Implies
    ensures OperatorText(op) in OperatorLevels
    ensures OperatorLevels[OperatorText(op)] == OpLevel(op)
    ensures LevelBinOp(OpLevel(op), OperatorText(op)) == op
  {
    match op
    case And =>
    case Or =>
    case Xor =>
    case Xnor =>
    case Iff =>
    case Implies =>
  }

  /** The operators of a level that uses the table are all in it. */
  lemma TableKnowsLevelOps(k: nat, t: string)
    requires UsesTable(k) && IsLevelOp(k, t)
    ensures t in OTC
  {
  }

  /** A fold level's action on one pair builds one node. */
  lemma ActionOne(k: nat, l: Expr, t: string, r: Expr)
    requires IsFoldLevel(k) && IsLevelOp(k, t)
    ensures LevelAction(k, l, [(t, r)]) == Ok(Binary(LevelBinOp(k, t), l, r, None))
  {
    var pairs := [(t, r)];
    var lr := Binary(LevelBinOp(k, t), l, r, None);
    if k == LConcat {
      assert Operands(pairs) == [r];
      var ns := Nodes([l] + [r]);
      assert ns == [Node(l), Node(r)];
      assert ns[1..] == [Node(r)];
      assert [Node(r)][1..] == [];
      assert FoldNodes(Concat, lr, []) == Ok(lr);
    } else if UsesTable(k) {
      TableKnowsLevelOps(k, t);
      assert OperatorClass(t) == Some(OTC[t]);
      assert pairs[1..] == [];
      assert ReduceFrom(l, pairs) == ReduceFrom(lr, []);
    } else {
      assert pairs[..0] == [];
      var it := Interleaved(l, pairs);
      assert it == [Node(l), Lit(t), Node(r)];
      var ev := EvenSlice(it);
      assert ev == [Node(l), Node(r)];
      assert ev[1..] == [Node(r)];
      assert [Node(r)][1..] == [];
      assert FoldNodes(FixedOp(k), lr, []) == Ok(lr);
    }
  }

  /** A fold level's action on two pairs builds the left-associated pair of
      nodes. */
  lemma ActionTwo(k: nat, a: Expr, t1: string, b: Expr, t2: string, c: Expr)
    requires IsFoldLevel(k) && IsLevelOp(k, t1) && IsLevelOp(k, t2)
    ensures LevelAction(k, a, [(t1, b), (t2, c)])
         == Ok(Binary(LevelBinOp(k, t2), Binary(LevelBinOp(k, t1), a, b, None), c, None))
  {
    var pairs := [(t1, b), (t2, c)];
    var ab := Binary(LevelBinOp(k, t1), a, b, None);
    var abc := Binary(LevelBinOp(k, t2), ab, c, None);
    if k == LConcat {
      assert Operands(pairs) == [b, c];
      var ns := Nodes([a] + [b, c]);
      assert ns == [Node(a), Node(b), Node(c)];
      assert ns[1..] == [Node(b), Node(c)];
      assert [Node(b), Node(c)][1..] == [Node(c)];
      assert [Node(c)][1..] == [];
      assert ab == Binary(Concat, a, b, None);
      assert FoldNodes(Concat, a, [Node(b), Node(c)]) == FoldNodes(Concat, ab, [Node(c)]);
      assert FoldNodes(Concat, ab, [Node(c)]) == FoldNodes(Concat, abc, []);
    } else if UsesTable(k) {
      TableKnowsLevelOps(k, t1);
      TableKnowsLevelOps(k, t2);
      assert pairs[1..] == [(t2, c)];
      assert pairs[1..][1..] == [];
      assert ReduceFrom(a, pairs) == ReduceFrom(ab, [(t2, c)]);
      assert ReduceFrom(ab, [(t2, c)]) == ReduceFrom(abc, []);
    } else {
      assert pairs[..1] == [(t1, b)];
      assert pairs[..1][..0] == [];
      var it := Interleaved(a, pairs);
      assert Interleaved(a, pairs[..1]) == [Node(a), Lit(t1), Node(b)];
      assert it == [Node(a), Lit(t1), Node(b), Lit(t2), Node(c)];
      var ev := EvenSlice(it);
      assert ev == [Node(a), Node(b), Node(c)];
      assert ev[1..] == [Node(b), Node(c)];
      assert [Node(b), Node(c)][1..] == [Node(c)];
      assert [Node(c)][1..] == [];
      assert LevelBinOp(k, t1) == FixedOp(k) && LevelBinOp(k, t2) == FixedOp(k);
      assert FoldNodes(FixedOp(k), a, [Node(b), Node(c)]) == FoldNodes(FixedOp(k), ab, [Node(c)]);
      assert FoldNodes(FixedOp(k), ab, [Node(c)]) == FoldNodes(FixedOp(k), abc, []);
    }
  }

  /** A fold level stops collecting where its operators stop. */
  lemma CollectStops(k: nat, rest: seq<Token>)
    requires 0 < k <= Top
    requires !Continues(k, rest)
    ensures CollectPairs(k, rest) == Parsed([], rest)
  {
  }

  /** One `operator operand` pair, then a stop. */
  lemma CollectOne(k: nat, t: Token, mid: seq<Token>, r: Expr, rest: seq<Token>)
    requires IsFoldLevel(k) && k <= Top && IsLevelOp(k, t.text)
    requires ParseLevel(OperandLevel(k), mid) == Ok(Parsed(r, rest))
    requires !Continues(k, rest)
    ensures CollectPairs(k, [t] + mid) == Parsed([(t.text, r)], rest)
  {
    var ts := [t] + mid;
    assert ts[0] == t && ts[1..] == mid;
    CollectStops(k, rest);
    assert [(t.text, r)] + [] == [(t.text, r)];
  }

  /** A fold level that parses its first operand, finds one of its
      operators, parses one more operand and then stops builds exactly one
      node. */
  lemma FoldOne(k: nat, ts: seq<Token>, l: Expr, t: Token, mid: seq<Token>, r: Expr, rest: seq<Token>)
    requires IsFoldLevel(k) && k <= Top && IsLevelOp(k, t.text)
    requires ParseLevel(k - 1, ts) == Ok(Parsed(l, [t] + mid))
    requires ParseLevel(OperandLevel(k), mid) == Ok(Parsed(r, rest))
    requires !Continues(k, rest)
    ensures ParseLevel(k, ts) == Ok(Parsed(Binary(LevelBinOp(k, t.text), l, r, None), rest))
  {
    CollectOne(k, t, mid, r, rest);
    ActionOne(k, l, t.text, r);
    assert ParseLevel(k, ts) == ParseFold(k, ts);
  }

  /** Two operators of the same left-associative level. */
  lemma FoldTwo(k: nat, ts: seq<Token>, a: Expr, t1: Token, m1: seq<Token>, b: Expr,
                t2: Token, m2: seq<Token>, c: Expr, rest: seq<Token>)
    requires IsFoldLevel(k) && k < LImplies && IsLevelOp(k, t1.text) && IsLevelOp(k, t2.text)
    requires ParseLevel(k - 1, ts) == Ok(Parsed(a, [t1] + m1))
    requires ParseLevel(k - 1, m1) == Ok(Parsed(b, [t2] + m2))
    requires ParseLevel(k - 1, m2) == Ok(Parsed(c, rest))
    requires !Continues(k, rest)
    ensures ParseLevel(k, ts)
         == Ok(Parsed(Binary(LevelBinOp(k, t2.text), Binary(LevelBinOp(k, t1.text), a, b, None), c, None), rest))
  {
    CollectOne(k, t2, m2, c, rest);
    var ts1 := [t1] + m1;
    assert ts1[0] == t1 && ts1[1..] == m1;
    assert CollectPairs(k, ts1) == Parsed([(t1.text, b)] + [(t2.text, c)], rest);
    assert [(t1.text, b)] + [(t2.text, c)] == [(t1.text, b), (t2.text, c)];
    ActionTwo(k, a, t1.text, b, t2.text, c);
    assert ParseLevel(k, ts) == ParseFold(k, ts);
  }

  // ---------------------------------------------------------------------
  // Lifting a parse through looser levels
  // ---------------------------------------------------------------------

  /** One level up: a level whose own continuation is absent returns what
      the level below it returned. The prefix levels additionally need no
      leading mark, and the set level a failing range. */
  lemma LiftOne(k: nat, ts: seq<Token>, e: Expr, rest: seq<Token>)
    requires 0 < k <= Top
    requires ParseLevel(k - 1, ts) == Ok(Parsed(e, rest))
    requires !Continues(k, rest)
    requires k == LNot ==> !At(ts, "!")
    requires k == LMinus ==> !At(ts, "-")
    requires k == LSet ==> ParseRange(ts).Err?
    ensures ParseLevel(k, ts) == Ok(Parsed(e, rest))
  {
    if k == LNot || k == LMinus {
      assert ts[0..] == ts;
    } else if k == LSet || k == LIte {
    } else {
      assert CollectPairs(k, rest) == Parsed([], rest);
      if k == LConcat {
        assert Operands([]) == [];
        assert Nodes([e] + []) == [Node(e)];
      } else if !UsesTable(k) {
        assert Interleaved(e, []) == [Node(e)];
        assert EvenSlice([Node(e)]) == [Node(e)];
      }
    }
  }

  /** From level `m` up to level `k`. */
  lemma {:induction false} Lift(m: nat, k: nat, ts: seq<Token>, e: Expr, rest: seq<Token>)
    requires m <= k <= Top
    requires ParseLevel(m, ts) == Ok(Parsed(e, rest))
    requires forall j | m < j <= k :: !Continues(j, rest)
    requires m < LNot <= k ==> !At(ts, "!")
    requires m < LMinus <= k ==> !At(ts, "-")
    requires m < LSet <= k ==> ParseRange(ts).Err?
    ensures ParseLevel(k, ts) == Ok(Parsed(e, rest))
    decreases k
  {
    if m < k {
      Lift(m, k - 1, ts, e, rest);
      assert !Continues(k, rest);
      LiftOne(k, ts, e, rest);
    }
  }

  // ---------------------------------------------------------------------
  // The fully parenthesised printer
  // ---------------------------------------------------------------------

  /** A name that reads back as a plain identifier. */
  predicate IsAtomName(n: string) {
    IsIdentifier(n) && n != "self" && n != "case"
  }

  /** The expressions the printer covers: plain identifiers, natural
      numbers, words, and the operators over them, none carrying source. */
  predicate Printable(e: Expr) {
    match e
    case ComplexIdent(root, path, src) => root.NameRoot? && IsAtomName(root.name) && path == [] && src == None
    case IntConst(n) => n >= 0
    case WordConst(w, src) => IsWordConstant(w) && src == None
    case Unary(_, v, src) => src == None && Printable(v)
    case Binary(_, l, r, src) => src == None && Printable(l) && Printable(r)
    case Ite(c, a, b, src) => src == None && Printable(c) && Printable(a) && Printable(b)
    case _ => false
  }

  predicate IsAtom(e: Expr) {
    e.ComplexIdent? || e.IntConst? || e.WordConst?
  }

  function Sym(s: string): Token { TSym(s) }

  /** The tokens of an operator node without its outer parentheses. */
  function InnerTokens(e: Expr): seq<Token>
    decreases e, 0
  {
    match e
    case Unary(u, v, _) => [Sym(if u == Not then "!" else "-")] + Tokens(v)
    case Binary(op, l, r, _) => Tokens(l) + ([OpToken(op)] + Tokens(r))
    case Ite(c, a, b, _) => Tokens(c) + ([Sym("?")] + (Tokens(a) + ([Sym(":")] + Tokens(b))))
    case _ => []
  }

  /** Every operator node in parentheses, atoms as single tokens. */
  function Tokens(e: Expr): seq<Token>
    decreases e, 1
  {
    match e
    case ComplexIdent(root, _, _) => [TIdent(if root.NameRoot? then root.name else "self")]
    case IntConst(n) => [TInt(NatToString(if n >= 0 then n else 0))]
    case WordConst(w, _) => [Token.TWord(w)]
    case _ => [Sym("(")] + (InnerTokens(e) + [Sym(")")])
  }

  /** The first printed token is an opening parenthesis or the atom. */
  lemma FirstToken(e: Expr)
    requires Printable(e)
    ensures |Tokens(e)| > 0
    ensures IsAtom(e) <==> Tokens(e)[0] != Sym("(")
    ensures !IsAtom(e) ==> Tokens(e)[0] == Sym("(")
    ensures Tokens(e)[0].text != "!" && Tokens(e)[0].text != "-"
    ensures e.IntConst? ==> Tokens(e) == [TInt(NatToString(e.n))] && IsIntToken(Tokens(e)[0])
    ensures !e.IntConst? ==> !Tokens(e)[0].TInt?
  {
    match e
    case ComplexIdent(_, _, _) =>
    case IntConst(n) =>
    case WordConst(w, _) =>
    case _ =>
  }

  /** A printed expression followed by anything but `..` is not a range. */
  lemma RangeFailsOnPrinted(e: Expr, rest: seq<Token>)
    requires Printable(e)
    requires !At(rest, "..")
    ensures ParseRange(Tokens(e) + rest).Err?
  {
    FirstToken(e);
    var ts := Tokens(e) + rest;
    if e.IntConst? {
      assert ts[1..] == rest;
    }
  }

  /** A `-` in front of a printed expression followed by anything but `..`
      is not a range either. */
  lemma RangeFailsOnNegated(e: Expr, rest: seq<Token>)
    requires Printable(e)
    requires !At(rest, "..")
    ensures ParseRange([Sym("-")] + (Tokens(e) + rest)).Err?
  {
    FirstToken(e);
    var ts := [Sym("-")] + (Tokens(e) + rest);
    if e.IntConst? {
      assert ts[1] == TInt(NatToString(e.n));
      assert ts[2..] == rest;
    }
  }

  /** The basic-expression level reads a printed expression back. */
  lemma {:induction false} ArrayReadsPrinted(e: Expr, rest: seq<Token>)
    requires Printable(e)
    requires StopsUpTo(LArray, rest)
    ensures ParseLevel(LArray, Tokens(e) + rest) == Ok(Parsed(e, rest))
    decreases e, 1
  {
    var ts := Tokens(e) + rest;
    FirstToken(e);
    assert !Continues(LArray, rest);
    assert CollectAccesses(rest) == Parsed([], rest);
    match e
    case ComplexIdent(root, _, _) =>
      assert ts[0] == TIdent(root.name) && ts[1..] == rest;
      assert ParseKeywordForm(ts).Err?;
      assert CollectSelectors(rest) == Parsed([], rest);
      assert ParseBase(ts) == Ok(Parsed(e, rest));
      assert ParseArray(ts) == Ok(Parsed(e, rest));
    case IntConst(n) =>
      assert ts[1..] == rest;
      NatStringRoundTrip(n);
      assert ParseBase(ts) == Ok(Parsed(e, rest));
    case WordConst(w, _) =>
      assert ts[1..] == rest;
      assert ParseBase(ts) == Ok(Parsed(e, rest));
    case Unary(_, _, _) =>
      InnerFollowedByClose(e, rest);
      UnaryReadsBack(e, [Sym(")")] + rest);
      ClosedReadsBack(e, rest);
    case Binary(_, _, _, _) =>
      InnerFollowedByClose(e, rest);
      BinaryReadsBack(e, [Sym(")")] + rest);
      ClosedReadsBack(e, rest);
    case Ite(_, _, _, _) =>
      InnerFollowedByClose(e, rest);
      IteReadsBack(e, [Sym(")")] + rest);
      ClosedReadsBack(e, rest);
  }

  /** A closing parenthesis stops every level. */
  lemma InnerFollowedByClose(e: Expr, rest: seq<Token>)
    ensures StopsUpTo(Top, [Sym(")")] + rest)
  {
    var ts := [Sym(")")] + rest;
    forall j | 0 <= j <= Top ensures !Continues(j, ts) {
      assert ts[0].text == ")";
      assert ")" !in OperatorLevels;
    }
  }

  /** A parenthesised operator node, once its inside reads back. */
  lemma ClosedReadsBack(e: Expr, rest: seq<Token>)
    requires Printable(e) && !IsAtom(e)
    requires !Continues(LArray, rest)
    requires ParseLevel(Top, InnerTokens(e) + ([Sym(")")] + rest)) == Ok(Parsed(e, [Sym(")")] + rest))
    ensures ParseLevel(LArray, Tokens(e) + rest) == Ok(Parsed(e, rest))
  {
    ClosedTokens(e, rest);
    assert !At(rest, "[");
    ParenReads(InnerTokens(e), e, rest);
  }

  lemma ClosedTokens(e: Expr, rest: seq<Token>)
    requires !IsAtom(e)
    ensures Tokens(e) + rest == [Sym("(")] + (InnerTokens(e) + ([Sym(")")] + rest))
  {
  }

  /** `( inner )` at the basic-expression level, once `inner` reads back
      up to the closing parenthesis. */
  lemma ParenReads(inner: seq<Token>, e: Expr, rest: seq<Token>)
    requires ParseLevel(Top, inner + ([Sym(")")] + rest)) == Ok(Parsed(e, [Sym(")")] + rest))
    requires !At(rest, "[")
    ensures ParseArray([Sym("(")] + (inner + ([Sym(")")] + rest))) == Ok(Parsed(e, rest))
  {
    var close := [Sym(")")] + rest;
    var ts := [Sym("(")] + (inner + close);
    assert ts[1..] == inner + close;
    assert At(close, ")") && close[1..] == rest;
    assert ParseBase(ts) == Ok(Parsed(e, rest));
    assert CollectAccesses(rest) == Parsed([], rest);
  }

  /** Every level up to `k` reads a printed expression back, when what
      follows stops all of them. */
  lemma {:induction false} ReadsPrinted(k: nat, e: Expr, rest: seq<Token>)
    requires k <= Top
    requires Printable(e)
    requires StopsUpTo(k, rest)
    ensures ParseLevel(k, Tokens(e) + rest) == Ok(Parsed(e, rest))
    decreases e, 2
  {
    ArrayReadsPrinted(e, rest);
    FirstToken(e);
    if k >= LSet {
      RangeFailsOnPrinted(e, rest);
    }
    Lift(LArray, k, Tokens(e) + rest, e, rest);
  }

  /** The inside of a parenthesised prefix node. */
  lemma {:induction false} UnaryReadsBack(e: Expr, rest: seq<Token>)
    requires e.Unary? && Printable(e)
    requires StopsUpTo(Top, rest)
    ensures ParseLevel(Top, InnerTokens(e) + rest) == Ok(Parsed(e, rest))
    decreases e, 0
  {
    var v := e.operand;
    var ts := InnerTokens(e) + rest;
    var tail := Tokens(v) + rest;
    assert ts == [Sym(if e.uop == Not then "!" else "-")] + tail;
    assert ts[1..] == tail;
    FirstToken(v);
    if e.uop == Not {
      ReadsPrinted(LArray, v, rest);
      assert Marks(ts, "!") == 1 by {
        assert ts[1..][0] == Tokens(v)[0];
      }
      assert ParseLevel(LNot, ts) == Ok(Parsed(e, rest));
      Lift(LNot, Top, ts, e, rest);
    } else {
      ReadsPrinted(LConcat, v, rest);
      assert Marks(ts, "-") == 1 by {
        assert ts[1..][0] == Tokens(v)[0];
      }
      assert ParseLevel(LMinus, ts) == Ok(Parsed(e, rest));
      RangeFailsOnNegated(v, rest);
      Lift(LMinus, Top, ts, e, rest);
    }
  }

  /** The inside of a parenthesised binary node. */
  lemma {:induction false} BinaryReadsBack(e: Expr, rest: seq<Token>)
    requires e.Binary? && Printable(e)
    requires StopsUpTo(Top, rest)
    ensures ParseLevel(Top, InnerTokens(e) + rest) == Ok(Parsed(e, rest))
    decreases e, 0
  {
    var op, l, r := e.op, e.left, e.right;
    var mid := Tokens(r) + rest;
    BinaryTokens(e, rest);
    OpTokenStops(op, mid);
    StopsMono(OperandLevel(OpLevel(op)), Top, rest);
    ReadsPrinted(OpLevel(op) - 1, l, [OpToken(op)] + mid);
    ReadsPrinted(OperandLevel(OpLevel(op)), r, rest);
    PairFromParts(op, l, mid, r, rest, Top);
    assert e == Binary(op, l, r, None);
  }

  lemma BinaryTokens(e: Expr, rest: seq<Token>)
    requires e.Binary?
    ensures InnerTokens(e) + rest == Tokens(e.left) + ([OpToken(e.op)] + (Tokens(e.right) + rest))
  {
  }

  /** A chain that starts with a printed expression and an operator is no
      prefix form and no range. */
  lemma ChainStart(l: Expr, op: BinOp, mid: seq<Token>)
    requires Printable(l)
    ensures var ts := Tokens(l) + ([OpToken(op)] + mid);
      !At(ts, "!") && !At(ts, "-") && ParseRange(ts).Err?
  {
    FirstToken(l);
    OpTokenLevel(op, mid, 0);
    RangeFailsOnPrinted(l, [OpToken(op)] + mid);
    assert (Tokens(l) + ([OpToken(op)] + mid))[0] == Tokens(l)[0];
  }

  /** `l op r`, printed, read at any level from that of `op` up, when what
      follows stops all of them. */
  lemma PairLifted(op: BinOp, l: Expr, r: Expr, rest: seq<Token>, k: nat)
    requires Printable(l) && Printable(r)
    requires OpLevel(op) <= k <= Top && StopsUpTo(k, rest)
    ensures ParseLevel(k, Tokens(l) + ([OpToken(op)] + (Tokens(r) + rest)))
         == Ok(Parsed(Binary(op, l, r, None), rest))
  {
    var mid := Tokens(r) + rest;
    OpTokenStops(op, mid);
    StopsMono(OperandLevel(OpLevel(op)), k, rest);
    ReadsPrinted(OpLevel(op) - 1, l, [OpToken(op)] + mid);
    ReadsPrinted(OperandLevel(OpLevel(op)), r, rest);
    PairFromParts(op, l, mid, r, rest, k);
  }

  /** `l op r` at any level from that of `op` up, once `l` reads below
      the level of `op` and `r` at its operand level. */
  lemma PairFromParts(op: BinOp, l: Expr, mid: seq<Token>, r: Expr, rest: seq<Token>, k: nat)
    requires Printable(l)
    requires OpLevel(op) <= k <= Top && StopsUpTo(k, rest)
    requires ParseLevel(OpLevel(op) - 1, Tokens(l) + ([OpToken(op)] + mid)) == Ok(Parsed(l, [OpToken(op)] + mid))
    requires ParseLevel(OperandLevel(OpLevel(op)), mid) == Ok(Parsed(r, rest))
    ensures ParseLevel(k, Tokens(l) + ([OpToken(op)] + mid)) == Ok(Parsed(Binary(op, l, r, None), rest))
  {
    var ts := Tokens(l) + ([OpToken(op)] + mid);
    OpTokenStops(op, mid);
    FoldOne(OpLevel(op), ts, l, OpToken(op), mid, r, rest);
    ChainStart(l, op, mid);
    Lift(OpLevel(op), k, ts, Binary(op, l, r, None), rest);
  }

  /** One more operator folded onto what the tighter levels read, then
      lifted to the top: the printed right operand ends the tokens. */
  lemma FoldOntoLeft(op: BinOp, ts: seq<Token>, l: Expr, r: Expr)
    requires Printable(r)
    requires ParseLevel(OpLevel(op) - 1, ts) == Ok(Parsed(l, [OpToken(op)] + Tokens(r)))
    requires !At(ts, "!") && !At(ts, "-") && ParseRange(ts).Err?
    ensures ParseLevel(Top, ts) == Ok(Parsed(Binary(op, l, r, None), []))
  {
    var k := OpLevel(op);
    OpTokenStops(op, Tokens(r));
    ReadsPrinted(OperandLevel(k), r, []);
    assert Tokens(r) + [] == Tokens(r);
    FoldOne(k, ts, l, OpToken(op), Tokens(r), r, []);
    Lift(k, Top, ts, Binary(op, l, r, None), []);
  }

  /** A printed left operand, an operator, and tokens that read at its
      operand level to `r` with nothing left. */
  lemma FoldOntoPrinted(op: BinOp, l: Expr, mid: seq<Token>, r: Expr)
    requires Printable(l)
    requires ParseLevel(OperandLevel(OpLevel(op)), mid) == Ok(Parsed(r, []))
    ensures ParseLevel(Top, Tokens(l) + ([OpToken(op)] + mid)) == Ok(Parsed(Binary(op, l, r, None), []))
  {
    var k := OpLevel(op);
    var ts := Tokens(l) + ([OpToken(op)] + mid);
    OpTokenStops(op, mid);
    ReadsPrinted(k - 1, l, [OpToken(op)] + mid);
    FoldOne(k, ts, l, OpToken(op), mid, r, []);
    ChainStart(l, op, mid);
    Lift(k, Top, ts, Binary(op, l, r, None), []);
  }

  /** What an operator token leaves for the operand before it: no tighter
      level goes on, and it is not a range or a call. */
  lemma OpTokenStops(op: BinOp, mid: seq<Token>)
    ensures StopsUpTo(OpLevel(op) - 1, [OpToken(op)] + mid)
    ensures IsLevelOp(OpLevel(op), OpToken(op).text)
    ensures LevelBinOp(OpLevel(op), OpToken(op).text) == op
  {
    var ts := [OpToken(op)] + mid;
    forall j | 0 <= j <= OpLevel(op) - 1 ensures !Continues(j, ts) {
      OpTokenLevel(op, mid, j);
    }
    OpTokenLevel(op, mid, OpLevel(op));
  }

  /** The inside of a parenthesised conditional. */
  lemma {:induction false} IteReadsBack(e: Expr, rest: seq<Token>)
    requires e.Ite? && Printable(e)
    requires StopsUpTo(Top, rest)
    ensures ParseLevel(Top, InnerTokens(e) + rest) == Ok(Parsed(e, rest))
    decreases e, 0
  {
    var c, a, b := e.cond, e.thenE, e.elseE;
    var tb := Tokens(b) + rest;
    var ta := Tokens(a) + ([Sym(":")] + tb);
    var ts := Tokens(c) + ([Sym("?")] + ta);
    IteTokens(e, rest);
    MarkStops(ta, tb);
    StopsMono(LIte, Top, rest);
    ReadsPrinted(LOr, c, [Sym("?")] + ta);
    ReadsPrinted(LIte, a, [Sym(":")] + tb);
    ReadsPrinted(LIte, b, rest);
    IteParts(ts, c, ta, a, tb, b, rest);
    assert e == Ite(c, a, b, None);
    FirstToken(c);
    RangeFailsOnPrinted(c, [Sym("?")] + ta);
    Lift(LIte, Top, ts, e, rest);
  }

  lemma IteTokens(e: Expr, rest: seq<Token>)
    requires e.Ite?
    ensures InnerTokens(e) + rest
      == Tokens(e.cond) + ([Sym("?")] + (Tokens(e.thenE) + ([Sym(":")] + (Tokens(e.elseE) + rest))))
  {
  }

  /** `?` stops the condition and `:` the first branch. */
  lemma MarkStops(ta: seq<Token>, tb: seq<Token>)
    ensures StopsUpTo(LOr, [Sym("?")] + ta)
    ensures StopsUpTo(LIte, [Sym(":")] + tb)
  {
    var q := [Sym("?")] + ta;
    var col := [Sym(":")] + tb;
    assert q[0].text == "?" && col[0].text == ":";
    assert "?" !in OperatorLevels && ":" !in OperatorLevels;
  }

  /** The conditional level, once its three parts read. */
  lemma IteParts(ts: seq<Token>, c: Expr, ta: seq<Token>, a: Expr, tb: seq<Token>, b: Expr, rest: seq<Token>)
    requires ParseLevel(LOr, ts) == Ok(Parsed(c, [Sym("?")] + ta))
    requires ParseLevel(LIte, ta) == Ok(Parsed(a, [Sym(":")] + tb))
    requires ParseLevel(LIte, tb) == Ok(Parsed(b, rest))
    ensures ParseLevel(LIte, ts) == Ok(Parsed(Ite(c, a, b, None), rest))
  {
    assert ([Sym("?")] + ta)[1..] == ta;
    assert ([Sym(":")] + tb)[1..] == tb;
  }

  /** Parsing the fully parenthesised tokens of an expression gives the
      expression back and consumes every token. */
  lemma ParsePrinted(e: Expr)
    requires Printable(e)
    ensures ParseExpr(Tokens(e)) == Ok(Parsed(e, []))
  {
    ReadsPrinted(Top, e, []);
    assert Tokens(e) + [] == Tokens(e);
  }

  // ---------------------------------------------------------------------
  // Precedence and associativity of two-operator chains
  // ---------------------------------------------------------------------

  /** `a op1 b op2 c` without parentheses around the operator nodes. */
  function Chain3(a: Expr, op1: BinOp, b: Expr, op2: BinOp, c: Expr): seq<Token> {
    Tokens(a) + ([OpToken(op1)] + (Tokens(b) + ([OpToken(op2)] + Tokens(c))))
  }

  lemma StopsMono(j: nat, k: nat, ts: seq<Token>)
    requires j <= k && StopsUpTo(k, ts)
    ensures StopsUpTo(j, ts)
  {
  }

  /** A tighter operator first: `a op1 b op2 c` is `(a op1 b) op2 c`. */
  lemma TighterBindsFirst(a: Expr, op1: BinOp, b: Expr, op2: BinOp, c: Expr)
    requires Printable(a) && Printable(b) && Printable(c)
    requires OpLevel(op1) < OpLevel(op2)
    ensures ParseExpr(Chain3(a, op1, b, op2, c))
         == Ok(Parsed(Binary(op2, Binary(op1, a, b, None), c, None), []))
  {
    var tail := [OpToken(op2)] + Tokens(c);
    var ts := Chain3(a, op1, b, op2, c);
    OpTokenStops(op2, Tokens(c));
    PairLifted(op1, a, b, tail, OpLevel(op2) - 1);
    ChainStart(a, op1, Tokens(b) + tail);
    FoldOntoLeft(op2, ts, Binary(op1, a, b, None), c);
  }

  /** `a op1 (b op2 c)` is what `a op1 b op2 c` means whenever the right
      operand level of `op1` takes `op2` in. */
  lemma RightNested(a: Expr, op1: BinOp, b: Expr, op2: BinOp, c: Expr)
    requires Printable(a) && Printable(b) && Printable(c)
    requires OpLevel(op2) <= OperandLevel(OpLevel(op1))
    ensures ParseExpr(Chain3(a, op1, b, op2, c))
         == Ok(Parsed(Binary(op1, a, Binary(op2, b, c, None), None), []))
  {
    var mid := Tokens(b) + ([OpToken(op2)] + Tokens(c));
    PairLifted(op2, b, c, [], OperandLevel(OpLevel(op1)));
    assert Tokens(c) + [] == Tokens(c);
    FoldOntoPrinted(op1, a, mid, Binary(op2, b, c, None));
  }

  /** A looser operator first: `a op1 b op2 c` is `a op1 (b op2 c)`. */
  lemma LooserBindsLast(a: Expr, op1: BinOp, b: Expr, op2: BinOp, c: Expr)
    requires Printable(a) && Printable(b) && Printable(c)
    requires OpLevel(op2) < OpLevel(op1)
    ensures ParseExpr(Chain3(a, op1, b, op2, c))
         == Ok(Parsed(Binary(op1, a, Binary(op2, b, c, None), None), []))
  {
    RightNested(a, op1, b, op2, c);
  }

  /** Every level but implication groups to the left. */
  lemma SameLevelAssociatesLeft(a: Expr, op1: BinOp, b: Expr, op2: BinOp, c: Expr)
    requires Printable(a) && Printable(b) && Printable(c)
    requires OpLevel(op1) == OpLevel(op2) < LImplies
    ensures ParseExpr(Chain3(a, op1, b, op2, c))
         == Ok(Parsed(Binary(op2, Binary(op1, a, b, None), c, None), []))
  {
    var k := OpLevel(op1);
    var t1, t2 := OpToken(op1), OpToken(op2);
    var m2 := Tokens(c);
    var m1 := Tokens(b) + ([t2] + m2);
    var ts := Chain3(a, op1, b, op2, c);
    OpTokenStops(op1, m1);
    OpTokenStops(op2, m2);
    ReadsPrinted(k - 1, a, [t1] + m1);
    ReadsPrinted(k - 1, b, [t2] + m2);
    ReadsPrinted(k - 1, c, []);
    assert m2 + [] == m2;
    FoldTwo(k, ts, a, t1, m1, b, t2, m2, c, []);
    var e := Binary(op2, Binary(op1, a, b, None), c, None);
    ChainStart(a, op1, m1);
    Lift(k, Top, ts, e, []);
  }

  /** Implication groups to the right: `a -> b -> c` is `a -> (b -> c)`. */
  lemma ImpliesAssociatesRight(a: Expr, b: Expr, c: Expr)
    requires Printable(a) && Printable(b) && Printable(c)
    ensures ParseExpr(Chain3(a, Implies, b, Implies, c))
         == Ok(Parsed(Binary(Implies, a, Binary(Implies, b, c, None), None), []))
  {
    RightNested(a, Implies, b, Implies, c);
  }

  // ---------------------------------------------------------------------
  // From text
  // ---------------------------------------------------------------------

  /** The lexer produces every token of an operator. */
  lemma OpTokenValid(op: BinOp)
    ensures ValidToken(OpToken(op))
  {
    match op
    case Concat => case Mult => case Div => case Mod => case Add => case Sub =>
    case ShiftL => case ShiftR => case Union => case In =>
    case Eq => case Neq => case Lt => case Gt => case Le => case Ge =>
    case And => case Or => case Xor => case Xnor => case Iff => case Implies =>
  }

  /** Every printed token is one the lexer produces. */
  lemma {:induction false} TokensValid(e: Expr)
    requires Printable(e)
    ensures forall t | t in Tokens(e) :: ValidToken(t)
    decreases e, 2
  {
    match e
    case ComplexIdent(_, _, _) =>
    case IntConst(n) =>
    case WordConst(_, _) =>
    case Unary(_, _, _) => ClosedValid(e);
    case Binary(_, _, _, _) => ClosedValid(e);
    case Ite(_, _, _, _) => ClosedValid(e);
  }

  lemma {:induction false} ClosedValid(e: Expr)
    requires Printable(e) && !IsAtom(e)
    ensures forall t | t in Tokens(e) :: ValidToken(t)
    decreases e, 1
  {
    InnerValid(e);
    PunctuationValid();
    ValidConcat(InnerTokens(e), [Sym(")")]);
    ValidConcat([Sym("(")], InnerTokens(e) + [Sym(")")]);
  }

  lemma {:induction false} InnerValid(e: Expr)
    requires Printable(e) && !IsAtom(e)
    ensures forall t | t in InnerTokens(e) :: ValidToken(t)
    decreases e, 0
  {
    PunctuationValid();
    match e
    case Unary(u, v, _) =>
      TokensValid(v);
      ValidConcat([Sym(if u == Not then "!" else "-")], Tokens(v));
    case Binary(op, l, r, _) =>
      TokensValid(l);
      TokensValid(r);
      OpTokenValid(op);
      ValidConcat([OpToken(op)], Tokens(r));
      ValidConcat(Tokens(l), [OpToken(op)] + Tokens(r));
    case Ite(c, a, b, _) =>
      TokensValid(c);
      TokensValid(a);
      TokensValid(b);
      ValidConcat([Sym(":")], Tokens(b));
      ValidConcat(Tokens(a), [Sym(":")] + Tokens(b));
      ValidConcat([Sym("?")], Tokens(a) + ([Sym(":")] + Tokens(b)));
      ValidConcat(Tokens(c), [Sym("?")] + (Tokens(a) + ([Sym(":")] + Tokens(b))));
  }

  lemma ValidConcat(a: seq<Token>, b: seq<Token>)
    requires forall t | t in a :: ValidToken(t)
    requires forall t | t in b :: ValidToken(t)
    ensures forall t | t in a + b :: ValidToken(t)
  {
  }

  /** The lexer produces the parentheses and the prefix and conditional
      symbols. */
  lemma PunctuationValid()
    ensures ValidToken(Sym("(")) && ValidToken(Sym(")")) && ValidToken(Sym("?")) && ValidToken(Sym(":"))
    ensures ValidToken(Sym("!")) && ValidToken(Sym("-"))
  {
  }

  /** The printed expression, as text. */
  function PrintedText(e: Expr): string {
    Unlex(Tokens(e))
  }

  /** Parsing the printed text of an expression gives the expression back,
      carrying the text as its source. */
  lemma ParsePrintedText(e: Expr)
    requires Printable(e)
    ensures ParseAllExpr(PrintedText(e)) == Ok(WithSource(e, PrintedText(e)))
  {
    TokensValid(e);
    TokenizeUnlex(Tokens(e));
    ParsePrinted(e);
  }
}
