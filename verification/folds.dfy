/** The parse actions of the expression grammar (src/pynusmv/parser.py:121-135,
    247-301): how each precedence level turns the flat token list pyparsing
    hands it into a tree.

    A parse action receives the matched tokens as one flat list: nodes built
    by tighter levels, interleaved with the operator texts that were not
    suppressed. `PyTok` is one element of that list. */
module Folds {
  import opened Wrappers
  import opened Ast

  datatype PyTok = Lit(text: string) | Node(e: Expr)

  // ---------------------------------------------------------------------
  // Operator spellings
  // ---------------------------------------------------------------------

  /** How the grammar spells each binary operator. */
  function OperatorText(op: BinOp): string {
    match op
    case Concat => "::"
    case Mult => "*" case Div => "/" case Mod => "mod"
    case Add => "+" case Sub => "-"
    case ShiftL => "<<" case ShiftR => ">>"
    case Union => "union" case In => "in"
    case Eq => "=" case Neq => "!=" case Lt => "<" case Gt => ">"
    case Le => "<=" case Ge => ">="
    case And => "&" case Or => "|" case Xor => "xor" case Xnor => "xnor"
    case Iff => "<->" case Implies => "->"
  }

  /** The operators `_reduce_list_to_expr` knows; the other levels build
      their nodes directly. */
  predicate InTable(op: BinOp) {
    !(op in {Concat, Union, In, And, Iff, Implies})
  }

  /** `_otc`, the operator-text to node-class table (parser.py:127-130). */
  const OTC: map<string, BinOp> :=
    map["*" := Mult, "/" := Div, "mod" := Mod, "+" := Add, "-" := Sub,
        "<<" := ShiftL, ">>" := ShiftR,
        "=" := Eq, "!=" := Neq, "<" := Lt, ">" := Gt, "<=" := Le, ">=" := Ge,
        "|" := Or, "xor" := Xor, "xnor" := Xnor]

  /** `_otc[t]`; `None` is a `KeyError`. */
  function OperatorClass(t: string): Option<BinOp> {
    if t in OTC then Some(OTC[t]) else None
  }

  /** The table is exactly the inverse of the spelling, restricted to the
      operators it lists. */
  lemma OperatorClassInverse(t: string, op: BinOp)
    ensures OperatorClass(t) == Some(op) <==> InTable(op) && t == OperatorText(op)
  {
  }

  // ---------------------------------------------------------------------
  // Left folds
  // ---------------------------------------------------------------------

  /** The reference shape of a left-associated chain: the last operator
      is the root, applied to the chain before it and the last operand. */
  function LeftChain(first: Expr, ops: seq<(BinOp, Expr)>): Expr
    decreases |ops|
  {
    if |ops| == 0 then first
    else
      var last := ops[|ops| - 1];
      Binary(last.0, LeftChain(first, ops[..|ops| - 1]), last.1, None)
  }

  /** `res = _otc[op](res, t)` for each pair, from left to right. */
  function ReduceFrom(acc: Expr, pairs: seq<(string, Expr)>): Result<Expr>
    decreases |pairs|
  {
    if |pairs| == 0 then Ok(acc)
    else match OperatorClass(pairs[0].0)
      case None => Err("KeyError: " + pairs[0].0)
      case Some(op) => ReduceFrom(Binary(op, acc, pairs[0].1, None), pairs[1..])
  }

  /** `_reduce_list_to_expr([first, op1, t1, op2, t2, ...])`. */
  function ReduceListToExpr(first: Expr, pairs: seq<(string, Expr)>): Result<Expr> {
    ReduceFrom(first, pairs)
  }

  /** The node classes the table gives to the operator texts, when it
      knows them all. */
  function Classes(pairs: seq<(string, Expr)>): (r: Option<seq<(BinOp, Expr)>>)
    ensures r.Some? ==> |r.value| == |pairs|
    decreases |pairs|
  {
    if |pairs| == 0 then Some([])
    else match (OperatorClass(pairs[0].0), Classes(pairs[1..]))
      case (Some(op), Some(rest)) => Some([(op, pairs[0].1)] + rest)
      case _ => None
  }

  lemma {:induction false} ReduceFromIsLeftChain(first: Expr, done: seq<(BinOp, Expr)>,
                                                 pairs: seq<(string, Expr)>, ops: seq<(BinOp, Expr)>)
    requires Classes(pairs) == Some(ops)
    ensures ReduceFrom(LeftChain(first, done), pairs) == Ok(LeftChain(first, done + ops))
    decreases |pairs|
  {
    if |pairs| == 0 {
      assert done + ops == done;
    } else {
      var op := OperatorClass(pairs[0].0).value;
      var rest := Classes(pairs[1..]).value;
      assert ops == [(op, pairs[0].1)] + rest;
      assert ReduceFrom(LeftChain(first, done), pairs)
          == ReduceFrom(Binary(op, LeftChain(first, done), pairs[0].1, None), pairs[1..]);
      var done' := done + [(op, pairs[0].1)];
      assert done'[..|done'| - 1] == done;
      assert LeftChain(first, done') == Binary(op, LeftChain(first, done), pairs[0].1, None);
      ReduceFromIsLeftChain(first, done', pairs[1..], rest);
      assert done' + rest == done + ops;
    }
  }

  /** `_reduce_list_to_expr` builds the left-associated chain of its
      operands, each operator mapped through the table, and raises exactly
      when some operator text is not in the table. */
  lemma ReduceListIsLeftFold(first: Expr, pairs: seq<(string, Expr)>)
    ensures Classes(pairs).Some? ==>
              ReduceListToExpr(first, pairs) == Ok(LeftChain(first, Classes(pairs).value))
    ensures Classes(pairs).None? <==> ReduceListToExpr(first, pairs).Err?
  {
    if Classes(pairs).Some? {
      ReduceFromIsLeftChain(first, [], pairs, Classes(pairs).value);
      assert [] + Classes(pairs).value == Classes(pairs).value;
    } else {
      ReduceFromFails(first, pairs);
    }
  }

  lemma {:induction false} ReduceFromFails(acc: Expr, pairs: seq<(string, Expr)>)
    requires Classes(pairs).None?
    ensures ReduceFrom(acc, pairs).Err?
    decreases |pairs|
  {
    if OperatorClass(pairs[0].0).Some? {
      ReduceFromFails(Binary(OperatorClass(pairs[0].0).value, acc, pairs[0].1, None), pairs[1..]);
    }
  }

  // ---------------------------------------------------------------------
  // Prefix chains: `_not` and `_minus`
  // ---------------------------------------------------------------------

  /** `reduce(lambda e, n: U(e), t[:-1], t[-1])` with `k` prefix marks. */
  function PrefixChain(u: UnOp, k: nat, e: Expr): Expr
    decreases k
  {
    if k == 0 then e else Unary(u, PrefixChain(u, k - 1, e), None)
  }

  /** Remove `k` outer `u` nodes, if there are that many. */
  function Peel(u: UnOp, k: nat, e: Expr): Option<Expr>
    decreases k
  {
    if k == 0 then Some(e)
    else if e.Unary? && e.uop == u then Peel(u, k - 1, e.operand)
    else None
  }

  /** The number of `u` nodes wrapped around `e`. */
  function Depth(u: UnOp, e: Expr): nat {
    if e.Unary? && e.uop == u then 1 + Depth(u, e.operand) else 0
  }

  /** `k` prefix marks give exactly `k` nested nodes around the operand. */
  lemma {:induction false} PrefixChainExact(u: UnOp, k: nat, e: Expr)
    ensures Peel(u, k, PrefixChain(u, k, e)) == Some(e)
    ensures Depth(u, PrefixChain(u, k, e)) == k + Depth(u, e)
    decreases k
  {
    if k > 0 {
      PrefixChainExact(u, k - 1, e);
    }
  }

  // ---------------------------------------------------------------------
  // Reductions over the whole token list
  // ---------------------------------------------------------------------

  /** The tokens of `first op1 e1 op2 e2 ...` when the operators are kept. */
  function Interleaved(first: Expr, pairs: seq<(string, Expr)>): (t: seq<PyTok>)
    ensures |t| == 1 + 2 * |pairs|
    ensures t[0] == Node(first)
    ensures forall i | 0 <= i < |pairs| :: t[2 * i + 1] == Lit(pairs[i].0) && t[2 * i + 2] == Node(pairs[i].1)
    decreases |pairs|
  {
    if |pairs| == 0 then [Node(first)]
    else
      var t := Interleaved(first, pairs[..|pairs| - 1]) + [Lit(pairs[|pairs| - 1].0), Node(pairs[|pairs| - 1].1)];
      assert forall i | 0 <= i < |pairs| - 1 :: pairs[..|pairs| - 1][i] == pairs[i];
      t
  }

  /** The tokens of `e0 :: e1 :: ...`, whose `::` are suppressed. */
  function Nodes(xs: seq<Expr>): (t: seq<PyTok>)
    ensures |t| == |xs|
    ensures forall i | 0 <= i < |xs| :: t[i] == Node(xs[i])
  {
    seq(|xs|, i requires 0 <= i < |xs| => Node(xs[i]))
  }

  /** `t[0:1] + t[2::2]`: the tokens at even positions. */
  function EvenSlice(t: seq<PyTok>): (r: seq<PyTok>)
    ensures |r| == (|t| + 1) / 2
    ensures forall i | 0 <= i < |r| :: r[i] == t[2 * i]
  {
    seq((|t| + 1) / 2, i requires 0 <= i < (|t| + 1) / 2 => t[2 * i])
  }

  /** The operands of the pairs. */
  function Operands(pairs: seq<(string, Expr)>): (xs: seq<Expr>)
    ensures |xs| == |pairs|
    ensures forall i | 0 <= i < |pairs| :: xs[i] == pairs[i].1
  {
    seq(|pairs|, i requires 0 <= i < |pairs| => pairs[i].1)
  }

  /** Python's `reduce(lambda e, n: Op(e, n), t)`: raises on an empty
      list; a text token would be an operand the node cannot hold. */
  function ReduceNodes(op: BinOp, t: seq<PyTok>): Result<Expr> {
    if |t| == 0 then Err("reduce() of empty sequence")
    else if !t[0].Node? then Err("operand is not an expression")
    else FoldNodes(op, t[0].e, t[1..])
  }

  function FoldNodes(op: BinOp, acc: Expr, t: seq<PyTok>): Result<Expr>
    decreases |t|
  {
    if |t| == 0 then Ok(acc)
    else if !t[0].Node? then Err("operand is not an expression")
    else FoldNodes(op, Binary(op, acc, t[0].e, None), t[1..])
  }

  /** The same operator between every pair of neighbours, to the left. */
  function SameChain(op: BinOp, xs: seq<Expr>): (ops: seq<(BinOp, Expr)>)
    ensures |ops| == |xs|
    ensures forall i | 0 <= i < |xs| :: ops[i] == (op, xs[i])
  {
    seq(|xs|, i requires 0 <= i < |xs| => (op, xs[i]))
  }

  lemma {:induction false} FoldNodesIsLeftChain(op: BinOp, first: Expr, done: seq<Expr>, xs: seq<Expr>)
    ensures FoldNodes(op, LeftChain(first, SameChain(op, done)), Nodes(xs))
         == Ok(LeftChain(first, SameChain(op, done + xs)))
    decreases |xs|
  {
    if |xs| == 0 {
      assert done + xs == done;
    } else {
      var done' := done + [xs[0]];
      var c' := SameChain(op, done');
      assert c'[..|c'| - 1] == SameChain(op, done);
      assert Nodes(xs)[1..] == Nodes(xs[1..]);
      FoldNodesIsLeftChain(op, first, done', xs[1..]);
      assert done' + xs[1..] == done + xs;
    }
  }

  /** Reducing node tokens builds the left-associated chain of all of them. */
  lemma ReduceNodesIsLeftChain(op: BinOp, first: Expr, xs: seq<Expr>)
    ensures ReduceNodes(op, Nodes([first] + xs)) == Ok(LeftChain(first, SameChain(op, xs)))
  {
    assert Nodes([first] + xs)[1..] == Nodes(xs);
    FoldNodesIsLeftChain(op, first, [], xs);
    assert [] + xs == xs;
  }

  /** When the operator tokens are kept, the even positions are exactly
      the operands. */
  lemma EvenSliceOfInterleaved(first: Expr, pairs: seq<(string, Expr)>)
    ensures EvenSlice(Interleaved(first, pairs)) == Nodes([first] + Operands(pairs))
  {
    var t := Interleaved(first, pairs);
    var l := EvenSlice(t);
    var r := Nodes([first] + Operands(pairs));
    assert |l| == |r|;
    forall i | 0 <= i < |l| ensures l[i] == r[i] {
      if i > 0 {
        assert t[2 * (i - 1) + 2] == Node(pairs[i - 1].1);
      }
    }
  }

  /** The `union`, `in`, `&` and `<->` levels keep their operator token, so
      `t[0:1] + t[2::2]` takes every operand and the fold is the
      left-associated chain over all of them (parser.py:267-287). */
  lemma KeptOperatorFoldsAll(op: BinOp, first: Expr, pairs: seq<(string, Expr)>)
    ensures ReduceNodes(op, EvenSlice(Interleaved(first, pairs)))
         == Ok(LeftChain(first, SameChain(op, Operands(pairs))))
  {
    EvenSliceOfInterleaved(first, pairs);
    ReduceNodesIsLeftChain(op, first, Operands(pairs));
  }

  /** `_concat` as written (parser.py:250-252): `::` is suppressed, so the
      token list holds only operands and the even slice drops every second
      one. */
  function ConcatActionAsWritten(xs: seq<Expr>): Result<Expr> {
    ReduceNodes(Concat, EvenSlice(Nodes(xs)))
  }

  /** `a :: b` reduces to `a` alone as written. */
  lemma ConcatAsWrittenDropsOperand(a: Expr, b: Expr)
    ensures ConcatActionAsWritten([a, b]) == Ok(a)
    ensures ConcatActionAsWritten([a, b]) != Ok(Binary(Concat, a, b, None))
  {
    assert EvenSlice(Nodes([a, b])) == [Node(a)];
    assert a < Binary(Concat, a, b, None);
  }

  /** `_concat` reducing over every operand. */
  function ConcatAction(xs: seq<Expr>): Result<Expr> {
    ReduceNodes(Concat, Nodes(xs))
  }

  /** The corrected `_concat` keeps every operand, left-associated. */
  lemma ConcatActionKeepsAll(first: Expr, xs: seq<Expr>)
    ensures ConcatAction([first] + xs) == Ok(LeftChain(first, SameChain(Concat, xs)))
  {
    ReduceNodesIsLeftChain(Concat, first, xs);
  }

  /** `_implies` as written (parser.py:299-301): the tokens are
      `[l, "->", r]` with `r` already reduced by the recursive rule, and the
      lambda builds `Implies(n, e)`, its arguments swapped. */
  function ImpliesActionAsWritten(l: Expr, r: Option<Expr>): Expr {
    var t := if r.Some? then [Node(l), Lit("->"), Node(r.value)] else [Node(l)];
    var ev := EvenSlice(t);
    if |ev| == 2 && ev[1].Node? then Binary(Implies, ev[1].e, ev[0].e, None) else l
  }

  /** As written, `a -> b` builds `Implies(b, a)`. */
  lemma ImpliesAsWrittenSwaps(a: Expr, b: Expr)
    ensures ImpliesActionAsWritten(a, Some(b)) == Binary(Implies, b, a, None)
  {
    assert EvenSlice([Node(a), Lit("->"), Node(b)]) == [Node(a), Node(b)];
  }

  /** `_implies` with the premise on the left: the right operand is the
      already reduced tail, so chains associate to the right. */
  function ImpliesAction(l: Expr, r: Option<Expr>): (e: Expr)
    ensures r.None? ==> e == l
    ensures r.Some? ==> e.Binary? && e.op == Implies && e.left == l && e.right == r.value
  {
    if r.Some? then Binary(Implies, l, r.value, None) else l
  }

  /** As written, the right-recursive `_implies` applied to `a -> b -> c`
      reduces the inner `b -> c` first and then swaps again, giving
      `Implies(Implies(c, b), a)`; corrected, the chain groups to the right
      as `Implies(a, Implies(b, c))`. */
  lemma ImpliesChainAsWritten(a: Expr, b: Expr, c: Expr)
    ensures ImpliesActionAsWritten(a, Some(ImpliesActionAsWritten(b, Some(c))))
         == Binary(Implies, Binary(Implies, c, b, None), a, None)
    ensures ImpliesAction(a, Some(ImpliesAction(b, Some(c))))
         == Binary(Implies, a, Binary(Implies, b, c, None), None)
  {
    ImpliesAsWrittenSwaps(b, c);
    ImpliesAsWrittenSwaps(a, Binary(Implies, c, b, None));
  }

  /** The corrected action differs from the written one exactly by the
      order of the operands. */
  lemma ImpliesActionSwapped(a: Expr, b: Expr)
    ensures ImpliesActionAsWritten(a, Some(b)) == ImpliesAction(b, Some(a))
  {
    ImpliesAsWrittenSwaps(a, b);
  }

  // ---------------------------------------------------------------------
  // `_word_function`
  // ---------------------------------------------------------------------

  /** The tokens of `extend(v, s)`: the opening and closing parentheses are
      suppressed but the comma is not (parser.py:195-199). */
  function WordFunctionTokens(name: string, v: Expr, s: Expr): seq<PyTok> {
    [Lit(name), Node(v), Lit(","), Node(s)]
  }

  /** The constructor arguments `(t[0], t[1], t[2])` the action passes on,
      as written. */
  function WordFunctionArgsAsWritten(t: seq<PyTok>): Option<(PyTok, PyTok, PyTok)> {
    if |t| < 3 then None else Some((t[0], t[1], t[2]))
  }

  /** As written, the size handed to `WordFunction` is the comma. */
  lemma WordFunctionSizeIsComma(name: string, v: Expr, s: Expr)
    ensures WordFunctionArgsAsWritten(WordFunctionTokens(name, v, s)).Some?
    ensures WordFunctionArgsAsWritten(WordFunctionTokens(name, v, s)).value.2 == Lit(",")
  {
  }

  /** The action taking the size after the comma. */
  function WordFunctionAction(t: seq<PyTok>): (r: Result<Expr>)
    ensures r.Ok? ==> r.value.WordFunction? && |t| == 4 && t[2] == Lit(",")
                      && Lit(r.value.fname) == t[0] && Node(r.value.value) == t[1]
                      && Node(r.value.size) == t[3]
  {
    if |t| == 4 && t[0].Lit? && t[1].Node? && t[2] == Lit(",") && t[3].Node?
    then Ok(WordFunction(t[0].text, t[1].e, t[3].e, None))
    else Err("malformed word function")
  }

  /** The corrected action builds the function from its own tokens. */
  lemma WordFunctionActionBuilds(name: string, v: Expr, s: Expr)
    ensures WordFunctionAction(WordFunctionTokens(name, v, s)) == Ok(WordFunction(name, v, s, None))
  {
  }
}
