/** Structural equality of expressions: the `equals` methods of
    src/pynusmv/model.py.

    `Equals` is the relation the rest of the model uses. It compares nodes of
    the same class: commutative operators accept either operand order,
    every other node matches its children by position, sets compare as sets,
    and cached sources are ignored. `EqualsAsWritten` follows the source
    literally, including three behaviours listed under "Findings" in the
    README: `Neq.equals` is inverted, an integer operand has no `equals`
    method, and `Count.equals` calls `len` on an expression. It also
    follows access lists item by item, which reach integer indices, and
    tells parsed complex identifiers apart. */
module Equality {
  import opened Wrappers
  import opened Ast

  /** The Python class of a node; `type(self) is type(other)`. */
  datatype NodeClass =
    | CIdent | CDecl(kind: DeclKind) | CComplex | CBool | CWord | CInt | CRange
    | CConversion | CWordFunction | CCount | CNext | CInit | CCase
    | CSubscript | CBitSelection | CArrayAccess | CSet
    | CUnary(u: UnOp) | CBinary(op: BinOp) | CIte

  function ClassOf(e: Expr): NodeClass {
    match e
    case Ident(_, _) => CIdent
    case DeclIdent(k, _, _) => CDecl(k)
    case ComplexIdent(_, _, _) => CComplex
    case BoolConst(_, _) => CBool
    case WordConst(_, _) => CWord
    case IntConst(_) => CInt
    case RangeConst(_, _, _) => CRange
    case Conversion(_, _, _) => CConversion
    case WordFunction(_, _, _, _) => CWordFunction
    case Count(_, _) => CCount
    case Next(_, _) => CNext
    case Init(_, _) => CInit
    case Case(_, _) => CCase
    case Subscript(_, _) => CSubscript
    case BitSelection(_, _, _) => CBitSelection
    case ArrayAccess(_, _, _) => CArrayAccess
    case SetExpr(_, _) => CSet
    case Unary(u, _, _) => CUnary(u)
    case Binary(op, _, _, _) => CBinary(op)
    case Ite(_, _, _, _) => CIte
  }

  predicate SelectorEquals(s: Selector, t: Selector)
    decreases s
  {
    match s
    case DotSelf => t.DotSelf?
    case Field(n) => t.Field? && t.name == n
    case Index(i) => t.Index? && Equals(i, t.index)
  }

  /** Element-wise equality of two sequences of the same length. */
  predicate PairwiseEquals(xs: seq<Expr>, ys: seq<Expr>)
    decreases xs
  {
    |xs| == |ys| && forall i | 0 <= i < |xs| :: Equals(xs[i], ys[i])
  }

  predicate ArmEquals(x: Arm, y: Arm)
    decreases x
  {
    Equals(x.cond, y.cond) && Equals(x.result, y.result)
  }

  /** Equality of two case bodies: conditions and results by position. */
  predicate ArmsEquals(xs: seq<Arm>, ys: seq<Arm>)
    decreases xs
  {
    |xs| == |ys| && forall i | 0 <= i < |xs| :: ArmEquals(xs[i], ys[i])
  }

  /** `x` equals some element of `ys`. */
  predicate InSet(x: Expr, ys: seq<Expr>)
    decreases x, 1
  {
    exists j | 0 <= j < |ys| :: Equals(x, ys[j])
  }

  /** Some element of `xs` equals `y`. */
  predicate Covered(xs: seq<Expr>, y: Expr)
    decreases xs, 0
  {
    exists i | 0 <= i < |xs| :: Equals(xs[i], y)
  }

  /** `frozenset(xs) == frozenset(ys)`: each element of either side has an
      equal element on the other side. */
  predicate SetEquals(xs: seq<Expr>, ys: seq<Expr>)
    decreases xs, 1
  {
    (forall i | 0 <= i < |xs| :: InSet(xs[i], ys))
    && (forall j | 0 <= j < |ys| :: Covered(xs, ys[j]))
  }

  predicate SelectorsEqual(xs: seq<Selector>, ys: seq<Selector>)
    decreases xs
  {
    |xs| == |ys| && forall i | 0 <= i < |xs| :: SelectorEquals(xs[i], ys[i])
  }

  /** `a.equals(b)`. The recursion is on the receiver `a`. */
  predicate Equals(a: Expr, b: Expr)
    decreases a, 0
  {
    ClassOf(a) == ClassOf(b) &&
    match a
    case Ident(n, _) => b.name == n
    case DeclIdent(_, n, _) => b.name == n
    case ComplexIdent(r, p, _) => r == b.root && SelectorsEqual(p, b.path)
    case BoolConst(t, _) => b.text == t
    case WordConst(t, _) => b.text == t
    case IntConst(n) => b.n == n
    case RangeConst(lo, hi, _) => b.lo == lo && b.hi == hi
    case Conversion(t, v, _) => b.target == t && Equals(v, b.value)
    case WordFunction(f, v, s, _) => b.fname == f && Equals(v, b.value) && Equals(s, b.size)
    case Count(v, _) => Equals(v, b.value)
    case Next(v, _) => Equals(v, b.value)
    case Init(v, _) => Equals(v, b.value)
    case Case(arms, _) => ArmsEquals(arms, b.arms)
    case Subscript(i, _) => Equals(i, b.index)
    case BitSelection(x, y, _) => Equals(x, b.start) && Equals(y, b.stop)
    case ArrayAccess(arr, acc, _) => Equals(arr, b.base) && PairwiseEquals(acc, b.accesses)
    case SetExpr(els, _) => SetEquals(els, b.elements)
    case Unary(_, v, _) => Equals(v, b.operand)
    case Binary(op, l, r, _) =>
      (Equals(l, b.left) && Equals(r, b.right))
      || (IsCommutative(op) && Equals(l, b.right) && Equals(r, b.left))
    case Ite(c, x, y, _) => Equals(c, b.cond) && Equals(x, b.thenE) && Equals(y, b.elseE)
  }

  // ---------------------------------------------------------------------
  // The source, literally: None stands for a raised exception.
  // ---------------------------------------------------------------------

  /** Python's short-circuit `x and y`. */
  function AndThen(x: Option<bool>, y: Option<bool>): Option<bool> {
    match x
    case None => None
    case Some(false) => Some(false)
    case Some(true) => y
  }

  /** Python's short-circuit `x or y`. */
  function OrElse(x: Option<bool>, y: Option<bool>): Option<bool> {
    match x
    case None => None
    case Some(true) => Some(true)
    case Some(false) => y
  }

  function NotOpt(x: Option<bool>): Option<bool> {
    match x
    case None => None
    case Some(v) => Some(!v)
  }

  /** `a.equals(b)` as the source evaluates it, for two nodes built
      separately (as by parsing a text twice). An `int` receiver has no
      `equals` attribute; `Count.equals` applies `len` to the expression the
      grammar stores; `Neq.equals` negates both operand matches
      (model.py:867-872). An access list compares with list `==`, item by
      item through `Eq.__bool__`, that is through the items' own `equals`
      (model.py:475-478, 846-851). A parsed complex identifier keeps the
      `ParseResults` the grammar hands it (parser.py:153), and those
      compare by identity, so two parses never match (model.py:203-207).
      Case bodies and sets compare through `OrderedDict` and `frozenset`
      equality, that is through hashing, and are taken to be `Equals`. */
  function EqualsAsWritten(a: Expr, b: Expr): Option<bool>
    decreases a
  {
    if a.IntConst? then None
    else if ClassOf(a) != ClassOf(b) then Some(false)
    else match a
      case Conversion(t, v, _) => AndThen(Some(b.target == t), EqualsAsWritten(v, b.value))
      case WordFunction(f, v, s, _) =>
        AndThen(Some(b.fname == f), AndThen(EqualsAsWritten(v, b.value), EqualsAsWritten(s, b.size)))
      case Count(_, _) => None
      case Next(v, _) => EqualsAsWritten(v, b.value)
      case Init(v, _) => EqualsAsWritten(v, b.value)
      case Subscript(i, _) => EqualsAsWritten(i, b.index)
      case BitSelection(x, y, _) => AndThen(EqualsAsWritten(x, b.start), EqualsAsWritten(y, b.stop))
      case Unary(_, v, _) => EqualsAsWritten(v, b.operand)
      case Binary(op, l, r, _) =>
        if op == Neq then
          AndThen(OrElse(NotOpt(EqualsAsWritten(l, b.left)), NotOpt(EqualsAsWritten(r, b.right))),
                  OrElse(NotOpt(EqualsAsWritten(l, b.right)), NotOpt(EqualsAsWritten(r, b.left))))
        else if IsCommutative(op) then
          OrElse(AndThen(EqualsAsWritten(l, b.left), EqualsAsWritten(r, b.right)),
                 AndThen(EqualsAsWritten(l, b.right), EqualsAsWritten(r, b.left)))
        else AndThen(EqualsAsWritten(l, b.left), EqualsAsWritten(r, b.right))
      case Ite(c, x, y, _) =>
        AndThen(EqualsAsWritten(c, b.cond), AndThen(EqualsAsWritten(x, b.thenE), EqualsAsWritten(y, b.elseE)))
      case ArrayAccess(arr, acc, _) =>
        AndThen(EqualsAsWritten(arr, b.base), ListEqualsAsWritten(acc, b.accesses))
      case ComplexIdent(_, _, _) => Some(false)
      case _ => Some(Equals(a, b))
  }

  /** Python's list `==`: unequal lengths differ, otherwise the items are
      compared in order until one pair fails or raises. */
  function ListEqualsAsWritten(xs: seq<Expr>, ys: seq<Expr>): Option<bool>
    decreases xs
  {
    if |xs| != |ys| then Some(false)
    else if |xs| == 0 then Some(true)
    else AndThen(EqualsAsWritten(xs[0], ys[0]), ListEqualsAsWritten(xs[1..], ys[1..]))
  }

  /** The receivers `EqualsAsWritten` visits contain no integer, no `Count`,
      no `Neq` and no parsed complex identifier. */
  predicate Quirkless(e: Expr)
    decreases e
  {
    match e
    case IntConst(_) => false
    case Count(_, _) => false
    case Conversion(_, v, _) => Quirkless(v)
    case WordFunction(_, v, s, _) => Quirkless(v) && Quirkless(s)
    case Next(v, _) => Quirkless(v)
    case Init(v, _) => Quirkless(v)
    case Subscript(i, _) => Quirkless(i)
    case BitSelection(x, y, _) => Quirkless(x) && Quirkless(y)
    case Unary(_, v, _) => Quirkless(v)
    case Binary(op, l, r, _) => op != Neq && Quirkless(l) && Quirkless(r)
    case Ite(c, x, y, _) => Quirkless(c) && Quirkless(x) && Quirkless(y)
    case ArrayAccess(arr, acc, _) => Quirkless(arr) && forall i | 0 <= i < |acc| :: Quirkless(acc[i])
    case ComplexIdent(_, _, _) => false
    case _ => true
  }

  // ---------------------------------------------------------------------
  // Properties of Equals
  // ---------------------------------------------------------------------

  /** Nodes of different classes are never equal. */
  lemma ClassMismatchUnequal(a: Expr, b: Expr)
    requires ClassOf(a) != ClassOf(b)
    ensures !Equals(a, b)
  {
  }

  /** Every node equals itself. */
  lemma {:induction false} EqualsReflexive(e: Expr)
    ensures Equals(e, e)
    decreases e
  {
    match e
    case ComplexIdent(r, p, _) =>
      forall i | 0 <= i < |p| ensures SelectorEquals(p[i], p[i]) {
        if p[i].Index? { EqualsReflexive(p[i].index); }
      }
      assert SelectorsEqual(p, p);
    case Conversion(_, v, _) => EqualsReflexive(v);
    case WordFunction(_, v, s, _) => EqualsReflexive(v); EqualsReflexive(s);
    case Count(v, _) => EqualsReflexive(v);
    case Next(v, _) => EqualsReflexive(v);
    case Init(v, _) => EqualsReflexive(v);
    case Case(arms, _) =>
      forall i | 0 <= i < |arms| ensures ArmEquals(arms[i], arms[i]) {
        EqualsReflexive(arms[i].cond);
        EqualsReflexive(arms[i].result);
      }
      assert ArmsEquals(arms, arms);
    case Subscript(i, _) => EqualsReflexive(i);
    case BitSelection(x, y, _) => EqualsReflexive(x); EqualsReflexive(y);
    case ArrayAccess(arr, acc, _) =>
      EqualsReflexive(arr);
      forall i | 0 <= i < |acc| ensures Equals(acc[i], acc[i]) { EqualsReflexive(acc[i]); }
      assert PairwiseEquals(acc, acc);
    case SetExpr(els, _) =>
      forall i | 0 <= i < |els| ensures InSet(els[i], els) && Covered(els, els[i]) {
        EqualsReflexive(els[i]);
        assert Equals(els[i], els[i]);
      }
      assert SetEquals(els, els);
    case Unary(_, v, _) => EqualsReflexive(v);
    case Binary(_, l, r, _) => EqualsReflexive(l); EqualsReflexive(r);
    case Ite(c, x, y, _) => EqualsReflexive(c); EqualsReflexive(x); EqualsReflexive(y);
    case _ =>
  }

  /** Equality does not depend on operand roles: it is symmetric. */
  lemma {:induction false} EqualsSymmetric(a: Expr, b: Expr)
    requires Equals(a, b)
    ensures Equals(b, a)
    decreases a
  {
    match a
    case ComplexIdent(r, p, _) =>
      var q := b.path;
      assert SelectorsEqual(p, q);
      forall i | 0 <= i < |p| ensures SelectorEquals(q[i], p[i]) {
        assert SelectorEquals(p[i], q[i]);
        if p[i].Index? { EqualsSymmetric(p[i].index, q[i].index); }
      }
      assert SelectorsEqual(q, p);
    case Conversion(_, v, _) => EqualsSymmetric(v, b.value);
    case WordFunction(_, v, s, _) => EqualsSymmetric(v, b.value); EqualsSymmetric(s, b.size);
    case Count(v, _) => EqualsSymmetric(v, b.value);
    case Next(v, _) => EqualsSymmetric(v, b.value);
    case Init(v, _) => EqualsSymmetric(v, b.value);
    case Case(arms, _) => ArmsSymmetric(arms, b.arms);
    case Subscript(i, _) => EqualsSymmetric(i, b.index);
    case BitSelection(x, y, _) => EqualsSymmetric(x, b.start); EqualsSymmetric(y, b.stop);
    case ArrayAccess(arr, acc, _) =>
      EqualsSymmetric(arr, b.base);
      PairwiseSymmetric(acc, b.accesses);
    case SetExpr(els, _) => SetSymmetric(els, b.elements);
    case Unary(_, v, _) => EqualsSymmetric(v, b.operand);
    case Binary(op, l, r, _) =>
      if Equals(l, b.left) && Equals(r, b.right) {
        EqualsSymmetric(l, b.left);
        EqualsSymmetric(r, b.right);
      } else {
        EqualsSymmetric(l, b.right);
        EqualsSymmetric(r, b.left);
      }
    case Ite(c, x, y, _) =>
      EqualsSymmetric(c, b.cond); EqualsSymmetric(x, b.thenE); EqualsSymmetric(y, b.elseE);
    case _ =>
  }

  lemma {:induction false} PairwiseSymmetric(xs: seq<Expr>, ys: seq<Expr>)
    requires PairwiseEquals(xs, ys)
    ensures PairwiseEquals(ys, xs)
    decreases xs
  {
    forall i | 0 <= i < |xs| ensures Equals(ys[i], xs[i]) {
      EqualsSymmetric(xs[i], ys[i]);
    }
  }

  lemma {:induction false} ArmsSymmetric(xs: seq<Arm>, ys: seq<Arm>)
    requires ArmsEquals(xs, ys)
    ensures ArmsEquals(ys, xs)
    decreases xs
  {
    forall i | 0 <= i < |xs| ensures ArmEquals(ys[i], xs[i]) {
      ArmSymmetric(xs[i], ys[i]);
    }
  }

  lemma {:induction false} ArmSymmetric(x: Arm, y: Arm)
    requires ArmEquals(x, y)
    ensures ArmEquals(y, x)
    decreases x
  {
    EqualsSymmetric(x.cond, y.cond);
    EqualsSymmetric(x.result, y.result);
  }

  lemma {:induction false} SetSymmetric(xs: seq<Expr>, ys: seq<Expr>)
    requires SetEquals(xs, ys)
    ensures SetEquals(ys, xs)
    decreases xs
  {
    forall j | 0 <= j < |ys| ensures InSet(ys[j], xs) {
      assert Covered(xs, ys[j]);
      var i :| 0 <= i < |xs| && Equals(xs[i], ys[j]);
      EqualsSymmetric(xs[i], ys[j]);
    }
    forall i | 0 <= i < |xs| ensures Covered(ys, xs[i]) {
      assert InSet(xs[i], ys);
      var j :| 0 <= j < |ys| && Equals(xs[i], ys[j]);
      EqualsSymmetric(xs[i], ys[j]);
    }
  }

  /** For the commutative operators, `Op(a, b)` equals `Op(b, a)`. */
  lemma CommutativeSwapEqual(op: BinOp, a: Expr, b: Expr, s1: Option<string>, s2: Option<string>)
    requires IsCommutative(op)
    ensures Equals(Binary(op, a, b, s1), Binary(op, b, a, s2))
  {
    EqualsReflexive(a);
    EqualsReflexive(b);
  }

  /** `x != y` equals `y != x`, as `Neq.equals` tries both operand orders
      and `Neq.__hash__` weighs both operands alike. */
  lemma NeqSwapEqual(a: Expr, b: Expr, s1: Option<string>, s2: Option<string>)
    ensures Equals(Binary(Neq, a, b, s1), Binary(Neq, b, a, s2))
  {
    CommutativeSwapEqual(Neq, a, b, s1, s2);
  }

  /** For every other operator, operands must match by position. */
  lemma PositionalOperands(op: BinOp, a: Expr, b: Expr, c: Expr, d: Expr, s1: Option<string>, s2: Option<string>)
    requires !IsCommutative(op)
    ensures Equals(Binary(op, a, b, s1), Binary(op, c, d, s2)) <==> Equals(a, c) && Equals(b, d)
  {
  }

  /** A non-commutative operator applied in swapped order is unequal unless
      its operands are equal. */
  lemma NonCommutativeSwapUnequal(op: BinOp, a: Expr, b: Expr, s1: Option<string>, s2: Option<string>)
    requires !IsCommutative(op)
    requires !Equals(a, b)
    ensures !Equals(Binary(op, a, b, s1), Binary(op, b, a, s2))
  {
  }

  /** The cached source plays no part in equality. */
  lemma EqualsIgnoresSource(e: Expr, s: string)
    ensures Equals(WithSource(e, s), e) && Equals(e, WithSource(e, s))
  {
    EqualsReflexive(e);
  }

  // ---------------------------------------------------------------------
  // The source as written
  // ---------------------------------------------------------------------

  /** On receivers free of the quirks the literal reading agrees with
      `Equals`. */
  lemma {:induction false} AsWrittenAgrees(a: Expr, b: Expr)
    requires Quirkless(a)
    ensures EqualsAsWritten(a, b) == Some(Equals(a, b))
    decreases a, 1
  {
    if ClassOf(a) != ClassOf(b) {
      ClassMismatchUnequal(a, b);
    } else if a.Binary? || a.Ite? {
      match a
      case Binary(op, l, r, _) =>
        AsWrittenAgrees(l, b.left); AsWrittenAgrees(r, b.right);
        AsWrittenAgrees(l, b.right); AsWrittenAgrees(r, b.left);
      case Ite(c, x, y, _) =>
        AsWrittenAgrees(c, b.cond); AsWrittenAgrees(x, b.thenE); AsWrittenAgrees(y, b.elseE);
    } else {
      OtherAgrees(a, b);
    }
  }

  /** `AsWrittenAgrees` on the nodes other than operators and
      conditionals. */
  lemma {:induction false} OtherAgrees(a: Expr, b: Expr)
    requires Quirkless(a) && ClassOf(a) == ClassOf(b) && !a.Binary? && !a.Ite?
    ensures EqualsAsWritten(a, b) == Some(Equals(a, b))
    decreases a, 0
  {
    match a
    case Conversion(_, v, _) => AsWrittenAgrees(v, b.value);
    case WordFunction(_, v, s, _) => AsWrittenAgrees(v, b.value); AsWrittenAgrees(s, b.size);
    case Next(v, _) => AsWrittenAgrees(v, b.value);
    case Init(v, _) => AsWrittenAgrees(v, b.value);
    case Subscript(i, _) => AsWrittenAgrees(i, b.index);
    case BitSelection(x, y, _) => AsWrittenAgrees(x, b.start); AsWrittenAgrees(y, b.stop);
    case Unary(_, v, _) => AsWrittenAgrees(v, b.operand);
    case ArrayAccess(arr, acc, _) => AsWrittenAgrees(arr, b.base); ListAgrees(acc, b.accesses);
    case Ident(_, _) =>
    case DeclIdent(_, _, _) =>
    case BoolConst(_, _) =>
    case WordConst(_, _) =>
    case RangeConst(_, _, _) =>
    case Case(_, _) =>
    case SetExpr(_, _) =>
  }

  /** `AsWrittenAgrees` item by item: list `==` over quirkless items is
      `PairwiseEquals`. */
  lemma {:induction false} ListAgrees(xs: seq<Expr>, ys: seq<Expr>)
    requires forall i | 0 <= i < |xs| :: Quirkless(xs[i])
    ensures ListEqualsAsWritten(xs, ys) == Some(PairwiseEquals(xs, ys))
    decreases xs
  {
    if |xs| == |ys| && |xs| > 0 {
      AsWrittenAgrees(xs[0], ys[0]);
      ListAgrees(xs[1..], ys[1..]);
      PairwiseStep(xs, ys);
    }
  }

  /** Pairwise equality of non-empty lists: the heads, then the tails. */
  lemma PairwiseStep(xs: seq<Expr>, ys: seq<Expr>)
    requires |xs| == |ys| && |xs| > 0
    ensures PairwiseEquals(xs, ys) <==> Equals(xs[0], ys[0]) && PairwiseEquals(xs[1..], ys[1..])
  {
    if Equals(xs[0], ys[0]) && PairwiseEquals(xs[1..], ys[1..]) {
      forall i | 0 <= i < |xs| ensures Equals(xs[i], ys[i]) {
        if i > 0 { assert xs[1..][i - 1] == xs[i] && ys[1..][i - 1] == ys[i]; }
      }
    }
    if PairwiseEquals(xs, ys) {
      forall i | 0 <= i < |xs| - 1 ensures Equals(xs[1..][i], ys[1..][i]) {
        assert xs[1..][i] == xs[i + 1] && ys[1..][i] == ys[i + 1];
      }
    }
  }

  /** `x[1]` cannot be compared with itself: the access list compares
      `Subscript`s, whose `equals` calls `equals` on the integer index. */
  lemma IntIndexRaisesAsWritten()
    ensures EqualsAsWritten(ArrayAccess(Ident("x", None), [Subscript(IntConst(1), None)], None),
                            ArrayAccess(Ident("x", None), [Subscript(IntConst(1), None)], None)) == None
  {
  }

  /** Two parses of `m.x` hold distinct `ParseResults`, so they are
      unequal as written though `Equals` holds. */
  lemma ComplexIdentsApartAsWritten(e: Expr)
    requires e.ComplexIdent?
    ensures EqualsAsWritten(e, e) == Some(false) && Equals(e, e)
  {
    EqualsReflexive(e);
  }

  /** `x != y` does not equal itself under `Neq.equals` as written. */
  lemma NeqUnequalToItselfAsWritten()
    ensures EqualsAsWritten(Binary(Neq, Ident("x", None), Ident("y", None), None),
                            Binary(Neq, Ident("x", None), Ident("y", None), None)) == Some(false)
  {
  }

  /** `1 + x` cannot be compared with itself: its integer operand has no
      `equals` method. */
  lemma IntOperandRaisesAsWritten()
    ensures EqualsAsWritten(Binary(Add, IntConst(1), Ident("x", None), None),
                            Binary(Add, IntConst(1), Ident("x", None), None)) == None
  {
  }

  /** `count(x)` cannot be compared with itself: `len` is applied to an
      expression. */
  lemma CountRaisesAsWritten()
    ensures EqualsAsWritten(Count(Ident("x", None), None), Count(Ident("x", None), None)) == None
  {
  }
}
