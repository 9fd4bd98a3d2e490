/** The canonical text of expressions and types: the `__str__` methods of
    src/pynusmv/model.py. A node whose cached source is non-empty renders as
    that source, except `Not`, whose `__str__` evaluates the source without
    returning it (model.py:527-530). */
module Printer {
  import opened Wrappers
  import opened Ast
  import opened Numerals
  import opened Text

  function RootText(r: Root): string {
    match r
    case SelfRoot => "self"
    case NameRoot(n) => n
  }

  function SelectorText(s: Selector): string
    decreases s, 1
  {
    match s
    case DotSelf => ".self"
    case Field(n) => "." + n
    case Index(i) => "[" + Render(i) + "]"
  }

  function BinOpText(op: BinOp): string {
    match op
    case Concat => "::"
    case Mult => " * " case Div => " / " case Mod => " mod "
    case Add => " + " case Sub => " - "
    case ShiftL => " << " case ShiftR => " >> "
    case Union => " union " case In => " in "
    case Eq => " = " case Neq => " != " case Lt => " < " case Gt => " > "
    case Le => " <= " case Ge => " >= "
    case And => " & " case Or => " | " case Xor => " xor " case Xnor => " xnor "
    case Iff => " <-> " case Implies => " -> "
  }

  /** `Operator._enclose` (model.py:509-517): the operand is wrapped when it
      is an operator binding strictly looser than the parent. */
  function Enclose(parent: nat, e: Expr): string
    decreases e, 2
  {
    if IsOperator(e) && Precedence(e) > parent then "(" + Render(e) + ")"
    else Render(e)
  }

  /** The text the canonical renderer builds, ignoring any cached source. */
  function Canonical(e: Expr): string
    decreases e, 0
  {
    match e
    case Ident(n, _) => n
    case DeclIdent(_, n, _) => n
    case ComplexIdent(root, path, _) =>
      RootText(root) + ConcatAll(seq(|path|, i requires 0 <= i < |path| => SelectorText(path[i])))
    case BoolConst(t, _) => t
    case WordConst(t, _) => t
    case IntConst(n) => IntToString(n)
    case RangeConst(lo, hi, _) => IntToString(lo) + ".." + IntToString(hi)
    case Conversion(t, v, _) => t + "(" + Render(v) + ")"
    case WordFunction(f, v, s, _) => f + "(" + Render(v) + ", " + Render(s) + ")"
    case Count(v, _) => "count(" + Render(v) + ")"
    case Next(v, _) => "next(" + Render(v) + ")"
    case Init(v, _) => "init(" + Render(v) + ")"
    case Case(arms, _) =>
      "case "
      + Join("\n", seq(|arms|, i requires 0 <= i < |arms| =>
                         Render(arms[i].cond) + ": " + Render(arms[i].result) + ";"))
      + " esac"
    case Subscript(i, _) => "[" + Render(i) + "]"
    case BitSelection(a, b, _) => "[" + Render(a) + ":" + Render(b) + "]"
    case ArrayAccess(a, acc, _) =>
      Render(a) + ConcatAll(seq(|acc|, i requires 0 <= i < |acc| => Render(acc[i])))
    case SetExpr(els, _) =>
      "{" + Join(", ", seq(|els|, i requires 0 <= i < |els| => Render(els[i]))) + "}"
    case Unary(Not, v, _) => "! " + Enclose(1, v)
    case Unary(Minus, v, _) => "- " + Enclose(3, v)
    case Binary(op, l, r, _) =>
      var p := BinPrecedence(op);
      Enclose(p, l) + BinOpText(op) + Enclose(p, r)
    case Ite(c, a, b, _) => Enclose(12, c) + " ? " + Enclose(12, a) + " : " + Enclose(12, b)
  }

  /** `str(e)`. */
  function Render(e: Expr): string
    decreases e, 1
  {
    if !e.Unary? && !e.IntConst? && HasText(e.src) then e.src.value
    else if e.Unary? && e.uop == Minus && HasText(e.src) then e.src.value
    else Canonical(e)
  }

  /** `str(t)` for type specifiers (model.py:1187-1257). */
  function RenderType(t: Type): string
    decreases t
  {
    if HasText(t.tsrc) then t.tsrc.value
    else match t
      case TBoolean(_) => "boolean"
      case TWord(size, sign, _) =>
        (if HasText(sign) then sign.value + " " else "") + "word" + "[" + Render(size) + "]"
      case TEnum(vs, _) =>
        "{" + Join(", ", seq(|vs|, i requires 0 <= i < |vs| => Render(vs[i]))) + "}"
      case TRange(a, b, _) => Render(a) + ".." + Render(b)
      case TArray(a, b, el, _) =>
        "array " + Render(a) + ".." + Render(b) + " of " + RenderType(el)
      case TModule(name, args, process, _) =>
        (if process then "process " else "") + Render(name)
        + "(" + Join(", ", seq(|args|, i requires 0 <= i < |args| => Render(args[i]))) + ")"
  }

  // ---------------------------------------------------------------------
  // Properties
  // ---------------------------------------------------------------------

  /** An operand is parenthesized if and only if it is an operator whose
      precedence is strictly greater than the parent's. */
  lemma EncloseParenthesizesIff(parent: nat, e: Expr)
    ensures Enclose(parent, e) == "(" + Render(e) + ")" <==> (IsOperator(e) && Precedence(e) > parent)
    ensures !(IsOperator(e) && Precedence(e) > parent) ==> Enclose(parent, e) == Render(e)
  {
    if !(IsOperator(e) && Precedence(e) > parent) {
      assert |"(" + Render(e) + ")"| != |Render(e)|;
    }
  }

  /** Equal precedence never forces parentheses. */
  lemma EqualPrecedenceNotEnclosed(parent: nat, e: Expr)
    requires Precedence(e) == parent
    ensures Enclose(parent, e) == Render(e)
  {
  }

  /** A non-empty cached source is returned verbatim by every node except
      `Not`. */
  lemma RenderReturnsSource(e: Expr)
    requires !(e.Unary? && e.uop == Not)
    requires HasText(SourceOf(e))
    ensures Render(e) == SourceOf(e).value
  {
  }

  /** `Not` ignores its cached source and always renders canonically. */
  lemma RenderNotIgnoresSource(v: Expr, s: Option<string>)
    ensures Render(Unary(Not, v, s)) == "! " + Enclose(1, v)
  {
  }
}
