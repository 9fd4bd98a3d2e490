/** The expression and type node set of an SMV module (src/pynusmv/model.py).

    Every node class of the source becomes one constructor. The binary
    operator classes (`Concat` ... `Implies`) share one constructor,
    `Binary`, tagged with a `BinOp`; the tag plays the role of the Python
    class, so "same node type" means "same constructor and same tag".
    Every node that is an `Element` in the source carries `src`, the cached
    source text that `parseAllString` stores. Integer constants are plain
    Python ints in the source: they carry no source. */
module Ast {
  import opened Wrappers

  /** The binary operator classes. */
  datatype BinOp =
    | Concat | Mult | Div | Mod | Add | Sub | ShiftL | ShiftR
    | Union | In | Eq | Neq | Lt | Gt | Le | Ge
    | And | Or | Xor | Xnor | Iff | Implies

  /** The unary operator classes. */
  datatype UnOp = Not | Minus

  /** The section a `Declaration` belongs to. */
  datatype DeclKind = DVar | DIVar | DFVar | DDef

  /** The first segment of a complex identifier: `self` or a name. */
  datatype Root = SelfRoot | NameRoot(name: string)

  /** A later segment of a complex identifier: `.self`, `.name` or `[e]`. */
  datatype Selector = DotSelf | Field(name: string) | Index(index: Expr)

  /** One `condition : result ;` entry of a `case` expression. */
  datatype Arm = Arm(cond: Expr, result: Expr)

  datatype Expr =
    | Ident(name: string, src: Option<string>)
      /** A bound `Declaration` (a `Var`, `IVar`, `FVar` or `Def`). */
    | DeclIdent(kind: DeclKind, name: string, src: Option<string>)
    | ComplexIdent(root: Root, path: seq<Selector>, src: Option<string>)
    | BoolConst(text: string, src: Option<string>)
    | WordConst(text: string, src: Option<string>)
      /** A Python `int`; it has no `source` attribute. */
    | IntConst(n: int)
    | RangeConst(lo: int, hi: int, src: Option<string>)
    | Conversion(target: string, value: Expr, src: Option<string>)
    | WordFunction(fname: string, value: Expr, size: Expr, src: Option<string>)
      /** `count(...)`: the grammar stores its first argument only. */
    | Count(value: Expr, src: Option<string>)
    | Next(value: Expr, src: Option<string>)
    | Init(value: Expr, src: Option<string>)
      /** `case c1 : r1; ... esac`, an ordered mapping. */
    | Case(arms: seq<Arm>, src: Option<string>)
    | Subscript(index: Expr, src: Option<string>)
    | BitSelection(start: Expr, stop: Expr, src: Option<string>)
    | ArrayAccess(base: Expr, accesses: seq<Expr>, src: Option<string>)
    | SetExpr(elements: seq<Expr>, src: Option<string>)
    | Unary(uop: UnOp, operand: Expr, src: Option<string>)
    | Binary(op: BinOp, left: Expr, right: Expr, src: Option<string>)
    | Ite(cond: Expr, thenE: Expr, elseE: Expr, src: Option<string>)

  datatype Type =
    | TBoolean(tsrc: Option<string>)
      /** `sign` is `"signed"` or `"unsigned"` when given. */
    | TWord(size: Expr, sign: Option<string>, tsrc: Option<string>)
    | TEnum(values: seq<Expr>, tsrc: Option<string>)
    | TRange(start: Expr, stop: Expr, tsrc: Option<string>)
    | TArray(start: Expr, stop: Expr, elementType: Type, tsrc: Option<string>)
    | TModule(moduleName: Expr, args: seq<Expr>, process: bool, tsrc: Option<string>)

  /** The `precedence` class attribute (model.py:37 and each operator). */
  function UnPrecedence(u: UnOp): nat {
    match u
    case Not => 1
    case Minus => 3
  }

  function BinPrecedence(op: BinOp): nat {
    match op
    case Concat => 2
    case Mult => 4 case Div => 4 case Mod => 4
    case Add => 5 case Sub => 5
    case ShiftL => 6 case ShiftR => 6
    case Union => 7
    case In => 8
    case Eq => 9 case Neq => 9 case Lt => 9 case Gt => 9 case Le => 9 case Ge => 9
    case And => 10
    case Or => 11 case Xor => 11 case Xnor => 11
    case Iff => 13
    case Implies => 14
  }

  /** True for instances of the `Operator` class. */
  predicate IsOperator(e: Expr) {
    e.Unary? || e.Binary? || e.Ite?
  }

  /** `precedence` of an expression; 0 for non-operators (model.py:37). */
  function Precedence(e: Expr): nat {
    match e
    case Unary(u, _, _) => UnPrecedence(u)
    case Binary(op, _, _, _) => BinPrecedence(op)
    case Ite(_, _, _, _) => 12
    case _ => 0
  }

  /** The operators whose `equals` accepts either operand order. */
  predicate IsCommutative(op: BinOp) {
    op in {Mult, Add, Union, Eq, Neq, And, Or, Xor, Xnor, Iff}
  }

  /** The cached source of a node, if any. Integers have none. */
  function SourceOf(e: Expr): Option<string> {
    if e.IntConst? then None else e.src
  }

  /** The node with its `source` attribute set to `s`; a Python int has no
      such attribute and is returned unchanged (parser.py:493-494). */
  function WithSource(e: Expr, s: string): (r: Expr)
    ensures e.IntConst? ==> r == e
    ensures !e.IntConst? ==> SourceOf(r) == Some(s)
    ensures !e.IntConst? ==> r.(src := e.src) == e
  {
    if e.IntConst? then e else e.(src := Some(s))
  }

  function TypeWithSource(t: Type, s: string): (r: Type)
    ensures r.tsrc == Some(s)
    ensures r.(tsrc := t.tsrc) == t
  {
    t.(tsrc := Some(s))
  }

  /** Python truthiness of an optional string: `None` and `""` are false. */
  predicate HasText(o: Option<string>) {
    o.Some? && o.value != ""
  }
}
