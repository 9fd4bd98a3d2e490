/** The ARCTL formula parser (src/tools/arctl/parsing/arctl.py): its
    namedtuple syntax tree and the `arctl`, `logical`, `temporal`, `path`,
    `action` and `atom` productions, read character by character.

    Every literal is matched after skipping the blanks pyparsing skips by
    default (space, tab, newline, carriage return). The first character
    that is not blank decides the production: each alternative of the
    source begins with a distinct literal, and each operand is a formula
    parsed once, so trying `&`, `|`, `->` and `<->` in turn after a
    parenthesised operand is the same as reading that operand once and
    looking at the connective after it. */
module Arctl {
  import opened Wrappers
  import Trimming

  /** The single quote that delimits an atom, given by code point. */
  const Quote: char := 39 as char
  /** The brackets of the grammar, given by code point. */
  const LParen: char := 40 as char
  const RParen: char := 41 as char
  const LBracket: char := 91 as char
  const RBracket: char := 93 as char
  const LAngle: char := 60 as char
  const RAngle: char := 62 as char

  /** The namedtuples of the syntax tree. */
  datatype Formula =
    | Atom(value: string)
    | Not(child: Formula)
    | And(left: Formula, right: Formula)
    | Or(left: Formula, right: Formula)
    | Implies(left: Formula, right: Formula)
    | Iff(left: Formula, right: Formula)
    | A(action: Formula, path: Formula)
    | E(action: Formula, path: Formula)
    | F(child: Formula)
    | G(child: Formula)
    | X(child: Formula)
    | U(left: Formula, right: Formula)
    | W(left: Formula, right: Formula)

  /** A formula and the position right after it. */
  datatype Read = Read(f: Formula, next: nat)

  // ---------------------------------------------------------------------
  // Characters
  // ---------------------------------------------------------------------

  /** pyparsing's default whitespace. */
  predicate IsBlank(c: char) {
    c == ' ' || c == '\t' || c == '\n' || c == '\r'
  }

  /** The first position from `i` on that is not blank. */
  function Skip(s: string, i: nat): (j: nat)
    requires i <= |s|
    ensures i <= j <= |s|
    ensures j == |s| || !IsBlank(s[j])
    decreases |s| - i
  {
    if i < |s| && IsBlank(s[i]) then Skip(s, i + 1) else i
  }

  /** Skipping passes over blanks and nothing else: it stops at the first
      position from `i` on that is not blank, or at the end. */
  lemma {:induction false} SkipPassesBlanks(s: string, i: nat)
    requires i <= |s|
    ensures var j := Skip(s, i);
      && (j == |s| || !IsBlank(s[j]))
      && forall k | i <= k < j :: IsBlank(s[k])
    decreases |s| - i
  {
    if i < |s| && IsBlank(s[i]) {
      SkipPassesBlanks(s, i + 1);
    }
  }

  /** `p` is written at position `i` of `s`. */
  predicate Written(s: string, i: nat, p: string) {
    i + |p| <= |s| && forall k | 0 <= k < |p| :: s[i + k] == p[k]
  }

  /** A literal after blanks: the position after it, if it is there. */
  function Literal(s: string, i: nat, lit: string): (r: Option<nat>)
    requires i <= |s| && |lit| > 0
    ensures r.Some? <==> Written(s, Skip(s, i), lit)
    ensures r.Some? ==> r.value == Skip(s, i) + |lit| && i < r.value <= |s|
  {
    var j := Skip(s, i);
    if Written(s, j, lit) then Some(j + |lit|) else None
  }

  /** The first position from `i` on that holds a quote, or `|s|`. */
  function FindQuote(s: string, i: nat): (e: nat)
    requires i <= |s|
    ensures i <= e <= |s|
    ensures e == |s| || s[e] == Quote
    decreases |s| - i
  {
    if i < |s| && s[i] != Quote then FindQuote(s, i + 1) else i
  }

  // ---------------------------------------------------------------------
  // Shapes
  // ---------------------------------------------------------------------

  /** A path operator: the constructors only `path` builds. */
  predicate IsPathNode(f: Formula) {
    f.F? || f.G? || f.X? || f.U? || f.W?
  }

  /** Text an atom can hold once read: no quote, and no leading blank,
      since `SkipTo` starts after the blanks. */
  predicate AtomText(v: string) {
    (forall k | 0 <= k < |v| :: v[k] != Quote) && (|v| == 0 || !IsBlank(v[0]))
  }

  /** The trees the grammar builds: actions are atoms, the operand of `A`
      and `E` is a path operator and path operators occur nowhere else,
      and every atom holds atom text. */
  predicate WellShaped(f: Formula) {
    match f
    case Atom(v) => AtomText(v)
    case Not(c) => WellShaped(c)
    case And(l, r) => WellShaped(l) && WellShaped(r)
    case Or(l, r) => WellShaped(l) && WellShaped(r)
    case Implies(l, r) => WellShaped(l) && WellShaped(r)
    case Iff(l, r) => WellShaped(l) && WellShaped(r)
    case A(a, p) => a.Atom? && AtomText(a.value) && WellShapedPath(p)
    case E(a, p) => a.Atom? && AtomText(a.value) && WellShapedPath(p)
    case _ => false
  }

  predicate WellShapedPath(p: Formula) {
    match p
    case F(c) => WellShaped(c)
    case G(c) => WellShaped(c)
    case X(c) => WellShaped(c)
    case U(l, r) => WellShaped(l) && WellShaped(r)
    case W(l, r) => WellShaped(l) && WellShaped(r)
    case _ => false
  }

  /** Text without a tab. */
  predicate NoTab(s: string) {
    forall k | 0 <= k < |s| :: s[k] != '\t'
  }

  /** No atom of `f` holds a tab. */
  predicate TabFree(f: Formula) {
    match f
    case Atom(v) => NoTab(v)
    case Not(c) => TabFree(c)
    case And(l, r) => TabFree(l) && TabFree(r)
    case Or(l, r) => TabFree(l) && TabFree(r)
    case Implies(l, r) => TabFree(l) && TabFree(r)
    case Iff(l, r) => TabFree(l) && TabFree(r)
    case A(a, p) => TabFree(a) && TabFree(p)
    case E(a, p) => TabFree(a) && TabFree(p)
    case F(c) => TabFree(c)
    case G(c) => TabFree(c)
    case X(c) => TabFree(c)
    case U(l, r) => TabFree(l) && TabFree(r)
    case W(l, r) => TabFree(l) && TabFree(r)
  }

  /** No quote stands before the one `FindQuote` finds. */
  lemma NoQuoteBefore(s: string, i: nat)
    requires i <= |s|
    ensures forall k | i <= k < FindQuote(s, i) :: s[k] != Quote
    decreases |s| - i
  {
    if i < |s| && s[i] != Quote {
      NoQuoteBefore(s, i + 1);
    }
  }

  /** Blanks before a quote do not move it. */
  lemma SkipQuote(s: string, i: nat)
    requires i <= |s|
    ensures FindQuote(s, Skip(s, i)) == FindQuote(s, i)
    decreases |s| - i
  {
    if i < |s| && IsBlank(s[i]) {
      SkipQuote(s, i + 1);
    }
  }

  // ---------------------------------------------------------------------
  // Productions
  // ---------------------------------------------------------------------

  /** `atom`: a quote, the text up to the next quote (`SkipTo`), and that
      quote. `SkipTo` skips blanks before it starts, so the text loses its
      leading blanks. */
  function ParseAtom(s: string, i: nat): (r: Result<Read>)
    requires i <= |s|
    ensures r.Ok? && NoTab(s) ==> TabFree(r.value.f)
    ensures r.Ok? <==> Skip(s, i) < |s| && s[Skip(s, i)] == Quote && FindQuote(s, Skip(s, i) + 1) < |s|
    ensures r.Ok? ==> i < r.value.next <= |s| && r.value.f.Atom? && AtomText(r.value.f.value)
    ensures r.Ok? ==> s[r.value.next - 1] == Quote
  {
    var j := Skip(s, i);
    if !(j < |s| && s[j] == Quote) then Err("expected a quote")
    else
      var k := Skip(s, j + 1);
      var e := FindQuote(s, k);
      assert FindQuote(s, j + 1) == e by { SkipQuote(s, j + 1); }
      if e == |s| then Err("expected a closing quote")
      else
        assert AtomText(s[k..e]) by { NoQuoteBefore(s, k); }
        Ok(Read(Atom(s[k..e]), e + 1))
  }

  /** `action = Suppress("<") + atom + Suppress(">")`. */
  function ParseAction(s: string, i: nat): (r: Result<Read>)
    requires i <= |s|
    ensures r.Ok? && NoTab(s) ==> TabFree(r.value.f)
    ensures r.Ok? ==> i < r.value.next <= |s| && r.value.f.Atom? && AtomText(r.value.f.value)
  {
    match Literal(s, i, "<")
    case None => Err("expected <")
    case Some(j) =>
      var a :- ParseAtom(s, j);
      Close(s, a.f, a.next, ">")
  }

  datatype Connective = AndOp | OrOp | ImpliesOp | IffOp

  /** The connective after a parenthesised left operand, in the order the
      alternatives of `logical` try them. */
  function ReadConnective(s: string, i: nat): (r: Option<(Connective, nat)>)
    requires i <= |s|
    ensures r.Some? ==> i < r.value.1 <= |s|
  {
    if Literal(s, i, "&").Some? then Some((AndOp, Literal(s, i, "&").value))
    else if Literal(s, i, "|").Some? then Some((OrOp, Literal(s, i, "|").value))
    else if Literal(s, i, "->").Some? then Some((ImpliesOp, Literal(s, i, "->").value))
    else if Literal(s, i, "<->").Some? then Some((IffOp, Literal(s, i, "<->").value))
    else None
  }

  function Connect(c: Connective, l: Formula, r: Formula): Formula {
    match c
    case AndOp => And(l, r)
    case OrOp => Or(l, r)
    case ImpliesOp => Implies(l, r)
    case IffOp => Iff(l, r)
  }

  /** `arctl << (logical | temporal | atom)`: the first character that is
      not blank picks the production. */
  function ParseFormula(s: string, i: nat): (r: Result<Read>)
    requires i <= |s|
    ensures r.Ok? && NoTab(s) ==> TabFree(r.value.f)
    ensures r.Ok? ==> i < r.value.next <= |s| && WellShaped(r.value.f)
    decreases |s| - i, 3
  {
    var j := Skip(s, i);
    if j == |s| then Err("expected a formula")
    else if s[j] == '~' then ParseNot(s, j)
    else if s[j] == LParen then ParseConnected(s, j)
    else if s[j] == 'A' || s[j] == 'E' then ParseTemporal(s, j)
    else ParseAtom(s, j)
  }

  /** `not_ = "~" + arctl`, the `~` at `j`. */
  function ParseNot(s: string, j: nat): (r: Result<Read>)
    requires j < |s|
    ensures r.Ok? && NoTab(s) ==> TabFree(r.value.f)
    ensures r.Ok? ==> j < r.value.next <= |s| && r.value.f.Not? && WellShaped(r.value.f)
    decreases |s| - j, 2
  {
    var c :- ParseFormula(s, j + 1);
    Ok(Read(Not(c.f), c.next))
  }

  /** `and_ | or_ | implies | iff`, the `(` at `j`. */
  function ParseConnected(s: string, j: nat): (r: Result<Read>)
    requires j < |s|
    ensures r.Ok? && NoTab(s) ==> TabFree(r.value.f)
    ensures r.Ok? ==> j < r.value.next <= |s| && WellShaped(r.value.f)
    ensures r.Ok? ==> r.value.f.And? || r.value.f.Or? || r.value.f.Implies? || r.value.f.Iff?
    decreases |s| - j, 2
  {
    var l :- ParseFormula(s, j + 1);
    ParseConnective(s, j, l)
  }

  /** The connective, the right operand and the `)` after the left
      operand `l` of the formula opened at `j`. */
  function ParseConnective(s: string, j: nat, l: Read): (r: Result<Read>)
    requires j < l.next <= |s|
    ensures r.Ok? ==> l.next < r.value.next <= |s| && IsConnected(r.value.f)
    ensures r.Ok? ==> r.value.f.left == l.f && WellShaped(r.value.f.right)
    ensures r.Ok? && NoTab(s) ==> TabFree(r.value.f.right)
    decreases |s| - j, 1
  {
    match ReadConnective(s, l.next)
    case None => Err("expected &, |, -> or <->")
    case Some((op, k)) =>
      var r :- ParseFormula(s, k);
      Close(s, Connect(op, l.f, r.f), r.next, ")")
  }

  /** The formula `f` once the closing literal after position `i` is
      there. */
  function Close(s: string, f: Formula, i: nat, lit: string): (r: Result<Read>)
    requires i <= |s| && |lit| > 0
    ensures r.Ok? <==> Written(s, Skip(s, i), lit)
    ensures r.Ok? ==> r.value.f == f && i < r.value.next <= |s|
  {
    match Literal(s, i, lit)
    case None => Err("expected " + lit)
    case Some(e) => Ok(Read(f, e))
  }

  /** `temporal = a | e`, the `A` or `E` at `j`. */
  function ParseTemporal(s: string, j: nat): (r: Result<Read>)
    requires j < |s| && (s[j] == 'A' || s[j] == 'E')
    ensures r.Ok? && NoTab(s) ==> TabFree(r.value.f)
    ensures r.Ok? ==> j < r.value.next <= |s| && WellShaped(r.value.f)
    ensures r.Ok? ==> (r.value.f.A? <==> s[j] == 'A') && (r.value.f.E? <==> s[j] == 'E')
    decreases |s| - j, 2
  {
    var a :- ParseAction(s, j + 1);
    var p :- ParsePath(s, a.next);
    Ok(Read(if s[j] == 'A' then A(a.f, p.f) else E(a.f, p.f), p.next))
  }

  /** `path = f | g | x | u | w`. */
  function ParsePath(s: string, i: nat): (r: Result<Read>)
    requires i <= |s|
    ensures r.Ok? && NoTab(s) ==> TabFree(r.value.f)
    ensures r.Ok? ==> i < r.value.next <= |s| && WellShapedPath(r.value.f)
    decreases |s| - i, 3
  {
    var j := Skip(s, i);
    if j == |s| then Err("expected a path")
    else if s[j] == 'F' || s[j] == 'G' || s[j] == 'X' then ParsePrefixed(s, j)
    else if s[j] == LBracket then ParseUntil(s, j)
    else Err("expected a path")
  }

  /** `f | g | x`, the operator at `j`. */
  function ParsePrefixed(s: string, j: nat): (r: Result<Read>)
    requires j < |s| && (s[j] == 'F' || s[j] == 'G' || s[j] == 'X')
    ensures r.Ok? && NoTab(s) ==> TabFree(r.value.f)
    ensures r.Ok? ==> j < r.value.next <= |s| && WellShapedPath(r.value.f)
    ensures r.Ok? ==> (r.value.f.F? <==> s[j] == 'F') && (r.value.f.G? <==> s[j] == 'G') && (r.value.f.X? <==> s[j] == 'X')
    decreases |s| - j, 2
  {
    var c :- ParseFormula(s, j + 1);
    Ok(Read(if s[j] == 'F' then F(c.f) else if s[j] == 'G' then G(c.f) else X(c.f), c.next))
  }

  /** `U(l, r)` when the operator read is `U`, `W(l, r)` otherwise. */
  function UntilNode(op: char, l: Formula, r: Formula): (p: Formula)
    ensures p.U? || p.W?
    ensures p.left == l && p.right == r
  {
    if op == 'U' then U(l, r) else W(l, r)
  }

  /** `u | w`, the `[` at `j`. */
  function ParseUntil(s: string, j: nat): (r: Result<Read>)
    requires j < |s|
    ensures r.Ok? && NoTab(s) ==> TabFree(r.value.f)
    ensures r.Ok? ==> j < r.value.next <= |s| && WellShapedPath(r.value.f) && (r.value.f.U? || r.value.f.W?)
    decreases |s| - j, 2
  {
    var l :- ParseFormula(s, j + 1);
    ParseUntilRest(s, j, l)
  }

  /** The `U` or `W`, the right operand and the `]` after the left operand
      `l` of the path opened at `j`. */
  function ParseUntilRest(s: string, j: nat, l: Read): (r: Result<Read>)
    requires j < l.next <= |s|
    ensures r.Ok? ==> l.next < r.value.next <= |s| && (r.value.f.U? || r.value.f.W?)
    ensures r.Ok? ==> r.value.f.left == l.f && WellShaped(r.value.f.right)
    ensures r.Ok? && NoTab(s) ==> TabFree(r.value.f.right)
    decreases |s| - j, 1
  {
    var k := Skip(s, l.next);
    if !(k < |s| && (s[k] == 'U' || s[k] == 'W')) then Err("expected U or W")
    else
      var r :- ParseFormula(s, k + 1);
      Close(s, UntilNode(s[k], l.f, r.f), r.next, "]")
  }

  /** `arctl.parseString(s)[0]`: pyparsing first expands the tabs of `s`
      (the grammar never asks it to keep them), then reads the formula at
      the start; text after it is ignored. So no atom it returns holds a
      tab. */
  function ParseString(s: string): (r: Result<Formula>)
    ensures r.Ok? ==> WellShaped(r.value) && TabFree(r.value)
  {
    var t := Trimming.ExpandTabs(s);
    var r :- ParseFormula(t, 0);
    Ok(r.f)
  }

  // ---------------------------------------------------------------------
  // Printing
  // ---------------------------------------------------------------------

  function Symbol(c: Connective): string {
    match c
    case AndOp => "&"
    case OrOp => "|"
    case ImpliesOp => "->"
    case IffOp => "<->"
  }

  /** The blank-separated connective of a parenthesised formula. */
  function Infix(c: Connective): string {
    " " + Symbol(c) + " "
  }

  predicate IsConnected(f: Formula) {
    f.And? || f.Or? || f.Implies? || f.Iff?
  }

  /** The connective of a parenthesised formula. */
  function Op(f: Formula): (c: Connective)
    requires IsConnected(f)
    ensures Connect(c, f.left, f.right) == f
  {
    match f
    case And(_, _) => AndOp
    case Or(_, _) => OrOp
    case Implies(_, _) => ImpliesOp
    case _ => IffOp
  }

  /** `~`, `F`, `G` and `X`: one character, then one operand. */
  predicate IsUnary(f: Formula) {
    f.Not? || f.F? || f.G? || f.X?
  }

  predicate IsTemporal(f: Formula) {
    f.A? || f.E?
  }

  /** The character a prefixed formula starts with. */
  function Head(f: Formula): char
    requires IsUnary(f) || IsTemporal(f)
  {
    match f
    case Not(_) => '~'
    case F(_) => 'F'
    case G(_) => 'G'
    case X(_) => 'X'
    case A(_, _) => 'A'
    case _ => 'E'
  }

  /** What stands between the operands of `U` and `W`. */
  function Sep(f: Formula): string
    requires f.U? || f.W?
  {
    if f.U? then " U " else " W "
  }

  /** A formula in the syntax the grammar reads: binary connectives fully
      parenthesised, actions in angle brackets, `U` and `W` in square
      brackets. */
  function Print(f: Formula): string {
    if f.Atom? then [Quote] + f.value + [Quote]
    else if IsUnary(f) then [Head(f)] + Print(f.child)
    else if IsConnected(f) then "(" + Print(f.left) + Infix(Op(f)) + Print(f.right) + ")"
    else if IsTemporal(f) then [Head(f)] + "<" + Print(f.action) + ">" + Print(f.path)
    else "[" + Print(f.left) + Sep(f) + Print(f.right) + "]"
  }

  // ---------------------------------------------------------------------
  // Where a printed formula stands
  // ---------------------------------------------------------------------

  /** The number of characters `Print` writes for `f`. */
  function Width(f: Formula): nat {
    if f.Atom? then |f.value| + 2
    else if IsUnary(f) then Width(f.child) + 1
    else if IsConnected(f) then Width(f.left) + |Infix(Op(f))| + Width(f.right) + 2
    else if IsTemporal(f) then Width(f.action) + Width(f.path) + 3
    else Width(f.left) + Width(f.right) + 5
  }

  /** `'v'` at position `i`. */
  predicate Quoted(s: string, i: nat, v: string) {
    i + |v| + 1 < |s| && s[i] == Quote && Written(s, i + 1, v) && s[i + |v| + 1] == Quote
  }

  /** `open`, then `wl` characters, `mid`, `wr` characters and `close`,
      from position `i` on. */
  predicate Bracketed(s: string, i: nat, open: char, wl: nat, mid: string, wr: nat, close: char) {
    i + 1 + wl + |mid| + wr < |s| && s[i] == open && Written(s, i + 1 + wl, mid)
    && s[i + 1 + wl + |mid| + wr] == close
  }

  /** What `Print(f)` written at `i` says, position by position. */
  predicate Renders(s: string, i: nat, f: Formula)
    decreases f
  {
    if f.Atom? then Quoted(s, i, f.value)
    else if IsUnary(f) then i < |s| && s[i] == Head(f) && Renders(s, i + 1, f.child)
    else if IsConnected(f) then
      Bracketed(s, i, LParen, Width(f.left), Infix(Op(f)), Width(f.right), RParen)
      && Renders(s, i + 1, f.left) && Renders(s, i + 1 + Width(f.left) + |Infix(Op(f))|, f.right)
    else if IsTemporal(f) then
      i + 1 < |s| && s[i] == Head(f) && Bracketed(s, i + 1, LAngle, Width(f.action), "", 0, RAngle)
      && Renders(s, i + 2, f.action) && Renders(s, i + 3 + Width(f.action), f.path)
    else
      Bracketed(s, i, LBracket, Width(f.left), Sep(f), Width(f.right), RBracket)
      && Renders(s, i + 1, f.left) && Renders(s, i + 4 + Width(f.left), f.right)
  }

  // ---------------------------------------------------------------------
  // Printed text, taken apart
  // ---------------------------------------------------------------------

  lemma WrittenSplit(s: string, i: nat, x: string, y: string)
    requires Written(s, i, x + y)
    ensures Written(s, i, x) && Written(s, i + |x|, y)
  {
    forall k | 0 <= k < |x|
      ensures s[i + k] == x[k]
    {
      assert (x + y)[k] == x[k];
    }
    forall k | 0 <= k < |y|
      ensures s[i + |x| + k] == y[k]
    {
      assert (x + y)[|x| + k] == y[k];
    }
  }

  /** The five parts of `open + a + sep + b + close`, where they are. */
  lemma WrittenWrap(s: string, i: nat, open: string, a: string, sep: string, b: string, close: string)
    requires Written(s, i, open + a + sep + b + close)
    ensures Written(s, i, open)
    ensures Written(s, i + |open|, a)
    ensures Written(s, i + |open| + |a|, sep)
    ensures Written(s, i + |open| + |a| + |sep|, b)
    ensures Written(s, i + |open| + |a| + |sep| + |b|, close)
  {
    WrittenSplit(s, i, open + a + sep + b, close);
    WrittenSplit(s, i, open + a + sep, b);
    WrittenSplit(s, i, open + a, sep);
    WrittenSplit(s, i, open, a);
  }

  lemma QuotedText(s: string, i: nat, v: string)
    requires Written(s, i, [Quote] + v + [Quote])
    ensures Quoted(s, i, v)
  {
    WrittenSplit(s, i, [Quote] + v, [Quote]);
    WrittenSplit(s, i, [Quote], v);
    assert s[i + 0] == [Quote][0];
    assert s[i + |[Quote] + v| + 0] == [Quote][0];
  }

  lemma HeadText(s: string, i: nat, head: char, c: string)
    requires Written(s, i, [head] + c)
    ensures i < |s| && s[i] == head && Written(s, i + 1, c)
  {
    WrittenSplit(s, i, [head], c);
    assert s[i] == [head][0];
  }

  lemma WrappedText(s: string, i: nat, open: string, l: string, t: string, r: string, close: string)
    requires |open| == 1 && |close| == 1 && Written(s, i, open + l + t + r + close)
    ensures Bracketed(s, i, open[0], |l|, t, |r|, close[0])
    ensures Written(s, i + 1, l) && Written(s, i + 1 + |l| + |t|, r)
  {
    WrittenWrap(s, i, open, l, t, r, close);
  }

  lemma TemporalText(s: string, i: nat, head: char, a: string, p: string)
    requires Written(s, i, [head] + "<" + a + ">" + p)
    ensures i + 1 < |s| && s[i] == head && Bracketed(s, i + 1, LAngle, |a|, "", 0, RAngle)
    ensures Written(s, i + 2, a) && Written(s, i + 3 + |a|, p)
  {
    WrittenWrap(s, i, [head], "<", a, ">", p);
    assert s[i] == [head][0];
    assert s[i + 1] == "<"[0];
    assert s[i + 2 + |a|] == ">"[0];
  }

  /** `Print(f)` is `Width(f)` characters long, and `f` stands at `i`. */
  predicate Printed(f: Formula, s: string, i: nat) {
    Width(f) == |Print(f)| && Renders(s, i, f)
  }

  /** Printed text says, position by position, what `Renders` asks, and is
      `Width` characters long. */
  lemma {:induction false} PrintRenders(f: Formula, s: string, i: nat)
    requires Written(s, i, Print(f))
    ensures Printed(f, s, i)
    decreases f, 1
  {
    if f.Atom? {
      QuotedText(s, i, f.value);
    } else if IsUnary(f) {
      PrintRendersUnary(f, s, i);
    } else if IsConnected(f) {
      PrintRendersConnected(f, s, i);
    } else if IsTemporal(f) {
      PrintRendersTemporal(f, s, i);
    } else {
      PrintRendersUntil(f, s, i);
    }
  }

  lemma {:induction false} PrintRendersUnary(f: Formula, s: string, i: nat)
    requires IsUnary(f) && Written(s, i, Print(f))
    ensures Printed(f, s, i)
    decreases f, 0
  {
    HeadText(s, i, Head(f), Print(f.child));
    PrintRenders(f.child, s, i + 1);
  }

  lemma {:induction false} PrintRendersConnected(f: Formula, s: string, i: nat)
    requires IsConnected(f) && Written(s, i, Print(f))
    ensures Printed(f, s, i)
    decreases f, 0
  {
    WrappedText(s, i, "(", Print(f.left), Infix(Op(f)), Print(f.right), ")");
    PrintRenders(f.left, s, i + 1);
    PrintRenders(f.right, s, i + 1 + |Print(f.left)| + |Infix(Op(f))|);
  }

  lemma {:induction false} PrintRendersTemporal(f: Formula, s: string, i: nat)
    requires IsTemporal(f) && Written(s, i, Print(f))
    ensures Printed(f, s, i)
    decreases f, 0
  {
    TemporalText(s, i, Head(f), Print(f.action), Print(f.path));
    PrintRenders(f.action, s, i + 2);
    PrintRenders(f.path, s, i + 3 + |Print(f.action)|);
  }

  lemma {:induction false} PrintRendersUntil(f: Formula, s: string, i: nat)
    requires (f.U? || f.W?) && Written(s, i, Print(f))
    ensures Printed(f, s, i)
    decreases f, 0
  {
    WrappedText(s, i, "[", Print(f.left), Sep(f), Print(f.right), "]");
    PrintRenders(f.left, s, i + 1);
    PrintRenders(f.right, s, i + 4 + |Print(f.left)|);
  }

  // ---------------------------------------------------------------------
  // Reading what stands where
  // ---------------------------------------------------------------------

  /** Reading a formula at `i` gives `f` and ends at `n`. */
  predicate Parses(s: string, i: nat, f: Formula, n: nat) {
    i <= |s| && ParseFormula(s, i) == Ok(Read(f, n))
  }

  /** The same for a path operand. */
  predicate ParsesPath(s: string, i: nat, p: Formula, n: nat) {
    i <= |s| && ParsePath(s, i) == Ok(Read(p, n))
  }

  /** The connective, right operand and `)` after `l` give `f`, ending
      at `n`. */
  predicate ConnectiveGives(s: string, j: nat, l: Read, f: Formula, n: nat) {
    j < l.next <= |s| && ParseConnective(s, j, l) == Ok(Read(f, n))
  }

  /** ` U ` or ` W `, the right operand and `]` after `l` give `p`, ending
      at `n`. */
  predicate UntilRestGives(s: string, j: nat, l: Read, p: Formula, n: nat) {
    j < l.next <= |s| && ParseUntilRest(s, j, l) == Ok(Read(p, n))
  }

  lemma SkipNonBlank(s: string, i: nat)
    requires i < |s| && !IsBlank(s[i])
    ensures Skip(s, i) == i
  {
  }

  /** A one-character literal where it stands. */
  lemma LiteralAt(s: string, i: nat, lit: string)
    requires |lit| == 1 && i < |s| && s[i] == lit[0] && !IsBlank(lit[0])
    ensures Literal(s, i, lit) == Some(i + 1)
  {
    SkipNonBlank(s, i);
  }

  /** A one-character closing literal where it stands. */
  lemma CloseAt(s: string, f: Formula, i: nat, lit: string)
    requires |lit| == 1 && i < |s| && s[i] == lit[0] && !IsBlank(lit[0])
    ensures Close(s, f, i, lit) == Ok(Read(f, i + 1))
  {
    LiteralAt(s, i, lit);
  }

  /** Reading starts by skipping blanks, so a formula read from `m` reads
      the same from the blank at `k == m - 1`. */
  lemma BlankThen(s: string, k: nat, m: nat, f: Formula, n: nat)
    requires k < |s| && IsBlank(s[k]) && m == k + 1 && Parses(s, m, f, n)
    ensures Parses(s, k, f, n)
  {
    FormulaAfterBlank(s, k);
  }

  lemma FormulaAfterBlank(s: string, i: nat)
    requires i < |s| && IsBlank(s[i])
    ensures ParseFormula(s, i) == ParseFormula(s, i + 1)
  {
    assert Skip(s, i) == Skip(s, i + 1);
  }

  lemma FindQuoteAt(s: string, i: nat, e: nat)
    requires i <= e < |s| && s[e] == Quote
    requires forall k | i <= k < e :: s[k] != Quote
    ensures FindQuote(s, i) == e
    decreases e - i
  {
    if i < e {
      FindQuoteAt(s, i + 1, e);
    }
  }

  /** A quoted atom text reads back as itself. */
  lemma ReadsAtom(s: string, i: nat, v: string)
    requires AtomText(v) && Quoted(s, i, v)
    ensures ParseAtom(s, i) == Ok(Read(Atom(v), i + |v| + 2))
  {
    SkipNonBlank(s, i);
    if |v| > 0 {
      assert s[i + 1] == v[0];
    }
    SkipNonBlank(s, i + 1);
    forall k | i + 1 <= k < i + 1 + |v|
      ensures s[k] != Quote
    {
      assert s[k] == v[k - (i + 1)];
    }
    FindQuoteAt(s, i + 1, i + 1 + |v|);
    assert s[i + 1..i + 1 + |v|] == v;
  }

  /** The connective printed at `a` is the one read there. */
  lemma ReadsInfix(s: string, a: nat, c: Connective)
    requires Written(s, a, Infix(c))
    ensures ReadConnective(s, a) == Some((c, a + |Infix(c)| - 1))
    ensures s[a + |Infix(c)| - 1] == ' '
  {
    WrittenWrap(s, a, " ", Symbol(c), " ", "", "");
    assert s[a] == " "[0] && s[a + 1] == Symbol(c)[0];
    assert s[a + 1 + |Symbol(c)|] == " "[0];
    SkipNonBlank(s, a + 1);
    assert Skip(s, a) == a + 1;
    assert Literal(s, a, Symbol(c)) == Some(a + 1 + |Symbol(c)|);
    match c
    case AndOp =>
    case OrOp =>
      assert s[a + 1] != "&"[0];
    case ImpliesOp =>
      assert s[a + 1] != "&"[0] && s[a + 1] != "|"[0];
    case IffOp =>
      assert s[a + 1] != "&"[0] && s[a + 1] != "|"[0] && s[a + 1] != "->"[0];
  }

  // The first character picks the production.

  lemma NotFirst(s: string, i: nat)
    requires i < |s| && s[i] == '~'
    ensures ParseFormula(s, i) == ParseNot(s, i)
  {
    SkipNonBlank(s, i);
  }

  lemma ParenFirst(s: string, i: nat)
    requires i < |s| && s[i] == LParen
    ensures ParseFormula(s, i) == ParseConnected(s, i)
  {
    SkipNonBlank(s, i);
  }

  lemma TemporalFirst(s: string, i: nat)
    requires i < |s| && (s[i] == 'A' || s[i] == 'E')
    ensures ParseFormula(s, i) == ParseTemporal(s, i)
  {
    SkipNonBlank(s, i);
  }

  lemma QuoteFirst(s: string, i: nat)
    requires i < |s| && s[i] == Quote
    ensures ParseFormula(s, i) == ParseAtom(s, i)
  {
    SkipNonBlank(s, i);
  }

  lemma PrefixFirst(s: string, i: nat)
    requires i < |s| && (s[i] == 'F' || s[i] == 'G' || s[i] == 'X')
    ensures ParsePath(s, i) == ParsePrefixed(s, i)
  {
    SkipNonBlank(s, i);
  }

  lemma BracketFirst(s: string, i: nat)
    requires i < |s| && s[i] == LBracket
    ensures ParsePath(s, i) == ParseUntil(s, i)
  {
    SkipNonBlank(s, i);
  }

  // One production, unfolded once.

  lemma NotBody(s: string, j: nat, c: Read)
    requires j < |s| && ParseFormula(s, j + 1) == Ok(c)
    ensures ParseNot(s, j) == Ok(Read(Not(c.f), c.next))
  {
  }

  lemma ConnectedBody(s: string, j: nat, l: Read)
    requires j < |s| && ParseFormula(s, j + 1) == Ok(l)
    ensures ParseConnected(s, j) == ParseConnective(s, j, l)
  {
  }

  lemma ConnectiveBody(s: string, j: nat, l: Read, c: Connective, k: nat, r: Read)
    requires j < l.next <= |s|
    requires ReadConnective(s, l.next) == Some((c, k))
    requires k <= |s| && ParseFormula(s, k) == Ok(r)
    ensures ParseConnective(s, j, l) == Close(s, Connect(c, l.f, r.f), r.next, ")")
  {
  }

  lemma ActionBody(s: string, i: nat, a: Read)
    requires i < |s| && Literal(s, i, "<") == Some(i + 1)
    requires ParseAtom(s, i + 1) == Ok(a)
    ensures ParseAction(s, i) == Close(s, a.f, a.next, ">")
  {
  }

  lemma TemporalBody(s: string, j: nat, a: Read, p: Read)
    requires j < |s| && (s[j] == 'A' || s[j] == 'E')
    requires ParseAction(s, j + 1) == Ok(a)
    requires a.next <= |s| && ParsePath(s, a.next) == Ok(p)
    ensures ParseTemporal(s, j) == Ok(Read(if s[j] == 'A' then A(a.f, p.f) else E(a.f, p.f), p.next))
  {
  }

  lemma PrefixedBody(s: string, j: nat, c: Read)
    requires j < |s| && (s[j] == 'F' || s[j] == 'G' || s[j] == 'X')
    requires ParseFormula(s, j + 1) == Ok(c)
    ensures ParsePrefixed(s, j) == Ok(Read(if s[j] == 'F' then F(c.f) else if s[j] == 'G' then G(c.f) else X(c.f), c.next))
  {
  }

  lemma UntilBody(s: string, j: nat, l: Read)
    requires j < |s| && ParseFormula(s, j + 1) == Ok(l)
    ensures ParseUntil(s, j) == ParseUntilRest(s, j, l)
  {
  }

  lemma UntilRestBody(s: string, j: nat, l: Read, r: Read)
    requires j < l.next && l.next + 2 <= |s|
    requires Skip(s, l.next) == l.next + 1 && (s[l.next + 1] == 'U' || s[l.next + 1] == 'W')
    requires ParseFormula(s, l.next + 2) == Ok(r)
    ensures ParseUntilRest(s, j, l) == Close(s, UntilNode(s[l.next + 1], l.f, r.f), r.next, "]")
  {
  }

  // Each production read from what its parts read.

  lemma NotStep(s: string, i: nat, c: Read)
    requires i < |s| && s[i] == '~'
    requires ParseFormula(s, i + 1) == Ok(c)
    ensures ParseFormula(s, i) == Ok(Read(Not(c.f), c.next))
  {
    NotFirst(s, i);
    NotBody(s, i, c);
  }

  lemma ConnectiveStep(s: string, j: nat, l: Read, c: Connective, k: nat, r: Formula, e: nat)
    requires j < l.next <= |s|
    requires ReadConnective(s, l.next) == Some((c, k))
    requires Parses(s, k, r, e) && e < |s| && s[e] == RParen
    ensures ConnectiveGives(s, j, l, Connect(c, l.f, r), e + 1)
  {
    ConnectiveBody(s, j, l, c, k, Read(r, e));
    CloseAt(s, Connect(c, l.f, r), e, ")");
  }

  /** The printed connective, the right operand and `)` after a left
      operand. */
  lemma InfixStep(s: string, j: nat, l: Read, c: Connective, r: Formula, e: nat)
    requires j < l.next <= |s|
    requires Written(s, l.next, Infix(c))
    requires Parses(s, l.next + |Infix(c)|, r, e) && e < |s| && s[e] == RParen
    ensures ConnectiveGives(s, j, l, Connect(c, l.f, r), e + 1)
  {
    var k := l.next + |Infix(c)| - 1;
    ReadsInfix(s, l.next, c);
    assert IsBlank(s[k]);
    BlankThen(s, k, k + 1, r, e);
    ConnectiveStep(s, j, l, c, k, r, e);
  }


  lemma ConnectedStep(s: string, i: nat, l: Read, f: Formula, n: nat)
    requires i < |s| && s[i] == LParen
    requires Parses(s, i + 1, l.f, l.next)
    requires ConnectiveGives(s, i, l, f, n)
    ensures Parses(s, i, f, n)
  {
    ParenFirst(s, i);
    ConnectedBody(s, i, l);
  }

  lemma ActionStep(s: string, i: nat, a: Read)
    requires i + 1 < |s| && s[i] == LAngle
    requires ParseAtom(s, i + 1) == Ok(a)
    requires a.next < |s| && s[a.next] == RAngle
    ensures ParseAction(s, i) == Ok(Read(a.f, a.next + 1))
  {
    LiteralAt(s, i, "<");
    ActionBody(s, i, a);
    CloseAt(s, a.f, a.next, ">");
  }

  lemma TemporalStep(s: string, i: nat, a: Read, p: Read)
    requires i < |s| && (s[i] == 'A' || s[i] == 'E')
    requires ParseAction(s, i + 1) == Ok(a)
    requires a.next <= |s| && ParsePath(s, a.next) == Ok(p)
    ensures ParseFormula(s, i) == Ok(Read(if s[i] == 'A' then A(a.f, p.f) else E(a.f, p.f), p.next))
  {
    TemporalFirst(s, i);
    TemporalBody(s, i, a, p);
  }

  /** `A<'v'>` or `E<'v'>` followed by a path. */
  lemma TemporalFrom(s: string, i: nat, v: string, p: Read)
    requires i + 1 < |s| && (s[i] == 'A' || s[i] == 'E') && s[i + 1] == LAngle
    requires AtomText(v) && Quoted(s, i + 2, v)
    requires i + 4 + |v| < |s| && s[i + 4 + |v|] == RAngle
    requires ParsePath(s, i + 5 + |v|) == Ok(p)
    ensures ParseFormula(s, i) == Ok(Read(if s[i] == 'A' then A(Atom(v), p.f) else E(Atom(v), p.f), p.next))
  {
    ReadsAtom(s, i + 2, v);
    ActionStep(s, i + 1, Read(Atom(v), i + 4 + |v|));
    TemporalStep(s, i, Read(Atom(v), i + 5 + |v|), p);
  }

  lemma PrefixedStep(s: string, i: nat, c: Read)
    requires i < |s| && (s[i] == 'F' || s[i] == 'G' || s[i] == 'X')
    requires ParseFormula(s, i + 1) == Ok(c)
    ensures ParsePath(s, i) == Ok(Read(if s[i] == 'F' then F(c.f) else if s[i] == 'G' then G(c.f) else X(c.f), c.next))
  {
    PrefixFirst(s, i);
    PrefixedBody(s, i, c);
  }

  lemma UntilRestStep(s: string, j: nat, l: Read, r: Formula, e: nat)
    requires j < l.next && l.next + 2 <= |s|
    requires Skip(s, l.next) == l.next + 1 && (s[l.next + 1] == 'U' || s[l.next + 1] == 'W')
    requires Parses(s, l.next + 2, r, e) && e < |s| && s[e] == RBracket
    ensures UntilRestGives(s, j, l, UntilNode(s[l.next + 1], l.f, r), e + 1)
  {
    UntilRestBody(s, j, l, Read(r, e));
    CloseAt(s, UntilNode(s[l.next + 1], l.f, r), e, "]");
  }

  /** The printed ` U ` or ` W `, the right operand and `]` after a left
      operand. */
  lemma SepStep(s: string, j: nat, l: Read, sep: string, r: Formula, e: nat)
    requires sep == " U " || sep == " W "
    requires j < l.next && Written(s, l.next, sep)
    requires Parses(s, l.next + 3, r, e) && e < |s| && s[e] == RBracket
    ensures UntilRestGives(s, j, l, UntilNode(sep[1], l.f, r), e + 1)
  {
    assert s[l.next] == sep[0] && s[l.next + 1] == sep[1] && s[l.next + 2] == sep[2];
    SkipNonBlank(s, l.next + 1);
    assert Skip(s, l.next) == l.next + 1;
    BlankThen(s, l.next + 2, l.next + 3, r, e);
    UntilRestStep(s, j, l, r, e);
  }

  lemma UntilStep(s: string, i: nat, l: Read, p: Formula, n: nat)
    requires i < |s| && s[i] == LBracket
    requires Parses(s, i + 1, l.f, l.next)
    requires UntilRestGives(s, i, l, p, n)
    ensures ParsesPath(s, i, p, n)
  {
    BracketFirst(s, i);
    UntilBody(s, i, l);
  }

  // Formulas that stand where `Renders` says, read back.

  /** `f` is well shaped, stands at `i` and ends at `n`. */
  predicate Ready(f: Formula, s: string, i: nat, n: nat) {
    WellShaped(f) && Renders(s, i, f) && n == i + Width(f)
  }

  /** The same for a path operand. */
  predicate ReadyPath(p: Formula, s: string, i: nat, n: nat) {
    WellShapedPath(p) && Renders(s, i, p) && n == i + Width(p)
  }

  lemma NotParts(f: Formula, s: string, i: nat, n: nat)
    requires f.Not? && Ready(f, s, i, n)
    ensures i < |s| && s[i] == '~' && Ready(f.child, s, i + 1, n)
  {
  }

  lemma NotFrom(s: string, i: nat, f: Formula, n: nat)
    requires f.Not? && i < |s| && s[i] == '~' && Parses(s, i + 1, f.child, n)
    ensures Parses(s, i, f, n)
  {
    NotStep(s, i, Read(f.child, n));
  }

  /** The parts of a connected formula standing at `i`: its left operand
      ends at `a`, the connective ends at `b`, the right operand ends one
      short of `n`. */
  lemma ConnectedParts(f: Formula, s: string, i: nat, n: nat, a: nat, b: nat)
    requires IsConnected(f) && Ready(f, s, i, n)
    requires a == i + 1 + Width(f.left) && b == a + |Infix(Op(f))|
    ensures s[i] == LParen && 0 < n <= |s| && s[n - 1] == RParen
    ensures Written(s, a, Infix(Op(f)))
    ensures Ready(f.left, s, i + 1, a) && Ready(f.right, s, b, n - 1)
  {
  }

  /** `(`, the left operand of `f`, its printed connective, its right
      operand and `)`. */
  lemma ConnectedFrom(s: string, i: nat, f: Formula, a: nat, b: nat, n: nat)
    requires IsConnected(f) && i < a && b == a + |Infix(Op(f))|
    requires i < n <= |s| && s[i] == LParen && s[n - 1] == RParen
    requires Parses(s, i + 1, f.left, a) && Written(s, a, Infix(Op(f)))
    requires Parses(s, b, f.right, n - 1)
    ensures Parses(s, i, f, n)
  {
    var l := Read(f.left, a);
    var c := Op(f);
    assert Connect(c, f.left, f.right) == f;
    assert ConnectiveGives(s, i, l, f, n) by {
      InfixStep(s, i, l, c, f.right, n - 1);
    }
    ConnectedStep(s, i, l, f, n);
  }

  /** The action of `A` or `E`, standing at `i`, is a quoted name. */
  lemma ActionRenders(a: Formula, s: string, i: nat)
    requires a.Atom? && Renders(s, i, a)
    ensures Quoted(s, i, a.value) && Width(a) == |a.value| + 2
  {
  }

  lemma TemporalParts(f: Formula, s: string, i: nat, n: nat, b: nat)
    requires IsTemporal(f) && Ready(f, s, i, n) && b == i + 3 + Width(f.action)
    ensures i + 1 < |s| && (s[i] == 'A' || s[i] == 'E') && s[i + 1] == LAngle
    ensures f.action.Atom? && AtomText(f.action.value) && Quoted(s, i + 2, f.action.value)
    ensures b == i + 5 + |f.action.value| && b <= |s| && s[b - 1] == RAngle
    ensures f == (if s[i] == 'A' then A(f.action, f.path) else E(f.action, f.path))
    ensures ReadyPath(f.path, s, b, n)
  {
    ActionRenders(f.action, s, i + 2);
  }

  lemma TemporalParses(s: string, i: nat, f: Formula, b: nat, n: nat)
    requires IsTemporal(f) && i + 1 < |s| && (s[i] == 'A' || s[i] == 'E') && s[i + 1] == LAngle
    requires f.action.Atom? && AtomText(f.action.value) && Quoted(s, i + 2, f.action.value)
    requires b == i + 5 + |f.action.value| && b <= |s| && s[b - 1] == RAngle
    requires f == (if s[i] == 'A' then A(f.action, f.path) else E(f.action, f.path))
    requires ParsesPath(s, b, f.path, n)
    ensures Parses(s, i, f, n)
  {
    TemporalFrom(s, i, f.action.value, Read(f.path, n));
  }

  lemma PrefixedParts(p: Formula, s: string, i: nat, n: nat)
    requires (p.F? || p.G? || p.X?) && ReadyPath(p, s, i, n)
    ensures i < |s| && s[i] == Head(p) && Ready(p.child, s, i + 1, n)
  {
  }

  lemma PrefixedFrom(s: string, i: nat, p: Formula, n: nat)
    requires (p.F? || p.G? || p.X?) && i < |s| && s[i] == Head(p)
    requires Parses(s, i + 1, p.child, n)
    ensures ParsesPath(s, i, p, n)
  {
    PrefixedStep(s, i, Read(p.child, n));
  }

  /** The parts of an `U` or `W` standing at `i`: its left operand ends at
      `a`, the right operand ends one short of `n`. */
  lemma UntilParts(p: Formula, s: string, i: nat, n: nat, a: nat)
    requires (p.U? || p.W?) && ReadyPath(p, s, i, n) && a == i + 1 + Width(p.left)
    ensures s[i] == LBracket && 0 < n <= |s| && s[n - 1] == RBracket
    ensures Written(s, a, Sep(p))
    ensures Ready(p.left, s, i + 1, a) && Ready(p.right, s, a + 3, n - 1)
  {
  }

  /** `[`, the left operand of `p`, ` U ` or ` W `, its right operand and
      `]`. */
  lemma UntilFrom(s: string, i: nat, p: Formula, a: nat, n: nat)
    requires (p.U? || p.W?) && i < a
    requires i < n <= |s| && s[i] == LBracket && s[n - 1] == RBracket
    requires Parses(s, i + 1, p.left, a) && Written(s, a, Sep(p))
    requires Parses(s, a + 3, p.right, n - 1)
    ensures ParsesPath(s, i, p, n)
  {
    SepStep(s, i, Read(p.left, a), Sep(p), p.right, n - 1);
    assert UntilNode(Sep(p)[1], p.left, p.right) == p;
    UntilStep(s, i, Read(p.left, a), UntilNode(Sep(p)[1], p.left, p.right), n - 1 + 1);
  }

  /** A well-shaped formula standing at `i` is what the grammar reads
      there, and reading ends right after it. */
  lemma {:induction false} RendersParses(f: Formula, s: string, i: nat, n: nat)
    requires Ready(f, s, i, n)
    ensures Parses(s, i, f, n)
    decreases f, 1
  {
    if f.Atom? {
      ReadsAtom(s, i, f.value);
      QuoteFirst(s, i);
    } else if f.Not? {
      RendersNot(f, s, i, n);
    } else if IsConnected(f) {
      RendersConnected(f, s, i, n);
    } else {
      RendersTemporal(f, s, i, n);
    }
  }

  lemma {:induction false} RendersNot(f: Formula, s: string, i: nat, n: nat)
    requires f.Not? && Ready(f, s, i, n)
    ensures Parses(s, i, f, n)
    decreases f, 0
  {
    NotParts(f, s, i, n);
    RendersParses(f.child, s, i + 1, n);
    NotFrom(s, i, f, n);
  }

  lemma {:induction false} RendersConnected(f: Formula, s: string, i: nat, n: nat)
    requires IsConnected(f) && Ready(f, s, i, n)
    ensures Parses(s, i, f, n)
    decreases f, 0
  {
    var a := i + 1 + Width(f.left);
    var b := a + |Infix(Op(f))|;
    ConnectedParts(f, s, i, n, a, b);
    RendersParses(f.left, s, i + 1, a);
    RendersParses(f.right, s, b, n - 1);
    ConnectedFrom(s, i, f, a, b, n);
  }

  lemma {:induction false} RendersTemporal(f: Formula, s: string, i: nat, n: nat)
    requires IsTemporal(f) && Ready(f, s, i, n)
    ensures Parses(s, i, f, n)
    decreases f, 0
  {
    var b := i + 3 + Width(f.action);
    TemporalParts(f, s, i, n, b);
    RendersParsesPath(f.path, s, b, n);
    TemporalParses(s, i, f, b, n);
  }

  /** The same for the path operand of `A` and `E`. */
  lemma {:induction false} RendersParsesPath(p: Formula, s: string, i: nat, n: nat)
    requires ReadyPath(p, s, i, n)
    ensures ParsesPath(s, i, p, n)
    decreases p, 1
  {
    if p.U? || p.W? {
      RendersUntil(p, s, i, n);
    } else {
      RendersPrefixed(p, s, i, n);
    }
  }

  lemma {:induction false} RendersPrefixed(p: Formula, s: string, i: nat, n: nat)
    requires (p.F? || p.G? || p.X?) && ReadyPath(p, s, i, n)
    ensures ParsesPath(s, i, p, n)
    decreases p, 0
  {
    PrefixedParts(p, s, i, n);
    RendersParses(p.child, s, i + 1, n);
    PrefixedFrom(s, i, p, n);
  }

  lemma {:induction false} RendersUntil(p: Formula, s: string, i: nat, n: nat)
    requires (p.U? || p.W?) && ReadyPath(p, s, i, n)
    ensures ParsesPath(s, i, p, n)
    decreases p, 0
  {
    var a := i + 1 + Width(p.left);
    UntilParts(p, s, i, n, a);
    RendersParses(p.left, s, i + 1, a);
    RendersParses(p.right, s, a + 3, n - 1);
    UntilFrom(s, i, p, a, n);
  }

  // ---------------------------------------------------------------------
  // Round trip
  // ---------------------------------------------------------------------

  /** A formula without tabs prints as text without tabs. */
  lemma {:induction false} PrintNoTab(f: Formula)
    requires TabFree(f)
    ensures NoTab(Print(f))
  {
    if f.Atom? {
      NoTabJoin([Quote] + f.value, [Quote]);
    } else if IsUnary(f) {
      PrintNoTab(f.child);
      NoTabJoin([Head(f)], Print(f.child));
    } else if IsConnected(f) {
      PrintNoTab(f.left);
      PrintNoTab(f.right);
      NoTabJoin("(" + Print(f.left), Infix(Op(f)));
      NoTabJoin("(" + Print(f.left) + Infix(Op(f)), Print(f.right));
      NoTabJoin("(" + Print(f.left) + Infix(Op(f)) + Print(f.right), ")");
    } else if IsTemporal(f) {
      PrintNoTab(f.action);
      PrintNoTab(f.path);
      NoTabJoin([Head(f)] + "<" + Print(f.action), ">");
      NoTabJoin([Head(f)] + "<" + Print(f.action) + ">", Print(f.path));
    } else {
      PrintNoTab(f.left);
      PrintNoTab(f.right);
      NoTabJoin("[" + Print(f.left), Sep(f));
      NoTabJoin("[" + Print(f.left) + Sep(f), Print(f.right));
      NoTabJoin("[" + Print(f.left) + Sep(f) + Print(f.right), "]");
    }
  }

  lemma NoTabJoin(a: string, b: string)
    requires NoTab(a) && NoTab(b)
    ensures NoTab(a + b)
  {
    forall k | 0 <= k < |a + b|
      ensures (a + b)[k] != '\t'
    {
      if k >= |a| {
        assert (a + b)[k] == b[k - |a|];
      }
    }
  }

  /** A tab inside an atom reaches the parser as the spaces up to the next
      multiple of 8 columns: `'a<tab>b'` reads as the atom `a` followed by
      six spaces and `b`. */
  lemma TabInAtomExpanded()
    ensures ParseString([Quote, 'a', '\t', 'b', Quote]) == Ok(Atom("a      b"))
  {
    TabbedAtomText();
    var t: string := [Quote, 'a', ' ', ' ', ' ', ' ', ' ', ' ', 'b', Quote];
    assert Skip(t, 0) == 0;
    assert Skip(t, 1) == 1;
    assert forall k | 1 <= k < 9 :: t[k] != Quote;
    FindQuoteAt(t, 1, 9);
    assert t[1..9] == "a      b";
  }

  /** The text of the atom above once its tab is expanded. */
  lemma TabbedAtomText()
    ensures Trimming.ExpandTabs([Quote, 'a', '\t', 'b', Quote])
         == [Quote, 'a', ' ', ' ', ' ', ' ', ' ', ' ', 'b', Quote]
  {
    var s: string := [Quote, 'a', '\t', 'b', Quote];
    var tail: string := ['b', Quote];
    assert s[1..] == ['a', '\t'] + tail && s[1..][1..] == ['\t'] + tail;
    assert Quote == '\'';
    Trimming.ExpandNoTabs(tail, 8);
    assert Trimming.ExpandFrom(['\t'] + tail, 2) == Trimming.Spaces(6) + tail;
    assert Trimming.Spaces(6) == "      ";
    assert Trimming.ExpandFrom(s[1..], 1) == ['a'] + "      " + tail;
    assert Trimming.ExpandTabs(s) == [Quote] + (['a'] + "      " + tail);
  }

  /** A well-shaped formula whose atoms hold no tab, printed, is what
      `parseString` reads back, whatever text follows it. */
  lemma PrintedParses(f: Formula, rest: string)
    requires WellShaped(f) && TabFree(f)
    ensures ParseString(Print(f) + rest) == Ok(f)
  {
    PrintNoTab(f);
    Trimming.ExpandAfterTabFree(Print(f), rest, 0);
    var s := Print(f) + Trimming.ExpandFrom(rest, Trimming.ColumnAfter(Print(f), 0));
    forall k | 0 <= k < |Print(f)|
      ensures s[0 + k] == Print(f)[k]
    {
    }
    PrintRenders(f, s, 0);
    RendersParses(f, s, 0, |Print(f)|);
  }

  /** Whatever `parseString` reads prints as text it reads back the same:
      reading and printing agree on every formula the grammar builds. */
  lemma ParsedPrints(s: string)
    requires ParseString(s).Ok?
    ensures ParseString(Print(ParseString(s).value)) == Ok(ParseString(s).value)
  {
    PrintedParses(ParseString(s).value, "");
    assert Print(ParseString(s).value) + "" == Print(ParseString(s).value);
  }
}
