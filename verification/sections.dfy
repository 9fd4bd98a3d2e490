/** The sections of a module class (src/pynusmv/model.py:1264-1376,
    1468-1748): how `ModuleMetaClass._section_internal` turns a section
    body written in a class body into its canonical shape, how two bodies
    of one section merge, how `_section_str` prints a section inside a
    module, and how the parsed section objects print themselves. */
module Sections {
  import opened Wrappers
  import opened Ast
  import opened Text
  import opened Printer
  import opened Grammar
  import opened OrderedMaps
  import opened SectionGrammar
  import opened Trimming
  import Lexer
  import ParseFacts

  // ---------------------------------------------------------------------
  // The section table
  // ---------------------------------------------------------------------

  /** `ModuleMetaClass._sections`: a mapping section with the separator of
      its `{key}...{value};` format, an enumeration with its separator, or
      a list of bodies. */
  datatype Layout = Mapping(separator: string) | Enumeration(separator: string) | Bodies

  function LayoutOf(section: string): (l: Option<Layout>)
    ensures l.Some? && l.value.Mapping? <==> IsMappingSection(section)
  {
    if section == "VAR" || section == "IVAR" || section == "FROZENVAR" then Some(Mapping(": "))
    else if section == "DEFINE" || section == "ASSIGN" then Some(Mapping(" := "))
    else if section == "CONSTANTS" then Some(Enumeration(", "))
    else if IsConstraintSection(section) || section == "COMPASSION" then Some(Bodies)
    else None
  }

  predicate IsListSection(section: string) {
    LayoutOf(section).Some? && !LayoutOf(section).value.Mapping?
  }

  // ---------------------------------------------------------------------
  // What a class body may hold
  // ---------------------------------------------------------------------

  /** The Python values a class body binds and `_section_internal`
      distinguishes: strings, expressions, type specifiers, declarations
      (`Var`, `IVar`, `FVar`, `Def`: a kind, the declared type or
      expression, and a name that is `""` while unset, since `None` and
      `""` read alike), mappings and enumerations; any other object is
      known by its `str`. */
  datatype PyValue =
    | PyStr(s: string)
    | PyExpr(e: Expr)
    | PyType(t: Type)
    | PyDecl(kind: DeclKind, declared: Value, name: string)
    | PyMap(pairs: seq<(PyValue, PyValue)>)
    | PyList(items: seq<PyValue>)
    | PyOther(text: string)

  /** The code as it stands, or with the corrections recorded as findings
      (the DEFINE value parser, the CONSTANTS string body). */
  datatype Reading = AsWritten | Intended

  /** The message of the `AttributeError` an unnamed declaration raises. */
  const UnknownName := "Unknown declaration name."

  /** `Declaration.name` (model.py:1417-1421): reading it raises while it
      is unset. */
  function DeclarationName(e: Expr): (r: Result<string>)
    requires e.DeclIdent?
    ensures r.Ok? <==> e.name != ""
    ensures r.Ok? ==> r.value == e.name
  {
    if e.name == "" then Err(UnknownName) else Ok(e.name)
  }

  // ---------------------------------------------------------------------
  // _section_internal
  // ---------------------------------------------------------------------

  /** The key parser of a mapping section. */
  function ParseKey(section: string, s: string): Result<Expr> {
    if section == "ASSIGN" then ParseAllAssignIdentifier(s) else ParseAllIdentifier(s)
  }

  /** The value parser of a mapping section: `type_identifier` for VAR,
      `_simple_type_specifier` for IVAR and FROZENVAR, and as written also
      for DEFINE; an expression for ASSIGN and, intended, for DEFINE. */
  function ParseValue(reading: Reading, section: string, s: string): (r: Result<Value>)
    ensures r.Ok? && (section == "VAR" || section == "IVAR" || section == "FROZENVAR" || (section == "DEFINE" && reading == AsWritten))
      ==> r.value.TypeValue? && r.value.t.tsrc == Some(s)
  {
    if section == "VAR" then
      var t :- ParseAllType(s); Ok(TypeValue(t))
    else if section == "IVAR" || section == "FROZENVAR" || (section == "DEFINE" && reading == AsWritten) then
      var t :- ParseAllSimpleType(s); Ok(TypeValue(t))
    else
      var e :- ParseAllExpr(s); Ok(ExprValue(e))
  }

  /** A key: a string is parsed, an expression or declaration is kept. */
  function KeyOf(section: string, k: PyValue): Result<Expr> {
    match k
    case PyStr(s) => ParseKey(section, s)
    case PyExpr(e) => Ok(e)
    case PyDecl(kind, _, n) => Ok(DeclIdent(kind, n, None))
    case _ => Err("a key must be a string or an expression")
  }

  /** Every key read from a string hashes: an identifier, or a complex
      identifier, possibly under `init` or `next`. */
  lemma ParsedKeysHashable(section: string, s: string)
    requires ParseKey(section, s).Ok?
    ensures Hashable(ParseKey(section, s).value)
  {
  }

  /** The key of a `(key, value)` line. `res[key] = value` hashes it, which
      a dictionary's own keys always survive but a line's key may not: an
      unnamed declaration raises its `AttributeError`, and a `Case` or an
      `ArrayAccess` inside the key a `TypeError` (`Hashable`). */
  function PairKeyOf(section: string, k: PyValue): (r: Result<Expr>)
    ensures k.PyExpr? ==> (r.Ok? <==> Hashable(k.e)) && (r.Ok? ==> r.value == k.e)
    ensures k.PyDecl? ==> (r.Ok? <==> k.name != "") && (r.Ok? ==> r.value == DeclIdent(k.kind, k.name, None))
    ensures k.PyDecl? && k.name == "" ==> r == Err(UnknownName)
    ensures !k.PyExpr? && !k.PyDecl? ==> r == KeyOf(section, k)
  {
    match k
    case PyExpr(e) => if Hashable(e) then Ok(e) else Err("unhashable key")
    case PyDecl(kind, _, n) => if n != "" then Ok(DeclIdent(kind, n, None)) else Err(UnknownName)
    case _ => KeyOf(section, k)
  }

  /** A value: a string is parsed; a type, an expression, a declaration
      or an opaque value is kept; a list or a mapping has no place in a
      dictionary of types and expressions and is refused. */
  function ValueOf(reading: Reading, section: string, v: PyValue): Result<Value> {
    match v
    case PyStr(s) => ParseValue(reading, section, s)
    case PyType(t) => Ok(TypeValue(t))
    case PyExpr(e) => Ok(ExprValue(e))
    case PyDecl(kind, _, n) => Ok(ExprValue(DeclIdent(kind, n, None)))
    case PyOther(text) => Ok(TextValue(text))
    case _ => Err("a value must not be a collection")
  }

  /** `for key, value in body.items(): res[key] = value`. */
  function PutPairs(reading: Reading, section: string, pairs: seq<(PyValue, PyValue)>, acc: Entries<Value>): Result<Entries<Value>>
    decreases |pairs|
  {
    if |pairs| == 0 then Ok(acc)
    else
      var k :- KeyOf(section, pairs[0].0);
      var v :- ValueOf(reading, section, pairs[0].1);
      PutPairs(reading, section, pairs[1..], Put(acc, k, v))
  }

  /** `for line in body`: a string line is a whole section body, merged
      in; any other line gives its first two items as key and value. */
  function PutLines(reading: Reading, section: string, lines: seq<PyValue>, acc: Entries<Value>): Result<Entries<Value>>
    decreases |lines|
  {
    if |lines| == 0 then Ok(acc)
    else
      var next :- PutLine(reading, section, lines[0], acc);
      PutLines(reading, section, lines[1..], next)
  }

  /** One line: a string is a whole section body, merged in; a pair is
      unpacked into a key and a value. */
  function PutLine(reading: Reading, section: string, line: PyValue, acc: Entries<Value>): Result<Entries<Value>> {
    match line
    case PyStr(s) =>
      var m :- ParseAllMapping(section, s); Ok(Update(acc, m))
    case PyList(xs) =>
      if |xs| < 2 then Err("not enough values to unpack")
      else
        var k :- PairKeyOf(section, xs[0]);
        var v :- ValueOf(reading, section, xs[1]);
        Ok(Put(acc, k, v))
    case _ => Err("a line must be a string or a pair")
  }

  /** What `for expr in body` visits in a list section: a string or an
      expression is one element, a mapping gives its keys. */
  function Elements(body: PyValue): Result<seq<PyValue>> {
    match body
    case PyStr(_) => Ok([body])
    case PyExpr(_) => Ok([body])
    case PyDecl(_, _, _) => Ok([body])
    case PyList(xs) => Ok(xs)
    case PyMap(ps) => Ok(seq(|ps|, i requires 0 <= i < |ps| => ps[i].0))
    case _ => Err("not iterable")
  }

  /** One element of a list section. As written, a string goes through
      `parseAllString`, which keeps the first token its parser hands on
      and gives it the whole string as source; intended, a CONSTANTS
      string contributes every constant it declares. */
  function ListItem(reading: Reading, section: string, x: PyValue): Result<seq<Expr>> {
    match x
    case PyStr(s) =>
      var parsed :- ParseAllListTokens(section, s);
      if reading == Intended && section == "CONSTANTS" then Ok(parsed)
      else Ok([WithSource(parsed[0], s)])
    case PyExpr(e) => Ok([e])
    case PyDecl(kind, _, n) => Ok([DeclIdent(kind, n, None)])
    case _ => Err("an element must be a string or an expression")
  }

  /** `update(exprs, [expr])` for every element, in order. */
  function ListItems(reading: Reading, section: string, xs: seq<PyValue>): Result<seq<Expr>>
    decreases |xs|
  {
    if |xs| == 0 then Ok([])
    else
      var first :- ListItem(reading, section, xs[0]);
      var more :- ListItems(reading, section, xs[1..]);
      Ok(first + more)
  }

  /** `_section_internal(section, body)` under a reading. */
  function SectionInternalWith(reading: Reading, section: string, body: PyValue): (r: Result<Body>)
    ensures r.Ok? ==> (r.value.MapBody? <==> IsMappingSection(section))
  {
    match LayoutOf(section)
    case None => Err("Unknown section: " + section + ".")
    case Some(Mapping(_)) =>
      (match body
       case PyMap(ps) =>
         var m :- PutPairs(reading, section, ps, []); Ok(MapBody(m))
       case PyStr(_) =>
         var m :- PutLines(reading, section, [body], []); Ok(MapBody(m))
       case PyList(lines) =>
         var m :- PutLines(reading, section, lines, []); Ok(MapBody(m))
       case _ => Err("not iterable"))
    case Some(_) =>
      var xs :- Elements(body);
      var items :- ListItems(reading, section, xs);
      Ok(ListBody(items))
  }

  /** `_section_internal` as the code stands. */
  function SectionInternalAsWritten(section: string, body: PyValue): Result<Body> {
    SectionInternalWith(AsWritten, section, body)
  }

  /** `_section_internal` with the DEFINE value parser and the CONSTANTS
      string body corrected; the rest of the model uses this one. */
  function SectionInternal(section: string, body: PyValue): Result<Body> {
    SectionInternalWith(Intended, section, body)
  }

  /** `update(old, new)` (`update_body`, model.py:1292-1293, 1347-1348):
      a mapping takes the new entries one by one, a list is extended. */
  function Merge(a: Body, b: Body): Result<Body> {
    match (a, b)
    case (MapBody(x), MapBody(y)) => Ok(MapBody(Update(x, y)))
    case (ListBody(x), ListBody(y)) => Ok(ListBody(x + y))
    case _ => Err("a mapping and a list do not merge")
  }

  // ---------------------------------------------------------------------
  // Printing
  // ---------------------------------------------------------------------

  /** `str(e)`, which raises for a declaration whose name is unset. */
  function ExprText(e: Expr): Result<string> {
    if e.DeclIdent? then
      var _ :- DeclarationName(e); Ok(Render(e))
    else Ok(Render(e))
  }

  function ValueText(v: Value): Result<string> {
    match v
    case TypeValue(t) => Ok(RenderType(t))
    case ExprValue(e) => ExprText(e)
    case TextValue(s) => Ok(s)
  }

  /** The texts of some expressions, in order. */
  function ExprTexts(xs: seq<Expr>): (r: Result<seq<string>>)
    ensures r.Ok? ==> |r.value| == |xs|
    decreases |xs|
  {
    if |xs| == 0 then Ok([])
    else
      var t :- ExprText(xs[0]);
      var ts :- ExprTexts(xs[1..]);
      Ok([t] + ts)
  }

  /** `prefix + "{key}<separator>{value};"` for every entry, in order. */
  function EntryTexts(prefix: string, separator: string, m: Entries<Value>): (r: Result<seq<string>>)
    ensures r.Ok? ==> |r.value| == |m|
    decreases |m|
  {
    if |m| == 0 then Ok([])
    else
      var k :- ExprText(m[0].0);
      var v :- ValueText(m[0].1);
      var more :- EntryTexts(prefix, separator, m[1..]);
      Ok([prefix + k + separator + v + ";"] + more)
  }

  /** One `section` header block per body, each body re-indented. */
  function Blocks(indentation: string, section: string, texts: seq<string>): (r: seq<string>)
    ensures |r| == |texts|
    decreases |texts|
  {
    if |texts| == 0 then [] else [Block(indentation, section, texts[0])] + Blocks(indentation, section, texts[1..])
  }

  /** One body under its own header, indented one level deeper. */
  function Block(indentation: string, section: string, text: string): string {
    indentation + section + "\n" + Trim(text, indentation + indentation)
  }

  /** `ModuleMetaClass._section_str(section, body, indentation)`. */
  function SectionStr(section: string, body: Body, indentation: string): Result<string> {
    match LayoutOf(section)
    case None => Err("Unknown section: " + section + ".")
    case Some(Mapping(sep)) =>
      if !body.MapBody? then Err("a list has no items()")
      else
        var lines :- EntryTexts(indentation + indentation, sep, body.entries);
        Ok(indentation + section + "\n" + Join("\n", lines))
    case Some(Enumeration(sep)) =>
      var texts :- ExprTexts(ElementsOf(body));
      Ok(indentation + section + "\n" + Join(sep, texts))
    case Some(Bodies) =>
      var texts :- ExprTexts(ElementsOf(body));
      Ok(Join("\n", Blocks(indentation, section, texts)))
  }

  /** What iterating a body visits: a list's items, a mapping's keys. */
  function ElementsOf(body: Body): seq<Expr> {
    match body
    case ListBody(xs) => xs
    case MapBody(m) => Keys(m)
  }

  /** The separator a section object prints between its entries or
      elements (`Defines` and `Assigns` use ` := `, `Constants` a comma,
      the constraint sections repeat their keyword). */
  function ObjectSeparator(sec: Section): string {
    match sec.body
    case MapBody(_) => if sec.name == "DEFINE" || sec.name == "ASSIGN" then " := " else ": "
    case ListBody(_) => ListingSeparator(sec.name)
  }

  function ListingSeparator(name: string): string {
    if name == "CONSTANTS" then ", " else "\n" + name + "\n"
  }

  /** `str(section)` for a parsed `MappingSection` or `ListingSection`
      (model.py:1296-1301, 1350-1355), every line indented by four
      spaces. */
  function SectionObjectStr(sec: Section): Result<string> {
    var sep := ObjectSeparator(sec);
    match sec.body
    case MapBody(m) =>
      var lines :- EntryTexts("    ", sep, m);
      Ok(sec.name + "\n" + Join("\n", lines))
    case ListBody(xs) =>
      var texts :- ExprTexts(xs);
      Ok(sec.name + "\n" + Join(sep, Indented("    ", texts)))
  }

  /** `section.update_body(other)`. */
  function UpdateBody(sec: Section, other: Body): Result<Section> {
    var merged :- Merge(sec.body, other);
    Ok(Section(sec.name, merged))
  }

  // ---------------------------------------------------------------------
  // Properties of _section_internal
  // ---------------------------------------------------------------------

  /** An unknown section name raises, both when normalising and when
      printing. */
  lemma UnknownSectionRaises(reading: Reading, section: string, body: PyValue, b: Body, indentation: string)
    requires !IsMappingSection(section) && !IsListSection(section)
    ensures SectionInternalWith(reading, section, body).Err?
    ensures SectionStr(section, b, indentation).Err?
  {
  }

  /** In a list section, a single expression is the whole list. */
  lemma OneExpressionOneElement(reading: Reading, section: string, e: Expr)
    requires IsListSection(section)
    ensures SectionInternalWith(reading, section, PyExpr(e)) == Ok(ListBody([e]))
  {
    assert [PyExpr(e)][1..] == [];
    assert ListItems(reading, section, []) == Ok([]);
    assert [e] + [] == [e];
    assert ListItems(reading, section, [PyExpr(e)]) == Ok([e]);
  }

  /** In a list section, a single string is parsed once and, as written,
      gives exactly one element carrying the string as its source. */
  lemma OneStringOneElement(section: string, s: string)
    requires IsListSection(section)
    ensures SectionInternalAsWritten(section, PyStr(s)).Ok? <==> ParseAllListTokens(section, s).Ok?
    ensures SectionInternalAsWritten(section, PyStr(s)).Ok? ==>
      SectionInternalAsWritten(section, PyStr(s)) == Ok(ListBody([WithSource(ParseAllListTokens(section, s).value[0], s)]))
  {
    assert [PyStr(s)][1..] == [];
    assert ListItems(AsWritten, section, []) == Ok([]);
    var r := ParseAllListTokens(section, s);
    if r.Ok? {
      var x := WithSource(r.value[0], s);
      assert ListItem(AsWritten, section, PyStr(s)) == Ok([x]);
      assert [x] + [] == [x];
      assert ListItems(AsWritten, section, [PyStr(s)]) == Ok([x]);
    } else {
      assert ListItem(AsWritten, section, PyStr(s)).Err?;
    }
  }

  /** Elements are treated one by one: the list of a concatenation is the
      concatenation of the lists, and it fails exactly when one part
      fails. */
  lemma {:induction false} ListItemsAppend(reading: Reading, section: string, a: seq<PyValue>, b: seq<PyValue>)
    ensures ListItems(reading, section, a + b).Ok? <==>
      ListItems(reading, section, a).Ok? && ListItems(reading, section, b).Ok?
    ensures ListItems(reading, section, a + b).Ok? ==>
      ListItems(reading, section, a + b).value == ListItems(reading, section, a).value + ListItems(reading, section, b).value
    decreases |a|
  {
    if |a| == 0 {
      assert a + b == b;
    } else {
      assert (a + b)[0] == a[0];
      assert (a + b)[1..] == a[1..] + b;
      ListItemsAppend(reading, section, a[1..], b);
    }
  }

  function ExprValues(es: seq<Expr>): (r: seq<PyValue>)
    ensures |r| == |es| && forall i | 0 <= i < |es| :: r[i] == PyExpr(es[i])
  {
    seq(|es|, i requires 0 <= i < |es| => PyExpr(es[i]))
  }

  /** Elements that are already expressions are kept unchanged and in
      order. */
  lemma {:induction false} ExpressionsKept(reading: Reading, section: string, es: seq<Expr>)
    ensures ListItems(reading, section, ExprValues(es)) == Ok(es)
    decreases |es|
  {
    if |es| > 0 {
      assert ExprValues(es)[1..] == ExprValues(es[1..]);
      ExpressionsKept(reading, section, es[1..]);
      assert [es[0]] + es[1..] == es;
    }
  }

  lemma ExpressionListKept(reading: Reading, section: string, es: seq<Expr>)
    requires IsListSection(section)
    ensures SectionInternalWith(reading, section, PyList(ExprValues(es))) == Ok(ListBody(es))
  {
    ExpressionsKept(reading, section, es);
  }

  function ExprPairs(pairs: seq<(Expr, Expr)>): (r: seq<(PyValue, PyValue)>)
    ensures |r| == |pairs| && forall i | 0 <= i < |pairs| :: r[i] == (PyExpr(pairs[i].0), PyExpr(pairs[i].1))
  {
    seq(|pairs|, i requires 0 <= i < |pairs| => (PyExpr(pairs[i].0), PyExpr(pairs[i].1)))
  }

  function ExprEntries(pairs: seq<(Expr, Expr)>): (r: Entries<Value>)
    ensures |r| == |pairs| && forall i | 0 <= i < |pairs| :: r[i] == (pairs[i].0, ExprValue(pairs[i].1))
  {
    seq(|pairs|, i requires 0 <= i < |pairs| => (pairs[i].0, ExprValue(pairs[i].1)))
  }

  lemma {:induction false} PutPairsIsUpdate(reading: Reading, section: string, pairs: seq<(Expr, Expr)>, acc: Entries<Value>)
    ensures PutPairs(reading, section, ExprPairs(pairs), acc) == Ok(Update(acc, ExprEntries(pairs)))
    decreases |pairs|
  {
    if |pairs| > 0 {
      assert ExprPairs(pairs)[1..] == ExprPairs(pairs[1..]);
      assert ExprEntries(pairs)[1..] == ExprEntries(pairs[1..]);
      PutPairsIsUpdate(reading, section, pairs[1..], Put(acc, pairs[0].0, ExprValue(pairs[0].1)));
    }
  }

  /** A mapping of expressions is copied into an ordered mapping entry by
      entry: a repeated key keeps its first place and its last value. */
  lemma MappingCopied(reading: Reading, section: string, pairs: seq<(Expr, Expr)>)
    requires IsMappingSection(section)
    ensures SectionInternalWith(reading, section, PyMap(ExprPairs(pairs))) == Ok(MapBody(FromPairs(ExprEntries(pairs))))
  {
    PutPairsIsUpdate(reading, section, pairs, []);
  }

  /** Lines are processed one after another: a line that fails, after
      lines that all succeed, fails the whole body. */
  lemma {:induction false} LinesFailAt(reading: Reading, section: string, lines: seq<PyValue>, acc: Entries<Value>, i: nat)
    requires i < |lines| && PutLines(reading, section, lines[..(i)], acc).Ok?
    requires PutLine(reading, section, lines[i], PutLines(reading, section, lines[..(i)], acc).value).Err?
    ensures PutLines(reading, section, lines, acc).Err?
    decreases i
  {
    if i > 0 {
      var next := PutLine(reading, section, lines[0], acc).value;
      assert lines[1..][..(i - 1)] == lines[..(i)][1..];
      LinesFailAt(reading, section, lines[1..], next, i - 1);
    }
  }

  /** A mapping section given as lines raises at the first `(key, value)`
      line whose key does not hash, whatever the lines before it built:
      `res[key] = value` hashes the key. */
  lemma UnhashableLineKeyRaises(reading: Reading, section: string, lines: seq<PyValue>, i: nat)
    requires IsMappingSection(section)
    requires i < |lines| && lines[i].PyList? && |lines[i].items| >= 2
    requires lines[i].items[0].PyExpr? && !Hashable(lines[i].items[0].e)
    requires PutLines(reading, section, lines[..(i)], []).Ok?
    ensures SectionInternalWith(reading, section, PyList(lines)).Err?
  {
    LinesFailAt(reading, section, lines, [], i);
  }

  /** A string body of a mapping section parses exactly when the section
      parser accepts it, and then holds each key it declares. */
  lemma MappingStringBody(reading: Reading, section: string, s: string)
    requires IsMappingSection(section)
    ensures SectionInternalWith(reading, section, PyStr(s)).Ok? <==> ParseAllMapping(section, s).Ok?
    ensures SectionInternalWith(reading, section, PyStr(s)).Ok? ==>
      SectionInternalWith(reading, section, PyStr(s)) == Ok(MapBody(Update([], ParseAllMapping(section, s).value)))
  {
    PutStringLine(reading, section, s);
  }

  /** A single string line holds the mapping it parses to. */
  lemma PutStringLine(reading: Reading, section: string, s: string)
    ensures PutLines(reading, section, [PyStr(s)], []).Ok? <==> ParseAllMapping(section, s).Ok?
    ensures ParseAllMapping(section, s).Ok? ==>
      PutLines(reading, section, [PyStr(s)], []) == Ok(Update([], ParseAllMapping(section, s).value))
  {
    assert [PyStr(s)][1..] == [];
    var r := ParseAllMapping(section, s);
    if r.Ok? {
      assert PutLines(reading, section, [], Update([], r.value)) == Ok(Update([], r.value));
    }
  }

  // ---------------------------------------------------------------------
  // Findings: the DEFINE value parser and the CONSTANTS string body
  // ---------------------------------------------------------------------

  /** The type parser rejects the printed text of any operator
      expression. */
  lemma SimpleTypeRejectsOperators(e: Expr)
    requires ParseFacts.Printable(e) && !ParseFacts.IsAtom(e)
    ensures ParseAllSimpleType(ParseFacts.PrintedText(e)).Err?
  {
    var ts := ParseFacts.Tokens(e);
    ParseFacts.TokensValid(e);
    Lexer.TokenizeUnlex(ts);
    ParseFacts.FirstToken(e);
    assert ts[0] == Lexer.TSym("(");
    assert ParseWordType(ts).Err?;
    assert ParseEnumType(ts).Err?;
    assert ParseArrayType(ts).Err?;
    ParseFacts.ReadsPrinted(LShift, e, []);
    assert ts + [] == ts;
    assert ParseLevel(LShift, ts) == Ok(Parsed(e, []));
    assert ParseRangeType(ts).Err?;
    assert ParseSimpleType(ts).Err?;
    assert Lexer.Tokenize(ParseFacts.PrintedText(e)) == Ok(ts);
  }

  /** As written, a DEFINE given as a mapping from a name to the text of
      an operator expression raises: the text goes to the type parser. */
  lemma DefineValueAsWritten(name: string, e: Expr)
    requires ParseFacts.Printable(e) && !ParseFacts.IsAtom(e)
    requires ParseAllIdentifier(name).Ok?
    ensures SectionInternalAsWritten("DEFINE", PyMap([(PyStr(name), PyStr(ParseFacts.PrintedText(e)))])).Err?
  {
    SimpleTypeRejectsOperators(e);
    var text := ParseFacts.PrintedText(e);
    assert ValueOf(AsWritten, "DEFINE", PyStr(text)).Err?;
    OnePairFails(AsWritten, "DEFINE", PyStr(name), PyStr(text));
  }

  /** A mapping with one item whose value does not parse raises. */
  lemma OnePairFails(reading: Reading, section: string, kv: PyValue, vv: PyValue)
    requires KeyOf(section, kv).Ok? && ValueOf(reading, section, vv).Err?
    ensures PutPairs(reading, section, [(kv, vv)], []).Err?
  {
  }

  /** Intended, the same DEFINE holds the parsed expression. */
  lemma DefineValueIntended(name: string, e: Expr)
    requires ParseFacts.Printable(e)
    requires ParseAllIdentifier(name).Ok?
    ensures SectionInternal("DEFINE", PyMap([(PyStr(name), PyStr(ParseFacts.PrintedText(e)))]))
      == Ok(MapBody([(ParseAllIdentifier(name).value, ExprValue(WithSource(e, ParseFacts.PrintedText(e))))]))
  {
    var text := ParseFacts.PrintedText(e);
    ParseFacts.ParsePrintedText(e);
    var k := ParseAllIdentifier(name).value;
    var v := ExprValue(WithSource(e, text));
    assert ParseValue(Intended, "DEFINE", text) == Ok(v);
    OnePairPut(Intended, "DEFINE", PyStr(name), PyStr(text), k, v);
  }

  /** A mapping with one item holds that item's key and value. */
  lemma OnePairPut(reading: Reading, section: string, kv: PyValue, vv: PyValue, k: Expr, v: Value)
    requires KeyOf(section, kv) == Ok(k) && ValueOf(reading, section, vv) == Ok(v)
    ensures PutPairs(reading, section, [(kv, vv)], []) == Ok([(k, v)])
  {
    assert [(kv, vv)][1..] == [];
    assert Put([], k, v) == [(k, v)];
  }

  /** The tokens of `a, b;`. */
  function TwoConstants(a: string, b: string): seq<Lexer.Token> {
    [Lexer.TIdent(a), Lexer.TSym(","), Lexer.TIdent(b), Lexer.TSym(";")]
  }

  lemma TwoConstantsParse(a: string, b: string)
    requires Lexer.IsIdentifier(a) && Lexer.IsIdentifier(b)
    ensures ParseAllListTokens("CONSTANTS", Lexer.Unlex(TwoConstants(a, b))) == Ok([Ident(a, None), Ident(b, None)])
  {
    var ts := TwoConstants(a, b);
    assert forall t | t in ts :: Lexer.ValidToken(t) by {
      assert Lexer.IsSymbol(",") && Lexer.IsSymbol(";");
    }
    Lexer.TokenizeUnlex(ts);
    var t1 := ts[1..];
    assert t1 == [Lexer.TSym(","), Lexer.TIdent(b), Lexer.TSym(";")];
    assert t1[2..] == [Lexer.TSym(";")];
    assert CollectIdentifiers([Lexer.TSym(";")]) == Parsed([], [Lexer.TSym(";")]);
    assert [Ident(b, None)] + [] == [Ident(b, None)];
    assert CollectIdentifiers(t1) == Parsed([Ident(b, None)], [Lexer.TSym(";")]);
    assert ParseIdentifier(ts) == Ok(Parsed(Ident(a, None), t1));
    assert [Lexer.TSym(";")][1..] == [];
    var first := ParseIdentifier(ts);
    assert first.Ok? && first.value.rest == t1;
    var more := CollectIdentifiers(first.value.rest);
    assert more.rest == [Lexer.TSym(";")];
    assert At(more.rest, ";");
    assert more.rest[1..] == [];
    assert ParseConstantsBody(ts) == Ok(Parsed([Ident(a, None)] + [Ident(b, None)], []));
    assert [Ident(a, None)] + [Ident(b, None)] == [Ident(a, None), Ident(b, None)];
    assert ParseListBody("CONSTANTS", ts) == Ok(Parsed([Ident(a, None), Ident(b, None)], []));
    assert Complete(ParseListBody("CONSTANTS", ts)) == Ok([Ident(a, None), Ident(b, None)]);
    assert Lexer.Tokenize(Lexer.Unlex(ts)) == Ok(ts);
  }

  /** As written, a CONSTANTS body `"a, b;"` keeps only `a`, carrying the
      whole string as its source. */
  lemma ConstantsAsWritten(a: string, b: string)
    requires Lexer.IsIdentifier(a) && Lexer.IsIdentifier(b)
    ensures var s := Lexer.Unlex(TwoConstants(a, b));
      SectionInternalAsWritten("CONSTANTS", PyStr(s)) == Ok(ListBody([Ident(a, Some(s))]))
  {
    var s := Lexer.Unlex(TwoConstants(a, b));
    TwoConstantsParse(a, b);
    var x := WithSource(Ident(a, None), s);
    assert x == Ident(a, Some(s));
    assert ListItem(AsWritten, "CONSTANTS", PyStr(s)) == Ok([x]);
    ListSectionOfString(AsWritten, "CONSTANTS", s, [x]);
  }

  /** Intended, it declares both constants. */
  lemma ConstantsIntended(a: string, b: string)
    requires Lexer.IsIdentifier(a) && Lexer.IsIdentifier(b)
    ensures SectionInternal("CONSTANTS", PyStr(Lexer.Unlex(TwoConstants(a, b))))
      == Ok(ListBody([Ident(a, None), Ident(b, None)]))
  {
    var s := Lexer.Unlex(TwoConstants(a, b));
    TwoConstantsParse(a, b);
    var xs := [Ident(a, None), Ident(b, None)];
    assert ListItem(Intended, "CONSTANTS", PyStr(s)) == Ok(xs);
    ListSectionOfString(Intended, "CONSTANTS", s, xs);
  }

  /** A list section given one string holds what that string reads as. */
  lemma ListSectionOfString(reading: Reading, section: string, s: string, xs: seq<Expr>)
    requires IsListSection(section)
    requires ListItem(reading, section, PyStr(s)) == Ok(xs)
    ensures SectionInternalWith(reading, section, PyStr(s)) == Ok(ListBody(xs))
  {
    OneItem(reading, section, PyStr(s), xs);
  }

  /** A list body of one element holds what that element reads as. */
  lemma OneItem(reading: Reading, section: string, v: PyValue, xs: seq<Expr>)
    requires ListItem(reading, section, v) == Ok(xs)
    ensures ListItems(reading, section, [v]) == Ok(xs)
  {
    assert [v][1..] == [];
    assert ListItems(reading, section, []) == Ok([]);
    assert xs + [] == xs;
  }

  // ---------------------------------------------------------------------
  // Properties of printing
  // ---------------------------------------------------------------------

  lemma {:induction false} ExprTextsAppend(a: seq<Expr>, b: seq<Expr>)
    ensures ExprTexts(a + b).Ok? <==> ExprTexts(a).Ok? && ExprTexts(b).Ok?
    ensures ExprTexts(a + b).Ok? ==> ExprTexts(a + b).value == ExprTexts(a).value + ExprTexts(b).value
    decreases |a|
  {
    if |a| == 0 {
      assert a + b == b;
    } else {
      assert (a + b)[0] == a[0];
      assert (a + b)[1..] == a[1..] + b;
      ExprTextsAppend(a[1..], b);
    }
  }

  lemma {:induction false} EntryTextsAppend(prefix: string, sep: string, a: Entries<Value>, b: Entries<Value>)
    ensures EntryTexts(prefix, sep, a + b).Ok? <==> EntryTexts(prefix, sep, a).Ok? && EntryTexts(prefix, sep, b).Ok?
    ensures EntryTexts(prefix, sep, a + b).Ok? ==>
      EntryTexts(prefix, sep, a + b).value == EntryTexts(prefix, sep, a).value + EntryTexts(prefix, sep, b).value
    decreases |a|
  {
    if |a| == 0 {
      assert a + b == b;
    } else {
      assert (a + b)[0] == a[0];
      assert (a + b)[1..] == a[1..] + b;
      EntryTextsAppend(prefix, sep, a[1..], b);
    }
  }

  /** A constraint section with one body prints one header and the body
      re-indented beneath it. */
  lemma OneBodyOneHeader(section: string, e: Expr, indentation: string)
    requires LayoutOf(section) == Some(Bodies)
    requires ExprText(e).Ok?
    ensures SectionStr(section, ListBody([e]), indentation)
      == Ok(indentation + section + "\n" + Trim(Render(e), indentation + indentation))
  {
    BodiesStr(section, [e], indentation);
    assert [e][1..] == [];
    assert ExprTexts([]) == Ok([]);
    assert ExprText(e) == Ok(Render(e));
    assert [Render(e)] + [] == [Render(e)];
    assert ExprTexts([e]) == Ok([Render(e)]);
    assert Blocks(indentation, section, [Render(e)]) == [Block(indentation, section, Render(e))];
  }

  lemma BodiesStr(section: string, xs: seq<Expr>, indentation: string)
    requires LayoutOf(section) == Some(Bodies)
    ensures SectionStr(section, ListBody(xs), indentation).Ok? <==> ExprTexts(xs).Ok?
    ensures SectionStr(section, ListBody(xs), indentation).Ok? ==>
      SectionStr(section, ListBody(xs), indentation).value == Join("\n", Blocks(indentation, section, ExprTexts(xs).value))
  {
  }

  lemma {:induction false} BlocksAppend(indentation: string, section: string, a: seq<string>, b: seq<string>)
    ensures Blocks(indentation, section, a + b) == Blocks(indentation, section, a) + Blocks(indentation, section, b)
    decreases |a|
  {
    if |a| == 0 {
      assert a + b == b;
    } else {
      HeadTail(a, b);
      BlocksAppend(indentation, section, a[1..], b);
      var x := [Block(indentation, section, a[0])];
      ConcatAssoc(x, Blocks(indentation, section, a[1..]), Blocks(indentation, section, b));
    }
  }

  lemma HeadTail<T>(a: seq<T>, b: seq<T>)
    requires |a| > 0
    ensures (a + b)[0] == a[0] && (a + b)[1..] == a[1..] + b
  {
  }

  lemma ConcatAssoc<T>(x: seq<T>, y: seq<T>, z: seq<T>)
    ensures x + (y + z) == (x + y) + z
  {
  }

  /** Printing a merged constraint section prints the two parts one after
      the other: every body keeps its own header. */
  lemma MergedBodiesPrintApart(section: string, a: seq<Expr>, b: seq<Expr>, indentation: string)
    requires LayoutOf(section) == Some(Bodies)
    requires |a| > 0 && |b| > 0
    ensures SectionStr(section, ListBody(a + b), indentation).Ok? <==>
      SectionStr(section, ListBody(a), indentation).Ok? && SectionStr(section, ListBody(b), indentation).Ok?
    ensures SectionStr(section, ListBody(a + b), indentation).Ok? ==>
      SectionStr(section, ListBody(a + b), indentation).value ==
        SectionStr(section, ListBody(a), indentation).value + "\n" + SectionStr(section, ListBody(b), indentation).value
  {
    ExprTextsAppend(a, b);
    BodiesStr(section, a, indentation);
    BodiesStr(section, b, indentation);
    BodiesStr(section, a + b, indentation);
    if ExprTexts(a + b).Ok? {
      var ta, tb := ExprTexts(a).value, ExprTexts(b).value;
      BlocksAppend(indentation, section, ta, tb);
      JoinAppend("\n", Blocks(indentation, section, ta), Blocks(indentation, section, tb));
    }
  }

  /** Printing a mapping section after merging in new keys prints the old
      entries, then the new ones. */
  lemma MergedMappingPrintsNewLast(section: string, a: Entries<Value>, b: Entries<Value>, indentation: string)
    requires IsMappingSection(section)
    requires |a| > 0 && |b| > 0 && Fresh(a, b)
    requires EntryTexts(indentation + indentation, LayoutOf(section).value.separator, b).Ok?
    ensures SectionStr(section, MapBody(Update(a, b)), indentation).Ok? <==> SectionStr(section, MapBody(a), indentation).Ok?
    ensures SectionStr(section, MapBody(Update(a, b)), indentation).Ok? ==>
      SectionStr(section, MapBody(Update(a, b)), indentation).value ==
        SectionStr(section, MapBody(a), indentation).value + "\n"
        + Join("\n", EntryTexts(indentation + indentation, LayoutOf(section).value.separator, b).value)
  {
    UpdateFreshAppends(a, b);
    var sep := LayoutOf(section).value.separator;
    var p := indentation + indentation;
    EntryTextsAppend(p, sep, a, b);
    MappingStr(section, a + b, indentation);
    MappingStr(section, a, indentation);
    if EntryTexts(p, sep, a).Ok? {
      var ta, tb := EntryTexts(p, sep, a).value, EntryTexts(p, sep, b).value;
      JoinAppend("\n", ta, tb);
      Regroup(indentation + section + "\n", Join("\n", ta), "\n", Join("\n", tb));
    }
  }

  /** A mapping section prints its header, then its entries one per
      line. */
  lemma MappingStr(section: string, m: Entries<Value>, indentation: string)
    requires IsMappingSection(section)
    ensures SectionStr(section, MapBody(m), indentation).Ok?
      <==> EntryTexts(indentation + indentation, LayoutOf(section).value.separator, m).Ok?
    ensures SectionStr(section, MapBody(m), indentation).Ok? ==>
      SectionStr(section, MapBody(m), indentation).value == indentation + section + "\n"
        + Join("\n", EntryTexts(indentation + indentation, LayoutOf(section).value.separator, m).value)
  {
  }

  lemma ListingStr(name: string, xs: seq<Expr>)
    ensures ExprTexts(xs).Err? ==> SectionObjectStr(Section(name, ListBody(xs))).Err?
    ensures ExprTexts(xs).Ok? ==>
      SectionObjectStr(Section(name, ListBody(xs))) == Ok(name + "\n" + Join(ListingSeparator(name), Indented("    ", ExprTexts(xs).value)))
  {
  }

  lemma Regroup(w: string, x: string, y: string, z: string)
    ensures w + (x + y + z) == (w + x) + y + z
  {
  }

  lemma IndentedAppend(indentation: string, a: seq<string>, b: seq<string>)
    ensures Indented(indentation, a + b) == Indented(indentation, a) + Indented(indentation, b)
  {
  }

  /** A listing section object prints the elements `update_body` adds
      after its own, behind its separator. */
  lemma ListingUpdatePrintsAfter(name: string, a: seq<Expr>, b: seq<Expr>)
    requires |a| > 0 && |b| > 0
    requires ExprTexts(a).Ok? && ExprTexts(b).Ok?
    ensures SectionObjectStr(Section(name, ListBody(a + b)))
      == Ok(SectionObjectStr(Section(name, ListBody(a))).value + ListingSeparator(name)
            + Join(ListingSeparator(name), Indented("    ", ExprTexts(b).value)))
  {
    ExprTextsAppend(a, b);
    ListingStr(name, a);
    ListingStr(name, a + b);
    var sep := ListingSeparator(name);
    var ta, tb := ExprTexts(a).value, ExprTexts(b).value;
    IndentedAppend("    ", ta, tb);
    JoinAppend(sep, Indented("    ", ta), Indented("    ", tb));
    var ja, jb := Join(sep, Indented("    ", ta)), Join(sep, Indented("    ", tb));
    assert Join(sep, Indented("    ", ta + tb)) == ja + sep + jb;
    assert SectionObjectStr(Section(name, ListBody(a))) == Ok(name + "\n" + ja);
    var whole := ExprTexts(a + b).value;
    assert whole == ta + tb;
    assert SectionObjectStr(Section(name, ListBody(a + b))) == Ok(name + "\n" + Join(sep, Indented("    ", whole)));
    assert Indented("    ", whole) == Indented("    ", ta) + Indented("    ", tb);
    assert SectionObjectStr(Section(name, ListBody(a + b))) == Ok(name + "\n" + (ja + sep + jb));
    Regroup(name + "\n", ja, sep, jb);
  }
}
