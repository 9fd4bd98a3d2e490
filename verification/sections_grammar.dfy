/** Type specifiers and section bodies of src/pynusmv/parser.py:307-442,
    over the tokens of the `Lexer` module, and `parseAllString`
    (parser.py:486-495) for each of them.

    As in `Grammar`, alternatives joined by `|` are tried in order and the
    first success wins, `Optional` and `ZeroOrMore` keep what parsed and
    leave the rest, and a keyword literal is one whole token. */
module SectionGrammar {
  import opened Wrappers
  import opened Ast
  import opened Lexer
  import opened Grammar
  import opened OrderedMaps

  /** The value side of a mapping section: a type specifier (VAR, IVAR,
      FROZENVAR) or an expression (DEFINE, ASSIGN); a value given as some
      other Python object is kept as it is and known here by its `str`. */
  datatype Value = TypeValue(t: Type) | ExprValue(e: Expr) | TextValue(text: string)

  /** The canonical body of a section: an ordered mapping or a list. */
  datatype Body = MapBody(entries: Entries<Value>) | ListBody(items: seq<Expr>)

  /** A parsed `Section` object: its name and its body. */
  datatype Section = Section(name: string, body: Body)

  // ---------------------------------------------------------------------
  // Names
  // ---------------------------------------------------------------------

  /** `identifier`: one name, an `Identifier`. */
  function ParseIdentifier(ts: seq<Token>): (r: Result<Parsed<Expr>>)
    ensures r.Ok? <==> |ts| > 0 && ts[0].TIdent?
    ensures r.Ok? ==> r.value.value == Ident(ts[0].text, None) && r.value.rest == ts[1..]
  {
    if |ts| > 0 && ts[0].TIdent? then Ok(Parsed(Ident(ts[0].text, None), ts[1..]))
    else Err("expected an identifier")
  }

  /** `_complex_identifier`: `self` or a name, then its selectors. */
  function ParseComplexIdentifier(ts: seq<Token>): (r: Result<Parsed<Expr>>)
    ensures r.Ok? <==> |ts| > 0 && ts[0].TIdent?
    ensures r.Ok? ==> r.value.value.ComplexIdent? && |r.value.rest| < |ts|
  {
    if |ts| > 0 && ts[0].TIdent? then
      var root := if ts[0].text == "self" then SelfRoot else NameRoot(ts[0].text);
      var path := CollectSelectors(ts[1..]);
      Ok(Parsed(ComplexIdent(root, path.value, None), path.rest))
    else Err("expected an identifier")
  }

  /** `_assign_identifier`: `init(x)`, `next(x)` or `x`. */
  function ParseAssignIdentifier(ts: seq<Token>): (r: Result<Parsed<Expr>>)
    ensures r.Ok? ==> |r.value.rest| < |ts|
    ensures r.Ok? ==> var e := r.value.value;
      e.ComplexIdent? || ((e.Init? || e.Next?) && e.value.ComplexIdent?)
  {
    if |ts| > 0 && (ts[0].text == "init" || ts[0].text == "next") && At(ts[1..], "(")
       && ParseComplexIdentifier(ts[2..]).Ok?
       && At(ParseComplexIdentifier(ts[2..]).value.rest, ")")
    then
      var x := ParseComplexIdentifier(ts[2..]).value;
      var e := if ts[0].text == "init" then Init(x.value, None) else Next(x.value, None);
      Ok(Parsed(e, x.rest[1..]))
    else ParseComplexIdentifier(ts)
  }

  // ---------------------------------------------------------------------
  // Type specifiers
  // ---------------------------------------------------------------------

  /** `_simple_type_specifier`: boolean, word, enumeration, array or range,
      in that order. */
  function ParseSimpleType(ts: seq<Token>): (r: Result<Parsed<Type>>)
    ensures r.Ok? ==> |r.value.rest| < |ts|
    decreases |ts|, 2
  {
    if At(ts, "boolean") then Ok(Parsed(TBoolean(None), ts[1..]))
    else if ParseWordType(ts).Ok? then ParseWordType(ts)
    else if ParseEnumType(ts).Ok? then ParseEnumType(ts)
    else if ParseArrayType(ts).Ok? then ParseArrayType(ts)
    else ParseRangeType(ts)
  }

  /** `_word_type`: an optional sign, `word`, and the size in brackets. */
  function ParseWordType(ts: seq<Token>): (r: Result<Parsed<Type>>)
    ensures r.Ok? ==> |r.value.rest| < |ts|
  {
    var signed := At(ts, "unsigned") || At(ts, "signed");
    var sign := if signed then Some(ts[0].text) else None;
    var afterSign := if signed then ts[1..] else ts;
    if !At(afterSign, "word") || !At(afterSign[1..], "[") then Err("expected word[")
    else
      var size :- ParseLevel(Top, afterSign[2..]);
      if !At(size.rest, "]") then Err("expected ]")
      else Ok(Parsed(Type.TWord(size.value, sign, None), size.rest[1..]))
  }

  /** One `_integer_number | _symbolic_constant` of an enumeration. */
  function ParseEnumValue(ts: seq<Token>): (r: Result<Parsed<Expr>>)
    ensures r.Ok? ==> |r.value.rest| < |ts|
  {
    match ParseInteger(ts)
    case Ok(n) => Ok(Parsed(IntConst(n.value), n.rest))
    case Err(_) => ParseIdentifier(ts)
  }

  function CollectEnumValues(ts: seq<Token>): (r: Parsed<seq<Expr>>)
    ensures |r.rest| <= |ts|
    decreases |ts|
  {
    if !At(ts, ",") then Parsed([], ts)
    else match ParseEnumValue(ts[1..])
      case Err(_) => Parsed([], ts)
      case Ok(v) =>
        var more := CollectEnumValues(v.rest);
        Parsed([v.value] + more.value, more.rest)
  }

  /** `_enum_type`: `{` values separated by commas `}`. */
  function ParseEnumType(ts: seq<Token>): (r: Result<Parsed<Type>>)
    ensures r.Ok? ==> |r.value.rest| < |ts|
  {
    if !At(ts, "{") then Err("expected an opening brace")
    else
      var first :- ParseEnumValue(ts[1..]);
      var more := CollectEnumValues(first.rest);
      if !At(more.rest, "}") then Err("expected a closing brace")
      else Ok(Parsed(TEnum([first.value] + more.value, None), more.rest[1..]))
  }

  /** `_range_type`: two shift expressions around `..`. */
  function ParseRangeType(ts: seq<Token>): (r: Result<Parsed<Type>>)
    ensures r.Ok? ==> |r.value.rest| < |ts|
  {
    var lo :- ParseLevel(LShift, ts);
    if !At(lo.rest, "..") then Err("expected ..")
    else
      var hi :- ParseLevel(LShift, lo.rest[1..]);
      Ok(Parsed(TRange(lo.value, hi.value, None), hi.rest))
  }

  /** `_array_type`: `array lo .. hi of` a simple type. */
  function ParseArrayType(ts: seq<Token>): (r: Result<Parsed<Type>>)
    ensures r.Ok? ==> |r.value.rest| < |ts|
    decreases |ts|, 1
  {
    if !At(ts, "array") then Err("expected array")
    else
      var lo :- ParseLevel(LShift, ts[1..]);
      if !At(lo.rest, "..") then Err("expected ..")
      else
        var hi :- ParseLevel(LShift, lo.rest[1..]);
        if !At(hi.rest, "of") then Err("expected of")
        else
          var el :- ParseSimpleType(hi.rest[1..]);
          Ok(Parsed(TArray(lo.value, hi.value, el.value, None), el.rest))
  }

  /** `_module_type_specifier`: an optional `process`, the module name and
      an optional parenthesised argument list. `process` is taken whenever
      it is there; the name must follow it. */
  function ParseModuleType(ts: seq<Token>): (r: Result<Parsed<Type>>)
    ensures r.Ok? ==> |r.value.rest| < |ts|
  {
    var process := At(ts, "process");
    var afterProcess := if process then ts[1..] else ts;
    var name :- ParseIdentifier(afterProcess);
    var plain := Ok(Parsed(TModule(name.value, [], process, None), name.rest));
    if !At(name.rest, "(") then plain
    else if At(name.rest[1..], ")") then Ok(Parsed(TModule(name.value, [], process, None), name.rest[2..]))
    else match ParseList(name.rest[1..])
      case Ok(args) =>
        if At(args.rest, ")") then Ok(Parsed(TModule(name.value, args.value, process, None), args.rest[1..]))
        else plain
      case Err(_) => plain
  }

  /** `type_identifier`: a simple type, else a module type. */
  function ParseTypeIdentifier(ts: seq<Token>): (r: Result<Parsed<Type>>)
    ensures r.Ok? ==> |r.value.rest| < |ts|
  {
    if ParseSimpleType(ts).Ok? then ParseSimpleType(ts) else ParseModuleType(ts)
  }

  // ---------------------------------------------------------------------
  // Section bodies
  // ---------------------------------------------------------------------

  /** The declaration forms of the mapping sections. */
  datatype EntryForm =
    | VarEntry        // identifier : type_identifier ;
    | SimpleVarEntry  // identifier : _simple_type_specifier ;
    | DefineEntry     // identifier := simple_expression ;
    | AssignEntry     // _assign_identifier := simple_expression ;

  /** The key, the separator and the value of one declaration, then `;`. */
  function ParseEntry(form: EntryForm, ts: seq<Token>): (r: Result<Parsed<(Expr, Value)>>)
    ensures r.Ok? ==> |r.value.rest| < |ts|
  {
    var key :- if form == AssignEntry then ParseAssignIdentifier(ts) else ParseIdentifier(ts);
    var sep := if form.VarEntry? || form.SimpleVarEntry? then ":" else ":=";
    if !At(key.rest, sep) then Err("expected " + sep)
    else
      var vts := key.rest[1..];
      var value :- match form
        case VarEntry =>
          var t :- ParseTypeIdentifier(vts); Ok(Parsed(TypeValue(t.value), t.rest))
        case SimpleVarEntry =>
          var t :- ParseSimpleType(vts); Ok(Parsed(TypeValue(t.value), t.rest))
        case _ =>
          var e :- ParseExpr(vts); Ok(Parsed(ExprValue(e.value), e.rest));
      if !At(value.rest, ";") then Err("expected ;")
      else Ok(Parsed((key.value, value.value), value.rest[1..]))
  }

  /** The declarations that follow, while they parse. */
  function CollectEntries(form: EntryForm, ts: seq<Token>): (r: Parsed<Entries<Value>>)
    ensures |r.rest| <= |ts|
    decreases |ts|
  {
    match ParseEntry(form, ts)
    case Err(_) => Parsed([], ts)
    case Ok(e) =>
      var more := CollectEntries(form, e.rest);
      Parsed([e.value] + more.value, more.rest)
  }

  /** `OneOrMore(declaration)` with the action `OrderedDict(zip(t[::2],
      t[1::2]))`: a repeated key keeps its first position and its last
      value. */
  function ParseMappingBody(form: EntryForm, ts: seq<Token>): (r: Result<Parsed<Entries<Value>>>)
    ensures r.Ok? ==> |r.value.rest| < |ts| && |r.value.value| > 0
  {
    var first :- ParseEntry(form, ts);
    var more := CollectEntries(form, first.rest);
    FromPairsNonEmpty([first.value] + more.value);
    Ok(Parsed(FromPairs([first.value] + more.value), more.rest))
  }

  function CollectIdentifiers(ts: seq<Token>): (r: Parsed<seq<Expr>>)
    ensures |r.rest| <= |ts|
    decreases |ts|
  {
    if At(ts, ",") && |ts| > 1 && ts[1].TIdent? then
      var more := CollectIdentifiers(ts[2..]);
      Parsed([Ident(ts[1].text, None)] + more.value, more.rest)
    else Parsed([], ts)
  }

  /** `_constants_section_body`: identifiers separated by commas, then
      `;`. The action hands on every identifier as a separate token. */
  function ParseConstantsBody(ts: seq<Token>): (r: Result<Parsed<seq<Expr>>>)
    ensures r.Ok? ==> |r.value.rest| < |ts| && |r.value.value| > 0
  {
    var first :- ParseIdentifier(ts);
    var more := CollectIdentifiers(first.rest);
    if !At(more.rest, ";") then Err("expected ;")
    else Ok(Parsed([first.value] + more.value, more.rest[1..]))
  }

  /** `_trans_constraint_body` and its INIT, INVAR, FAIRNESS and JUSTICE
      twins: one expression and an optional `;`. */
  function ParseConstraintBody(ts: seq<Token>): (r: Result<Parsed<seq<Expr>>>)
    ensures r.Ok? ==> |r.value.rest| < |ts| && |r.value.value| == 1
  {
    var e :- ParseExpr(ts);
    var rest := if At(e.rest, ";") then e.rest[1..] else e.rest;
    Ok(Parsed([e.value], rest))
  }

  /** `_compassion_constraint_body`: `( p , q )` and an optional `;`; the
      action hands on `p` and `q` as two tokens. */
  function ParseCompassionBody(ts: seq<Token>): (r: Result<Parsed<seq<Expr>>>)
    ensures r.Ok? ==> |r.value.rest| < |ts| && |r.value.value| == 2
  {
    if !At(ts, "(") then Err("expected (")
    else
      var p :- ParseExpr(ts[1..]);
      if !At(p.rest, ",") then Err("expected ,")
      else
        var q :- ParseExpr(p.rest[1..]);
        if !At(q.rest, ")") then Err("expected )")
        else
          var after := q.rest[1..];
          var rest := if At(after, ";") then after[1..] else after;
          Ok(Parsed([p.value, q.value], rest))
  }

  // ---------------------------------------------------------------------
  // Sections by name
  // ---------------------------------------------------------------------

  predicate IsMappingSection(name: string) {
    name in {"VAR", "IVAR", "FROZENVAR", "DEFINE", "ASSIGN"}
  }

  predicate IsConstraintSection(name: string) {
    name in {"TRANS", "INIT", "INVAR", "FAIRNESS", "JUSTICE"}
  }

  /** The declaration form of the body parser of a mapping section. */
  function FormOf(name: string): EntryForm {
    if name == "VAR" then VarEntry
    else if name == "DEFINE" then DefineEntry
    else if name == "ASSIGN" then AssignEntry
    else SimpleVarEntry
  }

  /** The tokens a list section's body parser hands on. */
  function ParseListBody(name: string, ts: seq<Token>): (r: Result<Parsed<seq<Expr>>>)
    ensures r.Ok? ==> |r.value.rest| < |ts| && |r.value.value| > 0
  {
    if name == "CONSTANTS" then ParseConstantsBody(ts)
    else if name == "COMPASSION" then ParseCompassionBody(ts)
    else ParseConstraintBody(ts)
  }

  /** `_module_element`: a section keyword and its body, giving the section
      object (`Variables(t[0])`, `Constants(list(t))`, `Trans(list(t))`,
      ...). */
  function ParseSection(ts: seq<Token>): (r: Result<Parsed<Section>>)
    ensures r.Ok? ==> |r.value.rest| < |ts|
    ensures r.Ok? ==> r.value.value.name == ts[0].text
    ensures r.Ok? ==> (IsMappingSection(r.value.value.name) <==> r.value.value.body.MapBody?)
  {
    if |ts| == 0 then Err("expected a section")
    else
      var name := ts[0].text;
      if IsMappingSection(name) then
        var b :- ParseMappingBody(FormOf(name), ts[1..]);
        Ok(Parsed(Section(name, MapBody(b.value)), b.rest))
      else if name == "CONSTANTS" || name == "COMPASSION" || IsConstraintSection(name) then
        var b :- ParseListBody(name, ts[1..]);
        Ok(Parsed(Section(name, ListBody(b.value)), b.rest))
      else Err("expected a section")
  }

  /** `ZeroOrMore(_module_element)`. */
  function CollectSections(ts: seq<Token>): (r: Parsed<seq<Section>>)
    ensures |r.rest| <= |ts|
    decreases |ts|
  {
    match ParseSection(ts)
    case Err(_) => Parsed([], ts)
    case Ok(s) =>
      var more := CollectSections(s.rest);
      Parsed([s.value] + more.value, more.rest)
  }

  // ---------------------------------------------------------------------
  // parseAllString
  // ---------------------------------------------------------------------

  /** `parseAll=True`: the parse must use every token. */
  function Complete<T>(r: Result<Parsed<T>>): (v: Result<T>)
    ensures v.Ok? <==> r.Ok? && r.value.rest == []
    ensures v.Ok? ==> v.value == r.value.value
  {
    match r
    case Err(m) => Err(m)
    case Ok(p) => if p.rest == [] then Ok(p.value) else Err("expected end of text")
  }

  /** `parseAllString(identifier, s)`. */
  function ParseAllIdentifier(s: string): (r: Result<Expr>)
    ensures r.Ok? ==> r.value.Ident? && r.value.src == Some(s)
  {
    var ts :- Tokenize(s);
    var e :- Complete(ParseIdentifier(ts));
    Ok(WithSource(e, s))
  }

  /** `parseAllString(_assign_identifier, s)`. */
  function ParseAllAssignIdentifier(s: string): (r: Result<Expr>)
    ensures r.Ok? ==> SourceOf(r.value) == Some(s)
  {
    var ts :- Tokenize(s);
    var e :- Complete(ParseAssignIdentifier(ts));
    Ok(WithSource(e, s))
  }

  /** `parseAllString(type_identifier, s)`. */
  function ParseAllType(s: string): (r: Result<Type>)
    ensures r.Ok? ==> r.value.tsrc == Some(s)
  {
    var ts :- Tokenize(s);
    var t :- Complete(ParseTypeIdentifier(ts));
    Ok(TypeWithSource(t, s))
  }

  /** `parseAllString(_simple_type_specifier, s)`. */
  function ParseAllSimpleType(s: string): (r: Result<Type>)
    ensures r.Ok? ==> r.value.tsrc == Some(s)
  {
    var ts :- Tokenize(s);
    var t :- Complete(ParseSimpleType(ts));
    Ok(TypeWithSource(t, s))
  }

  /** `parseAllString` on a mapping section's body parser: the single
      token is the `OrderedDict`, which has no `source`. */
  function ParseAllMapping(name: string, s: string): (r: Result<Entries<Value>>)
    ensures r.Ok? ==> |r.value| > 0
  {
    var ts :- Tokenize(s);
    Complete(ParseMappingBody(FormOf(name), ts))
  }

  /** `parser.parseString(s, parseAll=True)` on a list section's body
      parser: every token it hands on, before `parseAllString` keeps
      `res[0]`. */
  function ParseAllListTokens(name: string, s: string): (r: Result<seq<Expr>>)
    ensures r.Ok? ==> |r.value| > 0
  {
    var ts :- Tokenize(s);
    Complete(ParseListBody(name, ts))
  }
}
