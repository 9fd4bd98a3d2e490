/** Module classes: how `ModuleMetaClass.__new__` builds a module's
    namespace from a class body (src/pynusmv/model.py:1491-1516), how
    `__str__` prints it (model.py:1756-1776), and how a module written in
    SMV text becomes such a class (src/pynusmv/parser.py:455-477). */
module Modules {
  import opened Wrappers
  import opened Ast
  import opened Text
  import opened Printer
  import opened Grammar
  import opened OrderedMaps
  import opened SectionGrammar
  import opened Sections
  import Lexer

  // ---------------------------------------------------------------------
  // Namespaces
  // ---------------------------------------------------------------------

  /** A member of a module class: the canonical body of a section, or any
      other attribute, kept as given. */
  datatype Member = SectionMember(body: Body) | Attribute(value: PyValue)

  /** The `OrderedDict` `__new__` builds; its names, in order, are the
      class's `members`. */
  type Namespace = seq<(string, Member)>

  /** A module class: its class name, its namespace and its `source`. */
  datatype ModuleClass = ModuleClass(className: string, namespace: Namespace, source: Option<string>)

  function Names(ns: Namespace): (r: seq<string>)
    ensures |r| == |ns| && forall i | 0 <= i < |ns| :: r[i] == ns[i].0
  {
    seq(|ns|, i requires 0 <= i < |ns| => ns[i].0)
  }

  /** No name occurs twice. */
  predicate Distinct(names: seq<string>) {
    forall i, j | 0 <= i < j < |names| :: names[i] != names[j]
  }

  /** The position of `name`, or `|ns|`. */
  function Find(ns: Namespace, name: string): (i: nat)
    ensures i <= |ns|
    ensures i < |ns| ==> ns[i].0 == name
    ensures forall j | 0 <= j < i :: ns[j].0 != name
    decreases |ns|
  {
    if |ns| == 0 then 0
    else if ns[0].0 == name then 0
    else 1 + Find(ns[1..], name)
  }

  /** `namespace[name]`, `None` for a missing name. */
  function Get(ns: Namespace, name: string): Option<Member> {
    var i := Find(ns, name);
    if i < |ns| then Some(ns[i].1) else None
  }

  /** `namespace[name] = m`: in place when present, appended otherwise. */
  function Set(ns: Namespace, name: string, m: Member): Namespace {
    var i := Find(ns, name);
    if i < |ns| then ns[i := (name, m)] else ns + [(name, m)]
  }

  /** The section a declaration files itself under. */
  function DeclSection(kind: DeclKind): (s: string)
    ensures IsMappingSection(s)
  {
    match kind
    case DVar => "VAR"
    case DIVar => "IVAR"
    case DFVar => "FROZENVAR"
    case DDef => "DEFINE"
  }

  // ---------------------------------------------------------------------
  // __new__
  // ---------------------------------------------------------------------

  /** One member of the class body, in the order the body binds them: a
      section is normalised and merged into an earlier body of the same
      section; a declaration takes the member's name and is filed under
      its section with its declared type or expression; anything else is
      kept. */
  function AddMember(ns: Namespace, member: string, value: PyValue): Result<Namespace> {
    if LayoutOf(member).Some? then
      var internal :- SectionInternal(member, value);
      match Get(ns, member)
      case None => Ok(Set(ns, member, SectionMember(internal)))
      case Some(SectionMember(before)) =>
        var merged :- Merge(before, internal);
        Ok(Set(ns, member, SectionMember(merged)))
      case Some(Attribute(_)) => Err("a section name holds an attribute")
    else if value.PyDecl? then
      var section := DeclSection(value.kind);
      var key := DeclIdent(value.kind, member, None);
      match Get(ns, section)
      case None => Ok(Set(ns, section, SectionMember(MapBody(Put([], key, value.declared)))))
      case Some(SectionMember(MapBody(m))) => Ok(Set(ns, section, SectionMember(MapBody(Put(m, key, value.declared)))))
      case Some(_) => Err("a mapping section holds something else")
    else Ok(Set(ns, member, Attribute(value)))
  }

  /** Every member of the class body, in order. */
  function AddMembers(ns: Namespace, body: seq<(string, PyValue)>): Result<Namespace>
    decreases |body|
  {
    if |body| == 0 then Ok(ns)
    else
      var next :- AddMember(ns, body[0].0, body[0].1);
      AddMembers(next, body[1..])
  }

  /** `ModuleMetaClass.__new__(cls, name, bases, namespace)`. */
  function ModuleNew(name: string, body: seq<(string, PyValue)>): Result<ModuleClass> {
    var ns :- AddMembers([], body);
    Ok(ModuleClass(name, ns, None))
  }

  // ---------------------------------------------------------------------
  // __str__
  // ---------------------------------------------------------------------

  /** `str(v)` for an attribute. */
  function PyText(v: PyValue): Result<string> {
    match v
    case PyStr(s) => Ok(s)
    case PyExpr(e) => ExprText(e)
    case PyDecl(kind, _, n) => ExprText(DeclIdent(kind, n, None))
    case PyType(t) => Ok(RenderType(t))
    case PyOther(text) => Ok(text)
    case _ => Err("the text of a collection is not modelled")
  }

  function PyTexts(xs: seq<PyValue>): (r: Result<seq<string>>)
    ensures r.Ok? ==> |r.value| == |xs|
    decreases |xs|
  {
    if |xs| == 0 then Ok([])
    else
      var t :- PyText(xs[0]);
      var ts :- PyTexts(xs[1..]);
      Ok([t] + ts)
  }

  /** `str(arg) for arg in cls.ARGS`: a string gives its characters, a
      mapping its keys. */
  function ArgTexts(v: PyValue): Result<seq<string>> {
    match v
    case PyList(xs) => PyTexts(xs)
    case PyStr(s) => Ok(seq(|s|, i requires 0 <= i < |s| => [s[i]]))
    case PyMap(ps) => PyTexts(seq(|ps|, i requires 0 <= i < |ps| => ps[i].0))
    case _ => Err("ARGS is not iterable")
  }

  /** An attribute of the class, `None` when it is not defined. */
  function AttributeOf(ns: Namespace, name: string): Option<PyValue> {
    match Get(ns, name)
    case Some(Attribute(v)) => Some(v)
    case _ => None
  }

  /** `str(name)`, where `name` is `cls.NAME`, or the class name when the
      class has no `NAME`. */
  function NameText(m: ModuleClass): Result<string> {
    match AttributeOf(m.namespace, "NAME")
    case Some(v) => PyText(v)
    case None => Ok(m.className)
  }

  /** The argument list, built under `except AttributeError`: the
      `AttributeError` of an unnamed declaration leaves the header without
      an argument list, any other failure propagates. */
  function ArgList(texts: Result<seq<string>>): (r: Result<string>)
    ensures texts.Ok? ==> r == Ok("(" + Join(", ", texts.value) + ")")
    ensures texts == Err(UnknownName) ==> r == Ok("")
    ensures texts.Err? && texts.msg != UnknownName ==> r == Err(texts.msg)
  {
    match texts
    case Ok(ts) => Ok("(" + Join(", ", ts) + ")")
    case Err(msg) => if msg == UnknownName then Ok("") else Err(msg)
  }

  /** `"MODULE " + str(name) + args`. */
  function HeaderText(m: ModuleClass): Result<string> {
    var name :- NameText(m);
    var args :- match AttributeOf(m.namespace, "ARGS")
      case Some(v) => ArgList(ArgTexts(v))
      case None => Ok("");
    Ok("MODULE " + name + args)
  }

  /** The texts of a list fail with the first element whose text fails. */
  lemma {:induction false} PyTextsFailAt(xs: seq<PyValue>, i: nat)
    requires i < |xs| && PyTexts(xs[..(i)]).Ok? && PyText(xs[i]).Err?
    ensures PyTexts(xs) == Err(PyText(xs[i]).msg)
    decreases i
  {
    if i > 0 {
      assert xs[1..][..i - 1] == xs[..i][1..];
      assert xs[1..][i - 1] == xs[i];
      PyTextsFailAt(xs[1..], i - 1);
    }
  }

  /** An unnamed declaration in `ARGS`, after arguments that all print,
      drops the whole argument list from the header: its `str` raises
      `AttributeError`, which the header catches. */
  lemma UnnamedArgumentDropsArgs(m: ModuleClass, xs: seq<PyValue>, i: nat)
    requires AttributeOf(m.namespace, "ARGS") == Some(PyList(xs))
    requires i < |xs| && xs[i].PyDecl? && xs[i].name == ""
    requires PyTexts(xs[..(i)]).Ok?
    ensures HeaderText(m) == (var name :- NameText(m); Ok("MODULE " + name))
  {
    assert DeclarationName(DeclIdent(xs[i].kind, "", None)) == Err(UnknownName);
    assert PyText(xs[i]) == Err(UnknownName);
    PyTextsFailAt(xs, i);
    assert ArgTexts(PyList(xs)) == Err(UnknownName);
    if NameText(m).Ok? {
      var name := NameText(m).value;
      assert "MODULE " + name + "" == "MODULE " + name;
    }
  }

  /** The section members, printed in member order. */
  function SectionTexts(ns: Namespace, indentation: string): Result<seq<string>>
    decreases |ns|
  {
    if |ns| == 0 then Ok([])
    else
      var first :- if LayoutOf(ns[0].0).Some? && ns[0].1.SectionMember? then
          var t :- SectionStr(ns[0].0, ns[0].1.body, indentation); Ok([t])
        else Ok([]);
      var more :- SectionTexts(ns[1..], indentation);
      Ok(first + more)
  }

  /** `str(cls)`: the source when there is one, else the header and the
      sections, one per line, indented by four spaces. */
  function ModuleStr(m: ModuleClass): Result<string> {
    if HasText(m.source) then Ok(m.source.value)
    else
      var header :- HeaderText(m);
      var sections :- SectionTexts(m.namespace, "    ");
      Ok(Join("\n", [header] + sections))
  }

  // ---------------------------------------------------------------------
  // The module grammar and _create_module
  // ---------------------------------------------------------------------

  /** What the `module` production hands to its action: the name, the
      argument group when at least one argument was written, whether the
      parentheses were there, and the sections. */
  datatype ModuleTokens = ModuleTokens(name: Expr, args: Option<seq<Expr>>, parens: bool, sections: seq<Section>)

  /** `Optional(_module_args)` after the module name. */
  function ParseModuleArgs(ts: seq<Lexer.Token>): (r: (Option<seq<Expr>>, bool, seq<Lexer.Token>))
    ensures |r.2| <= |ts|
    ensures r.0.Some? ==> r.1 && |r.0.value| > 0
  {
    if !At(ts, "(") then (None, false, ts)
    else if At(ts[1..], ")") then (None, true, ts[2..])
    else match ParseIdentifier(ts[1..])
      case Err(_) => (None, false, ts)
      case Ok(first) =>
        var more := CollectIdentifiers(first.rest);
        if At(more.rest, ")") then (Some([first.value] + more.value), true, more.rest[1..])
        else (None, false, ts)
  }

  /** `module`: `MODULE`, an identifier, optional arguments, and the
      sections that follow. */
  function ParseModule(ts: seq<Lexer.Token>): (r: Result<Parsed<ModuleTokens>>)
    ensures r.Ok? ==> |r.value.rest| < |ts|
  {
    if !At(ts, "MODULE") then Err("expected MODULE")
    else
      var name :- ParseIdentifier(ts[1..]);
      var (args, parens, afterArgs) := ParseModuleArgs(name.rest);
      var sections := CollectSections(afterArgs);
      Ok(Parsed(ModuleTokens(name.value, args, parens, sections.value), sections.rest))
  }

  /** Where `_create_module` looks for `ARGS`: `tokens[1]`, which is the
      argument group, else the first section. */
  datatype ArgsSlot = ArgsList(ids: seq<Expr>) | ArgsSection(section: Section)

  /** What the action files in the namespace, as written: `NAME`, `ARGS`
      from `tokens[1]`, and the sections from `tokens[2:]`. */
  datatype Assembly = Assembly(name: Expr, args: ArgsSlot, sections: seq<Section>)

  /** `_create_module` as the code stands, up to its namespace. */
  function CreateModuleAsWritten(t: ModuleTokens): Result<Assembly> {
    match t.args
    case Some(ids) => Ok(Assembly(t.name, ArgsList(ids), t.sections))
    case None =>
      if |t.sections| == 0 then Err("list index out of range")
      else Ok(Assembly(t.name, ArgsSection(t.sections[0]), t.sections[1..]))
  }

  /** The sections by name, the first occurrence inserted and the later
      ones merged into it. */
  function GatherSections(acc: seq<(string, Body)>, sections: seq<Section>): Result<seq<(string, Body)>>
    decreases |sections|
  {
    if |sections| == 0 then Ok(acc)
    else
      var next :- GatherOne(acc, sections[0]);
      GatherSections(next, sections[1..])
  }

  /** One section: merged into the body of its name, or appended. */
  function GatherOne(acc: seq<(string, Body)>, s: Section): Result<seq<(string, Body)>> {
    var i := FindBody(acc, s.name);
    if i < |acc| then
      var merged :- Merge(acc[i].1, s.body); Ok(acc[i := (s.name, merged)])
    else Ok(acc + [(s.name, s.body)])
  }

  function FindBody(acc: seq<(string, Body)>, name: string): (i: nat)
    ensures i <= |acc|
    ensures i < |acc| ==> acc[i].0 == name
    ensures forall j | 0 <= j < i :: acc[j].0 != name
    decreases |acc|
  {
    if |acc| == 0 then 0
    else if acc[0].0 == name then 0
    else 1 + FindBody(acc[1..], name)
  }

  /** A value as the class body holds it. */
  function ValuePy(v: Value): PyValue {
    match v
    case TypeValue(t) => PyType(t)
    case ExprValue(e) => PyExpr(e)
    case TextValue(s) => PyOther(s)
  }

  /** A canonical body as a class-body value: an `OrderedDict` or a
      list. */
  function BodyPy(b: Body): PyValue {
    match b
    case MapBody(m) => PyMap(PairsPy(m))
    case ListBody(xs) => PyList(ExprValues(xs))
  }

  function PairsPy(m: Entries<Value>): (r: seq<(PyValue, PyValue)>)
    ensures |r| == |m| && forall i | 0 <= i < |m| :: r[i] == (PyExpr(m[i].0), ValuePy(m[i].1))
  {
    seq(|m|, i requires 0 <= i < |m| => (PyExpr(m[i].0), ValuePy(m[i].1)))
  }

  function BodiesPy(bodies: seq<(string, Body)>): (r: seq<(string, PyValue)>)
    ensures |r| == |bodies|
  {
    seq(|bodies|, i requires 0 <= i < |bodies| => (bodies[i].0, BodyPy(bodies[i].1)))
  }

  /** `_create_module` with `ARGS` recorded exactly when the parentheses
      were written (an empty list for `()`), and every section kept. */
  function CreateModule(t: ModuleTokens): Result<ModuleClass> {
    var gathered :- GatherSections([], t.sections);
    var className :- ExprText(t.name);
    ModuleNew(className, HeaderPy(t) + BodiesPy(gathered))
  }

  /** What `_create_module` binds ahead of the sections: `NAME`, then
      `ARGS` when the parentheses were written. */
  function HeaderPy(t: ModuleTokens): seq<(string, PyValue)> {
    [("NAME", PyExpr(t.name))]
    + if t.parens then [("ARGS", PyList(ExprValues(if t.args.Some? then t.args.value else [])))] else []
  }

  /** `parseAllString(module, s)`: the module, whose `source` is `s`. */
  function ParseAllModule(s: string): Result<ModuleClass> {
    var ts :- Lexer.Tokenize(s);
    var t :- Complete(ParseModule(ts));
    var m :- CreateModule(t);
    Ok(ModuleClass(m.className, m.namespace, Some(s)))
  }

  /** `model = OneOrMore(module)`: the module declarations, in order. */
  function CollectModules(ts: seq<Lexer.Token>): (r: Parsed<seq<ModuleTokens>>)
    ensures |r.rest| <= |ts|
    decreases |ts|
  {
    match ParseModule(ts)
    case Err(_) => Parsed([], ts)
    case Ok(p) =>
      var more := CollectModules(p.rest);
      Parsed([p.value] + more.value, more.rest)
  }

  function CreateModules(ts: seq<ModuleTokens>): Result<seq<ModuleClass>>
    decreases |ts|
  {
    if |ts| == 0 then Ok([])
    else
      var m :- CreateModule(ts[0]);
      var more :- CreateModules(ts[1..]);
      Ok([m] + more)
  }

  /** The whole text as a model: one module or more, every token used. */
  function ParseModel(s: string): (r: Result<seq<ModuleClass>>)
    ensures r.Ok? ==> |r.value| > 0
  {
    var ts :- Lexer.Tokenize(s);
    var all := CollectModules(ts);
    if |all.value| == 0 then Err("expected MODULE")
    else if all.rest != [] then Err("expected end of text")
    else
      var ms :- CreateModules(all.value);
      Ok(ms)
  }

  // ---------------------------------------------------------------------
  // Properties of the namespace
  // ---------------------------------------------------------------------

  lemma FindOf(ns: Namespace, name: string, i: nat)
    requires i < |ns| && ns[i].0 == name
    requires forall j | 0 <= j < i :: ns[j].0 != name
    ensures Find(ns, name) == i
  {
  }

  /** After `namespace[n] = m`, `namespace[n]` is `m`, every other name
      reads as before, and the member names are unchanged when `n` was
      bound and grow by `n` at the end otherwise; so no name ever occurs
      twice. */
  lemma SetThenGet(ns: Namespace, n: string, m: Member)
    ensures Get(Set(ns, n, m), n) == Some(m)
    ensures forall other | other != n :: Get(Set(ns, n, m), other) == Get(ns, other)
    ensures Names(Set(ns, n, m)) == if Get(ns, n).Some? then Names(ns) else Names(ns) + [n]
    ensures Distinct(Names(ns)) ==> Distinct(Names(Set(ns, n, m)))
  {
    var i := Find(ns, n);
    var r := Set(ns, n, m);
    if i < |ns| {
      FindOf(r, n, i);
      forall other | other != n
        ensures Get(r, other) == Get(ns, other)
      {
        var k := Find(ns, other);
        if k < |ns| {
          FindOf(r, other, k);
        } else {
          assert forall j | 0 <= j < |r| :: r[j].0 == ns[j].0;
        }
      }
      assert Names(r) == Names(ns);
    } else {
      FindOf(r, n, |ns|);
      forall other | other != n
        ensures Get(r, other) == Get(ns, other)
      {
        var k := Find(ns, other);
        if k < |ns| {
          FindOf(r, other, k);
        }
      }
      assert Names(r) == Names(ns) + [n];
    }
  }

  /** What `__new__` keeps apart: a section name always holds a canonical
      body of its own kind. */
  predicate WellFormed(ns: Namespace) {
    forall i | 0 <= i < |ns| :: LayoutOf(ns[i].0).Some? ==>
      ns[i].1.SectionMember? && (ns[i].1.body.MapBody? <==> IsMappingSection(ns[i].0))
  }

  lemma WellFormedGet(ns: Namespace, n: string)
    requires WellFormed(ns) && LayoutOf(n).Some? && Get(ns, n).Some?
    ensures Get(ns, n).value.SectionMember?
    ensures Get(ns, n).value.body.MapBody? <==> IsMappingSection(n)
  {
    assert ns[Find(ns, n)].0 == n;
  }

  lemma WellFormedSet(ns: Namespace, n: string, m: Member)
    requires WellFormed(ns)
    requires LayoutOf(n).Some? ==> m.SectionMember? && (m.body.MapBody? <==> IsMappingSection(n))
    ensures WellFormed(Set(ns, n, m))
  {
  }

  /** One member of the class body fails exactly when it names a section
      whose value does not normalise; otherwise the namespace stays well
      formed and keeps its names unique. */
  lemma AddMemberOutcome(ns: Namespace, member: string, value: PyValue)
    requires WellFormed(ns)
    ensures AddMember(ns, member, value).Err? <==>
      LayoutOf(member).Some? && SectionInternal(member, value).Err?
    ensures AddMember(ns, member, value).Ok? ==> WellFormed(AddMember(ns, member, value).value)
    ensures AddMember(ns, member, value).Ok? && Distinct(Names(ns)) ==>
      Distinct(Names(AddMember(ns, member, value).value))
  {
    if LayoutOf(member).Some? {
      match SectionInternal(member, value)
      case Err(_) =>
      case Ok(internal) =>
        match Get(ns, member)
        case None =>
          SetThenGet(ns, member, SectionMember(internal));
          WellFormedSet(ns, member, SectionMember(internal));
        case Some(_) =>
          WellFormedGet(ns, member);
          var merged := Merge(Get(ns, member).value.body, internal);
          assert merged.Ok?;
          SetThenGet(ns, member, SectionMember(merged.value));
          WellFormedSet(ns, member, SectionMember(merged.value));
    } else if value.PyDecl? {
      var section := DeclSection(value.kind);
      var key := DeclIdent(value.kind, member, None);
      match Get(ns, section)
      case None =>
        var m := SectionMember(MapBody(Put([], key, value.declared)));
        SetThenGet(ns, section, m);
        WellFormedSet(ns, section, m);
      case Some(_) =>
        WellFormedGet(ns, section);
        var m := SectionMember(MapBody(Put(Get(ns, section).value.body.entries, key, value.declared)));
        SetThenGet(ns, section, m);
        WellFormedSet(ns, section, m);
    } else {
      SetThenGet(ns, member, Attribute(value));
      WellFormedSet(ns, member, Attribute(value));
    }
  }

  /** The class is created whenever every section of its body normalises,
      and then its `members` name each member once. */
  lemma {:induction false} AddMembersSucceed(ns: Namespace, body: seq<(string, PyValue)>)
    requires WellFormed(ns) && Distinct(Names(ns))
    requires forall i | 0 <= i < |body| :: LayoutOf(body[i].0).Some? ==> SectionInternal(body[i].0, body[i].1).Ok?
    ensures AddMembers(ns, body).Ok?
    ensures WellFormed(AddMembers(ns, body).value) && Distinct(Names(AddMembers(ns, body).value))
    decreases |body|
  {
    if |body| > 0 {
      AddMemberOutcome(ns, body[0].0, body[0].1);
      var next := AddMember(ns, body[0].0, body[0].1).value;
      assert forall i | 0 <= i < |body[1..]| :: body[1..][i] == body[i + 1];
      AddMembersSucceed(next, body[1..]);
    }
  }

  lemma ModuleNewSucceeds(name: string, body: seq<(string, PyValue)>)
    requires forall i | 0 <= i < |body| :: LayoutOf(body[i].0).Some? ==> SectionInternal(body[i].0, body[i].1).Ok?
    ensures ModuleNew(name, body).Ok?
    ensures Distinct(Names(ModuleNew(name, body).value.namespace))
    ensures ModuleNew(name, body).value.className == name
  {
    AddMembersSucceed([], body);
  }

  /** A declaration bound to `member` is filed under its section with the
      member's name as key and its declared type or expression as value;
      `member` itself does not become an attribute, and its name reads back
      through `Declaration.name` unless it is empty. */
  lemma DeclarationFiled(ns: Namespace, member: string, kind: DeclKind, declared: Value, n: string)
    requires WellFormed(ns) && LayoutOf(member).None?
    ensures var r := AddMember(ns, member, PyDecl(kind, declared, n));
      && r.Ok?
      && Get(r.value, member) == Get(ns, member)
      && Get(r.value, DeclSection(kind)).Some?
      && Get(r.value, DeclSection(kind)).value.SectionMember?
      && Get(r.value, DeclSection(kind)).value.body.MapBody?
      && Lookup(Get(r.value, DeclSection(kind)).value.body.entries, DeclIdent(kind, member, None)) == Some(declared)
    ensures member != "" ==> DeclarationName(DeclIdent(kind, member, None)) == Ok(member)
  {
    var section := DeclSection(kind);
    var key := DeclIdent(kind, member, None);
    assert member != section;
    match Get(ns, section)
    case None =>
      PutThenLookup([], key, declared);
      SetThenGet(ns, section, SectionMember(MapBody(Put([], key, declared))));
    case Some(_) =>
      WellFormedGet(ns, section);
      var m := Get(ns, section).value.body.entries;
      PutThenLookup(m, key, declared);
      SetThenGet(ns, section, SectionMember(MapBody(Put(m, key, declared))));
  }

  /** A two-member class body is added one member after the other. */
  lemma AddTwo(ns: Namespace, a: (string, PyValue), b: (string, PyValue))
    ensures AddMembers(ns, [a, b]) ==
      match AddMember(ns, a.0, a.1)
      case Err(m) => Err(m)
      case Ok(ns1) => AddMember(ns1, b.0, b.1)
  {
    assert [a, b][1..] == [b] && [b][1..] == [];
    match AddMember(ns, a.0, a.1)
    case Err(_) =>
    case Ok(ns1) =>
      match AddMember(ns1, b.0, b.1)
      case Err(_) =>
      case Ok(ns2) => assert AddMembers(ns2, []) == Ok(ns2);
  }

  /** A declaration whose section is not there yet opens it. */
  lemma DeclarationOpens(ns: Namespace, member: string, kind: DeclKind, declared: Value, n: string)
    requires LayoutOf(member).None? && Get(ns, DeclSection(kind)).None?
    ensures AddMember(ns, member, PyDecl(kind, declared, n))
      == Ok(Set(ns, DeclSection(kind), SectionMember(MapBody([(DeclIdent(kind, member, None), declared)]))))
  {
    assert Put([], DeclIdent(kind, member, None), declared) == [(DeclIdent(kind, member, None), declared)];
  }

  /** A declaration whose section is there is put into it. */
  lemma DeclarationJoins(ns: Namespace, member: string, kind: DeclKind, declared: Value, n: string, entries: Entries<Value>)
    requires LayoutOf(member).None? && Get(ns, DeclSection(kind)) == Some(SectionMember(MapBody(entries)))
    ensures AddMember(ns, member, PyDecl(kind, declared, n))
      == Ok(Set(ns, DeclSection(kind), SectionMember(MapBody(Put(entries, DeclIdent(kind, member, None), declared)))))
  {
  }

  /** A section that is not there yet is inserted. */
  lemma SectionOpens(ns: Namespace, section: string, value: PyValue, b: Body)
    requires LayoutOf(section).Some? && SectionInternal(section, value) == Ok(b) && Get(ns, section).None?
    ensures AddMember(ns, section, value) == Ok(Set(ns, section, SectionMember(b)))
  {
  }

  /** A section that is there already takes the new body after its own. */
  lemma SectionJoins(ns: Namespace, section: string, value: PyValue, before: Body, b: Body)
    requires LayoutOf(section).Some? && SectionInternal(section, value) == Ok(b)
    requires Get(ns, section) == Some(SectionMember(before)) && Merge(before, b).Ok?
    ensures AddMember(ns, section, value) == Ok(Set(ns, section, SectionMember(Merge(before, b).value)))
  {
  }

  /** A section written after a declaration of the same section extends
      it: the declaration keeps the first slot and the section's entries
      follow in their order. */
  lemma DeclarationThenSection(className: string, member: string, kind: DeclKind, declared: Value, n: string,
                               value: PyValue, entries: Entries<Value>)
    requires LayoutOf(member).None?
    requires SectionInternal(DeclSection(kind), value) == Ok(MapBody(entries))
    ensures ModuleNew(className, [(member, PyDecl(kind, declared, n)), (DeclSection(kind), value)])
      == Ok(ModuleClass(className, [(DeclSection(kind), SectionMember(MapBody(Update([(DeclIdent(kind, member, None), declared)], entries))))], None))
    ensures |Update([(DeclIdent(kind, member, None), declared)], entries)| > 0
      && Keys(Update([(DeclIdent(kind, member, None), declared)], entries))[..1] == [DeclIdent(kind, member, None)]
  {
    var section := DeclSection(kind);
    var key := DeclIdent(kind, member, None);
    var first := SectionMember(MapBody([(key, declared)]));
    DeclarationOpens([], member, kind, declared, n);
    SingleMember(section, first, SectionMember(MapBody(Update([(key, declared)], entries))));
    SectionJoins([(section, first)], section, value, MapBody([(key, declared)]), MapBody(entries));
    AddTwo([], (member, PyDecl(kind, declared, n)), (section, value));
    UpdateKeepsPrefix([(key, declared)], entries);
  }

  /** A namespace of one member: setting into the empty namespace gives
      it, reading its name gives the member, setting that name again
      replaces it. */
  lemma SingleMember(name: string, m: Member, m2: Member)
    ensures Set([], name, m) == [(name, m)]
    ensures Get([(name, m)], name) == Some(m)
    ensures Set([(name, m)], name, m2) == [(name, m2)]
  {
    assert Find([(name, m)], name) == 0;
  }

  /** A declaration written after its section is put into it: a name
      new there is appended, and a name already there keeps its slot and
      takes the declared value. */
  lemma SectionThenDeclaration(className: string, member: string, kind: DeclKind, declared: Value, n: string,
                               value: PyValue, entries: Entries<Value>)
    requires LayoutOf(member).None?
    requires SectionInternal(DeclSection(kind), value) == Ok(MapBody(entries))
    ensures ModuleNew(className, [(DeclSection(kind), value), (member, PyDecl(kind, declared, n))])
      == Ok(ModuleClass(className, [(DeclSection(kind), SectionMember(MapBody(Put(entries, DeclIdent(kind, member, None), declared))))], None))
    ensures Lookup(entries, DeclIdent(kind, member, None)).None?
      ==> Put(entries, DeclIdent(kind, member, None), declared) == entries + [(DeclIdent(kind, member, None), declared)]
  {
    var section := DeclSection(kind);
    var key := DeclIdent(kind, member, None);
    var after := Put(entries, key, declared);
    SectionOpens([], section, value, MapBody(entries));
    SingleMember(section, SectionMember(MapBody(entries)), SectionMember(MapBody(after)));
    DeclarationJoins([(section, SectionMember(MapBody(entries)))], member, kind, declared, n, entries);
    AddTwo([], (section, value), (member, PyDecl(kind, declared, n)));
  }

  /** Keys read from section text are `Identifier`s, and no `Identifier`
      shares a slot with a declaration: `VAR = "x : boolean;"` followed by
      `x = Var(...)` leaves two entries named `x` (model.py:183-187,
      1505-1510). */
  lemma IdentifierKeysMissDeclaration(entries: Entries<Value>, kind: DeclKind, member: string, declared: Value)
    requires forall i | 0 <= i < |entries| :: entries[i].0.Ident?
    ensures Lookup(entries, DeclIdent(kind, member, None)).None?
    ensures Put(entries, DeclIdent(kind, member, None), declared) == entries + [(DeclIdent(kind, member, None), declared)]
  {
    assert Slot(entries, DeclIdent(kind, member, None)) == |entries|;
  }

  // ---------------------------------------------------------------------
  // Properties of _create_module
  // ---------------------------------------------------------------------

  /** A body as the parser leaves it: a known section, a mapping exactly
      for a mapping section, and no two keys in one slot. */
  predicate Normal(section: string, b: Body) {
    && LayoutOf(section).Some?
    && (b.MapBody? <==> IsMappingSection(section))
    && (b.MapBody? ==> Apart(b.entries))
  }

  /** Every section the parser reads is normal. */
  lemma SectionParsedNormal(ts: seq<Lexer.Token>)
    requires ParseSection(ts).Ok?
    ensures Normal(ParseSection(ts).value.value.name, ParseSection(ts).value.value.body)
  {
    var name := ts[0].text;
    if IsMappingSection(name) {
      var first := ParseEntry(FormOf(name), ts[1..]).value;
      var more := CollectEntries(FormOf(name), first.rest);
      UpdateKeepsApart([], [first.value] + more.value);
    }
  }

  lemma {:induction false} SectionsParsedNormal(ts: seq<Lexer.Token>)
    ensures forall i | 0 <= i < |CollectSections(ts).value| ::
      Normal(CollectSections(ts).value[i].name, CollectSections(ts).value[i].body)
    decreases |ts|
  {
    match ParseSection(ts)
    case Err(_) =>
    case Ok(p) =>
      SectionParsedNormal(ts);
      SectionsParsedNormal(p.rest);
  }

  lemma {:induction false} PutPairsPy(section: string, m: Entries<Value>, acc: Entries<Value>)
    ensures PutPairs(Intended, section, PairsPy(m), acc) == Ok(Update(acc, m))
    decreases |m|
  {
    if |m| > 0 {
      assert PairsPy(m)[1..] == PairsPy(m[1..]);
      assert ValueOf(Intended, section, ValuePy(m[0].1)) == Ok(m[0].1);
      PutPairsPy(section, m[1..], Put(acc, m[0].0, m[0].1));
    }
  }

  /** Handing a normal body back to `__new__` gives the same body: what
      `_create_module` files under a section name is what it parsed. */
  lemma BodyPyKept(section: string, b: Body)
    requires Normal(section, b)
    ensures SectionInternal(section, BodyPy(b)) == Ok(b)
  {
    match b
    case MapBody(m) =>
      PutPairsPy(section, m, []);
      CopyApart(m);
    case ListBody(xs) =>
      ExpressionListKept(Intended, section, xs);
  }

  /** Two normal bodies of one section merge into a normal body. */
  lemma MergeNormal(section: string, a: Body, b: Body)
    requires Normal(section, a) && Normal(section, b)
    ensures Merge(a, b).Ok? && Normal(section, Merge(a, b).value)
  {
    if a.MapBody? {
      UpdateKeepsApart(a.entries, b.entries);
    }
  }

  function BodyNames(acc: seq<(string, Body)>): (r: seq<string>)
    ensures |r| == |acc| && forall i | 0 <= i < |acc| :: r[i] == acc[i].0
  {
    seq(|acc|, i requires 0 <= i < |acc| => acc[i].0)
  }

  predicate AllNormal(acc: seq<(string, Body)>) {
    forall i | 0 <= i < |acc| :: Normal(acc[i].0, acc[i].1)
  }

  /** Gathering normal sections never fails; it keeps one normal body per
      section name, and every section read has its name there. */
  lemma {:induction false} GatherNormal(acc: seq<(string, Body)>, sections: seq<Section>)
    requires AllNormal(acc) && Distinct(BodyNames(acc))
    requires forall i | 0 <= i < |sections| :: Normal(sections[i].name, sections[i].body)
    ensures GatherSections(acc, sections).Ok?
    ensures var r := GatherSections(acc, sections).value;
      AllNormal(r) && Distinct(BodyNames(r))
      && |r| >= |acc| && BodyNames(r)[..|acc|] == BodyNames(acc)
      && forall i | 0 <= i < |sections| :: sections[i].name in BodyNames(r)
    decreases |sections|
  {
    if |sections| > 0 {
      GatherOneNormal(acc, sections[0]);
      var next := GatherOne(acc, sections[0]).value;
      GatherNormal(next, sections[1..]);
      var r := GatherSections(acc, sections).value;
      assert r == GatherSections(next, sections[1..]).value;
      PrefixOfPrefix(BodyNames(r), BodyNames(next), BodyNames(acc));
      forall j | 0 <= j < |sections|
        ensures sections[j].name in BodyNames(r)
      {
        if j > 0 {
          assert sections[j] == sections[1..][j - 1];
        } else {
          InPrefix(sections[0].name, BodyNames(next), BodyNames(r));
        }
      }
    }
  }

  lemma PrefixOfPrefix(r: seq<string>, next: seq<string>, acc: seq<string>)
    requires |r| >= |next| >= |acc| && r[..|next|] == next && next[..|acc|] == acc
    ensures r[..|acc|] == acc
  {
    assert r[..|acc|] == r[..|next|][..|acc|];
  }

  lemma InPrefix(x: string, a: seq<string>, b: seq<string>)
    requires x in a && |b| >= |a| && b[..|a|] == a
    ensures x in b
  {
    var k :| 0 <= k < |a| && a[k] == x;
    assert b[k] == b[..|a|][k];
  }

  /** One normal section gathered into normal bodies keeps them normal
      and apart, keeps the names before it, and has its name there. */
  lemma GatherOneNormal(acc: seq<(string, Body)>, s: Section)
    requires AllNormal(acc) && Distinct(BodyNames(acc)) && Normal(s.name, s.body)
    ensures GatherOne(acc, s).Ok?
    ensures var r := GatherOne(acc, s).value;
      AllNormal(r) && Distinct(BodyNames(r))
      && |r| >= |acc| && BodyNames(r)[..|acc|] == BodyNames(acc)
      && s.name in BodyNames(r)
  {
    var i := FindBody(acc, s.name);
    if i < |acc| {
      MergeNormal(s.name, acc[i].1, s.body);
      var next := acc[i := (s.name, Merge(acc[i].1, s.body).value)];
      assert BodyNames(next) == BodyNames(acc);
      assert BodyNames(next)[i] == s.name;
    } else {
      var next := acc + [(s.name, s.body)];
      assert BodyNames(next) == BodyNames(acc) + [s.name];
      assert BodyNames(next)[|acc|] == s.name;
    }
  }

  /** Sections written twice are merged in the order they were written. */
  lemma RepeatedSectionMerged(name: string, a: Body, b: Body)
    requires Normal(name, a) && Normal(name, b)
    ensures GatherSections([], [Section(name, a), Section(name, b)]) == Ok([(name, Merge(a, b).value)])
  {
    MergeNormal(name, a, b);
    var secs := [Section(name, a), Section(name, b)];
    assert secs[1..] == [Section(name, b)] && secs[1..][1..] == [];
    assert FindBody([], name) == 0;
    var empty: seq<(string, Body)> := [];
    assert empty + [(name, a)] == [(name, a)];
    assert GatherSections([], secs) == GatherSections([(name, a)], secs[1..]);
    assert FindBody([(name, a)], name) == 0;
    assert [(name, a)][0 := (name, Merge(a, b).value)] == [(name, Merge(a, b).value)];
    assert GatherSections([(name, a)], secs[1..]) == GatherSections([(name, Merge(a, b).value)], []);
  }

  /** The namespace member of a gathered section. */
  function SectionMembers(acc: seq<(string, Body)>): (r: Namespace)
    ensures |r| == |acc| && forall i | 0 <= i < |acc| :: r[i] == (acc[i].0, SectionMember(acc[i].1))
  {
    seq(|acc|, i requires 0 <= i < |acc| => (acc[i].0, SectionMember(acc[i].1)))
  }

  /** Gathered sections whose names are new to the namespace are appended
      as they are. */
  lemma {:induction false} AddGathered(ns: Namespace, acc: seq<(string, Body)>)
    requires AllNormal(acc) && Distinct(BodyNames(acc))
    requires forall i | 0 <= i < |acc| :: acc[i].0 !in Names(ns)
    ensures AddMembers(ns, BodiesPy(acc)) == Ok(ns + SectionMembers(acc))
    decreases |acc|
  {
    if |acc| == 0 {
      assert ns + SectionMembers(acc) == ns;
    } else {
      var n := acc[0].0;
      var next := ns + [(n, SectionMember(acc[0].1))];
      DistinctTail(acc);
      GatheredSplit(ns, acc);
      AddGathered(next, acc[1..]);
      SectionAppended(ns, n, acc[0].1);
      assert AddMembers(ns, BodiesPy(acc)) == AddMembers(next, BodiesPy(acc[1..]));
    }
  }

  /** The first gathered section, split off. */
  lemma GatheredSplit(ns: Namespace, acc: seq<(string, Body)>)
    requires |acc| > 0
    ensures var next := ns + [(acc[0].0, SectionMember(acc[0].1))];
      && BodiesPy(acc)[0] == (acc[0].0, BodyPy(acc[0].1))
      && BodiesPy(acc)[1..] == BodiesPy(acc[1..])
      && Names(next) == Names(ns) + [acc[0].0]
      && next + SectionMembers(acc[1..]) == ns + SectionMembers(acc)
  {
    BodiesSplit(acc);
    NamesAppend(ns, (acc[0].0, SectionMember(acc[0].1)));
    MembersSplit(ns, acc);
  }

  lemma BodiesSplit(acc: seq<(string, Body)>)
    requires |acc| > 0
    ensures BodiesPy(acc)[0] == (acc[0].0, BodyPy(acc[0].1))
    ensures BodiesPy(acc)[1..] == BodiesPy(acc[1..])
  {
    forall i | 0 <= i < |acc| - 1 ensures BodiesPy(acc)[1..][i] == BodiesPy(acc[1..])[i] {
      assert acc[1..][i] == acc[i + 1];
    }
  }

  lemma NamesAppend(ns: Namespace, x: (string, Member))
    ensures Names(ns + [x]) == Names(ns) + [x.0]
  {
    forall i | 0 <= i <= |ns| ensures Names(ns + [x])[i] == (Names(ns) + [x.0])[i] {
    }
  }

  lemma MembersSplit(ns: Namespace, acc: seq<(string, Body)>)
    requires |acc| > 0
    ensures (ns + [(acc[0].0, SectionMember(acc[0].1))]) + SectionMembers(acc[1..]) == ns + SectionMembers(acc)
  {
    var x := (acc[0].0, SectionMember(acc[0].1));
    var tail := SectionMembers(acc[1..]);
    forall i | 0 <= i < |acc| ensures SectionMembers(acc)[i] == ([x] + tail)[i] {
      if i > 0 {
        assert acc[1..][i - 1] == acc[i];
      }
    }
    assert SectionMembers(acc) == [x] + tail;
    assert (ns + [x]) + tail == ns + ([x] + tail);
  }

  /** A normal section whose name is new to the namespace is appended as
      it is. */
  lemma SectionAppended(ns: Namespace, n: string, b: Body)
    requires Normal(n, b) && n !in Names(ns)
    ensures AddMember(ns, n, BodyPy(b)) == Ok(ns + [(n, SectionMember(b))])
  {
    BodyPyKept(n, b);
    assert Find(ns, n) == |ns|;
    assert Get(ns, n) == None;
  }

  /** Dropping the first gathered section keeps the rest normal, apart,
      and apart from the first. */
  lemma DistinctTail(acc: seq<(string, Body)>)
    requires |acc| > 0 && AllNormal(acc) && Distinct(BodyNames(acc))
    ensures AllNormal(acc[1..]) && Distinct(BodyNames(acc[1..]))
    ensures forall i | 0 <= i < |acc[1..]| :: acc[1..][i].0 != acc[0].0
  {
    var tail := acc[1..];
    forall i | 0 <= i < |tail| ensures tail[i].0 != acc[0].0 && Normal(tail[i].0, tail[i].1) {
      assert tail[i] == acc[i + 1];
      assert BodyNames(acc)[0] != BodyNames(acc)[i + 1];
    }
    forall i, j | 0 <= i < j < |tail| ensures BodyNames(tail)[i] != BodyNames(tail)[j] {
      assert BodyNames(acc)[i + 1] != BodyNames(acc)[j + 1];
    }
  }

  lemma {:induction false} AddMembersAppend(ns: Namespace, a: seq<(string, PyValue)>, b: seq<(string, PyValue)>)
    ensures AddMembers(ns, a + b) ==
      match AddMembers(ns, a)
      case Err(m) => Err(m)
      case Ok(ns1) => AddMembers(ns1, b)
    decreases |a|
  {
    if |a| > 0 {
      assert (a + b)[1..] == a[1..] + b;
      match AddMember(ns, a[0].0, a[0].1)
      case Err(_) =>
      case Ok(next) => AddMembersAppend(next, a[1..], b);
    } else {
      assert a + b == b;
    }
  }

  lemma NamedIsBound(ns: Namespace, n: string)
    requires n in Names(ns)
    ensures Get(ns, n).Some?
  {
    var k :| 0 <= k < |ns| && Names(ns)[k] == n;
    assert Find(ns, n) <= k;
  }

  /** `ARGS`, when the parentheses were written. */
  function ArgsPart(t: ModuleTokens): Namespace {
    if t.parens then [("ARGS", Attribute(PyList(ExprValues(if t.args.Some? then t.args.value else []))))] else []
  }

  function Header(t: ModuleTokens): Namespace {
    [("NAME", Attribute(PyExpr(t.name)))] + ArgsPart(t)
  }

  /** An attribute whose name is new is appended. */
  lemma AttributeAdded(ns: Namespace, n: string, v: PyValue)
    requires LayoutOf(n).None? && !v.PyDecl? && n !in Names(ns)
    ensures AddMember(ns, n, v) == Ok(ns + [(n, Attribute(v))])
  {
    assert Find(ns, n) == |ns|;
  }

  lemma HeaderAdded(t: ModuleTokens)
    ensures AddMembers([], HeaderPy(t)) == Ok(Header(t))
  {
    var nameNs: Namespace := [("NAME", Attribute(PyExpr(t.name)))];
    var empty: Namespace := [];
    assert LayoutOf("NAME").None? && LayoutOf("ARGS").None?;
    AttributeAdded(empty, "NAME", PyExpr(t.name));
    assert empty + [("NAME", Attribute(PyExpr(t.name)))] == nameNs;
    var h := HeaderPy(t);
    assert h[0] == ("NAME", PyExpr(t.name));
    assert AddMembers(empty, h) == AddMembers(nameNs, h[1..]);
    if t.parens {
      var v := PyList(ExprValues(if t.args.Some? then t.args.value else []));
      assert h[1..] == [("ARGS", v)];
      AttributeAdded(nameNs, "ARGS", v);
      assert h[1..][1..] == [];
      assert AddMembers(nameNs, h[1..]) == AddMembers(nameNs + [("ARGS", Attribute(v))], []);
      assert Header(t) == nameNs + [("ARGS", Attribute(v))];
    } else {
      assert h[1..] == [];
      assert AddMembers(nameNs, []) == Ok(nameNs);
      assert ArgsPart(t) == [];
      assert Header(t) == nameNs;
    }
  }

  lemma HeaderNames(t: ModuleTokens)
    ensures Names(Header(t)) == if t.parens then ["NAME", "ARGS"] else ["NAME"]
  {
  }

  lemma SectionsAfterHeader(t: ModuleTokens, g: seq<(string, Body)>)
    requires AllNormal(g)
    ensures forall i | 0 <= i < |g| :: g[i].0 !in Names(Header(t))
  {
    HeaderNames(t);
    assert LayoutOf("NAME").None? && LayoutOf("ARGS").None?;
  }

  /** `_create_module` (corrected) files `NAME`, then `ARGS` exactly when
      the parentheses were written, then one member per section name in
      the order the names first occur, holding every body of that name
      merged in order. */
  lemma CreateModuleShape(t: ModuleTokens)
    requires ExprText(t.name).Ok?
    requires forall i | 0 <= i < |t.sections| :: Normal(t.sections[i].name, t.sections[i].body)
    ensures GatherSections([], t.sections).Ok? && AllNormal(GatherSections([], t.sections).value)
    ensures CreateModule(t) == Ok(ModuleClass(ExprText(t.name).value,
      Header(t) + SectionMembers(GatherSections([], t.sections).value), None))
  {
    GatherNormal([], t.sections);
    var g := GatherSections([], t.sections).value;
    HeaderAdded(t);
    AddMembersAppend([], HeaderPy(t), BodiesPy(g));
    SectionsAfterHeader(t, g);
    AddGathered(Header(t), g);
    assert AddMembers([], HeaderPy(t) + BodiesPy(g)) == Ok(Header(t) + SectionMembers(g));
    assert CreateModule(t) == ModuleNew(ExprText(t.name).value, HeaderPy(t) + BodiesPy(g));
  }

  /** Every section written in a module reaches its class: its name is a
      member. */
  lemma NoSectionLost(t: ModuleTokens)
    requires ExprText(t.name).Ok?
    requires forall i | 0 <= i < |t.sections| :: Normal(t.sections[i].name, t.sections[i].body)
    ensures CreateModule(t).Ok?
    ensures forall i | 0 <= i < |t.sections| :: Get(CreateModule(t).value.namespace, t.sections[i].name).Some?
  {
    CreateModuleShape(t);
    GatherNormal([], t.sections);
    var g := GatherSections([], t.sections).value;
    var ns := Header(t) + SectionMembers(g);
    forall i | 0 <= i < |t.sections|
      ensures Get(ns, t.sections[i].name).Some?
    {
      var n := t.sections[i].name;
      var k :| 0 <= k < |g| && BodyNames(g)[k] == n;
      assert Names(ns)[|Header(t)| + k] == n;
      NamedIsBound(ns, n);
    }
  }

  lemma {:induction false} PyTextsOfExprs(xs: seq<Expr>)
    ensures PyTexts(ExprValues(xs)) == ExprTexts(xs)
    decreases |xs|
  {
    if |xs| > 0 {
      assert ExprValues(xs)[1..] == ExprValues(xs[1..]);
      PyTextsOfExprs(xs[1..]);
    }
  }

  /** Members that are not sections print nothing of their own. */
  lemma {:induction false} SectionTextsSkip(a: Namespace, rest: Namespace, indentation: string)
    requires forall i | 0 <= i < |a| :: LayoutOf(a[i].0).None?
    ensures SectionTexts(a + rest, indentation) == SectionTexts(rest, indentation)
    decreases |a|
  {
    if |a| > 0 {
      assert (a + rest)[1..] == a[1..] + rest;
      SectionTextsSkip(a[1..], rest, indentation);
      match SectionTexts(rest, indentation)
      case Err(_) =>
      case Ok(more) => assert [] + more == more;
    } else {
      assert a + rest == rest;
    }
  }

  /** The argument list `__str__` prints for a module read from text. */
  function ArgsText(t: ModuleTokens): Result<string> {
    if !t.parens then Ok("")
    else ArgList(ExprTexts(if t.args.Some? then t.args.value else []))
  }

  lemma NameOfCreated(t: ModuleTokens, g: seq<(string, Body)>)
    ensures AttributeOf(Header(t) + SectionMembers(g), "NAME") == Some(PyExpr(t.name))
  {
    var ns := Header(t) + SectionMembers(g);
    assert ns[0] == ("NAME", Attribute(PyExpr(t.name)));
    assert Find(ns, "NAME") == 0;
  }

  lemma ArgsOfCreated(t: ModuleTokens, g: seq<(string, Body)>)
    requires AllNormal(g)
    ensures AttributeOf(Header(t) + SectionMembers(g), "ARGS")
      == if t.parens then Some(PyList(ExprValues(if t.args.Some? then t.args.value else []))) else None
  {
    var ns := Header(t) + SectionMembers(g);
    assert ns[0].0 == "NAME";
    if t.parens {
      assert ns[1] == ("ARGS", Attribute(PyList(ExprValues(if t.args.Some? then t.args.value else []))));
      assert Find(ns, "ARGS") == 1;
    } else {
      assert LayoutOf("ARGS").None?;
      forall i | 0 < i < |ns| ensures ns[i].0 != "ARGS" {
        assert ns[i] == SectionMembers(g)[i - 1];
        assert Normal(g[i - 1].0, g[i - 1].1);
      }
      assert Find(ns, "ARGS") == |ns|;
    }
  }

  lemma HeaderOfCreated(t: ModuleTokens, g: seq<(string, Body)>)
    requires ExprText(t.name).Ok? && AllNormal(g)
    ensures HeaderText(ModuleClass(ExprText(t.name).value, Header(t) + SectionMembers(g), None))
      == (var args :- ArgsText(t); Ok("MODULE " + ExprText(t.name).value + args))
  {
    NameOfCreated(t, g);
    ArgsOfCreated(t, g);
    if t.parens {
      var xs := if t.args.Some? then t.args.value else [];
      PyTextsOfExprs(xs);
      assert ArgTexts(PyList(ExprValues(xs))) == ExprTexts(xs);
    }
  }

  /** A module read from text and given no source prints as `MODULE`, its
      name, its argument list exactly when the parentheses were written,
      then each gathered section in the order first written. */
  lemma CreatedModulePrints(t: ModuleTokens)
    requires ExprText(t.name).Ok? && ArgsText(t).Ok?
    requires forall i | 0 <= i < |t.sections| :: Normal(t.sections[i].name, t.sections[i].body)
    ensures GatherSections([], t.sections).Ok? && CreateModule(t).Ok?
    ensures ModuleStr(CreateModule(t).value) ==
      match SectionTexts(SectionMembers(GatherSections([], t.sections).value), "    ")
      case Err(m) => Err(m)
      case Ok(texts) => Ok(Join("\n", ["MODULE " + ExprText(t.name).value + ArgsText(t).value] + texts))
  {
    CreateModuleShape(t);
    ClassPrints(t, GatherSections([], t.sections).value);
  }

  /** The class `_create_module` builds from gathered sections `g`, printed. */
  lemma ClassPrints(t: ModuleTokens, g: seq<(string, Body)>)
    requires ExprText(t.name).Ok? && ArgsText(t).Ok? && AllNormal(g)
    ensures ModuleStr(ModuleClass(ExprText(t.name).value, Header(t) + SectionMembers(g), None)) ==
      match SectionTexts(SectionMembers(g), "    ")
      case Err(m) => Err(m)
      case Ok(texts) => Ok(Join("\n", ["MODULE " + ExprText(t.name).value + ArgsText(t).value] + texts))
  {
    HeaderOfCreated(t, g);
    HeaderPrintsNothing(t);
    SectionTextsSkip(Header(t), SectionMembers(g), "    ");
  }

  lemma HeaderPrintsNothing(t: ModuleTokens)
    ensures forall i | 0 <= i < |Header(t)| :: LayoutOf(Header(t)[i].0).None?
  {
    HeaderNames(t);
    assert LayoutOf("NAME").None? && LayoutOf("ARGS").None?;
    forall i | 0 <= i < |Header(t)| ensures LayoutOf(Header(t)[i].0).None? {
      assert Header(t)[i].0 == Names(Header(t))[i];
    }
  }

  // ---------------------------------------------------------------------
  // Module headers, token by token
  // ---------------------------------------------------------------------

  /** `, a , b ...`: the arguments after the first. */
  function MoreArgTokens(args: seq<string>): seq<Lexer.Token>
    decreases |args|
  {
    if |args| == 0 then [] else [Lexer.TSym(","), Lexer.TIdent(args[0])] + MoreArgTokens(args[1..])
  }

  /** `MODULE name`, then `( a , b ... )` when `parens` holds. */
  function HeaderTokens(name: string, args: seq<string>, parens: bool): seq<Lexer.Token> {
    [Lexer.TIdent("MODULE"), Lexer.TIdent(name)] + ArgListTokens(args, parens)
  }

  /** `( a , b ... )` when `parens` holds, nothing otherwise. */
  function ArgListTokens(args: seq<string>, parens: bool): seq<Lexer.Token> {
    if !parens then []
    else if |args| == 0 then [Lexer.TSym("("), Lexer.TSym(")")]
    else [Lexer.TSym("("), Lexer.TIdent(args[0])] + MoreArgTokens(args[1..]) + [Lexer.TSym(")")]
  }

  function Idents(args: seq<string>): (r: seq<Expr>)
    ensures |r| == |args| && forall i | 0 <= i < |args| :: r[i] == Ident(args[i], None)
  {
    seq(|args|, i requires 0 <= i < |args| => Ident(args[i], None))
  }

  lemma {:induction false} CollectMoreArgs(args: seq<string>, tail: seq<Lexer.Token>)
    requires !At(tail, ",")
    ensures CollectIdentifiers(MoreArgTokens(args) + tail) == Parsed(Idents(args), tail)
    decreases |args|
  {
    if |args| > 0 {
      var ts := MoreArgTokens(args) + tail;
      assert ts[2..] == MoreArgTokens(args[1..]) + tail;
      CollectMoreArgs(args[1..], tail);
      assert [Ident(args[0], None)] + Idents(args[1..]) == Idents(args);
    } else {
      assert MoreArgTokens(args) + tail == tail;
    }
  }

  lemma IdentText(n: string)
    ensures ExprText(Ident(n, None)) == Ok(n)
  {
    assert !HasText(None);
    assert Render(Ident(n, None)) == Canonical(Ident(n, None));
  }

  lemma {:induction false} IdentTexts(args: seq<string>)
    ensures ExprTexts(Idents(args)) == Ok(args)
    decreases |args|
  {
    if |args| > 0 {
      assert Idents(args)[1..] == Idents(args[1..]);
      IdentTexts(args[1..]);
      IdentText(args[0]);
      assert [args[0]] + args[1..] == args;
    }
  }

  /** What the parser makes of a header followed by tokens that do not
      open an argument list. */
  function HeaderRead(name: string, args: seq<string>, parens: bool, sections: seq<Section>): ModuleTokens {
    ModuleTokens(Ident(name, None), if parens && |args| > 0 then Some(Idents(args)) else None, parens, sections)
  }

  /** The argument list is read back: the identifiers when at least one
      is written, and whether the parentheses were there. */
  lemma ReadArgList(args: seq<string>, parens: bool, rest: seq<Lexer.Token>)
    requires forall i | 0 <= i < |args| :: Lexer.IsIdentifier(args[i])
    requires !At(rest, "(")
    ensures ParseModuleArgs(ArgListTokens(args, parens) + rest)
      == (if parens && |args| > 0 then Some(Idents(args)) else None, parens, rest)
  {
    if !parens {
      assert ArgListTokens(args, parens) + rest == rest;
    } else if |args| == 0 {
      EmptyArgList(rest);
    } else {
      ReadSomeArgs(args, rest);
    }
  }

  lemma ReadSomeArgs(args: seq<string>, rest: seq<Lexer.Token>)
    requires |args| > 0 && forall i | 0 <= i < |args| :: Lexer.IsIdentifier(args[i])
    requires !At(rest, "(")
    ensures ParseModuleArgs(ArgListTokens(args, true) + rest) == (Some(Idents(args)), true, rest)
  {
    var close := [Lexer.TSym(")")] + rest;
    FirstArg(args, rest);
    CollectMoreArgs(args[1..], close);
    IdentsCons(args);
    assert At(close, ")") && close[1..] == rest;
  }

  lemma IdentsCons(args: seq<string>)
    requires |args| > 0
    ensures [Ident(args[0], None)] + Idents(args[1..]) == Idents(args)
  {
  }

  /** `( )`. */
  lemma EmptyArgList(rest: seq<Lexer.Token>)
    ensures var ts := ArgListTokens([], true) + rest;
      At(ts, "(") && At(ts[1..], ")") && ts[2..] == rest
  {
    var ts := ArgListTokens([], true) + rest;
    assert ts == [Lexer.TSym("("), Lexer.TSym(")")] + rest;
  }

  /** `( a` opens a non-empty argument list. */
  lemma FirstArg(args: seq<string>, rest: seq<Lexer.Token>)
    requires |args| > 0 && Lexer.IsIdentifier(args[0])
    ensures var ts := ArgListTokens(args, true) + rest;
      && At(ts, "(") && !At(ts[1..], ")")
      && ParseIdentifier(ts[1..]) == Ok(Parsed(Ident(args[0], None), MoreArgTokens(args[1..]) + ([Lexer.TSym(")")] + rest)))
  {
    var close := [Lexer.TSym(")")] + rest;
    var ts := ArgListTokens(args, true) + rest;
    assert args[0] != ")";
    assert ts == [Lexer.TSym("("), Lexer.TIdent(args[0])] + (MoreArgTokens(args[1..]) + close);
    assert ts[1..] == [Lexer.TIdent(args[0])] + (MoreArgTokens(args[1..]) + close);
  }

  lemma ReadHeader(name: string, args: seq<string>, parens: bool, rest: seq<Lexer.Token>)
    requires forall i | 0 <= i < |args| :: Lexer.IsIdentifier(args[i])
    requires !At(rest, "(")
    ensures ParseModule(HeaderTokens(name, args, parens) + rest)
      == Ok(Parsed(HeaderRead(name, args, parens, CollectSections(rest).value), CollectSections(rest).rest))
  {
    HeaderSplit(name, args, parens, rest);
    ReadArgList(args, parens, rest);
  }

  /** `MODULE`, then the name, then the argument list. */
  lemma HeaderSplit(name: string, args: seq<string>, parens: bool, rest: seq<Lexer.Token>)
    ensures var ts := HeaderTokens(name, args, parens) + rest;
      && At(ts, "MODULE")
      && ParseIdentifier(ts[1..]) == Ok(Parsed(Ident(name, None), ArgListTokens(args, parens) + rest))
  {
    var after := ArgListTokens(args, parens) + rest;
    var ts := HeaderTokens(name, args, parens) + rest;
    assert ts == [Lexer.TIdent("MODULE"), Lexer.TIdent(name)] + after;
    assert ts[1..] == [Lexer.TIdent(name)] + after;
  }

  /** A header with no sections, created and printed. */
  lemma HeaderPrints(name: string, args: seq<string>, parens: bool)
    ensures CreateModule(HeaderRead(name, args, parens, [])).Ok?
    ensures ModuleStr(CreateModule(HeaderRead(name, args, parens, [])).value)
      == Ok("MODULE " + name + (if parens then "(" + Join(", ", args) + ")" else ""))
  {
    var t := HeaderRead(name, args, parens, []);
    IdentTexts(args);
    IdentTexts([]);
    IdentText(name);
    assert ArgsText(t) == Ok(if parens then "(" + Join(", ", args) + ")" else "");
    CreatedModulePrints(t);
    assert GatherSections([], []) == Ok([]);
    assert SectionTexts(SectionMembers([]), "    ") == Ok([]);
  }

  /** A module header read from tokens and printed back: `MODULE`, the
      name, and the arguments between parentheses when parentheses were
      written, `()` included. */
  lemma HeaderRoundTrip(name: string, args: seq<string>, parens: bool)
    requires forall i | 0 <= i < |args| :: Lexer.IsIdentifier(args[i])
    ensures ParseModule(HeaderTokens(name, args, parens)).Ok?
    ensures var p := ParseModule(HeaderTokens(name, args, parens)).value;
      && p.rest == []
      && CreateModule(p.value).Ok?
      && ModuleStr(CreateModule(p.value).value)
         == Ok("MODULE " + name + (if parens then "(" + Join(", ", args) + ")" else ""))
  {
    ReadHeader(name, args, parens, []);
    assert HeaderTokens(name, args, parens) + [] == HeaderTokens(name, args, parens);
    assert CollectSections([]) == Parsed([], []);
    HeaderPrints(name, args, parens);
  }

  // ---------------------------------------------------------------------
  // _create_module as written
  // ---------------------------------------------------------------------

  /** `VAR x : boolean ;` */
  function VarTokens(x: string): seq<Lexer.Token> {
    [Lexer.TIdent("VAR"), Lexer.TIdent(x), Lexer.TSym(":"), Lexer.TIdent("boolean"), Lexer.TSym(";")]
  }

  function VarSection(x: string): Section {
    Section("VAR", MapBody([(Ident(x, None), TypeValue(TBoolean(None)))]))
  }

  lemma ReadVar(x: string)
    ensures CollectSections(VarTokens(x)) == Parsed([VarSection(x)], [])
  {
    var ts := VarTokens(x);
    var vts := ts[1..][1..][1..];
    assert vts == [Lexer.TIdent("boolean"), Lexer.TSym(";")];
    assert ParseSimpleType(vts) == Ok(Parsed(TBoolean(None), vts[1..]));
    assert ParseTypeIdentifier(vts) == Ok(Parsed(TBoolean(None), vts[1..]));
    var entry := (Ident(x, None), TypeValue(TBoolean(None)));
    assert ParseEntry(VarEntry, ts[1..]) == Ok(Parsed(entry, []));
    assert CollectEntries(VarEntry, []) == Parsed([], []);
    assert [entry] + [] == [entry];
    var empty: Entries<Value> := [];
    assert Put(empty, entry.0, entry.1) == [entry];
    UpdateBase(empty, entry.0, entry.1);
    assert FromPairs([entry]) == [entry];
    assert ParseSection(ts) == Ok(Parsed(VarSection(x), []));
    assert CollectSections([]) == Parsed([], []);
    assert [VarSection(x)] + [] == [VarSection(x)];
  }

  /** A module without parentheses: as written, `ARGS` takes the first
      section and that section never reaches the namespace; a module with
      no parentheses, or empty ones, and no section raises. */
  lemma ArgsTakeFirstSectionAsWritten(name: string, x: string)
    ensures var p := ParseModule(HeaderTokens(name, [], false) + VarTokens(x));
      && p.Ok? && p.value.rest == []
      && CreateModuleAsWritten(p.value.value) == Ok(Assembly(Ident(name, None), ArgsSection(VarSection(x)), []))
    ensures ParseModule(HeaderTokens(name, [], false)).Ok?
      && CreateModuleAsWritten(ParseModule(HeaderTokens(name, [], false)).value.value).Err?
    ensures ParseModule(HeaderTokens(name, [], true)).Ok?
      && CreateModuleAsWritten(ParseModule(HeaderTokens(name, [], true)).value.value).Err?
  {
    ReadVar(x);
    ReadHeader(name, [], false, VarTokens(x));
    ReadHeader(name, [], false, []);
    ReadHeader(name, [], true, []);
    assert HeaderTokens(name, [], false) + [] == HeaderTokens(name, [], false);
    assert HeaderTokens(name, [], true) + [] == HeaderTokens(name, [], true);
    assert CollectSections([]) == Parsed([], []);
  }

  lemma VarSectionText(x: string)
    ensures SectionStr("VAR", VarSection(x).body, "    ") == Ok("    VAR\n        " + x + ": boolean;")
  {
    VarEntryText(x);
    VarTextJoin(x);
    assert LayoutOf("VAR") == Some(Mapping(": "));
    assert "    " + "    " == "        ";
  }

  /** The one line of `VAR x : boolean ;`. */
  lemma VarEntryText(x: string)
    ensures EntryTexts("        ", ": ", VarSection(x).body.entries) == Ok(["        " + x + ": boolean;"])
  {
    var entries := VarSection(x).body.entries;
    IdentText(x);
    assert ValueText(TypeValue(TBoolean(None))) == Ok("boolean");
    assert entries[1..] == [];
    var none: Entries<Value> := [];
    assert EntryTexts("        ", ": ", none) == Ok([]);
    assert "        " + x + ": " + "boolean" + ";" == "        " + x + ": boolean;";
    assert ["        " + x + ": boolean;"] + [] == ["        " + x + ": boolean;"];
  }

  lemma VarTextJoin(x: string)
    ensures "    " + "VAR" + "\n" + Join("\n", ["        " + x + ": boolean;"]) == "    VAR\n        " + x + ": boolean;"
  {
    var line := "        " + x + ": boolean;";
    assert Join("\n", [line]) == line;
    assert "    " + "VAR" + "\n" == "    VAR\n";
  }

  lemma VarGathered(x: string)
    ensures GatherSections([], [VarSection(x)]) == Ok([("VAR", VarSection(x).body)])
  {
    var empty: seq<(string, Body)> := [];
    assert FindBody(empty, "VAR") == 0;
    assert empty + [("VAR", VarSection(x).body)] == [("VAR", VarSection(x).body)];
    assert [VarSection(x)][1..] == [];
  }

  lemma ReadVarModule(name: string, x: string)
    ensures ParseModule(HeaderTokens(name, [], false) + VarTokens(x))
      == Ok(Parsed(HeaderRead(name, [], false, [VarSection(x)]), []))
  {
    ReadVar(x);
    ReadHeader(name, [], false, VarTokens(x));
  }

  lemma VarModuleCreated(name: string, x: string)
    ensures CreateModule(HeaderRead(name, [], false, [VarSection(x)]))
      == Ok(ModuleClass(name, [("NAME", Attribute(PyExpr(Ident(name, None)))), ("VAR", SectionMember(VarSection(x).body))], None))
  {
    var t := HeaderRead(name, [], false, [VarSection(x)]);
    assert Normal("VAR", VarSection(x).body);
    VarGathered(x);
    IdentText(name);
    CreateModuleShape(t);
    assert GatherSections([], t.sections).value == [("VAR", VarSection(x).body)];
    VarNamespace(name, x);
  }

  lemma VarNamespace(name: string, x: string)
    ensures Header(HeaderRead(name, [], false, [VarSection(x)])) + SectionMembers([("VAR", VarSection(x).body)])
      == [("NAME", Attribute(PyExpr(Ident(name, None)))), ("VAR", SectionMember(VarSection(x).body))]
  {
    var t := HeaderRead(name, [], false, [VarSection(x)]);
    assert Header(t) == [("NAME", Attribute(PyExpr(Ident(name, None))))];
  }

  lemma VarModulePrints(name: string, x: string)
    ensures ModuleStr(ModuleClass(name, [("NAME", Attribute(PyExpr(Ident(name, None)))), ("VAR", SectionMember(VarSection(x).body))], None))
      == Ok("MODULE " + name + "\n" + ("    VAR\n        " + x + ": boolean;"))
  {
    var text := "    VAR\n        " + x + ": boolean;";
    VarHeaderText(name, x);
    VarSectionTexts(name, x);
    assert Join("\n", ["MODULE " + name, text]) == "MODULE " + name + "\n" + text;
    assert [("MODULE " + name)] + [text] == ["MODULE " + name, text];
  }

  lemma VarHeaderText(name: string, x: string)
    ensures HeaderText(ModuleClass(name, [("NAME", Attribute(PyExpr(Ident(name, None)))), ("VAR", SectionMember(VarSection(x).body))], None))
      == Ok("MODULE " + name)
  {
    var ns := [("NAME", Attribute(PyExpr(Ident(name, None)))), ("VAR", SectionMember(VarSection(x).body))];
    IdentText(name);
    assert Find(ns, "NAME") == 0;
    assert Find(ns, "ARGS") == 2;
    assert AttributeOf(ns, "NAME") == Some(PyExpr(Ident(name, None)));
    assert AttributeOf(ns, "ARGS") == None;
    assert "MODULE " + name + "" == "MODULE " + name;
  }

  lemma VarSectionTexts(name: string, x: string)
    ensures SectionTexts([("NAME", Attribute(PyExpr(Ident(name, None)))), ("VAR", SectionMember(VarSection(x).body))], "    ")
      == Ok(["    VAR\n        " + x + ": boolean;"])
  {
    var head: Namespace := [("NAME", Attribute(PyExpr(Ident(name, None))))];
    var members: Namespace := [("VAR", SectionMember(VarSection(x).body))];
    var text := "    VAR\n        " + x + ": boolean;";
    assert LayoutOf("NAME").None?;
    SectionTextsSkip(head, members, "    ");
    assert head + members == [("NAME", Attribute(PyExpr(Ident(name, None)))), ("VAR", SectionMember(VarSection(x).body))];
    VarSectionText(x);
    assert members[1..] == [];
    var none: Namespace := [];
    assert SectionTexts(none, "    ") == Ok([]);
    assert [text] + [] == [text];
    assert LayoutOf("VAR").Some?;
  }

  /** The corrected `_create_module` keeps that section and prints it. */
  lemma ArgsTakeFirstSectionCorrected(name: string, x: string)
    ensures var p := ParseModule(HeaderTokens(name, [], false) + VarTokens(x));
      && p.Ok? && p.value.rest == []
      && CreateModule(p.value.value).Ok?
      && Get(CreateModule(p.value.value).value.namespace, "VAR") == Some(SectionMember(VarSection(x).body))
      && ModuleStr(CreateModule(p.value.value).value) == Ok("MODULE " + name + "\n" + ("    VAR\n        " + x + ": boolean;"))
  {
    ReadVarModule(name, x);
    VarModuleCreated(name, x);
    VarModulePrints(name, x);
    VarBound(name, x);
  }

  lemma VarBound(name: string, x: string)
    ensures Get([("NAME", Attribute(PyExpr(Ident(name, None)))), ("VAR", SectionMember(VarSection(x).body))], "VAR")
      == Some(SectionMember(VarSection(x).body))
  {
    var ns := [("NAME", Attribute(PyExpr(Ident(name, None)))), ("VAR", SectionMember(VarSection(x).body))];
    assert Find(ns, "VAR") == 1;
  }
}
