/** What the type specifiers of src/pynusmv/parser.py:309-351 read: a
    word type keeps its sign exactly when one is written, and a module
    type is a process exactly when `process` leads it. */
module TypeFacts {
  import opened Wrappers
  import opened Ast
  import opened Lexer
  import opened Grammar
  import opened ParseFacts
  import opened SectionGrammar

  /** The optional sign, `word`, and the size in brackets. */
  function WordTypeTokens(sign: Option<string>, size: Expr): seq<Token> {
    SignTokens(sign) + ([TIdent("word"), TSym("[")] + (Tokens(size) + [TSym("]")]))
  }

  predicate IsSign(sign: Option<string>) {
    sign == None || sign == Some("signed") || sign == Some("unsigned")
  }

  /** A closing bracket stops every level of an expression. */
  lemma BracketStops(rest: seq<Token>)
    ensures StopsUpTo(Top, [TSym("]")] + rest)
  {
    var ts := [TSym("]")] + rest;
    forall j | 0 <= j <= Top ensures !Continues(j, ts) {
      assert ts[0].text == "]";
      assert "]" !in OperatorLevels;
    }
  }

  function SignTokens(sign: Option<string>): seq<Token> {
    if sign.Some? then [TIdent(sign.value)] else []
  }

  /** The size expression, read up to the closing bracket. */
  lemma SizeReads(size: Expr, rest: seq<Token>)
    requires Printable(size)
    ensures ParseLevel(Top, Tokens(size) + ([TSym("]")] + rest)) == Ok(Parsed(size, [TSym("]")] + rest))
  {
    BracketStops(rest);
    ReadsPrinted(Top, size, [TSym("]")] + rest);
  }

  /** `_word_type` reads the size expression between the brackets and
      gives `TWord(size)` without a sign, `TWord(size, sign)` with one. */
  lemma WordTypeReads(sign: Option<string>, size: Expr, rest: seq<Token>)
    requires IsSign(sign) && Printable(size)
    ensures ParseWordType(SignTokens(sign) + ([TIdent("word"), TSym("[")] + (Tokens(size) + ([TSym("]")] + rest))))
         == Ok(Parsed(Type.TWord(size, sign, None), rest))
  {
    var tail := [TSym("]")] + rest;
    var afterSign := [TIdent("word"), TSym("[")] + (Tokens(size) + tail);
    WordAfterSign(size, rest);
    if sign.Some? {
      assert (SignTokens(sign) + afterSign)[1..] == afterSign;
    } else {
      assert SignTokens(sign) + afterSign == afterSign;
    }
  }

  /** What follows the sign: `word [ size ]`. */
  lemma WordAfterSign(size: Expr, rest: seq<Token>)
    requires Printable(size)
    ensures var afterSign := [TIdent("word"), TSym("[")] + (Tokens(size) + ([TSym("]")] + rest));
      At(afterSign, "word") && At(afterSign[1..], "[")
      && ParseLevel(Top, afterSign[2..]) == Ok(Parsed(size, [TSym("]")] + rest))
  {
    var tail := [TSym("]")] + rest;
    var afterSign := [TIdent("word"), TSym("[")] + (Tokens(size) + tail);
    assert afterSign[2..] == Tokens(size) + tail;
    SizeReads(size, rest);
  }

  /** The tokens of a word type are tokens the lexer gives back. */
  lemma WordTypeTokensValid(sign: Option<string>, size: Expr)
    requires IsSign(sign) && Printable(size)
    ensures forall t | t in WordTypeTokens(sign, size) :: ValidToken(t)
  {
    TokensValid(size);
    assert ValidToken(TSym("]")) && ValidToken(TSym("["));
    assert ValidToken(TIdent("word"));
    assert forall t | t in SignTokens(sign) :: ValidToken(t) by {
      assert IsIdentifier("signed") && IsIdentifier("unsigned");
    }
    ValidConcat(Tokens(size), [TSym("]")]);
    ValidConcat([TIdent("word"), TSym("[")], Tokens(size) + [TSym("]")]);
    ValidConcat(SignTokens(sign), [TIdent("word"), TSym("[")] + (Tokens(size) + [TSym("]")]));
  }

  /** `parseAllString(_simple_type_specifier, s)` on a word type: the
      word type, carrying the text as its source. */
  lemma WordTypeText(sign: Option<string>, size: Expr)
    requires IsSign(sign) && Printable(size)
    ensures var s := Unlex(WordTypeTokens(sign, size));
      ParseAllSimpleType(s) == Ok(Type.TWord(size, sign, Some(s)))
  {
    var ts := WordTypeTokens(sign, size);
    WordTypeTokensValid(sign, size);
    TokenizeUnlex(ts);
    WordSimpleType(sign, size);
  }

  /** `_simple_type_specifier` reads all of a word type's tokens. */
  lemma WordSimpleType(sign: Option<string>, size: Expr)
    requires IsSign(sign) && Printable(size)
    ensures ParseSimpleType(WordTypeTokens(sign, size)) == Ok(Parsed(Type.TWord(size, sign, None), []))
  {
    WordTypeReads(sign, size, []);
    assert WordTypeTokens(sign, size) == SignTokens(sign) + ([TIdent("word"), TSym("[")] + (Tokens(size) + ([TSym("]")] + [])));
  }

  /** The optional `process` and the module name. */
  function ModuleTypeTokens(process: bool, name: string): seq<Token> {
    (if process then [TIdent("process")] else []) + [TIdent(name)]
  }

  /** `_module_type_specifier` without arguments: the module name, and
      `process` set exactly when it leads. */
  lemma ModuleTypeReads(process: bool, name: string, rest: seq<Token>)
    requires process || name != "process"
    requires !At(rest, "(")
    ensures ParseModuleType(ModuleTypeTokens(process, name) + rest)
         == Ok(Parsed(TModule(Ident(name, None), [], process, None), rest))
  {
    var ts := ModuleTypeTokens(process, name) + rest;
    var afterProcess := [TIdent(name)] + rest;
    if process {
      assert ts == [TIdent("process")] + afterProcess;
      assert ts[1..] == afterProcess;
    } else {
      assert ts == afterProcess;
    }
    assert afterProcess[1..] == rest;
  }

  /** A name that reads as no simple type and continues no expression. */
  predicate ModuleName(name: string) {
    IsAtomName(name) && name !in OperatorLevels
    && name !in {"process", "boolean", "word", "signed", "unsigned", "array"}
  }

  /** A plain name read as an expression stops before whatever follows,
      so no range type can start with it. */
  lemma NameIsNoRange(name: string, rest: seq<Token>)
    requires IsAtomName(name) && StopsUpTo(LShift, rest)
    ensures ParseLevel(LShift, [TIdent(name)] + rest)
         == Ok(Parsed(ComplexIdent(NameRoot(name), [], None), rest))
  {
    var e := ComplexIdent(NameRoot(name), [], None);
    ReadsPrinted(LShift, e, rest);
    assert Tokens(e) == [TIdent(name)];
  }

  /** No simple type starts a module name, with or without `process`. */
  lemma NoSimpleModuleType(process: bool, name: string)
    requires ModuleName(name)
    ensures ParseSimpleType(ModuleTypeTokens(process, name)).Err?
  {
    var ts := ModuleTypeTokens(process, name);
    if process {
      var tail := [TIdent(name)];
      assert StopsUpTo(LShift, tail) by {
        forall j | 0 <= j <= LShift ensures !Continues(j, tail) {
          assert tail[0].text == name;
        }
      }
      NameIsNoRange("process", tail);
      assert ts == [TIdent("process")] + tail;
    } else {
      NameIsNoRange(name, []);
      assert ts == [TIdent(name)] + [];
    }
  }

  /** `type_identifier` on a module name falls through to the module
      type. */
  lemma ModuleTypeIdentifier(process: bool, name: string)
    requires ModuleName(name)
    ensures ParseTypeIdentifier(ModuleTypeTokens(process, name))
         == Ok(Parsed(TModule(Ident(name, None), [], process, None), []))
  {
    NoSimpleModuleType(process, name);
    ModuleTypeReads(process, name, []);
    assert ModuleTypeTokens(process, name) + [] == ModuleTypeTokens(process, name);
  }

  lemma ModuleTypeTokensValid(process: bool, name: string)
    requires ModuleName(name)
    ensures forall t | t in ModuleTypeTokens(process, name) :: ValidToken(t)
  {
    assert IsIdentifier("process");
  }

  /** `parseAllString(type_identifier, s)` on a module name, with or
      without `process`: no simple type matches, so the module type is
      read, carrying the text as its source. */
  lemma ModuleTypeText(process: bool, name: string)
    requires ModuleName(name)
    ensures var s := Unlex(ModuleTypeTokens(process, name));
      ParseAllType(s) == Ok(TModule(Ident(name, None), [], process, Some(s)))
  {
    ModuleTypeTokensValid(process, name);
    TokenizeUnlex(ModuleTypeTokens(process, name));
    ModuleTypeIdentifier(process, name);
  }
}
