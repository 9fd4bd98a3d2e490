# pynusmv front end, modelled in Dafny

This project models the pure front end of pynusmv, the Python binding of
the NuSMV model checker:

- the SMV expression and type nodes of `src/pynusmv/model.py`, their
  structural `equals` and their `__str__` with its precedence rule;
- the module classes built by `ModuleMetaClass`, which covers:
  - how a section body written in a class body is normalised
    (`_section_internal`);
  - how repeated sections merge;
  - how `Declaration`s are filed;
  - how `_trim` re-indents constraint bodies;
  - how `_section_str` and `__str__` print a module;
- the pyparsing grammar of `src/pynusmv/parser.py`, covering:
  - lexical shapes;
  - the expression precedence chain with its parse actions;
  - type specifiers and section bodies;
  - `_create_module`;
  - `parseAllString`;
- the ARCTL formula parser of `src/tools/arctl/parsing/arctl.py`.

Every node is an immutable datatype. Every operation is a pure function,
and errors the Python code raises become `Err` values of `Wrappers.Result`.

## Files and modules

| file | module | models |
|---|---|---|
| wrappers.dfy | `Wrappers` | `Option`, `Result` with `:-` |
| ast.dfy | `Ast` | one `Expr` datatype for every expression class, with an optional `source`; one `Type` datatype; operator precedences |
| numerals.dfy | `Numerals` | decimal digits of integers (`str(int)`, `int(str)`) |
| text.dfy | `Text` | `str.join` |
| render.dfy | `Printer` | `__str__` of expressions and types, `Operator._enclose` |
| equality.dfy | `Equality` | `equals`, as intended (`Equals`) and as written (`EqualsAsWritten`) |
| lexer.dfy | `Lexer` | the token shapes: identifier, integer, word constant, symbols, `--` comments |
| folds.dfy | `Folds` | the parse actions: `_reduce_list_to_expr` and the `reduce` folds |
| grammar.dfy | `Grammar` | the expression grammar as recursive descent over tokens |
| parse_facts.dfy | `ParseFacts` | what the grammar reads: precedence, associativity, read-back of printed tokens |
| sections_grammar.dfy | `SectionGrammar` | type specifiers, section bodies, `parseAllString` for them |
| type_facts.dfy | `TypeFacts` | what the word and module type specifiers read |
| ordered_maps.dfy | `OrderedMaps` | the `OrderedDict`s of mapping sections |
| trim.dfy | `Trimming` | `_trim` with `expandtabs`, `splitlines` and `strip` |
| sections.dfy | `Sections` | `_section_internal`, section merging, `_section_str`, section objects |
| modules.dfy | `Modules` | `ModuleMetaClass.__new__` and `__str__`, the `module` production, `_create_module` |
| arctl.dfy | `Arctl` | the ARCTL syntax tree and parser, and a printer the parser reads back |

### Modelling choices

- **Expressions.** The binary operator classes share one constructor
  `Binary(op, left, right, src)`, tagged by `BinOp`. A Python class
  becomes a tag, and two nodes of different classes are never equal.
- **Integer constants.** Python `int`s carry no `source` and have no
  `equals` method. They are `IntConst` nodes with no source field.
- **Equality.**
  - The rest of the model uses `Equals`, which is the relation the
    `equals` methods evidently intend.
  - `EqualsAsWritten` follows the code literally: `None` marks a raised
    exception. It exhibits three findings below.
  - `Set.equals` compares `frozenset`s. A hashed container finds an
    element by its hash and then by `__eq__`. `__eq__` builds an `Eq`
    node, and its truth value is `left.equals(right)` (model.py:846-851).
    Equal expressions hash alike, so `Equals` compares sets element by
    element with `Equals`.
- **Ordered dictionaries.** An `OrderedDict` keyed by expressions is a
  sequence of entries. Two keys share a slot exactly when `SameKey`
  holds. `SameKey` is `Equals`: a slot needs equal hashes and a true
  `Eq`, whose truth value is `equals` (model.py:846-851). `equals` first
  compares classes (model.py:183-187). So an `Identifier` and a bound
  `Declaration` of the same name hash alike but take two slots
  (`OrderedMaps.NamesApart`). For complex identifiers the source is
  stricter than `Equals`: one hashes by the identity of its pyparsing
  body and compares by identity (model.py:203-210), and every parse
  builds a fresh one. So two keys that hold complex identifiers read
  from text never share a slot in the source, while the model merges
  them when they are `Equals` (see the `OrderedMaps.SameKey` line under
  "Left out", and `Equality.ComplexIdentsApartAsWritten`).
- **Parsing.** pyparsing's whitespace skipping and backtracking become:
  - a deterministic tokenizer (`Lexer.Tokenize`);
  - recursive descent over tokens, one function per production;
  - alternatives tried in the source's order.

  The longest-match `^` of `_base` (parser.py:223) is replaced by a fixed
  order: keyword forms first, then complex identifiers.
- **`parseAllString`** requires every token to be used (`Complete`). It
  stores the text as the result's source when the result has one.
- **ARCTL parsing** reads characters directly. Blanks are skipped before
  every literal, and the first non-blank character picks the production.
  `parseString` without `parseAll` ignores text after the formula, and
  `ParseString` does the same.
- **Corrected actions.** Four findings below are bugs in parse actions
  or in `_create_module`: the `::` and `->` actions, the word function
  action, and the `ARGS` test. The grammar (`Grammar`) and
  `_create_module` (`Modules.CreateModule`) use the corrected versions,
  so every lemma about what they read describes the evidently intended
  parser. Likewise, module classes normalise their sections with the
  corrected DEFINE and CONSTANTS readings (`Sections.SectionInternal`).
  The written versions are modelled beside the corrected ones:
  - `Folds.ConcatActionAsWritten`, `Folds.ImpliesActionAsWritten`,
    `Folds.WordFunctionArgsAsWritten`;
  - `Modules.CreateModuleAsWritten`;
  - `Sections.SectionInternalAsWritten`.

  The findings' lemmas compare each pair.
- **ARCTL tabs.** pyparsing's `parseString` expands the tabs of its
  input before parsing, and the ARCTL grammar never asks it to keep
  them. `Arctl.ParseString` therefore reads `Trimming.ExpandTabs(s)`,
  and no atom it returns holds a tab.
- **Modules.** A module class is its own namespace: a sequence of
  `(name, member)` pairs in insertion order. A member is a normalised
  section body or any other attribute.

### Quirks modelled literally

- `Not.__str__` ignores its cached source because its `if` has no
  `return` (model.py:527-530).
- `count(a, b)` keeps only its first argument (parser.py:204-206).
- A COMPASSION body yields two separate list elements
  (parser.py:434-439).

## Model

| member | source | states |
|---|---|---|
| Ast.WithSource | src/pynusmv/parser.py:492-494 | setting `source` on a parse result: every node except an integer carries the text afterwards and is otherwise unchanged; an integer is unchanged |
| Ast.TypeWithSource | src/pynusmv/parser.py:492-494 | a parsed type carries the text as its source and is otherwise unchanged |
| Numerals.NatToString | src/pynusmv/model.py:514-517 | `str` of a natural is a non-empty string of digits |
| Numerals.NatStringRoundTrip | src/pynusmv/parser.py:160-161 | `int(str(n)) == n` for every natural `n`: printing an integer constant and reading it back gives it back |
| Numerals.IntToString | src/pynusmv/model.py:514-517 | `str` of an integer is non-empty, and is all digits exactly when the integer is not negative |
| Text.Join | src/pynusmv/model.py:1770-1776 | joining no parts gives the empty string, one part gives that part |
| Text.JoinAppend | src/pynusmv/model.py:1743-1748 | joining two non-empty lists is joining each and putting one separator between them |
| Printer.EncloseParenthesizesIff | src/pynusmv/model.py:509-517 | `_enclose` adds parentheses if and only if the operand is an operator of strictly greater precedence than the parent; otherwise the operand's text is unchanged |
| Printer.EqualPrecedenceNotEnclosed | src/pynusmv/model.py:509-517 | an operand of the parent's own precedence is never parenthesised |
| Printer.RenderReturnsSource | src/pynusmv/model.py:175-178 | every node except `Not` prints as its cached source when the source is a non-empty string |
| Printer.RenderNotIgnoresSource | src/pynusmv/model.py:527-530 | `Not` prints `"! "` and its enclosed operand whatever its cached source |
| Equality.ClassMismatchUnequal | src/pynusmv/model.py:706-712 | nodes of different classes are never equal |
| Equality.EqualsReflexive | src/pynusmv/model.py:183-187 | every expression equals itself |
| Equality.EqualsSymmetric | src/pynusmv/model.py:679-684 | equality is symmetric |
| Equality.SetSymmetric | src/pynusmv/model.py:497-501 | set equality of element lists is symmetric |
| Equality.CommutativeSwapEqual | src/pynusmv/model.py:679-684 | for a commutative operator, `op(a, b)` equals `op(b, a)` |
| Equality.NeqSwapEqual | src/pynusmv/model.py:867-878 | `a != b` equals `b != a`: `Neq` is commutative like `Eq` |
| Equality.PositionalOperands | src/pynusmv/model.py:706-712 | for a non-commutative operator, `op(a, b)` equals `op(c, d)` if and only if `a` equals `c` and `b` equals `d` |
| Equality.NonCommutativeSwapUnequal | src/pynusmv/model.py:706-712 | a non-commutative operator over unequal operands differs from its swap |
| Equality.EqualsIgnoresSource | src/pynusmv/model.py:183-187 | a cached source never changes equality |
| Equality.AsWrittenAgrees | src/pynusmv/model.py:679-712 | the literal `equals` returns exactly `Equals` when its receiver contains no `Neq`, no `Count`, no integer constant and no parsed complex identifier; access lists are followed element by element |
| Equality.ListAgrees | src/pynusmv/model.py:475-478 | comparing two access lists as written (length, then each pair in order) gives pairwise `Equals` when the receiver's elements are free of those nodes |
| Equality.IntIndexRaisesAsWritten | src/pynusmv/model.py:430-433 | as written, comparing an `ArrayAccess` node whose subscript is the integer `1` with itself raises, because the subscript comparison calls `equals` on an `int`; the parser reads the text `x[1]` as a complex identifier instead |
| Equality.ComplexIdentsApartAsWritten | src/pynusmv/model.py:203-207 | as written, two parses of one complex identifier are unequal, because their `ParseResults` compare by identity, though `Equals` holds |
| Equality.NeqUnequalToItselfAsWritten | src/pynusmv/model.py:867-872 | as written, `Neq(x, y).equals(Neq(x, y))` is false |
| Equality.IntOperandRaisesAsWritten | src/pynusmv/model.py:679-684 | as written, comparing `Add(1, x)` with itself raises, because an `int` has no `equals` |
| Equality.CountRaisesAsWritten | src/pynusmv/model.py:343-352 | as written, comparing `Count(x)` with itself raises, because `len` is applied to an expression |
| Lexer.Span | src/pynusmv/parser.py:139 | the longest run of characters of a class from a position: all inside belong to it, the next one does not |
| Lexer.WordLength | src/pynusmv/parser.py:172-179 | a word constant prefix: `0`, optional `u`/`s`, a base letter, optional width digits, `_`, a hex digit, then hex digits or `_`, and it stops before any further such character |
| Lexer.SymbolLength | src/pynusmv/parser.py:250-301 | the symbol read is one the grammar names |
| Lexer.NextStep | src/pynusmv/parser.py:139-179 | one tokenizer step makes progress, and an emitted token is spelt by exactly the characters consumed |
| Lexer.StepValid | src/pynusmv/parser.py:139-179 | every emitted token has its lexical shape: identifier, digits, word constant or symbol |
| Lexer.TokenizeValid | src/pynusmv/parser.py:139-179 | every token of a tokenized text has its lexical shape |
| Lexer.IdentStep | src/pynusmv/parser.py:139 | an identifier (letter or `_`, then alphanumerics or `_$#-`) followed by a blank is read as one identifier token |
| Lexer.IntStep | src/pynusmv/parser.py:160-161 | digits followed by a blank are read as one integer token |
| Lexer.WordStep | src/pynusmv/parser.py:172-179 | a word constant followed by a blank is read as one word token |
| Lexer.SymStep | src/pynusmv/parser.py:250-301 | an operator symbol followed by a blank is read as that symbol, not a longer or shorter one |
| Lexer.SpaceSkipped | src/pynusmv/parser.py:139-179 | a leading blank changes nothing: blanks before a token are skipped |
| Lexer.TokenizeUnlex | src/pynusmv/parser.py:139-179 | tokens of valid shapes, written with blanks between them, tokenize back to themselves |
| Lexer.TokenizeRoundTrip | src/pynusmv/parser.py:139-179 | re-tokenizing the printed tokens of any text gives the same tokens |
| Folds.OperatorClassInverse | src/pynusmv/parser.py:127-130 | the `_otc` table maps a text to an operator class exactly when that text is the operator's spelling and the class is in the table |
| Folds.ReduceListIsLeftFold | src/pynusmv/parser.py:121-135 | `_reduce_list_to_expr` is the left fold of the operator classes over the operands, and fails exactly when an operator text is not in the table |
| Folds.PrefixChainExact | src/pynusmv/parser.py:247-256 | `k` leading `!` (or `-`) marks give exactly `k` nested `Not` (or `Minus`) nodes around the operand |
| Folds.KeptOperatorFoldsAll | src/pynusmv/parser.py:267-296 | where the operator text stays in the token list (`union`, `in`, `&`, `<->`), taking every other token folds all operands to the left |
| Folds.ConcatAsWrittenDropsOperand | src/pynusmv/parser.py:250-252 | as written, `a :: b` reduces to `a` alone |
| Folds.ConcatActionKeepsAll | src/pynusmv/parser.py:250-252 | corrected, a `::` chain keeps every operand, left-associated |
| Folds.ImpliesAsWrittenSwaps | src/pynusmv/parser.py:298-301 | as written, `a -> b` builds `Implies(b, a)` |
| Folds.ImpliesActionSwapped | src/pynusmv/parser.py:298-301 | the written action is the corrected one with its operands swapped |
| Folds.ImpliesChainAsWritten | src/pynusmv/parser.py:298-301 | as written, the recursive `_implies` reads `a -> b -> c` as `Implies(Implies(c, b), a)`; corrected, as `Implies(a, Implies(b, c))` |
| Folds.WordFunctionSizeIsComma | src/pynusmv/parser.py:197-202 | as written, the size argument of `extend(v, s)` is the `","` text |
| Folds.WordFunctionActionBuilds | src/pynusmv/parser.py:197-202 | corrected, `extend(v, s)` builds `WordFunction("extend", v, s)` |
| Grammar.Marks | src/pynusmv/parser.py:247-256 | the run of prefix marks: every one is the mark, and the next token is not |
| Grammar.ParseAllExpr | src/pynusmv/parser.py:486-495 | a successful `parseAllString` result carries the whole text as its source (integers excepted) |
| ParseFacts.OperatorTextLevel | src/pynusmv/parser.py:258-301 | every operator's spelling belongs to its own precedence level, which maps it back to the operator |
| ParseFacts.ActionOne | src/pynusmv/parser.py:258-287 | a level's action on one operator builds that operator's node |
| ParseFacts.ActionTwo | src/pynusmv/parser.py:258-287 | a level's action on two operators folds to the left |
| ParseFacts.FoldOne | src/pynusmv/parser.py:258-287 | a level reads `l op r` as `op(l, r)` once its operands are read by the tighter level and nothing continues it |
| ParseFacts.FoldTwo | src/pynusmv/parser.py:258-287 | a level reads `a op1 b op2 c` as `op2(op1(a, b), c)` |
| ParseFacts.Lift | src/pynusmv/parser.py:247-303 | an expression read at one level is read unchanged by every looser level when nothing after it continues those levels |
| ParseFacts.ArrayReadsPrinted | src/pynusmv/parser.py:223-245 | a printed atom or parenthesised expression is read back at the subscript level |
| ParseFacts.UnaryReadsBack | src/pynusmv/parser.py:247-256 | `! e` and `- e` read back as `Not(e)` and `Minus(e)` |
| ParseFacts.BinaryReadsBack | src/pynusmv/parser.py:258-301 | `l op r` reads back as `op(l, r)` for every binary operator |
| ParseFacts.IteReadsBack | src/pynusmv/parser.py:289-292 | `c ? a : b` reads back as `Ite(c, a, b)` |
| ParseFacts.ReadsPrinted | src/pynusmv/parser.py:187-303 | the fully parenthesised tokens of an expression read back as that expression at every level, leaving what follows |
| ParseFacts.ParsePrinted | src/pynusmv/parser.py:187-303 | parsing the fully parenthesised tokens of an expression gives it back and uses every token |
| ParseFacts.TighterBindsFirst | src/pynusmv/parser.py:258-287 | in `a op1 b op2 c`, a tighter `op1` gives `op2(op1(a, b), c)` (e.g. `x & y \| z` is `Or(And(x, y), z)`) |
| ParseFacts.LooserBindsLast | src/pynusmv/parser.py:258-287 | in `a op1 b op2 c`, a looser `op1` gives `op1(a, op2(b, c))` |
| ParseFacts.RightNested | src/pynusmv/parser.py:258-301 | whenever `op2` binds no looser than `op1`'s right operand allows, `a op1 b op2 c` gives `op1(a, op2(b, c))` |
| ParseFacts.SameLevelAssociatesLeft | src/pynusmv/parser.py:258-296 | two operators of one level below `->` associate to the left (e.g. `a union b union c` is `Union(Union(a, b), c)`) |
| ParseFacts.ImpliesAssociatesRight | src/pynusmv/parser.py:298-301 | with the corrected action, the grammar reads `a -> b -> c` as `Implies(a, Implies(b, c))`, by the recursive `_implies` |
| ParseFacts.TokensValid | src/pynusmv/parser.py:139-179 | the printed tokens all have their lexical shapes |
| ParseFacts.ParsePrintedText | src/pynusmv/parser.py:486-495 | `parseAllString` of an expression's printed text gives it back, carrying the text as its source |
| SectionGrammar.ParseIdentifier | src/pynusmv/parser.py:139 | `identifier` succeeds exactly on an identifier token and gives `Identifier` of its text |
| SectionGrammar.ParseComplexIdentifier | src/pynusmv/parser.py:145-153 | a complex identifier succeeds exactly when an identifier token comes first |
| SectionGrammar.ParseMappingBody | src/pynusmv/parser.py:354-406 | `OneOrMore` declarations: a successful mapping body has at least one entry |
| SectionGrammar.ParseConstantsBody | src/pynusmv/parser.py:386-387 | a constants body lists at least one identifier |
| SectionGrammar.ParseConstraintBody | src/pynusmv/parser.py:409-431 | a TRANS, INIT, INVAR, FAIRNESS or JUSTICE body is exactly one expression |
| SectionGrammar.ParseCompassionBody | src/pynusmv/parser.py:434-439 | a COMPASSION body is exactly two expressions |
| SectionGrammar.ParseSection | src/pynusmv/parser.py:445-456 | a section is named by its keyword, and its body is a mapping exactly for VAR, IVAR, FROZENVAR, DEFINE and ASSIGN |
| SectionGrammar.Complete | src/pynusmv/parser.py:486-495 | `parseAll=True`: success exactly when every token is used, with the parsed value |
| SectionGrammar.ParseAllIdentifier | src/pynusmv/parser.py:486-495 | `parseAllString(identifier, s)` gives an `Identifier` whose source is `s` |
| SectionGrammar.ParseAllType | src/pynusmv/parser.py:486-495 | `parseAllString(type_identifier, s)` gives a type whose source is `s` |
| TypeFacts.WordTypeReads | src/pynusmv/parser.py:314-317 | `word[e]` gives `TWord(e)` with no sign, and `signed word[e]` / `unsigned word[e]` give `TWord(e, sign)` |
| TypeFacts.WordTypeText | src/pynusmv/parser.py:314-317 | `parseAllString(_simple_type_specifier, s)` on a word type's text gives that word type, carrying `s` |
| TypeFacts.ModuleTypeReads | src/pynusmv/parser.py:338-349 | a module type without arguments gives `TModule(name, [])`, with `process` true exactly when it leads |
| TypeFacts.NoSimpleModuleType | src/pynusmv/parser.py:331-336 | no simple type specifier reads a plain module name |
| TypeFacts.ModuleTypeText | src/pynusmv/parser.py:351 | `type_identifier` on a module name falls through to the module type, with `process` kept |
| OrderedMaps.Slot | src/pynusmv/model.py:846-851 | the slot of a key is the first entry whose key is `equals` to it, or the end |
| OrderedMaps.PutThenLookup | src/pynusmv/model.py:1509-1510 | after `d[k] = v`, `d[k]` is `v`; the map grows exactly when `k` was new, at the end; every other entry is unchanged |
| OrderedMaps.UpdateKeepsPrefix | src/pynusmv/model.py:1292-1293 | `update` keeps the existing keys first, in order, and adds at most one entry per new pair |
| OrderedMaps.UpdateFreshAppends | src/pynusmv/model.py:1292-1293 | updating with keys all new and distinct appends them in order |
| OrderedMaps.NamesApart | src/pynusmv/model.py:183-187 | an `Identifier` and a `Declaration` of the same name take two dictionary slots, whichever is the receiver; two declarations of one kind and name share one, whatever their sources |
| OrderedMaps.UpdateKeepsApart | src/pynusmv/model.py:1292-1293 | updating a dictionary never creates two entries for one key |
| OrderedMaps.CopyApart | src/pynusmv/model.py:1621-1629 | copying a dictionary pair by pair gives it back |
| Trimming.LStrip | src/pynusmv/model.py:1699 | `lstrip` removes exactly the leading whitespace |
| Trimming.RStrip | src/pynusmv/model.py:1706 | `rstrip` removes exactly the trailing whitespace |
| Trimming.ExpandTabs | src/pynusmv/model.py:1694 | `expandtabs` leaves no tab and never shortens the text |
| Trimming.TabToNextStop | src/pynusmv/model.py:1694 | a tab becomes the spaces up to the next multiple of 8 |
| Trimming.ExpandNoTabs | src/pynusmv/model.py:1694 | text without tabs is unchanged by `expandtabs` |
| Trimming.ExpandAfterTabFree | src/pynusmv/model.py:1694 | text without tabs at the front is copied unchanged, and the rest is expanded from the column where that text ends |
| Trimming.SplitLines | src/pynusmv/model.py:1694 | `splitlines` gives lines without line boundaries, and at least one for non-empty text |
| Trimming.SplitJoin | src/pynusmv/model.py:1694 | splitting lines joined by newlines gives them back when the last is not empty |
| Trimming.MinIndent | src/pynusmv/model.py:1696-1701 | the minimum indentation is absent exactly when every continuation line is blank, and is otherwise the least indentation of a non-blank line, attained by one |
| Trimming.DedentExact | src/pynusmv/model.py:1703-1706 | continuation lines lose only whitespace, and at least one non-blank line loses all of its indentation |
| Trimming.TrimLinesShape | src/pynusmv/model.py:1703-1711 | the trimmed lines have no trailing whitespace or line break, and neither the first nor the last is blank |
| Trimming.TrimIndentsEveryLine | src/pynusmv/model.py:1713 | the lines of the result are exactly the trimmed lines, each prefixed by `indentation` |
| Trimming.TrimOneLine | src/pynusmv/model.py:1691-1713 | a single non-blank line becomes `indentation` plus the stripped line |
| Sections.LayoutOf | src/pynusmv/model.py:1478-1489 | a section's layout is a mapping exactly for VAR, IVAR, FROZENVAR, DEFINE and ASSIGN |
| Sections.ParseValue | src/pynusmv/model.py:1584-1600 | VAR, IVAR and FROZENVAR values (and, as written, DEFINE values) are read as types carrying their text |
| Sections.SectionInternalWith | src/pynusmv/model.py:1615-1672 | a normalised body is a mapping exactly for the mapping sections; a `(key, value)` line goes through `PairKeyOf`, so a key that does not hash raises |
| Sections.PairKeyOf | src/pynusmv/model.py:1644-1649 | the key of a `(key, value)` line is kept exactly when it hashes; an unnamed declaration raises its `AttributeError`, and a key holding a `Case` or an `ArrayAccess` raises |
| Sections.ParsedKeysHashable | src/pynusmv/model.py:1645-1646 | every key read from a string hashes, so only expression and declaration keys can make `res[key] = value` raise |
| Sections.UnhashableLineKeyRaises | src/pynusmv/model.py:1636-1649 | a mapping section given as lines raises at a `(key, value)` line whose key does not hash, whatever the lines before it built |
| Sections.UnknownSectionRaises | src/pynusmv/model.py:1615-1616 | an unknown section name raises, both when normalising and when printing |
| Sections.OneExpressionOneElement | src/pynusmv/model.py:1656-1660 | a list section given one expression holds exactly that expression |
| Sections.OneStringOneElement | src/pynusmv/model.py:1656-1669 | as written, a list section given one string holds the first element parsed from it, carrying the string, and fails exactly when parsing fails |
| Sections.ListItemsAppend | src/pynusmv/model.py:1665-1672 | the elements of a list body are processed one by one, in order: the items of `a + b` are those of `a` then those of `b`, and fail exactly when either does |
| Sections.ExpressionsKept | src/pynusmv/model.py:1665-1672 | elements that are already expressions are kept unchanged, in order |
| Sections.ExpressionListKept | src/pynusmv/model.py:1653-1672 | a list section given a list of expressions holds that list |
| Sections.PutPairsIsUpdate | src/pynusmv/model.py:1621-1629 | copying a mapping of expressions into a dictionary is `update` with those pairs |
| Sections.MappingCopied | src/pynusmv/model.py:1621-1629 | a mapping section given a mapping of expressions holds a copy of it |
| Sections.MappingStringBody | src/pynusmv/model.py:1632-1640 | a mapping section given one string holds the declarations parsed from it, and fails exactly when parsing fails |
| Sections.SimpleTypeRejectsOperators | src/pynusmv/parser.py:331-336 | a simple type specifier rejects the text of any operator expression |
| Sections.DefineValueAsWritten | src/pynusmv/model.py:1597-1600 | as written, a DEFINE value given as the text of an operator expression raises |
| Sections.DefineValueIntended | src/pynusmv/model.py:1597-1600 | corrected, a DEFINE value text is read as that expression, carrying the text |
| Sections.TwoConstantsParse | src/pynusmv/parser.py:386-387 | `a, b;` is read by the constants body as both identifiers |
| Sections.ConstantsAsWritten | src/pynusmv/model.py:1656-1669 | as written, CONSTANTS given `"a , b ;"` holds only `a`, carrying the whole text |
| Sections.ConstantsIntended | src/pynusmv/model.py:1656-1669 | corrected, CONSTANTS given `"a , b ;"` holds `a` and `b` |
| Sections.ExprTextsAppend | src/pynusmv/model.py:1740-1741 | the element texts of `a + b` are those of `a` then those of `b` |
| Sections.EntryTextsAppend | src/pynusmv/model.py:1727-1733 | the entry lines of `a + b` are those of `a` then those of `b` |
| Sections.OneBodyOneHeader | src/pynusmv/model.py:1743-1748 | a constraint section with one body prints its header, then the body trimmed to twice the indentation |
| Sections.MergedBodiesPrintApart | src/pynusmv/model.py:1743-1748 | a constraint section merged from two prints as the first's text, a newline, then the second's |
| Sections.MergedMappingPrintsNewLast | src/pynusmv/model.py:1727-1733 | a mapping section updated with new keys prints its old lines, then one line per new entry |
| Sections.ListingUpdatePrintsAfter | src/pynusmv/model.py:1347-1353 | a listing section object extended by `update_body` prints its old text, the separator, then the new elements |
| Modules.Find | src/pynusmv/model.py:1498-1503 | the position of a name in a namespace is its first occurrence, or the end |
| Modules.SetThenGet | src/pynusmv/model.py:1503-1512 | binding a name makes it map to the value and leaves every other name alone; a new name goes last; names stay distinct |
| Modules.DeclSection | src/pynusmv/model.py:1427-1441 | a declaration's section is a mapping section |
| Modules.AddMemberOutcome | src/pynusmv/model.py:1498-1512 | adding one class member fails exactly when it names a section whose body does not normalise; section bodies stay well formed and names distinct |
| Modules.AddMembersSucceed | src/pynusmv/model.py:1495-1518 | a class body whose section bodies all normalise builds a namespace with distinct names and well-formed sections |
| Modules.ModuleNewSucceeds | src/pynusmv/model.py:1495-1518 | such a class body always builds a module class of the given name |
| Modules.DeclarationFiled | src/pynusmv/model.py:1505-1510 | a declaration is filed in its section under its member name, mapped to its type, and its name reads as the member name; the member name itself is not bound |
| Modules.DeclarationOpens | src/pynusmv/model.py:1508-1510 | the first declaration of a section opens that section with a single entry |
| Modules.DeclarationJoins | src/pynusmv/model.py:1505-1510 | a later declaration is added to the section's existing dictionary |
| Modules.SectionOpens | src/pynusmv/model.py:1499-1504 | the first occurrence of a section binds its normalised body |
| Modules.SectionJoins | src/pynusmv/model.py:1499-1502 | a repeated section merges its normalised body into the existing one |
| Modules.DeclarationThenSection | src/pynusmv/model.py:1495-1512 | a declaration before a section of the same kind comes first in the merged section |
| Modules.SectionThenDeclaration | src/pynusmv/model.py:1495-1512 | a declaration after a section of the same kind is put into that section's dictionary, and goes last when its key was new |
| Modules.IdentifierKeysMissDeclaration | src/pynusmv/model.py:1508-1510 | a declaration's key is new in a dictionary keyed only by identifiers, so it goes last |
| Modules.SectionParsedNormal | src/pynusmv/parser.py:353-441 | every parsed section is normal: a known section, mapping exactly when it should be, no key twice |
| Modules.SectionsParsedNormal | src/pynusmv/parser.py:459-461 | every section read by the `module` production is normal |
| Modules.BodyPyKept | src/pynusmv/model.py:1620-1672 | normalising an already normal body gives it back |
| Modules.MergeNormal | src/pynusmv/parser.py:473-476 | merging two normal bodies of one section never fails and stays normal |
| Modules.GatherNormal | src/pynusmv/parser.py:470-476 | gathering parsed sections never fails, keeps one normal body per section name in first-occurrence order, and every section read has its name there |
| Modules.RepeatedSectionMerged | src/pynusmv/parser.py:473-476 | two occurrences of one section become one entry whose body is their merge |
| Modules.AddGathered | src/pynusmv/model.py:1495-1518 | handing gathered normal sections to the metaclass binds each of them, in order |
| Modules.HeaderAdded | src/pynusmv/parser.py:467-469 | binding `NAME`, then `ARGS` when parentheses were written, into an empty class namespace succeeds and keeps both as plain attributes in that order |
| Modules.CreateModuleShape | src/pynusmv/parser.py:463-477 | a created module is named by its name's text; its namespace is the header, then the gathered sections |
| Modules.NoSectionLost | src/pynusmv/parser.py:470-476 | every section read is bound in the created module |
| Modules.UnnamedArgumentDropsArgs | src/pynusmv/model.py:1764-1767 | a declaration with no name among the arguments, after arguments that all print, makes `str(arg)` raise `AttributeError`; the header catches it and prints `MODULE name` with no argument list |
| Modules.HeaderOfCreated | src/pynusmv/model.py:1761-1770 | a created module's header is `"MODULE " + name + args`, with `args` empty when no parentheses were written |
| Modules.CreatedModulePrints | src/pynusmv/model.py:1756-1776 | a created module prints its header, then its sections in member order, joined by newlines |
| Modules.ParseModuleArgs | src/pynusmv/parser.py:457-458 | an argument group is only present with its parentheses, and then holds at least one identifier |
| Modules.CollectMoreArgs | src/pynusmv/parser.py:457-458 | `, x` repeated reads the identifiers in order |
| Modules.IdentTexts | src/pynusmv/model.py:175-178 | identifiers print as their names |
| Modules.ReadHeader | src/pynusmv/parser.py:457-461 | `MODULE name(args)` reads the name, the arguments when written, whether parentheses were written, then the sections |
| Modules.HeaderPrints | src/pynusmv/model.py:1756-1776 | a module created with no sections prints as `MODULE name` plus `(args)` exactly when parentheses were written |
| Modules.HeaderRoundTrip | src/pynusmv/parser.py:457-477 | reading `MODULE name(args)`, creating the module and printing it gives back the header text |
| Modules.ArgsTakeFirstSectionAsWritten | src/pynusmv/parser.py:467-471 | as written, `MODULE m VAR x : boolean;` takes the VAR section as `ARGS` and loses it, and a module with no section fails |
| Modules.ArgsTakeFirstSectionCorrected | src/pynusmv/parser.py:463-477 | corrected, the same module keeps its VAR section and prints as `MODULE m` then the section |
| Modules.ParseModel | src/pynusmv/parser.py:483 | `OneOrMore(module)`: a successful model has at least one module |
| Arctl.SkipPassesBlanks | src/tools/arctl/parsing/arctl.py:64-117 | pyparsing's whitespace skipping passes over blanks only, and stops at the first non-blank character or the end |
| Arctl.Literal | src/tools/arctl/parsing/arctl.py:64-117 | a literal after blanks is read exactly when it is written there |
| Arctl.ParseAtom | src/tools/arctl/parsing/arctl.py:66-67 | an atom is read exactly when a quote follows the blanks and a closing quote comes later; the result is an `Atom` ending at that quote |
| Arctl.NoQuoteBefore | src/tools/arctl/parsing/arctl.py:66 | `SkipTo("'")` stops at the first quote |
| Arctl.ReadsAtom | src/tools/arctl/parsing/arctl.py:66-67 | `'v'` with no quote inside `v` reads as `Atom(v)`, ending after the closing quote |
| Arctl.ParseAction | src/tools/arctl/parsing/arctl.py:69 | an action is an `Atom` |
| Arctl.ParseNot | src/tools/arctl/parsing/arctl.py:72-73 | `~` gives a `Not` node |
| Arctl.NotStep | src/tools/arctl/parsing/arctl.py:72-73 | `~ φ` reads as `Not(φ)` |
| Arctl.ParseConnected | src/tools/arctl/parsing/arctl.py:75-87 | `(` gives an `And`, `Or`, `Implies` or `Iff` node |
| Arctl.ParseConnective | src/tools/arctl/parsing/arctl.py:75-87 | the connected node keeps the left operand read first, in order |
| Arctl.ParseTemporal | src/tools/arctl/parsing/arctl.py:108-114 | `A` gives an `A` node and `E` an `E` node |
| Arctl.ParsePrefixed | src/tools/arctl/parsing/arctl.py:90-97 | `F`, `G` and `X` give `F`, `G` and `X` nodes |
| Arctl.ParseUntil | src/tools/arctl/parsing/arctl.py:99-103 | `[` gives a `U` or `W` node |
| Arctl.ParseFormula | src/tools/arctl/parsing/arctl.py:117 | a formula read is well shaped (actions are atoms, paths are path nodes), uses at least one character, and holds no tab when the text holds none |
| Arctl.ParseString | src/tools/arctl/parsing/arctl.py:117 | `parseString` reads the text with its tabs expanded: every formula it returns is well shaped and no atom holds a tab |
| Arctl.TabInAtomExpanded | src/tools/arctl/parsing/arctl.py:66-67 | a tab inside an atom reaches the atom as the spaces up to the next multiple of 8 columns |
| Arctl.PrintRenders | src/tools/arctl/parsing/arctl.py:55-61 | the printed text of a formula is what the grammar expects, character by character |
| Arctl.RendersParses | src/tools/arctl/parsing/arctl.py:64-117 | wherever a formula's printed text stands, the parser reads that formula and stops right after it |
| Arctl.PrintedParses | src/tools/arctl/parsing/arctl.py:64-117 | `parseString` of the printed text of a well-shaped formula whose atoms hold no tab, whatever follows, gives the formula back |
| Arctl.ParsedPrints | src/tools/arctl/parsing/arctl.py:117 | whatever `parseString` reads, tabs included, prints as text that reads back to the same formula |

## Left out

- The operator overloading of expressions (model.py:39-166) is thin sugar
  over the constructors and is not modelled.
- `__hash__` is not modelled as arithmetic. Two facts it decides are
  kept: which keys hash at all (`OrderedMaps.Hashable`), and which keys
  of a mapping section share a slot (`OrderedMaps.SameKey`, with the
  exception its own line below gives). The arms of a `case` expression
  are not put through a dictionary at all (see the
  Grammar.ParseKeywordForm line).
- The NuSMV C parser wrappers (parser.py:39-117) call native code through
  SWIG.
- `fsm.py` and `fsm/bddFsm.py` call native code through SWIG.
- pyparsing itself is not modelled; a tokenizer and recursive descent
  stand for it. Three consequences follow:
  - A keyword literal is a whole token here. pyparsing's `Literal` also
    matches a prefix, so `processor` would start with `process`.
  - An integer's `-` is its own token, where `Combine` would also reject
    `- 5` written with a blank.
  - Comments are skipped by the tokenizer everywhere.
- `_case_action` (parser.py:211-216) is an unused debugging helper.
- `utils.update` is not part of this model. It is taken to be
  `dict.update` for mappings and list `extend` for lists, as `update_body`
  does.
- Module inheritance is not modelled: `NAME` or `ARGS` inherited from a
  base class, and `type.__new__` itself. A module is its own namespace.
- Section bodies of other Python types are not modelled, such as tuples
  of tuples. A body is a string, an expression, a declaration, a list, a
  mapping or an opaque value.
- Sections.KeyOf: a mapping key that is neither a string nor an
  expression is refused with an error. The source keeps such a key
  unchanged, or raises `TypeError` for an unhashable list or dict. The
  model's dictionaries are keyed by `Expr`. The keys of a mapping body
  are not tested for hashing: a Python dictionary's own keys always
  hash. The key of a `(key, value)` line is tested
  (`Sections.PairKeyOf`).
- Sections.ValueOf: a mapping value that is a list or a mapping is
  refused with an error. The source keeps it unchanged. The model's
  dictionary values are types or expressions.
- Sections.ListItem: a list element that is a type, an opaque value, a
  list or a mapping is refused with an error. The source keeps it
  unchanged. The model's list bodies are sequences of `Expr`.
- There is no general parse/print round trip for SMV expressions.
  `__str__` omits parentheses around equal-precedence right operands
  (model.py:514-517). The round trip proved (`ParseFacts.ParsePrinted`,
  `ParseFacts.ParsePrintedText`) is for fully parenthesised tokens of
  the `Printable` expressions: identifiers, naturals, word constants,
  and unary, binary and conditional operators over them. It is proved
  with the corrected `::` and `->` actions. As written, it fails for
  every expression containing either operator.
- Sets, `case`, function calls, selectors and negative integers have no
  read-back lemma.
- Enumeration, range and array types, and module types with arguments,
  are parsed but have no read-back lemma.
- The ARCTL source has no printer. `Arctl.Print` is a fully parenthesised
  printer defined here, so that the parser's results can be stated as a
  round trip.
- Grammar.ParseLevel: its own contract states only that a successful
  parse uses at least one token. What it reads is stated by the
  `ParseFacts` lemmas.
- SectionGrammar.ParseSimpleType: its own contract states only that a
  successful parse uses at least one token. What it reads is stated by
  the `TypeFacts` lemmas for word and module types only.
- Equality.EqualsAsWritten: it is stated against `Equals` only on
  receivers without `Neq`, `Count`, integer constants or parsed complex
  identifiers (`AsWrittenAgrees`). The first three are findings. The
  fourth is `ComplexIdentsApartAsWritten`. Case bodies and set elements
  are compared through `OrderedDict` and `frozenset`, by hash and then
  `equals`. There the model takes `Equals`, so quirky nodes inside them
  are not followed. Python's shortcut for one object compared with
  itself is not modelled either, since the model has no object
  identity.
- Modules.AddMember: it files a declaration under its member name and
  reads that name back. The source does this by assigning
  `value.name = member` on the `Declaration` object itself
  (model.py:1507), so one object shared by two classes or two members
  ends up named after the last. The model has no object identity and
  does not follow that aliasing.
- Grammar.ParseAllExpr: it describes the grammar with the corrected
  `::`, `->` and word function actions; the written actions differ as
  the findings show. Its `case` expressions keep repeated conditions,
  as the Grammar.ParseKeywordForm line says.
- Grammar.ParseKeywordForm: a `case` body keeps every arm, in order,
  repeated conditions included. The source builds the arms with
  `OrderedDict(zip(...))` (parser.py:217-219):
  - conditions that hash alike and compare equal merge into one arm at
    the first one's place, with the last value. Two equal `int`s do, so
    `case 1 : a; 1 : b; esac` has the one arm `1 : b` there;
  - two distinct objects that hash alike are compared through
    `Eq.__bool__`, that is `equals` as written. `case 1 = 1 : a;
    1 = 1 : b; esac` raises `AttributeError` there (model.py:679-684);
  - a condition holding a complex identifier hashes by identity and
    never merges. That is the common case, and there the model agrees;
  - a condition holding a `Case` or an `ArrayAccess` does not hash, so
    the `case` raises `TypeError` there.

  Modelling this needs the hash arithmetic of every node class, which
  the model leaves out.
- ParseFacts.ActionOne: it describes the level actions with the corrected
  `::` and `->` actions. As written, the `::` level drops operands.
- ParseFacts.ActionTwo: it describes the level actions with the corrected
  `::` and `->` actions. As written, the `::` level drops operands.
- ParseFacts.FoldOne: it describes the level actions with the corrected
  `::` and `->` actions. As written, the `::` level drops operands.
- ParseFacts.FoldTwo: it describes the level actions with the corrected
  `::` and `->` actions. As written, the `::` level drops operands.
- ParseFacts.ArrayReadsPrinted: it describes the grammar with the
  corrected word function action.
- ParseFacts.UnaryReadsBack: it describes the grammar with the corrected
  actions.
- ParseFacts.BinaryReadsBack: it describes the grammar with the
  corrected actions. As written, `a :: b` reads as `a` and `a -> b` as
  `Implies(b, a)`.
- ParseFacts.IteReadsBack: it describes the grammar with the corrected
  actions.
- ParseFacts.ReadsPrinted: it describes the grammar with the corrected
  actions.
- ParseFacts.ParsePrinted: it describes the grammar with the corrected
  actions. As written, the round trip fails for `::`, `->` and word
  functions.
- ParseFacts.ParsePrintedText: it describes the grammar with the
  corrected actions, as `ParsePrinted` does.
- ParseFacts.TighterBindsFirst: it describes the grammar with the
  corrected actions.
- ParseFacts.LooserBindsLast: it describes the grammar with the
  corrected actions. As written, `->` as the first operator gives
  `Implies(op2(b, c), a)`.
- ParseFacts.RightNested: it describes the grammar with the corrected
  actions.
- ParseFacts.SameLevelAssociatesLeft: it describes the grammar with the
  corrected actions.
- ParseFacts.ImpliesAssociatesRight: it describes the grammar with the
  corrected `->` action. As written, the chain is
  `Implies(Implies(c, b), a)` (`Folds.ImpliesChainAsWritten`).
- TypeFacts.WordTypeReads: the width expression is read with the
  corrected actions. So it holds of the source only for widths without
  `::`, `->` or word functions.
- TypeFacts.WordTypeText: the width expression is read with the
  corrected actions, as in `WordTypeReads`.
- Modules.AddMemberOutcome: sections are normalised with the corrected
  DEFINE and CONSTANTS readings. As written, a DEFINE value given as
  operator text fails, where the model succeeds.
- Modules.AddMembersSucceed: it uses the corrected readings, as
  `AddMemberOutcome` does.
- Modules.ModuleNewSucceeds: it uses the corrected readings, as
  `AddMemberOutcome` does.
- Modules.HeaderAdded: it describes the corrected `ARGS` test, where
  `ARGS` is bound only when parentheses were written.
- Modules.CreateModuleShape: it describes the corrected
  `_create_module`. As written, the first section is taken as `ARGS`.
- Modules.NoSectionLost: it holds for the corrected `_create_module`
  only. As written, the first section is lost.
- Modules.HeaderOfCreated: it describes modules built by the corrected
  `_create_module`.
- Modules.CreatedModulePrints: it describes modules built by the
  corrected `_create_module`.
- Modules.HeaderPrints: it describes modules built by the corrected
  `_create_module`. As written, `MODULE m` with no section raises.
- Modules.HeaderRoundTrip: it describes the corrected `_create_module`.
- OrderedMaps.SameKey: it lets keys that are `Equals` share a slot,
  complex identifiers included. In the source a complex identifier read
  from text hashes by the identity of its pyparsing body and compares by
  identity (model.py:203-210), and each parse builds a new one
  (parser.py:153). Only ASSIGN keys are read that way: `_assign_identifier`
  gives a complex identifier, a plain `x` included, or `init`/`next` of
  one (parser.py:392-399). So two `x := …` entries of one ASSIGN body
  take two slots there and one here. The model has no object identity.
  VAR, IVAR, FROZENVAR and DEFINE keys are read with `identifier`
  (parser.py:354-378), which gives an `Identifier` that hashes and
  compares by name; there the source merges repeated keys as the model
  does.
- OrderedMaps.Slot: for an ASSIGN key holding a complex identifier read
  from text, it can find an earlier `Equals` key where the source finds none,
  as the OrderedMaps.SameKey line says.
- SectionGrammar.ParseMappingBody: an ASSIGN body that repeats a
  complex identifier as a key keeps one entry per `Equals` key here. The
  source's `OrderedDict(zip(...))` (parser.py:402-405) keeps one per
  occurrence.
- Sections.MappingStringBody: an ASSIGN section given as one string
  merges repeated complex-identifier keys in the same way.
- Modules.SectionParsedNormal: "no key twice" is stated up to `Equals`.
  A section read by the source can hold two complex-identifier keys that
  are `Equals`.

## Findings

| source | as written | input that shows it | evidently intended | confidence | as-written member | corrected member |
|---|---|---|---|---|---|---|
| src/pynusmv/model.py:867-872 | `Neq.equals` negates both operand comparisons | `Neq(x, y).equals(Neq(x, y))` is false | `Neq` compares like every commutative operator, so a node equals itself and its swap | high, not executed | Equality.NeqUnequalToItselfAsWritten | Equality.NeqSwapEqual |
| src/pynusmv/model.py:679-684 | operand comparisons call `.equals` on the operand | `Add(1, x).equals(Add(1, x))` raises `AttributeError`, since the parser builds integer constants as `int`s | integer operands compare by value | high, not executed | Equality.IntOperandRaisesAsWritten | Equality.EqualsReflexive |
| src/pynusmv/model.py:343-352 | `Count.equals` takes `len` of its value, which is one expression | `Count(x).equals(Count(x))` raises `TypeError` | counts compare their argument | high, not executed | Equality.CountRaisesAsWritten | Equality.EqualsReflexive |
| src/pynusmv/parser.py:250-252 | `::` is suppressed, yet the action takes every other token | `a :: b` parses to `a` | `Concat(a, b)`, keeping every operand | high, not executed | Folds.ConcatAsWrittenDropsOperand | Folds.ConcatActionKeepsAll |
| src/pynusmv/parser.py:298-301 | the fold builds `Implies(n, e)` | `a -> b` parses to `Implies(b, a)` | `Implies(a, b)` | high, not executed | Folds.ImpliesAsWrittenSwaps | ParseFacts.ImpliesAssociatesRight |
| src/pynusmv/parser.py:197-202 | the `,` of a word function is not suppressed | `extend(v, 2)` gives `WordFunction("extend", v, ",")` | the size is the second argument | high, not executed | Folds.WordFunctionSizeIsComma | Folds.WordFunctionActionBuilds |
| src/pynusmv/model.py:1597-1600 | the DEFINE value parser is `_simple_type_specifier` | DEFINE given `{"d": "(a & b)"}` raises | the value is an expression, as the class documentation says (model.py:1460-1462) | high, not executed | Sections.DefineValueAsWritten | Sections.DefineValueIntended |
| src/pynusmv/model.py:1656-1669 | a CONSTANTS string goes through `parseAllString`, which keeps only the first token | CONSTANTS given `"a , b ;"` holds only `a` | the whole list, as the docstring says (model.py:1548-1549) | medium, not executed | Sections.ConstantsAsWritten | Sections.ConstantsIntended |
| src/pynusmv/parser.py:467-471 | `tokens[1]` is taken as `ARGS` even when no arguments were written | `MODULE m VAR x : boolean;` takes the VAR section as `ARGS`; `MODULE m` raises `IndexError` | `ARGS` only when written; every section kept | high, not executed | Modules.ArgsTakeFirstSectionAsWritten | Modules.ArgsTakeFirstSectionCorrected |
