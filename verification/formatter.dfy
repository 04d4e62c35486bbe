/** The grammar formatter (`formatter`): renders an AST back to Lark grammar
    text, one statement per paragraph. */
module Formatter {
  import opened Wrappers
  import opened Lark
  import opened Text
  import opened Nodes
  import AstBuilder

  /** `DEFAULT_INDENT`: four spaces. */
  const DEFAULT_INDENT := "    "

  /** The separator between the alternatives of a rule, term or `%ignore`. */
  function AlternativeSeparator(indent: string): string {
    "\n" + indent + "| "
  }

  /** The modifiers a header shows: all but the `_` that a leading underscore
      of the name already expresses. */
  function ShownModifiers(modifiers: seq<string>): (r: seq<string>)
    ensures forall m | m in r :: m in modifiers && m != "_"
    ensures forall m | m in modifiers && m != "_" :: m in r
  {
    if |modifiers| == 0 then []
    else
      assert forall m | m in modifiers :: m == modifiers[0] || m in modifiers[1..];
      (if modifiers[0] == "_" then [] else [modifiers[0]]) + ShownModifiers(modifiers[1..])
  }

  /** `.priority`, shown only for a non-zero priority. */
  function PrioritySuffix(priority: int): (r: string)
    ensures priority == 0 <==> r == ""
    ensures priority != 0 ==> r[0] == '.' && AstBuilder.Priority([Some(r[1..])]) == Success(Some(priority))
  {
    if priority == 0 then ""
    else
      AstBuilder.PriorityRoundTrip(priority);
      "." + IntToString(priority)
  }

  /** The text of a list of name tokens. */
  function Names(tokens: seq<NameToken>): (r: seq<string>)
    ensures |r| == |tokens| && forall i | 0 <= i < |r| :: r[i] == tokens[i].value
  {
    seq(|tokens|, i requires 0 <= i < |tokens| => tokens[i].value)
  }

  /** `{p1, p2}` for a template's parameters, nothing when there are none. */
  function ParameterList(parameters: seq<NameToken>): (r: string)
    ensures |parameters| == 0 <==> r == ""
    ensures |parameters| > 0 ==> r == "{" + Join(Names(parameters), ", ") + "}"
  {
    if |parameters| == 0 then "" else "{" + Join(Names(parameters), ", ") + "}"
  }

  /** The parameter list grows one name at a time: a single parameter is
      `{p}`, and each further one goes before the closing brace after `, `. */
  lemma ParameterListSnoc(parameters: seq<NameToken>, p: NameToken)
    ensures |parameters| == 0 ==> ParameterList([p]) == "{" + p.value + "}"
    ensures |parameters| > 0 ==>
      var before := ParameterList(parameters);
      ParameterList(parameters + [p]) == before[..|before| - 1] + ", " + p.value + "}"
  {
    if |parameters| > 0 {
      var before := ParameterList(parameters);
      assert Names(parameters + [p]) == Names(parameters) + [p.value];
      JoinSnoc(Names(parameters), p.value, ", ");
      assert before[..|before| - 1] == "{" + Join(Names(parameters), ", ");
    } else {
      assert Names([p]) == [p.value];
    }
  }

  /** A rule without modifiers or priority and with two template parameters
      is headed `name{p1, p2}: `. */
  lemma TwoParameterHeader(name: string, p1: NameToken, p2: NameToken)
    ensures Header([], name, [p1, p2], 0) == name + "{" + p1.value + ", " + p2.value + "}: "
  {
    ParameterListSnoc([p1], p2);
    ParameterListSnoc([], p1);
    assert [p1] + [p2] == [p1, p2];
    assert ShownModifiers([]) == [];
  }

  /** The header of a rule or term: shown modifiers, name, parameters,
      priority and the colon. */
  function Header(modifiers: seq<string>, name: string, parameters: seq<NameToken>, priority: int): string {
    Concat(ShownModifiers(modifiers)) + name + ParameterList(parameters) + PrioritySuffix(priority) + ": "
  }

  /** The rendering of an operator list: concatenated, with `..` before the
      third of exactly three (a repetition range). */
  function Operators(ops: seq<string>): string {
    if |ops| == 3 then ops[0] + ops[1] + ".." + ops[2] else Concat(ops)
  }

  /** `%override ` followed by the rendered definition. */
  function FormatOverride(definition: string): (r: string)
    ensures |r| == |"%override "| + |definition|
    ensures r[|"%override "|..] == definition
  {
    "%override " + definition
  }

  /** The `%override` rendering as written in the source: the `%extend `
      prefix, which turns an override into an extension. */
  function FormatOverrideAsWritten(definition: string): (r: string)
    ensures |r| == |"%extend "| + |definition|
    ensures r[|"%extend "|..] == definition
  {
    "%extend " + definition
  }

  /** `%import path.SYM` for one symbol, `%import path (A, B)` for several,
      then ` -> alias` when there is one. */
  function FormatImport(path: string, symbols: seq<NameToken>, alias: Option<NameToken>): (r: string)
    ensures |r| >= |"%import "| + |path| && r[..|"%import "|] == "%import "
    ensures r[|"%import "|..|"%import "| + |path|] == path
    ensures alias.Some? ==> var tail := " -> " + alias.value.value;
                            |r| >= |tail| && r[|r| - |tail|..] == tail
  {
    "%import " + path
    + (if |symbols| == 1 then "." + symbols[0].value else " (" + Join(Names(symbols), ", ") + ")")
    + (if alias.Some? then " -> " + alias.value.value else "")
  }

  /** `_format_ast_node(node, indent)`. Alternatives are separated with
      `indent`; nested nodes are rendered with the default indent. A token
      renders as its text and a string literal in double quotes. */
  function FormatNode(n: Node, indent: string): string
    decreases n
  {
    match n
    case Tok(t) => t.value
    case Lit(text) => "\"" + text + "\""
    case Alternatives(options) =>
      "(" + Join(seq(|options|, i requires 0 <= i < |options| => FormatNode(options[i], DEFAULT_INDENT)), " | ") + ")"
    case RuleNode(modifiers, name, parameters, priority, expansions, _) =>
      Header(modifiers, name.value, parameters, priority)
      + Join(seq(|expansions|, i requires 0 <= i < |expansions| => FormatNode(expansions[i], DEFAULT_INDENT)),
             AlternativeSeparator(indent))
    case TermNode(modifiers, name, priority, expansions, _) =>
      Header(modifiers, name.value, [], priority)
      + Join(seq(|expansions|, i requires 0 <= i < |expansions| => FormatNode(expansions[i], DEFAULT_INDENT)),
             AlternativeSeparator(indent))
    case ExpansionNode(expressions, alias, _) =>
      Join(seq(|expressions|, i requires 0 <= i < |expressions| => FormatNode(expressions[i], DEFAULT_INDENT)), " ")
      + (if alias.Some? then " -> " + alias.value.value else "")
    case ExprNode(atom, operators, _) => FormatNode(atom, DEFAULT_INDENT) + Operators(operators)
    case MaybeNode(expansions, _) =>
      "[" + Join(seq(|expansions|, i requires 0 <= i < |expansions| => FormatNode(expansions[i], DEFAULT_INDENT)), " | ") + "]"
    case TemplateUsageNode(rule, arguments, _) =>
      rule.value + "{" + Join(seq(|arguments|, i requires 0 <= i < |arguments| => FormatNode(arguments[i], DEFAULT_INDENT)), ", ") + "}"
    case RangeNode(start, end, _) => start + ".." + end
    case DeclareNode(symbols, _) => "%declare " + Join(Names(symbols), " ")
    case ImportNode(path, symbols, alias, _) => FormatImport(path, symbols, alias)
    case OverrideNode(definition, _) => FormatOverride(FormatNode(definition, DEFAULT_INDENT))
    case ExtendNode(definition, _) => "%extend " + FormatNode(definition, DEFAULT_INDENT)
    case IgnoreNode(expansions, _) =>
      "%ignore " + Join(seq(|expansions|, i requires 0 <= i < |expansions| => FormatNode(expansions[i], DEFAULT_INDENT)),
                        AlternativeSeparator(indent))
    case CommentNode(content, _) => Strip(content.value)
  }

  /** The stripped rendering of each statement. */
  function Paragraphs(statements: seq<Node>, indent: string): (r: seq<string>)
    ensures |r| == |statements|
    ensures forall i | 0 <= i < |r| :: r[i] == Strip(FormatNode(statements[i], indent))
  {
    seq(|statements|, i requires 0 <= i < |statements| => Strip(FormatNode(statements[i], indent)))
  }

  /** `Formatter.format(ast, indent)`: the stripped statement renderings
      separated by blank lines. */
  function Format(ast: Ast, indent: string): string {
    Join(Paragraphs(ast.statements, indent), "\n\n")
  }

  // ---------------------------------------------------------------------
  // Properties

  /** An empty grammar formats to the empty string, and one more statement
      adds a blank line and its stripped rendering. */
  lemma FormatAppend(statements: seq<Node>, s: Node, indent: string)
    ensures Format(Ast([]), indent) == ""
    ensures |statements| > 0 ==>
      Format(Ast(statements + [s]), indent)
      == Format(Ast(statements), indent) + "\n\n" + Strip(FormatNode(s, indent))
    ensures Format(Ast([s]), indent) == Strip(FormatNode(s, indent))
  {
    if |statements| > 0 {
      assert Paragraphs(statements + [s], indent) == Paragraphs(statements, indent) + [Strip(FormatNode(s, indent))];
      JoinSnoc(Paragraphs(statements, indent), Strip(FormatNode(s, indent)), "\n\n");
    }
  }

  /** The shown modifiers never contain `_`, and keep `?` and `!` exactly
      when the rule has them. */
  lemma {:induction false} ShownModifierGlyphs(modifiers: seq<string>)
    requires forall m | m in modifiers :: m == "_" || m == "?" || m == "!"
    ensures '_' !in Concat(ShownModifiers(modifiers))
    ensures '?' in Concat(ShownModifiers(modifiers)) <==> "?" in modifiers
    ensures '!' in Concat(ShownModifiers(modifiers)) <==> "!" in modifiers
  {
    if |modifiers| > 0 {
      assert forall m | m in modifiers[1..] :: m in modifiers;
      ShownModifierGlyphs(modifiers[1..]);
      var rest := ShownModifiers(modifiers[1..]);
      assert forall m | m in modifiers :: m == modifiers[0] || m in modifiers[1..];
      var c := Concat(rest);
      assert modifiers[0] in modifiers;
      if modifiers[0] == "?" {
        assert ShownModifiers(modifiers) == ["?"] + rest;
        ConcatCons("?", rest);
        assert Concat(ShownModifiers(modifiers)) == "?" + c;
        assert '!' !in "?" && '_' !in "?";
      } else if modifiers[0] == "!" {
        assert ShownModifiers(modifiers) == ["!"] + rest;
        ConcatCons("!", rest);
        assert Concat(ShownModifiers(modifiers)) == "!" + c;
        assert '?' !in "!" && '_' !in "!";
      } else {
        assert ShownModifiers(modifiers) == rest;
      }
    }
  }

  lemma ConcatCons(x: string, rest: seq<string>)
    ensures Concat([x] + rest) == x + Concat(rest)
  {
    if |rest| > 0 {
      assert ([x] + rest)[1..] == rest;
    } else {
      assert [x] + rest == [x];
    }
  }

  /** A rule built from a name with a leading underscore renders the name
      once, without a separate `_` modifier in front of it. */
  lemma UnderscoreRuleHeader(name: NameToken, expansions: seq<Node>, meta: Meta)
    requires StartsWithUnderscore(name.value)
    ensures var n := BuildRule(None, name, None, None, expansions, meta);
            FormatNode(n, DEFAULT_INDENT)
            == name.value + ": "
               + Join(seq(|expansions|, i requires 0 <= i < |expansions| => FormatNode(expansions[i], DEFAULT_INDENT)),
                      AlternativeSeparator(DEFAULT_INDENT))
  {
    var n := BuildRule(None, name, None, None, expansions, meta);
    assert n.modifiers == ["_"];
    assert ShownModifiers(["_"]) == [];
    assert Header(n.modifiers, name.value, [], 0) == name.value + ": ";
  }

  /** A one-symbol import renders as the dotted name it was built from. */
  lemma ImportRendersDottedName(parts: seq<string>, symbol: NameToken, meta: Meta)
    requires |parts| > 0
    ensures FormatNode(BuildImportFromPath(parts, symbol, None, meta), DEFAULT_INDENT)
         == "%import " + Join(parts + [symbol.value], ".")
  {
    var n := BuildImportFromPath(parts, symbol, None, meta);
    ImportPathRoundTrip(parts, symbol, None, meta);
    ImportIsFormatImport(n.path, n.symbols, n.alias, meta);
    OneSymbolImport(n.path, symbol);
  }

  lemma ImportIsFormatImport(path: string, symbols: seq<NameToken>, alias: Option<NameToken>, meta: Meta)
    ensures FormatNode(ImportNode(path, symbols, alias, meta), DEFAULT_INDENT) == FormatImport(path, symbols, alias)
  {
  }

  lemma OneSymbolImport(path: string, symbol: NameToken)
    ensures FormatImport(path, [symbol], None) == "%import " + (path + "." + symbol.value)
  {
  }

  /** The degenerate shapes: an expansion without expressions renders as
      nothing, a template usage without arguments as `rule{}`, an expression
      without operators as its atom, and three operators as a repetition
      range. */
  lemma DegenerateShapes(atom: Node, rule: NameToken, ops: seq<string>, meta: Meta, indent: string)
    ensures FormatNode(ExpansionNode([], None, meta), indent) == ""
    ensures FormatNode(TemplateUsageNode(rule, [], meta), indent) == rule.value + "{}"
    ensures FormatNode(ExprNode(atom, [], meta), indent) == FormatNode(atom, DEFAULT_INDENT)
    ensures |ops| == 3 ==> FormatNode(ExprNode(atom, ops, meta), indent)
                           == FormatNode(atom, DEFAULT_INDENT) + ops[0] + ops[1] + ".." + ops[2]
    ensures |ops| != 3 ==> FormatNode(ExprNode(atom, ops, meta), indent)
                           == FormatNode(atom, DEFAULT_INDENT) + Concat(ops)
  {
    assert FormatNode(ExprNode(atom, ops, meta), indent) == FormatNode(atom, DEFAULT_INDENT) + Operators(ops);
  }

  /** A string literal renders in quotes that `STRING` strips off again. */
  lemma LiteralRoundTrip(text: string, indent: string)
    ensures AstBuilder.Unquote(FormatNode(Lit(text), indent)) == text
  {
    AstBuilder.UnquoteQuoted(text);
  }

  /** As written, an override and an extension of the same definition
      render identically, so formatting turns `%override` into `%extend`. */
  lemma OverrideAsWrittenBecomesExtend(definition: Node, meta: Meta)
    ensures OverrideNode(definition, meta) != ExtendNode(definition, meta)
    ensures FormatOverrideAsWritten(FormatNode(definition, DEFAULT_INDENT))
         == FormatNode(ExtendNode(definition, meta), DEFAULT_INDENT)
  {
  }

  /** With the `%override` prefix, an override and an extension of the same
      definition render differently, and the override keeps its directive. */
  lemma OverrideKeepsDirective(definition: Node, meta: Meta, indent: string)
    ensures FormatNode(OverrideNode(definition, meta), indent) != FormatNode(ExtendNode(definition, meta), indent)
    ensures "%override " <= FormatNode(OverrideNode(definition, meta), indent)
  {
    var o := FormatNode(OverrideNode(definition, meta), indent);
    var e := FormatNode(ExtendNode(definition, meta), indent);
    assert o[1] == 'o' && e[1] == 'e';
  }
}
