/** The typed AST of a Lark grammar (`syntax_tree.nodes`): one variant per
    grammar construct, built from the children of a raw parse-tree node. */
module Nodes {
  import opened Wrappers
  import opened Lark
  import opened Text

  /** Anything that can sit in an AST slot. `Tok`, `Lit` and `Alternatives`
      are not AST nodes: they are a bare token, a string literal with its
      quotes removed, and a Python list standing for a parenthesised
      alternation. Every other variant is an AST node and carries the
      metadata of the tree it was built from. */
  datatype Node =
    | Tok(token: Token)
    | Lit(text: string)
    | Alternatives(options: seq<Node>)
    | RuleNode(modifiers: seq<string>, name: NameToken, parameters: seq<NameToken>,
               priority: int, expansions: seq<Node>, meta: Meta)
    | TermNode(modifiers: seq<string>, name: NameToken, priority: int,
               expansions: seq<Node>, meta: Meta)
    | ExpansionNode(expressions: seq<Node>, alias: Option<NameToken>, meta: Meta)
    | ExprNode(atom: Node, operators: seq<string>, meta: Meta)
    | MaybeNode(expansions: seq<Node>, meta: Meta)
    | TemplateUsageNode(rule: NameToken, arguments: seq<Node>, meta: Meta)
    | RangeNode(start: string, end: string, meta: Meta)
    | DeclareNode(symbols: seq<NameToken>, meta: Meta)
    | ImportNode(path: string, symbols: seq<NameToken>, alias: Option<NameToken>, meta: Meta)
    | OverrideNode(definition: Node, meta: Meta)
    | ExtendNode(definition: Node, meta: Meta)
    | IgnoreNode(expansions: seq<Node>, meta: Meta)
    | CommentNode(content: Token, meta: Meta)

  /** `isinstance(n, AstNode)`. */
  predicate IsAstNode(n: Node) {
    !(n.Tok? || n.Lit? || n.Alternatives?)
  }

  /** The name begins with the inlining glyph `_`. */
  predicate StartsWithUnderscore(name: string) {
    |name| > 0 && name[0] == '_'
  }

  /** `Rule(tree)` for the children `[modifiers, name, parameters, priority,
      expansions]`: missing modifiers and parameters become empty lists, a
      missing priority becomes 0, and a name starting with `_` adds the `_`
      modifier. */
  function BuildRule(modifiers: Option<seq<string>>, name: NameToken,
                     parameters: Option<seq<NameToken>>, priority: Option<int>,
                     expansions: seq<Node>, meta: Meta): (n: Node)
    ensures n.RuleNode? && n.name == name && n.expansions == expansions && n.meta == meta
    ensures n.parameters == parameters.GetOr([])
    ensures n.priority == priority.GetOr(0)
    ensures modifiers.GetOr([]) <= n.modifiers
    ensures "_" in n.modifiers <==> ("_" in modifiers.GetOr([]) || StartsWithUnderscore(name.value))
    ensures forall m | m in n.modifiers :: m in modifiers.GetOr([]) || m == "_"
  {
    var explicit := modifiers.GetOr([]);
    var mods := if StartsWithUnderscore(name.value) then explicit + ["_"] else explicit;
    RuleNode(mods, name, parameters.GetOr([]), priority.GetOr(0), expansions, meta)
  }

  /** `Term(tree)` for the children `[name, expansions]` or `[name, priority,
      expansions]`: no explicit modifiers, priority 0 when absent, and `_`
      for a name starting with `_`. */
  function BuildTerm(name: NameToken, priority: Option<int>, expansions: seq<Node>, meta: Meta): (n: Node)
    ensures n.TermNode? && n.name == name && n.expansions == expansions && n.meta == meta
    ensures n.priority == priority.GetOr(0)
    ensures n.modifiers == [] <==> !StartsWithUnderscore(name.value)
    ensures forall m | m in n.modifiers :: m == "_"
  {
    TermNode(if StartsWithUnderscore(name.value) then ["_"] else [], name, priority.GetOr(0), expansions, meta)
  }

  /** `Expansion(tree)`: all children are expressions and there is no alias. */
  function BuildExpansion(expressions: seq<Node>, meta: Meta): (n: Node)
    ensures n.ExpansionNode? && n.expressions == expressions && n.alias.None?
  {
    ExpansionNode(expressions, None, meta)
  }

  /** `Expansion.is_aliased`. */
  predicate IsAliased(n: Node) {
    n.ExpansionNode? && n.alias.Some?
  }

  /** `Alias(tree).to_expansion()` for the children `[expansion, name]`: the
      expansion, now carrying the alias and the alias node's metadata. */
  function AliasToExpansion(expansion: Node, alias: NameToken, meta: Meta): (n: Node)
    requires expansion.ExpansionNode?
    ensures IsAliased(n) && n.alias == Some(alias) && n.meta == meta
    ensures n.expressions == expansion.expressions
  {
    ExpansionNode(expansion.expressions, Some(alias), meta)
  }

  /** A freshly built expansion is unaliased, and aliasing it makes it aliased. */
  lemma AliasedIffAlias(expressions: seq<Node>, alias: NameToken, meta: Meta, aliasMeta: Meta)
    ensures !IsAliased(BuildExpansion(expressions, meta))
    ensures IsAliased(AliasToExpansion(BuildExpansion(expressions, meta), alias, aliasMeta))
  {
  }

  /** `Import(tree)` whose first child is the list `parts + [symbol]`: the
      path is all but the last element joined with `.`, the last element is
      the only imported symbol, and the optional second child is the alias. */
  function BuildImportFromPath(parts: seq<string>, symbol: NameToken,
                               alias: Option<NameToken>, meta: Meta): (n: Node)
    ensures n.ImportNode? && n.symbols == [symbol] && n.alias == alias
    ensures n.path == Join(parts, ".")
  {
    ImportNode(Join(parts, "."), [symbol], alias, meta)
  }

  /** The path and the symbol put back together give the dotted name of the
      import list. */
  lemma ImportPathRoundTrip(parts: seq<string>, symbol: NameToken, alias: Option<NameToken>, meta: Meta)
    requires |parts| > 0
    ensures var n := BuildImportFromPath(parts, symbol, alias, meta);
            n.path + "." + n.symbols[0].value == Join(parts + [symbol.value], ".")
  {
    JoinSnoc(parts, symbol.value, ".");
  }

  /** `Import(tree)` whose children are a path string and a symbol list: both
      are kept as they are. */
  function BuildImportFromString(path: string, symbols: seq<NameToken>, meta: Meta): (n: Node)
    ensures n.ImportNode? && n.path == path && n.symbols == symbols && n.alias.None?
  {
    ImportNode(path, symbols, None, meta)
  }

  /** `Comment(tree)`: the first child, or an empty `COMMENT` token. */
  function BuildComment(children: seq<Token>, meta: Meta): (n: Node)
    ensures n.CommentNode?
    ensures |children| > 0 ==> n.content == children[0]
    ensures |children| == 0 ==> n.content.kind == "COMMENT" && n.content.value == ""
  {
    CommentNode(if |children| > 0 then children[0] else Token("COMMENT", "", None, None), meta)
  }

  /** `TemplateUsage(tree)` for the children `[rule, arguments...]`. */
  function BuildTemplateUsage(rule: NameToken, arguments: seq<Node>, meta: Meta): (n: Node)
    ensures n.TemplateUsageNode? && n.rule == rule && n.arguments == arguments
  {
    TemplateUsageNode(rule, arguments, meta)
  }

  /** The top-level statement list of a grammar. */
  datatype Ast = Ast(statements: seq<Node>) {
    /** `len(ast)`. */
    function Length(): nat { |statements| }
  }

  /** `Ast(tree)`: the children that are AST nodes, in their order. */
  function KeepAstNodes(children: seq<Node>): (r: seq<Node>)
    ensures |r| <= |children|
    ensures forall i | 0 <= i < |r| :: IsAstNode(r[i])
    ensures forall x | x in children && IsAstNode(x) :: x in r
    ensures forall x | x in r :: x in children
  {
    if |children| == 0 then []
    else (if IsAstNode(children[0]) then [children[0]] else []) + KeepAstNodes(children[1..])
  }

  function BuildAst(children: seq<Node>): (a: Ast)
    ensures forall i | 0 <= i < a.Length() :: IsAstNode(a.statements[i])
  {
    Ast(KeepAstNodes(children))
  }

  /** Filtering keeps a list made only of AST nodes unchanged, so building
      an `Ast` from an `Ast`'s statements gives the same `Ast`. */
  lemma {:induction false} KeepAstNodesIdentity(children: seq<Node>)
    requires forall i | 0 <= i < |children| :: IsAstNode(children[i])
    ensures KeepAstNodes(children) == children
  {
    if |children| > 0 {
      KeepAstNodesIdentity(children[1..]);
    }
  }

  lemma BuildAstIdempotent(children: seq<Node>)
    ensures BuildAst(BuildAst(children).statements) == BuildAst(children)
  {
    KeepAstNodesIdentity(KeepAstNodes(children));
  }

  /** Filtering distributes over concatenation, so statement order follows the
      order of the tree's children. */
  lemma {:induction false} KeepAstNodesAppend(a: seq<Node>, b: seq<Node>)
    ensures KeepAstNodes(a + b) == KeepAstNodes(a) + KeepAstNodes(b)
  {
    if |a| > 0 {
      assert (a + b)[1..] == a[1..] + b;
      KeepAstNodesAppend(a[1..], b);
    } else {
      assert a + b == b;
    }
  }
}
