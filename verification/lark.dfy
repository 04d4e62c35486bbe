/** The parts of the Lark parsing library the language server consumes:
    tokens, position metadata and raw parse trees. Only their data is
    modelled; the parser that produces them is not. */
module Lark {
  import opened Wrappers

  /** A lexer token: its terminal type (`"RULE"`, `"TERMINAL"`, `"TOKEN"`,
      `"STRING"`, ...), its text, and its 1-based line and column when known. */
  datatype Token = Token(kind: string, value: string, line: Option<int>, column: Option<int>)

  /** Tokens that name a grammar symbol: a rule or a terminal. */
  predicate IsNameToken(t: Token) {
    t.kind == "RULE" || t.kind == "TERMINAL"
  }

  type NameToken = t: Token | IsNameToken(t) witness Token("RULE", "", None, None)

  /** The 1-based span Lark records for a tree node; any field may be missing. */
  datatype Meta = Meta(line: Option<int>, column: Option<int>, endLine: Option<int>, endColumn: Option<int>)

  /** A raw parse tree: the production name and its children in order. */
  datatype Tree = Tree(data: string, children: seq<Child>)

  /** A child of a raw tree: a subtree, a token, any other non-`None` value
      (kept as its text), or the `None` placeholder Lark leaves for an
      omitted optional item. */
  datatype Child = Subtree(tree: Tree) | Leaf(token: Token) | Value(text: string) | Placeholder
}
