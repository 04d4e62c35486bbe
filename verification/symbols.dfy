/** `Definition` and `Reference`, the records the symbol table stores
    (`symbol_table.symbol`). A definition's children are the names that are
    only meaningful inside it: a rule's template parameters, or the members
    hidden behind an import alias. */
module Symbols {
  import opened Wrappers
  import opened Lark
  import opened Flags
  import opened Positions
  import opened NameMaps
  import opened Nodes

  /** A named grammar symbol. `parent` is the enclosing definition's name;
      `astNode` is the statement that introduced it. */
  datatype Definition = Definition(
    name: string,
    kind: Kind,
    range: Range,
    selectionRange: Range,
    modifiers: Mask,
    directives: Mask,
    parent: Option<string>,
    children: NameMap<Definition>,
    astNode: Option<Node>)

  /** A use of a name. `astNode` is the statement the use occurs in, the
      anchor of local-scope resolution. */
  datatype Reference = Reference(
    name: string,
    position: Position,
    range: Range,
    kind: Option<Kind>,
    astNode: Option<Node>)

  /** The keys the symbol table groups records by. */
  function DefName(d: Definition): string { d.name }
  function RefName(r: Reference): string { r.name }

  /** The kind a name token denotes: its token type. */
  function KindOfToken(t: NameToken): (k: Kind)
    ensures k == Terminal <==> t.kind == "TERMINAL"
    ensures k == Rule <==> t.kind == "RULE"
  {
    if t.kind == "TERMINAL" then Terminal else Rule
  }

  /** A definition named by `t`, without parent or children, whose selection
      range is the token's own range. */
  function DefinitionFromToken(t: NameToken, range: Range, modifiers: Mask, directives: Mask,
                               astNode: Option<Node>): (d: Definition)
    ensures d.name == t.value && d.kind == KindOfToken(t)
    ensures d.selectionRange == RangeFromToken(t, false)
    ensures d.range == range && d.modifiers == modifiers && d.directives == directives
    ensures d.parent.None? && d.children == [] && d.astNode == astNode
  {
    Definition(t.value, KindOfToken(t), range, RangeFromToken(t, false), modifiers, directives,
               None, [], astNode)
  }

  /** `parent.append_child(child)`: the child records its parent's name and
      joins the end of the list stored under its own name. */
  function AppendChild(parent: Definition, child: Definition): (r: Definition)
    ensures r.name == parent.name && r.kind == parent.kind && r.range == parent.range
    ensures r.selectionRange == parent.selectionRange && r.parent == parent.parent
    ensures r.modifiers == parent.modifiers && r.directives == parent.directives
    ensures r.astNode == parent.astNode
    ensures Lookup(r.children, child.name)
         == Lookup(parent.children, child.name) + [child.(parent := Some(parent.name))]
    ensures forall other | other != child.name :: Get(r.children, other) == Get(parent.children, other)
    ensures Total(r.children) == Total(parent.children) + 1
  {
    var adopted := child.(parent := Some(parent.name));
    AppendLookup(parent.children, child.name, adopted);
    TotalAppend(parent.children, child.name, adopted);
    forall other | other != child.name
      ensures Get(Append(parent.children, child.name, adopted), other) == Get(parent.children, other)
    {
      AppendOther(parent.children, child.name, adopted, other);
    }
    parent.(children := Append(parent.children, child.name, adopted))
  }

  /** Two children of the same name are both kept, in order. */
  lemma AppendTwoChildren(parent: Definition, c1: Definition, c2: Definition)
    requires parent.children == [] && c1.name == c2.name
    ensures var r := AppendChild(AppendChild(parent, c1), c2);
            Lookup(r.children, c1.name)
            == [c1.(parent := Some(parent.name)), c2.(parent := Some(parent.name))]
  {
  }

  /** `Reference.from_token(token, ast_node)`. */
  function ReferenceFromToken(t: NameToken, astNode: Option<Node>): (r: Reference)
    ensures r.name == t.value && r.kind == Some(KindOfToken(t)) && r.astNode == astNode
    ensures r.position == PositionFromToken(t, false)
    ensures r.range == RangeFromToken(t, false)
    ensures Contains(r.range, r.position)
  {
    Reference(t.value, PositionFromToken(t, false), RangeFromToken(t, false),
              Some(KindOfToken(t)), astNode)
  }
}
