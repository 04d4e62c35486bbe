/** Definition and reference extraction (`symbol_table.syntax_tree`): for
    every AST variant, the records it contributes, in order. */
module Extraction {
  import opened Wrappers
  import opened Lark
  import opened Flags
  import opened Positions
  import opened NameMaps
  import opened Nodes
  import opened Symbols

  // ---------------------------------------------------------------------
  // Definitions

  /** `definitions_from_declare`: one declared definition per symbol. */
  function DefinitionsFromDeclare(symbols: seq<NameToken>, meta: Meta, node: Node): (ds: seq<Definition>)
    ensures |ds| == |symbols|
    ensures forall i | 0 <= i < |ds| ::
      ds[i].name == symbols[i].value && ds[i].kind == KindOfToken(symbols[i])
      && ds[i].directives == DECLARED && ds[i].children == []
  {
    seq(|symbols|, i requires 0 <= i < |symbols| =>
      DefinitionFromToken(symbols[i], RangeFromMeta(meta), EMPTY, DECLARED, Some(node)))
  }

  /** The alias names of the aliased expansions among `expansions`, in order. */
  function AliasNames(expansions: seq<Node>): seq<string> {
    if |expansions| == 0 then []
    else (if IsAliased(expansions[0]) then [expansions[0].alias.value.value] else [])
         + AliasNames(expansions[1..])
  }

  /** The alias tokens of the aliased expansions among `expansions`, in
      order: the tokens `AliasNames` reads the names from. */
  function AliasTokens(expansions: seq<Node>): (r: seq<NameToken>)
    ensures |r| == |AliasNames(expansions)|
    ensures forall i | 0 <= i < |r| :: r[i].value == AliasNames(expansions)[i]
  {
    if |expansions| == 0 then []
    else (if IsAliased(expansions[0]) then [expansions[0].alias.value] else [])
         + AliasTokens(expansions[1..])
  }

  /** `definitions_from_expansions`: one definition per aliased expansion,
      named by its alias; unaliased expansions contribute nothing. */
  function DefinitionsFromExpansions(expansions: seq<Node>): (ds: seq<Definition>)
    ensures |ds| == |AliasNames(expansions)|
    ensures forall i | 0 <= i < |ds| :: ds[i].name == AliasNames(expansions)[i] && ds[i].children == []
    ensures forall i | 0 <= i < |ds| :: ds[i].kind == KindOfToken(AliasTokens(expansions)[i])
  {
    if |expansions| == 0 then []
    else
      var e := expansions[0];
      (if IsAliased(e)
       then [DefinitionFromToken(e.alias.value, RangeFromMeta(e.meta), EMPTY, EMPTY, Some(e))]
       else [])
      + DefinitionsFromExpansions(expansions[1..])
  }

  /** The imported symbols as definitions. */
  function ImportedDefinitions(symbols: seq<NameToken>, range: Range, node: Node): (ds: seq<Definition>)
    ensures |ds| == |symbols|
    ensures forall i | 0 <= i < |ds| ::
      ds[i].name == symbols[i].value && ds[i].kind == KindOfToken(symbols[i])
      && ds[i].directives == IMPORTED && ds[i].children == []
  {
    seq(|symbols|, i requires 0 <= i < |symbols| =>
      DefinitionFromToken(symbols[i], range, EMPTY, IMPORTED, Some(node)))
  }

  /** `parent` with `children` appended one by one. */
  function AdoptAll(parent: Definition, children: seq<Definition>): (r: Definition)
    ensures r.name == parent.name && r.kind == parent.kind && r.range == parent.range
    ensures r.modifiers == parent.modifiers && r.directives == parent.directives
    ensures r.selectionRange == parent.selectionRange && r.parent == parent.parent
    ensures Total(r.children) == Total(parent.children) + |children|
    decreases |children|
  {
    if |children| == 0 then parent else AdoptAll(AppendChild(parent, children[0]), children[1..])
  }

  /** Adopting puts each child, now pointing at the parent, at the end of the
      list under its name. */
  lemma {:induction false} AdoptAllLookup(parent: Definition, children: seq<Definition>, name: string)
    ensures Lookup(AdoptAll(parent, children).children, name)
         == Lookup(parent.children, name)
            + Select(Adopted(children, parent.name), DefName, name)
    decreases |children|
  {
    if |children| > 0 {
      var a := Adopted(children, parent.name);
      var p1 := AppendChild(parent, children[0]);
      assert AdoptAll(parent, children) == AdoptAll(p1, children[1..]);
      AdoptAllLookup(p1, children[1..], name);
      assert a[1..] == Adopted(children[1..], p1.name);
      assert Select(a, DefName, name) == (if a[0].name == name then [a[0]] else []) + Select(a[1..], DefName, name);
      if children[0].name != name {
        assert Get(p1.children, name) == Get(parent.children, name);
      }
    }
  }

  /** `children` with their parent set to `parentName`. */
  function Adopted(children: seq<Definition>, parentName: string): (r: seq<Definition>)
    ensures |r| == |children|
    ensures forall i | 0 <= i < |r| :: r[i] == children[i].(parent := Some(parentName))
  {
    seq(|children|, i requires 0 <= i < |children| => children[i].(parent := Some(parentName)))
  }

  /** `definitions_from_import`: with an alias, one definition for the alias
      holding every imported symbol as a child; without one, a top-level
      definition per symbol. */
  function DefinitionsFromImport(symbols: seq<NameToken>, alias: Option<NameToken>, meta: Meta,
                                 node: Node): (ds: seq<Definition>)
    ensures alias.Some? ==> |ds| == 1 && ds[0].name == alias.value.value
                            && ds[0].kind == KindOfToken(alias.value)
                            && Total(ds[0].children) == |symbols|
    ensures alias.None? ==> ds == ImportedDefinitions(symbols, RangeFromMeta(meta), node)
  {
    var range := RangeFromMeta(meta);
    match alias
    case Some(a) =>
      [AdoptAll(DefinitionFromToken(a, range, EMPTY, IMPORTED, Some(node)),
                ImportedDefinitions(symbols, range, node))]
    case None => ImportedDefinitions(symbols, range, node)
  }

  /** `definitions_from_rule_params`: one rule definition per template
      parameter, spanning the whole rule. */
  function DefinitionsFromRuleParams(params: seq<NameToken>, parent: Definition): (ds: seq<Definition>)
    ensures |ds| == |params|
    ensures forall i | 0 <= i < |ds| ::
      ds[i].name == params[i].value && ds[i].kind == KindOfToken(params[i])
      && ds[i].range == parent.range && ds[i].children == []
  {
    seq(|params|, i requires 0 <= i < |params| =>
      DefinitionFromToken(params[i], parent.range, EMPTY, EMPTY, parent.astNode))
  }

  /** `definitions_from_rule`: the rule's definition (its template parameters
      as children), then one definition per aliased expansion. */
  function DefinitionsFromRule(rule: Node): (ds: seq<Definition>)
    requires rule.RuleNode?
    ensures |ds| == 1 + |AliasNames(rule.expansions)|
    ensures ds[0].name == rule.name.value && ds[0].kind == KindOfToken(rule.name)
    ensures ds[0].modifiers == ModifiersOf(rule.modifiers)
    ensures ds[0].range == RangeFromMeta(rule.meta)
    ensures Total(ds[0].children) == |rule.parameters|
    ensures ds[1..] == DefinitionsFromExpansions(rule.expansions)
  {
    var own := DefinitionFromToken(rule.name, RangeFromMeta(rule.meta), ModifiersOf(rule.modifiers),
                                   EMPTY, Some(rule));
    [AdoptAll(own, DefinitionsFromRuleParams(rule.parameters, own))]
    + DefinitionsFromExpansions(rule.expansions)
  }

  /** `definitions_from_term`: the terminal's definition, then one definition
      per aliased expansion. */
  function DefinitionsFromTerm(term: Node): (ds: seq<Definition>)
    requires term.TermNode?
    ensures |ds| == 1 + |AliasNames(term.expansions)|
    ensures ds[0].name == term.name.value && ds[0].kind == KindOfToken(term.name)
    ensures ds[0].modifiers == ModifiersOf(term.modifiers) && ds[0].children == []
    ensures ds[1..] == DefinitionsFromExpansions(term.expansions)
  {
    [DefinitionFromToken(term.name, RangeFromMeta(term.meta), ModifiersOf(term.modifiers),
                         EMPTY, Some(term))]
    + DefinitionsFromExpansions(term.expansions)
  }

  /** `definitions_from_ast_node`: declarations, imports, rules and terms
      define names; every other node defines none. */
  function DefinitionsFromNode(n: Node): (ds: seq<Definition>)
    ensures !(n.DeclareNode? || n.ImportNode? || n.RuleNode? || n.TermNode?) ==> ds == []
  {
    match n
    case DeclareNode(symbols, meta) => DefinitionsFromDeclare(symbols, meta, n)
    case ImportNode(_, symbols, alias, meta) => DefinitionsFromImport(symbols, alias, meta, n)
    case RuleNode(_, _, _, _, _, _) => DefinitionsFromRule(n)
    case TermNode(_, _, _, _, _) => DefinitionsFromTerm(n)
    case _ => []
  }

  /** The definitions of all statements, statement by statement. */
  function DefinitionsFromStatements(statements: seq<Node>): seq<Definition> {
    if |statements| == 0 then []
    else DefinitionsFromNode(statements[0]) + DefinitionsFromStatements(statements[1..])
  }

  /** A rule's template parameters are children of its definition and never
      top-level definitions of their own, unless an alias reuses the name. */
  lemma RuleParametersAreChildren(rule: Node, i: nat)
    requires rule.RuleNode? && i < |rule.parameters|
    requires rule.parameters[i].value != rule.name.value
    requires rule.parameters[i].value !in AliasNames(rule.expansions)
    ensures forall j | 0 <= j < |DefinitionsFromRule(rule)| ::
      DefinitionsFromRule(rule)[j].name != rule.parameters[i].value
    ensures |Lookup(DefinitionsFromRule(rule)[0].children, rule.parameters[i].value)| > 0
  {
    var ds := DefinitionsFromRule(rule);
    var own := DefinitionFromToken(rule.name, RangeFromMeta(rule.meta), ModifiersOf(rule.modifiers),
                                   EMPTY, Some(rule));
    var params := DefinitionsFromRuleParams(rule.parameters, own);
    var name := rule.parameters[i].value;
    forall j | 0 <= j < |ds| ensures ds[j].name != name {
      if j > 0 {
        assert ds[j] == ds[1..][j - 1];
      }
    }
    AdoptAllLookup(own, params, name);
    SelectFinds(Adopted(params, own.name), DefName, i);
  }

  /** After its own definition, a rule defines exactly its alias names. */
  lemma RuleAliasDefinitionName(rule: Node, j: nat)
    requires rule.RuleNode? && 1 <= j < |DefinitionsFromRule(rule)|
    ensures j - 1 < |AliasNames(rule.expansions)|
    ensures DefinitionsFromRule(rule)[j].name == AliasNames(rule.expansions)[j - 1]
  {
    var ds := DefinitionsFromRule(rule);
    assert ds[j] == ds[1..][j - 1];
  }

  /** The child keys of a rule's definition are its parameter names. */
  lemma RuleChildKey(rule: Node, name: string)
    requires rule.RuleNode? && HasKey(DefinitionsFromRule(rule)[0].children, name)
    ensures exists i | 0 <= i < |rule.parameters| :: rule.parameters[i].value == name
  {
    var own := DefinitionFromToken(rule.name, RangeFromMeta(rule.meta), ModifiersOf(rule.modifiers),
                                   EMPTY, Some(rule));
    var params := DefinitionsFromRuleParams(rule.parameters, own);
    assert DefinitionsFromRule(rule)[0] == AdoptAll(own, params);
    AdoptAllHasKey(own, params, name);
    assert !HasKey(own.children, name);
    var i :| 0 <= i < |params| && params[i].name == name;
    assert rule.parameters[i].value == name;
  }

  /** Selecting by an entry's own key never comes up empty. */
  lemma {:induction false} SelectFinds<T>(xs: seq<T>, key: T -> string, i: nat)
    requires i < |xs|
    ensures |Select(xs, key, key(xs[i]))| > 0
  {
    if i > 0 {
      SelectFinds(xs[1..], key, i - 1);
    }
  }

  /** Every template parameter, whatever its name, is a child of the rule's
      definition that records the rule as its parent. */
  lemma RuleParameterIsChild(rule: Node, i: nat)
    requires rule.RuleNode? && i < |rule.parameters|
    ensures var kids := Lookup(DefinitionsFromRule(rule)[0].children, rule.parameters[i].value);
            |kids| > 0 && forall k | 0 <= k < |kids| :: kids[k].parent == Some(rule.name.value)
  {
    var own := DefinitionFromToken(rule.name, RangeFromMeta(rule.meta), ModifiersOf(rule.modifiers),
                                   EMPTY, Some(rule));
    var params := DefinitionsFromRuleParams(rule.parameters, own);
    var name := rule.parameters[i].value;
    AdoptAllLookup(own, params, name);
    SelectFinds(Adopted(params, own.name), DefName, i);
    SelectAdopted(params, own.name, name);
  }

  /** Every entry selected from adopted children records the parent. */
  lemma {:induction false} SelectAdopted(children: seq<Definition>, parentName: string, name: string)
    ensures var s := Select(Adopted(children, parentName), DefName, name);
            forall k | 0 <= k < |s| :: s[k].parent == Some(parentName)
    decreases |children|
  {
    if |children| > 0 {
      var a := Adopted(children, parentName);
      assert a[1..] == Adopted(children[1..], parentName);
      assert Select(a, DefName, name)
          == (if a[0].name == name then [a[0]] else []) + Select(a[1..], DefName, name);
      SelectAdopted(children[1..], parentName, name);
      var head := if a[0].name == name then [a[0]] else [];
      var s := Select(a, DefName, name);
      forall k | 0 <= k < |s| ensures s[k].parent == Some(parentName) {
        if k < |head| {
          assert s[k] == a[0];
        } else {
          assert s[k] == Select(a[1..], DefName, name)[k - |head|];
        }
      }
    }
  }

  /** Adopting makes a name a key exactly when it already was one or some
      adopted child carries it. */
  lemma {:induction false} AdoptAllHasKey(parent: Definition, children: seq<Definition>, name: string)
    ensures HasKey(AdoptAll(parent, children).children, name)
        <==> HasKey(parent.children, name) || exists i | 0 <= i < |children| :: children[i].name == name
    decreases |children|
  {
    if |children| > 0 {
      var adopted := children[0].(parent := Some(parent.name));
      var p1 := AppendChild(parent, children[0]);
      assert p1.children == Append(parent.children, children[0].name, adopted);
      assert AdoptAll(parent, children) == AdoptAll(p1, children[1..]);
      AppendKeys(parent.children, children[0].name, adopted);
      AdoptAllHasKey(p1, children[1..], name);
      if exists i | 0 <= i < |children[1..]| :: children[1..][i].name == name {
        var i :| 0 <= i < |children[1..]| && children[1..][i].name == name;
        assert children[i + 1].name == name;
      }
      if exists i | 0 <= i < |children| :: children[i].name == name {
        var i :| 0 <= i < |children| && children[i].name == name;
        if i > 0 {
          assert children[1..][i - 1].name == name;
        }
      }
    }
  }

  /** Children whose names are new and pairwise different each add a key. */
  lemma {:induction false} AdoptAllKeyCount(parent: Definition, children: seq<Definition>)
    requires forall i | 0 <= i < |children| :: !HasKey(parent.children, children[i].name)
    requires forall i, j | 0 <= i < j < |children| :: children[i].name != children[j].name
    ensures |AdoptAll(parent, children).children| == |parent.children| + |children|
    decreases |children|
  {
    if |children| > 0 {
      var adopted := children[0].(parent := Some(parent.name));
      var p1 := AppendChild(parent, children[0]);
      assert p1.children == Append(parent.children, children[0].name, adopted);
      assert AdoptAll(parent, children) == AdoptAll(p1, children[1..]);
      AppendKeys(parent.children, children[0].name, adopted);
      assert Keys(p1.children) == Keys(parent.children) + [children[0].name];
      forall i | 0 <= i < |children[1..]| ensures !HasKey(p1.children, children[1..][i].name) {
        assert children[1..][i] == children[i + 1];
      }
      AdoptAllKeyCount(p1, children[1..]);
    }
  }

  /** A rule with pairwise different template parameter names has one
      child key per parameter. */
  lemma RuleChildCount(rule: Node)
    requires rule.RuleNode?
    ensures (forall i, j | 0 <= i < j < |rule.parameters| :: rule.parameters[i].value != rule.parameters[j].value)
            ==> |DefinitionsFromRule(rule)[0].children| == |rule.parameters|
  {
    var own := DefinitionFromToken(rule.name, RangeFromMeta(rule.meta), ModifiersOf(rule.modifiers),
                                   EMPTY, Some(rule));
    var params := DefinitionsFromRuleParams(rule.parameters, own);
    assert DefinitionsFromRule(rule)[0] == AdoptAll(own, params);
    if forall i, j | 0 <= i < j < |rule.parameters| :: rule.parameters[i].value != rule.parameters[j].value {
      AdoptAllKeyCount(own, params);
    }
  }

  /** An aliased import's definition holds the imported symbols as its
      children: its keys are exactly the imported names, each with at least
      one child that records the alias as its parent, and with pairwise
      different names there is one key per symbol. */
  lemma AliasedImportChildren(symbols: seq<NameToken>, alias: NameToken, meta: Meta, node: Node)
    ensures var d := DefinitionsFromImport(symbols, Some(alias), meta, node)[0];
            (forall n :: HasKey(d.children, n) <==> exists i | 0 <= i < |symbols| :: symbols[i].value == n)
            && (forall i | 0 <= i < |symbols| ::
                  |Lookup(d.children, symbols[i].value)| > 0
                  && forall k | 0 <= k < |Lookup(d.children, symbols[i].value)| ::
                       Lookup(d.children, symbols[i].value)[k].parent == Some(alias.value))
            && ((forall i, j | 0 <= i < j < |symbols| :: symbols[i].value != symbols[j].value)
                ==> |d.children| == |symbols|)
  {
    var range := RangeFromMeta(meta);
    var own := DefinitionFromToken(alias, range, EMPTY, IMPORTED, Some(node));
    var kids := ImportedDefinitions(symbols, range, node);
    var d := DefinitionsFromImport(symbols, Some(alias), meta, node)[0];
    assert d == AdoptAll(own, kids);
    forall n ensures HasKey(d.children, n) <==> exists i | 0 <= i < |symbols| :: symbols[i].value == n {
      AdoptAllHasKey(own, kids, n);
      if exists i | 0 <= i < |kids| :: kids[i].name == n {
        var i :| 0 <= i < |kids| && kids[i].name == n;
        assert symbols[i].value == n;
      }
      if exists i | 0 <= i < |symbols| :: symbols[i].value == n {
        var i :| 0 <= i < |symbols| && symbols[i].value == n;
        assert kids[i].name == n;
      }
    }
    forall i | 0 <= i < |symbols|
      ensures |Lookup(d.children, symbols[i].value)| > 0
      ensures forall k | 0 <= k < |Lookup(d.children, symbols[i].value)| ::
                Lookup(d.children, symbols[i].value)[k].parent == Some(alias.value)
    {
      AdoptAllLookup(own, kids, symbols[i].value);
      SelectFinds(Adopted(kids, own.name), DefName, i);
      SelectAdopted(kids, own.name, symbols[i].value);
    }
    if forall i, j | 0 <= i < j < |symbols| :: symbols[i].value != symbols[j].value {
      AdoptAllKeyCount(own, kids);
    }
  }

  // ---------------------------------------------------------------------
  // References

  /** References for a list of name tokens. */
  function TokenReferences(tokens: seq<NameToken>, owner: Option<Node>): (rs: seq<Reference>)
    ensures |rs| == |tokens|
    ensures forall i | 0 <= i < |rs| :: rs[i] == ReferenceFromToken(tokens[i], owner)
  {
    seq(|tokens|, i requires 0 <= i < |tokens| => ReferenceFromToken(tokens[i], owner))
  }

  /** The statement that references inside `n` are anchored to: the one
      supplied, else `n` itself when it is an AST node. */
  function Anchor(n: Node, owner: Option<Node>): Option<Node> {
    if owner.Some? then owner else if IsAstNode(n) then Some(n) else None
  }

  /** The lists of `xss`, concatenated in order. */
  function Flat<T>(xss: seq<seq<T>>): (r: seq<T>)
    ensures |xss| > 0 ==> xss[0] <= r
  {
    if |xss| == 0 then [] else xss[0] + Flat(xss[1..])
  }

  /** `references_from_ast_node(n, ast_node)`. Per variant: a RULE or
      TERMINAL token is one reference and any other token none; a rule gives
      its name, its parameters, then its body; a term its name then its body;
      an expansion its expressions then its alias; an expression its atom; an
      import its symbols then its alias; a declaration its symbols; a
      template usage its rule then its arguments; maybe and ignore their
      expansions; override and extend their definition; a parenthesised
      alternation its options; literals, ranges and comments nothing. Every
      reference is anchored to `owner` when one is given and otherwise to
      the innermost enclosing AST node. */
  function ReferencesFromNode(n: Node, owner: Option<Node>): seq<Reference>
    decreases n
  {
    var a := Anchor(n, owner);
    match n
    case Tok(t) => if IsNameToken(t) then [ReferenceFromToken(t, owner)] else []
    case Lit(_) => []
    case Alternatives(options) =>
      Flat(seq(|options|, i requires 0 <= i < |options| => ReferencesFromNode(options[i], owner)))
    case RuleNode(_, name, params, _, expansions, _) =>
      [ReferenceFromToken(name, a)] + TokenReferences(params, a)
      + Flat(seq(|expansions|, i requires 0 <= i < |expansions| => ReferencesFromNode(expansions[i], a)))
    case TermNode(_, name, _, expansions, _) =>
      [ReferenceFromToken(name, a)]
      + Flat(seq(|expansions|, i requires 0 <= i < |expansions| => ReferencesFromNode(expansions[i], a)))
    case ExpansionNode(expressions, alias, _) =>
      Flat(seq(|expressions|, i requires 0 <= i < |expressions| => ReferencesFromNode(expressions[i], a)))
      + (if alias.Some? then [ReferenceFromToken(alias.value, a)] else [])
    case ExprNode(atom, _, _) => ReferencesFromNode(atom, a)
    case MaybeNode(expansions, _) =>
      Flat(seq(|expansions|, i requires 0 <= i < |expansions| => ReferencesFromNode(expansions[i], a)))
    case TemplateUsageNode(rule, arguments, _) =>
      [ReferenceFromToken(rule, a)]
      + Flat(seq(|arguments|, i requires 0 <= i < |arguments| => ReferencesFromNode(arguments[i], a)))
    case RangeNode(_, _, _) => []
    case DeclareNode(symbols, _) => TokenReferences(symbols, a)
    case ImportNode(_, symbols, alias, _) =>
      TokenReferences(symbols, a) + (if alias.Some? then [ReferenceFromToken(alias.value, a)] else [])
    case OverrideNode(definition, _) => ReferencesFromNode(definition, a)
    case ExtendNode(definition, _) => ReferencesFromNode(definition, a)
    case IgnoreNode(expansions, _) =>
      Flat(seq(|expansions|, i requires 0 <= i < |expansions| => ReferencesFromNode(expansions[i], a)))
    case CommentNode(_, _) => []
  }

  /** The references of all statements, statement by statement, each anchored
      to its own statement. */
  function ReferencesFromStatements(statements: seq<Node>): seq<Reference> {
    if |statements| == 0 then []
    else ReferencesFromNode(statements[0], None) + ReferencesFromStatements(statements[1..])
  }

  /** Everything true of every entry of every list is true of every entry
      of their concatenation. */
  lemma {:induction false} FlatAll<T>(xss: seq<seq<T>>, p: T -> bool)
    requires forall i, x | 0 <= i < |xss| && x in xss[i] :: p(x)
    ensures forall x | x in Flat(xss) :: p(x)
  {
    if |xss| > 0 {
      FlatAll(xss[1..], p);
      assert Flat(xss) == xss[0] + Flat(xss[1..]);
    }
  }

  /** Given an owner, every reference found anywhere below `n` is anchored
      to that owner. */
  lemma {:induction false} ReferencesKeepOwner(n: Node, owner: Option<Node>)
    requires owner.Some?
    ensures forall r | r in ReferencesFromNode(n, owner) :: r.astNode == owner
    decreases n
  {
    var p := (r: Reference) => r.astNode == owner;
    match n
    case Alternatives(options) => ChildrenKeepOwner(n, options, owner, p);
    case RuleNode(_, _, _, _, expansions, _) => ChildrenKeepOwner(n, expansions, owner, p);
    case TermNode(_, _, _, expansions, _) => ChildrenKeepOwner(n, expansions, owner, p);
    case ExpansionNode(expressions, _, _) => ChildrenKeepOwner(n, expressions, owner, p);
    case ExprNode(atom, _, _) => ReferencesKeepOwner(atom, owner);
    case MaybeNode(expansions, _) => ChildrenKeepOwner(n, expansions, owner, p);
    case TemplateUsageNode(_, arguments, _) => ChildrenKeepOwner(n, arguments, owner, p);
    case OverrideNode(definition, _) => ReferencesKeepOwner(definition, owner);
    case ExtendNode(definition, _) => ReferencesKeepOwner(definition, owner);
    case IgnoreNode(expansions, _) => ChildrenKeepOwner(n, expansions, owner, p);
    case _ =>
  }

  /** `ReferencesKeepOwner` for each of `children`, concatenated. */
  lemma {:induction false} ChildrenKeepOwner(n: Node, children: seq<Node>, owner: Option<Node>,
                                             p: Reference -> bool)
    requires owner.Some? && forall c | c in children :: c < n
    requires forall r :: p(r) == (r.astNode == owner)
    ensures forall r | r in Flat(seq(|children|, i requires 0 <= i < |children| =>
                                     ReferencesFromNode(children[i], owner))) :: p(r)
    decreases n, 0
  {
    var xss := seq(|children|, i requires 0 <= i < |children| => ReferencesFromNode(children[i], owner));
    forall i | 0 <= i < |children| ensures forall r | r in xss[i] :: p(r) {
      assert children[i] in children;
      ReferencesKeepOwner(children[i], owner);
    }
    FlatAll(xss, p);
  }

  /** Extracted from a statement with no owner given, every reference is
      anchored to that statement. */
  lemma StatementReferencesAnchored(n: Node)
    requires IsAstNode(n)
    ensures forall r | r in ReferencesFromNode(n, None) :: r.astNode == Some(n)
  {
    var a := Some(n);
    var p := (r: Reference) => r.astNode == a;
    match n
    case RuleNode(_, _, _, _, expansions, _) => ChildrenKeepOwner(n, expansions, a, p);
    case TermNode(_, _, _, expansions, _) => ChildrenKeepOwner(n, expansions, a, p);
    case ExpansionNode(expressions, _, _) => ChildrenKeepOwner(n, expressions, a, p);
    case ExprNode(atom, _, _) => ReferencesKeepOwner(atom, a);
    case MaybeNode(expansions, _) => ChildrenKeepOwner(n, expansions, a, p);
    case TemplateUsageNode(_, arguments, _) => ChildrenKeepOwner(n, arguments, a, p);
    case OverrideNode(definition, _) => ReferencesKeepOwner(definition, a);
    case ExtendNode(definition, _) => ReferencesKeepOwner(definition, a);
    case IgnoreNode(expansions, _) => ChildrenKeepOwner(n, expansions, a, p);
    case _ =>
  }

  /** References with their anchor forgotten. */
  function Unanchored(rs: seq<Reference>): (r: seq<Reference>)
    ensures |r| == |rs|
    ensures forall i | 0 <= i < |r| :: r[i].astNode == None && r[i].name == rs[i].name
                                       && r[i].position == rs[i].position
  {
    seq(|rs|, i requires 0 <= i < |rs| => rs[i].(astNode := None))
  }

  lemma UnanchoredAppend(a: seq<Reference>, b: seq<Reference>)
    ensures Unanchored(a + b) == Unanchored(a) + Unanchored(b)
  {
  }

  /** Lists that agree once unanchored still agree once concatenated. */
  lemma {:induction false} FlatUnanchored(xss: seq<seq<Reference>>, yss: seq<seq<Reference>>)
    requires |xss| == |yss|
    requires forall i | 0 <= i < |xss| :: Unanchored(xss[i]) == Unanchored(yss[i])
    ensures Unanchored(Flat(xss)) == Unanchored(Flat(yss))
  {
    if |xss| > 0 {
      FlatUnanchored(xss[1..], yss[1..]);
      UnanchoredAppend(xss[0], Flat(xss[1..]));
      UnanchoredAppend(yss[0], Flat(yss[1..]));
    }
  }

  /** The owner decides only where references are anchored: which names are
      referenced, where and in what order does not depend on it. */
  lemma {:induction false} OwnerOnlyAnchors(n: Node, o1: Option<Node>, o2: Option<Node>)
    ensures Unanchored(ReferencesFromNode(n, o1)) == Unanchored(ReferencesFromNode(n, o2))
    decreases n, 2
  {
    var a1, a2 := Anchor(n, o1), Anchor(n, o2);
    match n
    case Tok(_) =>
    case Alternatives(options) => ChildrenOnlyAnchors(n, options, o1, o2);
    case RuleNode(_, _, _, _, _, _) => RuleOnlyAnchors(n, o1, o2);
    case TermNode(_, _, _, _, _) => TermOnlyAnchors(n, o1, o2);
    case ExpansionNode(_, _, _) => ExpansionOnlyAnchors(n, o1, o2);
    case ExprNode(atom, _, _) => OwnerOnlyAnchors(atom, a1, a2);
    case MaybeNode(expansions, _) => ChildrenOnlyAnchors(n, expansions, a1, a2);
    case TemplateUsageNode(_, _, _) => TemplateUsageOnlyAnchors(n, o1, o2);
    case DeclareNode(symbols, _) => TokensOnlyAnchors(symbols, a1, a2);
    case ImportNode(_, symbols, alias, _) =>
      TokensOnlyAnchors(symbols, a1, a2);
      UnanchoredAppend(TokenReferences(symbols, a1), if alias.Some? then [ReferenceFromToken(alias.value, a1)] else []);
      UnanchoredAppend(TokenReferences(symbols, a2), if alias.Some? then [ReferenceFromToken(alias.value, a2)] else []);
    case OverrideNode(definition, _) => OwnerOnlyAnchors(definition, a1, a2);
    case ExtendNode(definition, _) => OwnerOnlyAnchors(definition, a1, a2);
    case IgnoreNode(expansions, _) => ChildrenOnlyAnchors(n, expansions, a1, a2);
    case _ =>
  }

  /** A rule's references, unfolded: name, parameters, then the expansions'. */
  lemma RuleReferencesUnfold(n: Node, owner: Option<Node>)
    requires n.RuleNode?
    ensures var a := Anchor(n, owner);
            ReferencesFromNode(n, owner)
            == [ReferenceFromToken(n.name, a)] + TokenReferences(n.parameters, a)
               + Flat(seq(|n.expansions|, i requires 0 <= i < |n.expansions| => ReferencesFromNode(n.expansions[i], a)))
  {
  }

  lemma {:induction false} RuleOnlyAnchors(n: Node, o1: Option<Node>, o2: Option<Node>)
    requires n.RuleNode?
    ensures Unanchored(ReferencesFromNode(n, o1)) == Unanchored(ReferencesFromNode(n, o2))
    decreases n, 1
  {
    var a1, a2 := Anchor(n, o1), Anchor(n, o2);
    var tokens := [n.name] + n.parameters;
    ChildrenOnlyAnchors(n, n.expansions, a1, a2);
    TokensOnlyAnchors(tokens, a1, a2);
    assert TokenReferences(tokens, a1) == [ReferenceFromToken(n.name, a1)] + TokenReferences(n.parameters, a1);
    assert TokenReferences(tokens, a2) == [ReferenceFromToken(n.name, a2)] + TokenReferences(n.parameters, a2);
    RuleReferencesUnfold(n, o1);
    RuleReferencesUnfold(n, o2);
    ThreePartsUnanchored(n, o1, o2, TokenReferences(tokens, a1), TokenReferences(tokens, a2), n.expansions, [], []);
  }

  lemma {:induction false} TermOnlyAnchors(n: Node, o1: Option<Node>, o2: Option<Node>)
    requires n.TermNode?
    ensures Unanchored(ReferencesFromNode(n, o1)) == Unanchored(ReferencesFromNode(n, o2))
    decreases n, 1
  {
    var a1, a2 := Anchor(n, o1), Anchor(n, o2);
    ChildrenOnlyAnchors(n, n.expansions, a1, a2);
    ThreePartsUnanchored(n, o1, o2, [ReferenceFromToken(n.name, a1)], [ReferenceFromToken(n.name, a2)],
      n.expansions, [], []);
  }

  lemma {:induction false} ExpansionOnlyAnchors(n: Node, o1: Option<Node>, o2: Option<Node>)
    requires n.ExpansionNode?
    ensures Unanchored(ReferencesFromNode(n, o1)) == Unanchored(ReferencesFromNode(n, o2))
    decreases n, 1
  {
    var a1, a2 := Anchor(n, o1), Anchor(n, o2);
    ChildrenOnlyAnchors(n, n.expressions, a1, a2);
    ThreePartsUnanchored(n, o1, o2, [], [], n.expressions,
      if n.alias.Some? then [ReferenceFromToken(n.alias.value, a1)] else [],
      if n.alias.Some? then [ReferenceFromToken(n.alias.value, a2)] else []);
  }

  lemma {:induction false} TemplateUsageOnlyAnchors(n: Node, o1: Option<Node>, o2: Option<Node>)
    requires n.TemplateUsageNode?
    ensures Unanchored(ReferencesFromNode(n, o1)) == Unanchored(ReferencesFromNode(n, o2))
    decreases n, 1
  {
    var a1, a2 := Anchor(n, o1), Anchor(n, o2);
    ChildrenOnlyAnchors(n, n.arguments, a1, a2);
    ThreePartsUnanchored(n, o1, o2, [ReferenceFromToken(n.rule, a1)], [ReferenceFromToken(n.rule, a2)],
      n.arguments, [], []);
  }

  lemma TokensOnlyAnchors(tokens: seq<NameToken>, o1: Option<Node>, o2: Option<Node>)
    ensures Unanchored(TokenReferences(tokens, o1)) == Unanchored(TokenReferences(tokens, o2))
  {
  }

  /** A prefix, the children's references and a suffix, each agreeing once
      unanchored, agree once concatenated. */
  lemma ThreePartsUnanchored(n: Node, o1: Option<Node>, o2: Option<Node>,
                             p1: seq<Reference>, p2: seq<Reference>, children: seq<Node>,
                             s1: seq<Reference>, s2: seq<Reference>)
    requires Unanchored(p1) == Unanchored(p2) && Unanchored(s1) == Unanchored(s2)
    requires Unanchored(Flat(seq(|children|, i requires 0 <= i < |children| => ReferencesFromNode(children[i], Anchor(n, o1)))))
          == Unanchored(Flat(seq(|children|, i requires 0 <= i < |children| => ReferencesFromNode(children[i], Anchor(n, o2)))))
    ensures Unanchored(p1 + Flat(seq(|children|, i requires 0 <= i < |children| => ReferencesFromNode(children[i], Anchor(n, o1)))) + s1)
         == Unanchored(p2 + Flat(seq(|children|, i requires 0 <= i < |children| => ReferencesFromNode(children[i], Anchor(n, o2)))) + s2)
  {
    var f1 := Flat(seq(|children|, i requires 0 <= i < |children| => ReferencesFromNode(children[i], Anchor(n, o1))));
    var f2 := Flat(seq(|children|, i requires 0 <= i < |children| => ReferencesFromNode(children[i], Anchor(n, o2))));
    UnanchoredAppend(p1, f1);
    UnanchoredAppend(p2, f2);
    UnanchoredAppend(p1 + f1, s1);
    UnanchoredAppend(p2 + f2, s2);
  }

  /** `OwnerOnlyAnchors` for each of `children`, concatenated. */
  lemma {:induction false} ChildrenOnlyAnchors(n: Node, children: seq<Node>, o1: Option<Node>, o2: Option<Node>)
    requires forall c | c in children :: c < n
    ensures Unanchored(Flat(seq(|children|, i requires 0 <= i < |children| => ReferencesFromNode(children[i], o1))))
         == Unanchored(Flat(seq(|children|, i requires 0 <= i < |children| => ReferencesFromNode(children[i], o2))))
    decreases n, 0
  {
    var xss := seq(|children|, i requires 0 <= i < |children| => ReferencesFromNode(children[i], o1));
    var yss := seq(|children|, i requires 0 <= i < |children| => ReferencesFromNode(children[i], o2));
    forall i | 0 <= i < |children| ensures Unanchored(xss[i]) == Unanchored(yss[i]) {
      assert children[i] in children;
      OwnerOnlyAnchors(children[i], o1, o2);
    }
    FlatUnanchored(xss, yss);
  }
}
