/** What `references_from_ast_node` finds, variant by variant, and how it
    relates to what `definitions_from_ast_node` defines: every name a
    statement defines is also one of its references. */
module ReferenceOrder {
  import opened Wrappers
  import opened Lark
  import opened NameMaps
  import opened Nodes
  import opened Symbols
  import opened Extraction
  import Positions
  import Flags

  /** The references of `children`, each extracted with anchor `a`, in order. */
  function ChildReferences(children: seq<Node>, a: Option<Node>): seq<Reference> {
    Flat(seq(|children|, i requires 0 <= i < |children| => ReferencesFromNode(children[i], a)))
  }

  /** Some reference of `rs` is to `name`. */
  predicate Mentions(rs: seq<Reference>, name: string) {
    exists k | 0 <= k < |rs| :: rs[k].name == name
  }

  lemma MentionsAppend(xs: seq<Reference>, ys: seq<Reference>, name: string)
    ensures Mentions(xs, name) ==> Mentions(xs + ys, name)
    ensures Mentions(ys, name) ==> Mentions(xs + ys, name)
  {
    if Mentions(ys, name) {
      var k :| 0 <= k < |ys| && ys[k].name == name;
      assert (xs + ys)[|xs| + k] == ys[k];
    }
    if Mentions(xs, name) {
      var k :| 0 <= k < |xs| && xs[k].name == name;
      assert (xs + ys)[k] == xs[k];
    }
  }

  /** The first child's references come first, then the rest's. */
  lemma ChildReferencesCons(children: seq<Node>, a: Option<Node>)
    requires |children| > 0
    ensures ChildReferences(children, a)
         == ReferencesFromNode(children[0], a) + ChildReferences(children[1..], a)
  {
    var xss := seq(|children|, i requires 0 <= i < |children| => ReferencesFromNode(children[i], a));
    assert xss[1..] == seq(|children[1..]|, i requires 0 <= i < |children[1..]| =>
                             ReferencesFromNode(children[1..][i], a));
  }

  /** Children that are all literals reference nothing. */
  lemma {:induction false} LiteralChildrenReferenceNothing(children: seq<Node>, a: Option<Node>)
    requires forall i | 0 <= i < |children| :: children[i].Lit?
    ensures ChildReferences(children, a) == []
    decreases |children|
  {
    if |children| > 0 {
      ChildReferencesCons(children, a);
      LiteralChildrenReferenceNothing(children[1..], a);
    }
  }

  /** A token is one reference, to its own text, exactly when it names a
      rule or a terminal; literals, ranges and comments reference nothing. */
  lemma LeafReferences(n: Node, owner: Option<Node>)
    ensures n.Tok? ==> |ReferencesFromNode(n, owner)|
                       == (if n.token.kind == "RULE" || n.token.kind == "TERMINAL" then 1 else 0)
    ensures n.Tok? && |ReferencesFromNode(n, owner)| == 1 ==>
              ReferencesFromNode(n, owner)[0].name == n.token.value
    ensures n.Lit? || n.RangeNode? || n.CommentNode? ==> ReferencesFromNode(n, owner) == []
  {
  }

  /** A rule references its name, then its parameters in order, then what
      its expansions reference. */
  lemma RuleReferences(n: Node, owner: Option<Node>)
    requires n.RuleNode?
    ensures var rs := ReferencesFromNode(n, owner);
            |rs| >= 1 + |n.parameters| && rs[0].name == n.name.value
            && (forall i | 0 <= i < |n.parameters| :: rs[1 + i].name == n.parameters[i].value)
            && rs[1 + |n.parameters|..] == ChildReferences(n.expansions, Anchor(n, owner))
  {
    var a := Anchor(n, owner);
    var rs := ReferencesFromNode(n, owner);
    var head := [ReferenceFromToken(n.name, a)] + TokenReferences(n.parameters, a);
    RuleReferencesUnfold(n, owner);
    assert rs == head + ChildReferences(n.expansions, a);
    assert |head| == 1 + |n.parameters|;
    forall i | 0 <= i < |n.parameters| ensures rs[1 + i].name == n.parameters[i].value {
      assert rs[1 + i] == head[1 + i] == TokenReferences(n.parameters, a)[i];
    }
  }

  /** An expansion references what its expressions reference, then its
      alias when it has one. */
  lemma ExpansionReferences(n: Node, owner: Option<Node>)
    requires n.ExpansionNode?
    ensures var rs := ReferencesFromNode(n, owner);
            var body := ChildReferences(n.expressions, Anchor(n, owner));
            body <= rs
            && (n.alias.None? ==> rs == body)
            && (n.alias.Some? ==> |rs| == |body| + 1 && rs[|body|].name == n.alias.value.value)
  {
  }

  /** An import references its symbols in order, then its alias when it has
      one, and nothing else. */
  lemma ImportReferences(n: Node, owner: Option<Node>)
    requires n.ImportNode?
    ensures var rs := ReferencesFromNode(n, owner);
            |rs| == |n.symbols| + (if n.alias.Some? then 1 else 0)
            && (forall i | 0 <= i < |n.symbols| :: rs[i].name == n.symbols[i].value)
            && (n.alias.Some? ==> rs[|n.symbols|].name == n.alias.value.value)
  {
  }

  /** A template usage references the template, then what its arguments
      reference; literal arguments add nothing. */
  lemma TemplateUsageReferences(n: Node, owner: Option<Node>)
    requires n.TemplateUsageNode?
    ensures var rs := ReferencesFromNode(n, owner);
            |rs| >= 1 && rs[0].name == n.rule.value
            && rs[1..] == ChildReferences(n.arguments, Anchor(n, owner))
            && ((forall i | 0 <= i < |n.arguments| :: n.arguments[i].Lit?) ==> |rs| == 1)
  {
    if forall i | 0 <= i < |n.arguments| :: n.arguments[i].Lit? {
      LiteralChildrenReferenceNothing(n.arguments, Anchor(n, owner));
    }
  }

  /** Every alias name among `expansions` is referenced by them. */
  lemma {:induction false} AliasNameReferenced(expansions: seq<Node>, a: Option<Node>, j: nat)
    requires j < |AliasNames(expansions)|
    ensures Mentions(ChildReferences(expansions, a), AliasNames(expansions)[j])
    decreases |expansions|
  {
    var e := expansions[0];
    var head := if IsAliased(e) then [e.alias.value.value] else [];
    assert AliasNames(expansions) == head + AliasNames(expansions[1..]);
    ChildReferencesCons(expansions, a);
    var first := ReferencesFromNode(e, a);
    var rest := ChildReferences(expansions[1..], a);
    if j < |head| {
      ExpansionReferences(e, a);
      assert first[|first| - 1].name == e.alias.value.value;
      assert Mentions(first, AliasNames(expansions)[j]);
      MentionsAppend(first, rest, AliasNames(expansions)[j]);
    } else {
      AliasNameReferenced(expansions[1..], a, j - |head|);
      MentionsAppend(first, rest, AliasNames(expansions)[j]);
    }
  }

  /** The names a statement defines, at top level or as children, are all
      among the names it references. */
  lemma DefinedNamesReferenced(n: Node)
    ensures forall j | 0 <= j < |DefinitionsFromNode(n)| ::
              Mentions(ReferencesFromNode(n, None), DefinitionsFromNode(n)[j].name)
    ensures forall j, name | 0 <= j < |DefinitionsFromNode(n)| && HasKey(DefinitionsFromNode(n)[j].children, name) ::
              Mentions(ReferencesFromNode(n, None), name)
  {
    match n
    case DeclareNode(_, _) => DeclareNamesReferenced(n);
    case ImportNode(_, _, _, _) => ImportNamesReferenced(n);
    case RuleNode(_, _, _, _, _, _) => RuleNamesReferenced(n);
    case TermNode(_, _, _, _, _) => TermNamesReferenced(n);
    case _ =>
  }

  lemma DeclareNamesReferenced(n: Node)
    requires n.DeclareNode?
    ensures forall j | 0 <= j < |DefinitionsFromNode(n)| ::
              Mentions(ReferencesFromNode(n, None), DefinitionsFromNode(n)[j].name)
    ensures forall j, name | 0 <= j < |DefinitionsFromNode(n)| && HasKey(DefinitionsFromNode(n)[j].children, name) ::
              Mentions(ReferencesFromNode(n, None), name)
  {
    var ds := DefinitionsFromNode(n);
    var rs := ReferencesFromNode(n, None);
    forall j | 0 <= j < |ds| ensures Mentions(rs, ds[j].name) {
      assert rs[j].name == ds[j].name;
    }
  }

  lemma ImportNamesReferenced(n: Node)
    requires n.ImportNode?
    ensures forall j | 0 <= j < |DefinitionsFromNode(n)| ::
              Mentions(ReferencesFromNode(n, None), DefinitionsFromNode(n)[j].name)
    ensures forall j, name | 0 <= j < |DefinitionsFromNode(n)| && HasKey(DefinitionsFromNode(n)[j].children, name) ::
              Mentions(ReferencesFromNode(n, None), name)
  {
    var ds := DefinitionsFromNode(n);
    var rs := ReferencesFromNode(n, None);
    ImportReferences(n, None);
    if n.alias.Some? {
      assert rs[|n.symbols|].name == ds[0].name;
      AliasedImportChildren(n.symbols, n.alias.value, n.meta, n);
      forall name | HasKey(ds[0].children, name) ensures Mentions(rs, name) {
        var i :| 0 <= i < |n.symbols| && n.symbols[i].value == name;
        assert rs[i].name == name;
      }
    } else {
      forall j | 0 <= j < |ds| ensures Mentions(rs, ds[j].name) {
        assert rs[j].name == ds[j].name;
      }
    }
  }

  lemma RuleNamesReferenced(n: Node)
    requires n.RuleNode?
    ensures forall j | 0 <= j < |DefinitionsFromNode(n)| ::
              Mentions(ReferencesFromNode(n, None), DefinitionsFromNode(n)[j].name)
    ensures forall j, name | 0 <= j < |DefinitionsFromNode(n)| && HasKey(DefinitionsFromNode(n)[j].children, name) ::
              Mentions(ReferencesFromNode(n, None), name)
  {
    RuleTopNamesReferenced(n);
    RuleChildNamesReferenced(n);
    var ds := DefinitionsFromRule(n);
    forall j | 1 <= j < |ds| ensures ds[j].children == [] {
      assert ds[j] == ds[1..][j - 1];
    }
  }

  lemma RuleTopNamesReferenced(n: Node)
    requires n.RuleNode?
    ensures forall j | 0 <= j < |DefinitionsFromRule(n)| ::
              Mentions(ReferencesFromNode(n, None), DefinitionsFromRule(n)[j].name)
  {
    var ds := DefinitionsFromRule(n);
    var rs := ReferencesFromNode(n, None);
    var a := Anchor(n, None);
    var prefix := rs[..1 + |n.parameters|];
    var body := ChildReferences(n.expansions, a);
    RuleReferences(n, None);
    assert rs == prefix + body;
    assert Mentions(rs, ds[0].name) by {
      assert rs[0].name == ds[0].name;
    }
    forall j | 1 <= j < |ds| ensures Mentions(rs, ds[j].name) {
      RuleAliasDefinitionName(n, j);
      AliasReferencedAfter(n.expansions, a, j - 1, prefix);
    }
  }

  lemma AliasReferencedAfter(expansions: seq<Node>, a: Option<Node>, k: nat, prefix: seq<Reference>)
    requires k < |AliasNames(expansions)|
    ensures Mentions(prefix + ChildReferences(expansions, a), AliasNames(expansions)[k])
  {
    AliasNameReferenced(expansions, a, k);
    MentionsAppend(prefix, ChildReferences(expansions, a), AliasNames(expansions)[k]);
  }

  lemma RuleChildNamesReferenced(n: Node)
    requires n.RuleNode?
    ensures forall name | HasKey(DefinitionsFromRule(n)[0].children, name) ::
              Mentions(ReferencesFromNode(n, None), name)
  {
    var rs := ReferencesFromNode(n, None);
    RuleReferences(n, None);
    forall name | HasKey(DefinitionsFromRule(n)[0].children, name) ensures Mentions(rs, name) {
      RuleChildKey(n, name);
      var i :| 0 <= i < |n.parameters| && n.parameters[i].value == name;
      assert rs[1 + i].name == name;
    }
  }

  lemma TermNamesReferenced(n: Node)
    requires n.TermNode?
    ensures forall j | 0 <= j < |DefinitionsFromNode(n)| ::
              Mentions(ReferencesFromNode(n, None), DefinitionsFromNode(n)[j].name)
    ensures forall j, name | 0 <= j < |DefinitionsFromNode(n)| && HasKey(DefinitionsFromNode(n)[j].children, name) ::
              Mentions(ReferencesFromNode(n, None), name)
  {
    var ds := DefinitionsFromNode(n);
    var rs := ReferencesFromNode(n, None);
    var a := Anchor(n, None);
    var head := [ReferenceFromToken(n.name, a)];
    assert rs == head + ChildReferences(n.expansions, a);
    assert rs[0].name == ds[0].name;
    forall j | 1 <= j < |ds| ensures Mentions(rs, ds[j].name) {
      assert ds[j] == ds[1..][j - 1];
      AliasNameReferenced(n.expansions, a, j - 1);
      MentionsAppend(head, ChildReferences(n.expansions, a), ds[j].name);
    }
    forall j | 1 <= j < |ds| ensures ds[j].children == [] {
      assert ds[j] == ds[1..][j - 1];
    }
  }
}
