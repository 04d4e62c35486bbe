/** The symbol table (`symbol_table.SymbolTable`): definitions and
    references grouped by name in first-seen order, the errors validation
    registered, and the queries built on them. */
module SymbolTables {
  import opened Wrappers
  import opened Flags
  import opened Errors
  import opened NameMaps
  import opened Nodes
  import opened Symbols
  import opened Extraction
  import opened Validators

  datatype SymbolTable = SymbolTable(
    definitions: NameMap<Definition>,
    references: NameMap<Reference>,
    definitionErrors: seq<DefinitionReport>,
    referenceErrors: seq<ReferenceReport>)

  /** `SymbolTable()`: nothing defined, referenced or reported. */
  const EMPTY_TABLE := SymbolTable([], [], [], [])


  // ---------------------------------------------------------------------
  // Access

  /** `table[name]`: the stored list, or nothing for an unknown name. */
  function GetItem(t: SymbolTable, name: string): (r: Option<seq<Definition>>)
    ensures r.Some? <==> Contains(t, name)
    ensures DistinctKeys(t.definitions) ==>
      forall i | 0 <= i < |t.definitions| :: t.definitions[i].name == name ==> r == Some(t.definitions[i].items)
  {
    forall i | 0 <= i < |t.definitions| && DistinctKeys(t.definitions)
      ensures t.definitions[i].name == name ==> Get(t.definitions, name) == Some(t.definitions[i].items)
    {
      GetDistinct(t.definitions, i);
    }
    Get(t.definitions, name)
  }

  /** `name in table`: the name is a key of the definitions. */
  predicate Contains(t: SymbolTable, name: string) {
    HasKey(t.definitions, name)
  }

  // ---------------------------------------------------------------------
  // Registration

  /** `_register_definition(definition)`: append under the definition's name. */
  function RegisterDefinition(t: SymbolTable, d: Definition): (r: SymbolTable)
    ensures Lookup(r.definitions, d.name) == Lookup(t.definitions, d.name) + [d]
    ensures forall other | other != d.name :: Get(r.definitions, other) == Get(t.definitions, other)
    ensures r.references == t.references
    ensures r.definitionErrors == t.definitionErrors && r.referenceErrors == t.referenceErrors
  {
    AppendLookup(t.definitions, d.name, d);
    forall other | other != d.name
      ensures Get(Append(t.definitions, d.name, d), other) == Get(t.definitions, other)
    {
      AppendOther(t.definitions, d.name, d, other);
    }
    t.(definitions := Append(t.definitions, d.name, d))
  }

  /** `_register_reference(reference)`: append under the reference's name. */
  function RegisterReference(t: SymbolTable, x: Reference): (r: SymbolTable)
    ensures Lookup(r.references, x.name) == Lookup(t.references, x.name) + [x]
    ensures forall other | other != x.name :: Get(r.references, other) == Get(t.references, other)
    ensures r.definitions == t.definitions
    ensures r.definitionErrors == t.definitionErrors && r.referenceErrors == t.referenceErrors
  {
    AppendLookup(t.references, x.name, x);
    forall other | other != x.name
      ensures Get(Append(t.references, x.name, x), other) == Get(t.references, other)
    {
      AppendOther(t.references, x.name, x, other);
    }
    t.(references := Append(t.references, x.name, x))
  }

  /** Registering the same name twice keeps both, the first at index 0 and
      the second at index 1. */
  lemma RegisterTwice(d1: Definition, d2: Definition)
    requires d1.name == d2.name
    ensures Lookup(RegisterDefinition(RegisterDefinition(EMPTY_TABLE, d1), d2).definitions, d1.name) == [d1, d2]
  {
  }

  /** `_register_definition_error(error, definition=None)`. */
  function RegisterDefinitionError(t: SymbolTable, e: SymbolTableError, d: Option<Definition>): (r: SymbolTable)
    ensures r.definitionErrors == t.definitionErrors + [DefinitionReport(e, d)]
    ensures r.definitions == t.definitions && r.references == t.references
    ensures r.referenceErrors == t.referenceErrors
  {
    t.(definitionErrors := t.definitionErrors + [DefinitionReport(e, d)])
  }

  /** `_register_reference_error(error, reference=None, definition=None)`. */
  function RegisterReferenceError(t: SymbolTable, e: SymbolTableError, x: Option<Reference>,
                                  d: Option<Definition>): (r: SymbolTable)
    ensures r.referenceErrors == t.referenceErrors + [ReferenceReport(e, x, d)]
    ensures r.definitions == t.definitions && r.references == t.references
    ensures r.definitionErrors == t.definitionErrors
  {
    t.(referenceErrors := t.referenceErrors + [ReferenceReport(e, x, d)])
  }

  // ---------------------------------------------------------------------
  // Collection

  /** Collecting one list after another is collecting their concatenation. */
  lemma {:induction false} AppendAllConcat<T>(m: NameMap<T>, xs: seq<T>, ys: seq<T>, key: T -> string)
    ensures AppendAll(AppendAll(m, xs, key), ys, key) == AppendAll(m, xs + ys, key)
    decreases |xs|
  {
    if |xs| > 0 {
      AppendAllConcat(Append(m, key(xs[0]), xs[0]), xs[1..], ys, key);
      assert (xs + ys)[0] == xs[0];
      assert (xs + ys)[1..] == xs[1..] + ys;
    } else {
      assert xs + ys == ys;
    }
  }

  /** The collection loop over statements: each statement's definitions,
      in extraction order, appended under their names. */
  function CollectDefinitionsFrom(m: NameMap<Definition>, statements: seq<Node>): (r: NameMap<Definition>)
    ensures r == AppendAll(m, DefinitionsFromStatements(statements), DefName)
    decreases |statements|
  {
    if |statements| == 0 then m
    else
      var m1 := AppendAll(m, DefinitionsFromNode(statements[0]), DefName);
      AppendAllConcat(m, DefinitionsFromNode(statements[0]), DefinitionsFromStatements(statements[1..]), DefName);
      CollectDefinitionsFrom(m1, statements[1..])
  }

  /** The collection loop over statements for references. */
  function CollectReferencesFrom(m: NameMap<Reference>, statements: seq<Node>): (r: NameMap<Reference>)
    ensures r == AppendAll(m, ReferencesFromStatements(statements), RefName)
    decreases |statements|
  {
    if |statements| == 0 then m
    else
      var m1 := AppendAll(m, ReferencesFromNode(statements[0], None), RefName);
      AppendAllConcat(m, ReferencesFromNode(statements[0], None), ReferencesFromStatements(statements[1..]), RefName);
      CollectReferencesFrom(m1, statements[1..])
  }

  /** `collect_definitions(ast)`. */
  function CollectDefinitions(t: SymbolTable, ast: Ast): (r: SymbolTable)
    ensures r.references == t.references
    ensures r.definitionErrors == t.definitionErrors && r.referenceErrors == t.referenceErrors
  {
    t.(definitions := CollectDefinitionsFrom(t.definitions, ast.statements))
  }

  /** `collect_references(ast)`. */
  function CollectReferences(t: SymbolTable, ast: Ast): (r: SymbolTable)
    ensures r.definitions == t.definitions
    ensures r.definitionErrors == t.definitionErrors && r.referenceErrors == t.referenceErrors
  {
    t.(references := CollectReferencesFrom(t.references, ast.statements))
  }

  /** Collection appends to every name's list exactly the extracted
      definitions of that name, in statement order then extraction order;
      nothing stored before is removed or reordered, and the total grows by
      the number extracted. */
  lemma CollectDefinitionsAppends(t: SymbolTable, ast: Ast, name: string)
    ensures Lookup(CollectDefinitions(t, ast).definitions, name)
         == Lookup(t.definitions, name) + Select(DefinitionsFromStatements(ast.statements), DefName, name)
    ensures Keys(t.definitions) <= Keys(CollectDefinitions(t, ast).definitions)
    ensures Total(CollectDefinitions(t, ast).definitions)
         == Total(t.definitions) + |DefinitionsFromStatements(ast.statements)|
  {
    AppendAllLookup(t.definitions, DefinitionsFromStatements(ast.statements), DefName, name);
    AppendAllShape(t.definitions, DefinitionsFromStatements(ast.statements), DefName);
  }

  /** The same for references. */
  lemma CollectReferencesAppends(t: SymbolTable, ast: Ast, name: string)
    ensures Lookup(CollectReferences(t, ast).references, name)
         == Lookup(t.references, name) + Select(ReferencesFromStatements(ast.statements), RefName, name)
    ensures Keys(t.references) <= Keys(CollectReferences(t, ast).references)
    ensures Total(CollectReferences(t, ast).references)
         == Total(t.references) + |ReferencesFromStatements(ast.statements)|
  {
    AppendAllLookup(t.references, ReferencesFromStatements(ast.statements), RefName, name);
    AppendAllShape(t.references, ReferencesFromStatements(ast.statements), RefName);
  }

  /** A table whose keys are distinct, whose lists are non-empty and hold
      only entries of their own name. */
  predicate WellFormed(t: SymbolTable) {
    Keyed(t.definitions, DefName) && DistinctKeys(t.definitions)
    && Keyed(t.references, RefName) && DistinctKeys(t.references)
  }

  /** Collection keeps a table well formed, starting from the empty one. */
  lemma CollectKeepsWellFormed(t: SymbolTable, ast: Ast)
    requires WellFormed(t)
    ensures WellFormed(CollectReferences(CollectDefinitions(t, ast), ast))
  {
    AppendAllKeyed(t.definitions, DefinitionsFromStatements(ast.statements), DefName);
    AppendAllKeyed(t.references, ReferencesFromStatements(ast.statements), RefName);
  }

  lemma EmptyTableWellFormed()
    ensures WellFormed(EMPTY_TABLE)
  {
  }

  // ---------------------------------------------------------------------
  // Queries

  /** A definition followed by every definition nested in its children, in
      order. */
  function WithDescendants(d: Definition): (r: seq<Definition>)
    ensures |r| >= 1 && r[0] == d
    decreases d
  {
    [d] + Flat(seq(|d.children|, i requires 0 <= i < |d.children| =>
                 Flat(seq(|d.children[i].items|, j requires 0 <= j < |d.children[i].items| =>
                        WithDescendants(d.children[i].items[j])))))
  }

  /** Each of `ds` with its nested definitions. */
  function Expanded(ds: seq<Definition>): (r: seq<seq<Definition>>)
    ensures |r| == |ds|
    ensures forall k | 0 <= k < |r| :: r[k] == WithDescendants(ds[k])
  {
    seq(|ds|, k requires 0 <= k < |ds| => WithDescendants(ds[k]))
  }

  /** `get_all_definitions()`: every stored definition, each followed by its
      nested definitions, in key order. */
  function GetAllDefinitions(t: SymbolTable): seq<Definition> {
    Flat(Expanded(Flatten(t.definitions)))
  }

  /** Every stored definition appears in the result. */
  lemma AllDefinitionsContainsStored(t: SymbolTable, i: nat, j: nat)
    requires i < |t.definitions| && j < |t.definitions[i].items|
    ensures t.definitions[i].items[j] in GetAllDefinitions(t)
  {
    var flat := Flatten(t.definitions);
    FlattenContains(t.definitions, i, j);
    var k :| 0 <= k < |flat| && flat[k] == t.definitions[i].items[j];
    var xss := Expanded(flat);
    assert xss[k][0] == flat[k];
    FlatMember(xss, k, 0);
  }

  /** An entry of one of the lists is an entry of their concatenation. */
  lemma {:induction false} FlatMember<T>(xss: seq<seq<T>>, i: nat, j: nat)
    requires i < |xss| && j < |xss[i]|
    ensures xss[i][j] in Flat(xss)
  {
    if i > 0 {
      FlatMember(xss[1..], i - 1, j);
    }
  }

  /** The entries of `ds` of kind `k`, in order. */
  function OfKind(ds: seq<Definition>, k: Kind): (r: seq<Definition>)
    ensures forall d | d in r :: d in ds && d.kind == k
    ensures forall d | d in ds && d.kind == k :: d in r
  {
    if |ds| == 0 then []
    else
      assert forall d | d in ds :: d == ds[0] || d in ds[1..];
      (if ds[0].kind == k then [ds[0]] else []) + OfKind(ds[1..], k)
  }

  /** `get_rule_definitions()`. */
  function GetRuleDefinitions(t: SymbolTable): (r: seq<Definition>)
    ensures forall d | d in r :: d in GetAllDefinitions(t) && d.kind == Kind.Rule
    ensures forall d | d in GetAllDefinitions(t) && d.kind == Kind.Rule :: d in r
  {
    OfKind(GetAllDefinitions(t), Kind.Rule)
  }

  /** `get_terminal_definitions()`. */
  function GetTerminalDefinitions(t: SymbolTable): (r: seq<Definition>)
    ensures forall d | d in r :: d in GetAllDefinitions(t) && d.kind == Terminal
    ensures forall d | d in GetAllDefinitions(t) && d.kind == Terminal :: d in r
  {
    OfKind(GetAllDefinitions(t), Terminal)
  }

  /** Splitting by kind loses and duplicates nothing. */
  lemma {:induction false} OfKindPartition(ds: seq<Definition>)
    ensures |OfKind(ds, Kind.Rule)| + |OfKind(ds, Terminal)| == |ds|
  {
    if |ds| > 0 {
      OfKindPartition(ds[1..]);
    }
  }

  /** Rule and terminal definitions partition all definitions exactly by
      kind. */
  lemma RulesAndTerminalsPartition(t: SymbolTable)
    ensures |GetRuleDefinitions(t)| + |GetTerminalDefinitions(t)| == |GetAllDefinitions(t)|
    ensures forall d | d in GetAllDefinitions(t) ::
      (d in GetRuleDefinitions(t) <==> d.kind == Kind.Rule)
      && (d in GetTerminalDefinitions(t) <==> d.kind == Terminal)
  {
    OfKindPartition(GetAllDefinitions(t));
  }

  /** `get_all_references()`: every stored reference, in key order. */
  function GetAllReferences(t: SymbolTable): (r: seq<Reference>)
    ensures |r| == Total(t.references)
  {
    Flatten(t.references)
  }

  /** Every stored reference appears among all references. */
  lemma AllReferencesContainsStored(t: SymbolTable, i: nat, j: nat)
    requires i < |t.references| && j < |t.references[i].items|
    ensures t.references[i].items[j] in GetAllReferences(t)
  {
    FlattenContains(t.references, i, j);
  }

  /** The definition owning the first reference of `refs` that resolves to
      one: a rule's own definition, or an aliased import's. */
  function OwnerDefinition(refs: seq<Reference>, defs: NameMap<Definition>): (r: Option<Definition>)
    ensures r.Some? ==> exists i | 0 <= i < |refs| ::
      OwnerName(refs[i]).Some? && |Lookup(defs, OwnerName(refs[i]).value)| > 0
      && r.value == Lookup(defs, OwnerName(refs[i]).value)[0]
    ensures r.None? ==> forall i | 0 <= i < |refs| ::
      OwnerName(refs[i]).None? || |Lookup(defs, OwnerName(refs[i]).value)| == 0
  {
    if |refs| == 0 then None
    else
      var owner := OwnerName(refs[0]);
      if owner.Some? && |Lookup(defs, owner.value)| > 0 then Some(Lookup(defs, owner.value)[0])
      else
        var rest := OwnerDefinition(refs[1..], defs);
        assert forall i | 1 <= i < |refs| :: refs[i] == refs[1..][i - 1];
        rest
  }

  /** `get_definition(name)`: the first definition stored under `name`;
      failing that, the definition owning a reference to `name` (the rule
      or aliased import the name is used inside); otherwise nothing. */
  function GetDefinition(t: SymbolTable, name: string): (r: Option<Definition>)
    ensures |Lookup(t.definitions, name)| > 0 ==> r == Some(Lookup(t.definitions, name)[0])
    ensures |Lookup(t.definitions, name)| == 0 ==> r == OwnerDefinition(Lookup(t.references, name), t.definitions)
  {
    var direct := Lookup(t.definitions, name);
    if |direct| > 0 then Some(direct[0]) else OwnerDefinition(Lookup(t.references, name), t.definitions)
  }

  /** A name that is neither defined nor used inside a rule or aliased
      import has no definition. */
  lemma GetDefinitionNoneIff(t: SymbolTable, name: string)
    ensures GetDefinition(t, name).None? <==>
      |Lookup(t.definitions, name)| == 0
      && forall x | x in Lookup(t.references, name) ::
           OwnerName(x).None? || |Lookup(t.definitions, OwnerName(x).value)| == 0
  {
    var refs := Lookup(t.references, name);
    if GetDefinition(t, name).Some? && |Lookup(t.definitions, name)| == 0 {
      var i :| 0 <= i < |refs| && OwnerName(refs[i]).Some? && |Lookup(t.definitions, OwnerName(refs[i]).value)| > 0;
      assert refs[i] in refs;
    }
  }

  // ---------------------------------------------------------------------
  // Validation

  /** One validator call made by `validate_definitions`. */
  datatype DefinitionCheck =
    | SingleCheck(name: string, defs: seq<Definition>)
    | ShadowCheck(def: Definition)

  /** The checks for one stored definition's children: a single-definition
      check per child name, then a shadowing check per child. */
  function ChildChecks(children: NameMap<Definition>): (cs: seq<DefinitionCheck>)
    ensures Singles(cs) == |children|
  {
    if |children| == 0 then []
    else
      var g := children[0];
      var shadows := seq(|g.items|, j requires 0 <= j < |g.items| => ShadowCheck(g.items[j]));
      NoSingles(shadows);
      SinglesAppend([SingleCheck(g.name, g.items)], shadows);
      SinglesAppend([SingleCheck(g.name, g.items)] + shadows, ChildChecks(children[1..]));
      [SingleCheck(g.name, g.items)] + shadows + ChildChecks(children[1..])
  }

  lemma {:induction false} NoSingles(cs: seq<DefinitionCheck>)
    requires forall i | 0 <= i < |cs| :: cs[i].ShadowCheck?
    ensures Singles(cs) == 0
  {
    if |cs| > 0 {
      NoSingles(cs[1..]);
    }
  }

  /** The number of single-definition checks. */
  function Singles(cs: seq<DefinitionCheck>): nat {
    if |cs| == 0 then 0 else (if cs[0].SingleCheck? then 1 else 0) + Singles(cs[1..])
  }

  lemma {:induction false} SinglesAppend(a: seq<DefinitionCheck>, b: seq<DefinitionCheck>)
    ensures Singles(a + b) == Singles(a) + Singles(b)
  {
    if |a| > 0 {
      assert (a + b)[0] == a[0];
      SinglesAppend(a[1..], b);
      assert (a + b)[1..] == a[1..] + b;
    } else {
      assert a + b == b;
    }
  }

  /** The number of child names over a list of definitions. */
  function ChildNameCount(ds: seq<Definition>): nat {
    if |ds| == 0 then 0 else |ds[0].children| + ChildNameCount(ds[1..])
  }

  /** The checks for a list of definitions: their children's checks. */
  function ChildChecksAll(ds: seq<Definition>): (cs: seq<DefinitionCheck>)
    ensures Singles(cs) == ChildNameCount(ds)
  {
    if |ds| == 0 then []
    else
      SinglesAppend(ChildChecks(ds[0].children), ChildChecksAll(ds[1..]));
      ChildChecks(ds[0].children) + ChildChecksAll(ds[1..])
  }

  /** The checks `validate_definitions` makes for the table's groups: each
      name once, then the children of its definitions. */
  function DefinitionChecks(m: NameMap<Definition>): (cs: seq<DefinitionCheck>)
    ensures Singles(cs) == |m| + ChildNameCount(Flatten(m))
  {
    if |m| == 0 then []
    else
      var own := [SingleCheck(m[0].name, m[0].items)] + ChildChecksAll(m[0].items);
      SinglesAppend([SingleCheck(m[0].name, m[0].items)], ChildChecksAll(m[0].items));
      SinglesAppend(own, DefinitionChecks(m[1..]));
      ChildNameCountAppend(m[0].items, Flatten(m[1..]));
      own + DefinitionChecks(m[1..])
  }

  lemma {:induction false} ChildNameCountAppend(a: seq<Definition>, b: seq<Definition>)
    ensures ChildNameCount(a + b) == ChildNameCount(a) + ChildNameCount(b)
  {
    if |a| > 0 {
      assert (a + b)[0] == a[0];
      ChildNameCountAppend(a[1..], b);
      assert (a + b)[1..] == a[1..] + b;
    } else {
      assert a + b == b;
    }
  }

  /** The reports of one check: a shadowing check looks the child's name up
      among the top-level definitions. */
  function CheckReports(c: DefinitionCheck, scope: NameMap<Definition>): seq<DefinitionReport> {
    match c
    case SingleCheck(name, defs) => SingleDefinitionReports(name, defs)
    case ShadowCheck(def) => ShadowedDefinitionReports(def, scope)
  }

  function AllCheckReports(cs: seq<DefinitionCheck>, scope: NameMap<Definition>): seq<DefinitionReport> {
    if |cs| == 0 then [] else CheckReports(cs[0], scope) + AllCheckReports(cs[1..], scope)
  }

  /** `validate_definitions()`: every check runs with the table's own error
      registration as handler, so every report is registered in order. */
  function ValidateDefinitions(t: SymbolTable): (r: SymbolTable)
    ensures r.definitions == t.definitions && r.references == t.references
    ensures r.referenceErrors == t.referenceErrors
    ensures t.definitionErrors <= r.definitionErrors
  {
    t.(definitionErrors := t.definitionErrors + AllCheckReports(DefinitionChecks(t.definitions), t.definitions))
  }

  /** A table in which every name has one definition and nothing has
      children gets no definition errors. */
  lemma UniqueDefinitionsValidate(t: SymbolTable)
    requires forall i | 0 <= i < |t.definitions| ::
      |t.definitions[i].items| == 1 && t.definitions[i].items[0].children == []
    ensures ValidateDefinitions(t).definitionErrors == t.definitionErrors
  {
    UniqueGroupsReportNothing(t.definitions, t.definitions);
  }

  lemma {:induction false} UniqueGroupsReportNothing(m: NameMap<Definition>, scope: NameMap<Definition>)
    requires forall i | 0 <= i < |m| :: |m[i].items| == 1 && m[i].items[0].children == []
    ensures AllCheckReports(DefinitionChecks(m), scope) == []
  {
    if |m| > 0 {
      assert ChildChecksAll(m[0].items) == ChildChecks(m[0].items[0].children) + ChildChecksAll(m[0].items[1..]);
      assert DefinitionChecks(m) == [SingleCheck(m[0].name, m[0].items)] + DefinitionChecks(m[1..]);
      UniqueGroupsReportNothing(m[1..], scope);
    }
  }

  /** The reports of `validate_references()`: one undefined-reference check
      per referenced name, in key order. */
  function ReferenceReports(refs: NameMap<Reference>, defs: NameMap<Definition>): seq<ReferenceReport> {
    if |refs| == 0 then []
    else UndefinedReferenceReports(refs[0].name, refs[0].items, defs) + ReferenceReports(refs[1..], defs)
  }

  /** `validate_references()`. */
  function ValidateReferences(t: SymbolTable): (r: SymbolTable)
    ensures r.definitions == t.definitions && r.references == t.references
    ensures r.definitionErrors == t.definitionErrors
    ensures t.referenceErrors <= r.referenceErrors
  {
    t.(referenceErrors := t.referenceErrors + ReferenceReports(t.references, t.definitions))
  }

  /** When every referenced name is defined, reference validation reports
      nothing. */
  lemma {:induction false} DefinedReferencesReportNothing(refs: NameMap<Reference>, defs: NameMap<Definition>)
    requires forall i | 0 <= i < |refs| :: HasKey(defs, refs[i].name)
    ensures ReferenceReports(refs, defs) == []
  {
    if |refs| > 0 {
      DefinedReferencesReportNothing(refs[1..], defs);
    }
  }

  /** Every report of one undefined-reference check is about a reference
      to that undefined name. */
  lemma UndefinedReportsAbout(name: string, refs: seq<Reference>, defs: NameMap<Definition>)
    ensures forall r | r in UndefinedReferenceReports(name, refs, defs) ::
      r.reference.Some? && r.reference.value in refs && !HasKey(defs, name) && r.definition.None?
  {
    var rs := UndefinedReferenceReports(name, refs, defs);
    var missing := NonLocal(name, refs, defs);
    forall r | r in rs ensures r.reference.Some? && r.reference.value in refs && !HasKey(defs, name) {
      var i :| 0 <= i < |rs| && rs[i] == r;
      assert missing[i] in missing;
    }
  }

  /** Every report of reference validation is about a reference stored
      under a name that has no definition. */
  lemma {:induction false} ReferenceReportsAreUndefined(refs: NameMap<Reference>, defs: NameMap<Definition>)
    ensures forall r | r in ReferenceReports(refs, defs) ::
      r.reference.Some? && r.definition.None?
      && exists i | 0 <= i < |refs| :: r.reference.value in refs[i].items && !HasKey(defs, refs[i].name)
  {
    if |refs| > 0 {
      ReferenceReportsAreUndefined(refs[1..], defs);
      UndefinedReportsAbout(refs[0].name, refs[0].items, defs);
      forall r | r in ReferenceReports(refs, defs)
        ensures r.reference.Some? && r.definition.None?
        ensures exists i | 0 <= i < |refs| :: r.reference.value in refs[i].items && !HasKey(defs, refs[i].name)
      {
        if r in UndefinedReferenceReports(refs[0].name, refs[0].items, defs) {
        } else {
          assert r in ReferenceReports(refs[1..], defs);
          var i :| 0 <= i < |refs[1..]| && r.reference.value in refs[1..][i].items && !HasKey(defs, refs[1..][i].name);
          assert refs[1..][i] == refs[i + 1];
        }
      }
    }
  }
}
