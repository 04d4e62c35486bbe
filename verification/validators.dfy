/** The symbol-table validators (`symbol_table.validators`). Each one turns
    a finding into a report handed to the error handler; without a handler,
    the first report's error is raised instead and validation stops. */
module Validators {
  import opened Wrappers
  import opened Positions
  import opened Errors
  import opened NameMaps
  import opened Nodes
  import opened Symbols
  import Flags
  import Extraction

  /** One `error_handler(error, definition)` call. */
  datatype DefinitionReport = DefinitionReport(error: SymbolTableError, definition: Option<Definition>)

  /** One `error_handler(error, reference, definition)` call. */
  datatype ReferenceReport = ReferenceReport(error: SymbolTableError, reference: Option<Reference>,
                                             definition: Option<Definition>)

  /** What a validation does: hand every report to the handler in order, or
      raise an error. */
  datatype Outcome<T> = Reported(reports: seq<T>) | Raised(error: SymbolTableError)

  /** With a handler every report is delivered; without one the first
      report's error is raised, and a clean validation does nothing. */
  function Deliver<T>(reports: seq<T>, errorOf: T -> SymbolTableError, hasHandler: bool): (o: Outcome<T>)
    ensures hasHandler ==> o == Reported(reports)
    ensures !hasHandler ==> (o.Raised? <==> |reports| > 0)
    ensures o.Raised? ==> o.error == errorOf(reports[0])
    ensures o.Reported? ==> o.reports == reports
  {
    if hasHandler || |reports| == 0 then Reported(reports) else Raised(errorOf(reports[0]))
  }

  function DefinitionError(r: DefinitionReport): SymbolTableError { r.error }
  function ReferenceError(r: ReferenceReport): SymbolTableError { r.error }

  // ---------------------------------------------------------------------
  // Single definition

  /** The text a missing name's not-found error is raised for. */
  function NotFoundPhrase(name: string): string {
    "No definitions found with name '" + name + "'"
  }

  /** The not-found error's text mentions the missing name as
      `No definitions found with name '<name>'`. */
  lemma NotFoundMentionsName(name: string)
    ensures var m := DefinitionNotFoundError(NotFoundPhrase(name), None).message;
            var k := |"Definition for symbol '"|;
            k + |NotFoundPhrase(name)| <= |m| && m[k..k + |NotFoundPhrase(name)|] == NotFoundPhrase(name)
  {
  }

  /** The findings of `validate_single_definition`: a missing name is one
      not-found report with no definition; duplicates report every
      definition after the first, at its selection start. */
  function SingleDefinitionReports(name: string, defs: seq<Definition>): (rs: seq<DefinitionReport>)
    ensures |defs| == 0 ==> |rs| == 1 && rs[0].error.kind == DefinitionNotFound && rs[0].definition.None?
    ensures |defs| == 0 ==> rs[0].error == DefinitionNotFoundError(NotFoundPhrase(name), None)
                            && rs[0].error.name == Some(NotFoundPhrase(name))
    ensures |defs| > 0 ==> |rs| == |defs| - 1
    ensures |defs| > 0 ==> forall i | 0 <= i < |rs| ::
      rs[i].definition == Some(defs[i + 1]) && rs[i].error.kind == MultipleDefinitions
      && rs[i].error.name == Some(name) && rs[i].error.width == |name|
      && rs[i].error.line == defs[i + 1].selectionRange.start.line
      && rs[i].error.column == defs[i + 1].selectionRange.start.column
  {
    if |defs| == 0 then
      [DefinitionReport(DefinitionNotFoundError(NotFoundPhrase(name), None), None)]
    else
      seq(|defs| - 1, i requires 0 <= i < |defs| - 1 =>
        DefinitionReport(MultipleDefinitionsError(name, Some(defs[i + 1].selectionRange.start)),
                         Some(defs[i + 1])))
  }

  /** `validate_single_definition(name, definitions, error_handler)`. */
  function ValidateSingleDefinition(name: string, defs: seq<Definition>, hasHandler: bool)
    : (o: Outcome<DefinitionReport>)
    ensures o == Reported([]) <==> |defs| == 1
    ensures hasHandler ==> o.Reported?
    ensures !hasHandler && |defs| != 1 ==> o.Raised?
    ensures o.Raised? && |defs| == 0 ==>
      o.error.kind == DefinitionNotFound && o.error.name == Some(NotFoundPhrase(name))
      && o.error.message == "Definition for symbol '" + NotFoundPhrase(name) + "' not found."
    ensures o.Raised? && |defs| > 1 ==>
      o.error.kind == MultipleDefinitions && o.error.name == Some(name)
      && o.error.line == defs[1].selectionRange.start.line
      && o.error.column == defs[1].selectionRange.start.column
    ensures o.Reported? ==> o.reports == SingleDefinitionReports(name, defs)
  {
    Deliver(SingleDefinitionReports(name, defs), DefinitionError, hasHandler)
  }

  /** A name passes exactly when it has one definition, and the first
      definition is never the one blamed. */
  lemma SingleDefinitionIffUnique(name: string, defs: seq<Definition>, hasHandler: bool)
    ensures ValidateSingleDefinition(name, defs, hasHandler) == Reported([]) <==> |defs| == 1
    ensures forall r | r in SingleDefinitionReports(name, defs) ::
      r.definition.Some? ==> r.definition.value in defs[1..]
  {
    var rs := SingleDefinitionReports(name, defs);
    forall r | r in rs ensures r.definition.Some? ==> r.definition.value in defs[1..] {
      var i :| 0 <= i < |rs| && rs[i] == r;
      if |defs| > 0 {
        assert defs[1..][i] == defs[i + 1];
      }
    }
  }

  // ---------------------------------------------------------------------
  // Shadowing

  /** The findings of `validate_shadowed_definition`: one report, carrying
      the definition, when its name is already taken in `scope`. */
  function ShadowedDefinitionReports(def: Definition, scope: NameMap<Definition>): (rs: seq<DefinitionReport>)
    ensures |rs| <= 1
    ensures forall r | r in rs :: r.definition == Some(def) && r.error.kind == ShadowedDefinition
  {
    if HasKey(scope, def.name)
    then [DefinitionReport(ShadowedDefinitionError(def.name, Some(def.selectionRange.start)), Some(def))]
    else []
  }

  /** `validate_shadowed_definition(definition, definitions, error_handler)`. */
  function ValidateShadowedDefinition(def: Definition, scope: NameMap<Definition>, hasHandler: bool)
    : (o: Outcome<DefinitionReport>)
    ensures o != Reported([]) <==> HasKey(scope, def.name)
    ensures hasHandler ==> o.Reported?
    ensures o.Raised? ==> o.error.kind == ShadowedDefinition && o.error.width == |def.name|
    ensures o.Reported? ==> forall r | r in o.reports :: r.definition == Some(def)
  {
    Deliver(ShadowedDefinitionReports(def, scope), DefinitionError, hasHandler)
  }

  /** A definition is flagged exactly when its name is already in scope. */
  lemma ShadowedIffInScope(def: Definition, scope: NameMap<Definition>, hasHandler: bool)
    ensures ValidateShadowedDefinition(def, scope, hasHandler) != Reported([])
            <==> HasKey(scope, def.name)
    ensures !hasHandler ==> (ValidateShadowedDefinition(def, scope, hasHandler).Raised?
                             <==> HasKey(scope, def.name))
  {
  }

  // ---------------------------------------------------------------------
  // Undefined references

  /** The name of the definition that encloses a reference: the rule's name
      for a reference inside a rule, the alias for one inside an aliased
      import, nothing otherwise. */
  function OwnerName(ref: Reference): Option<string> {
    match ref.astNode
    case Some(RuleNode(_, name, _, _, _, _)) => Some(name.value)
    case Some(ImportNode(_, _, Some(alias), _)) => Some(alias.value)
    case _ => None
  }

  /** `_reference_is_in_local_scope(name, reference, definitions)`: the
      reference lies inside its enclosing definition's range, or `name` is
      one of that definition's children. The enclosing definition is the
      first one stored under the owner's name; when there is none the
      reference is not local. */
  predicate ReferenceIsInLocalScope(name: string, ref: Reference, defs: NameMap<Definition>) {
    OwnerName(ref).Some? && |Lookup(defs, OwnerName(ref).value)| > 0
    && var owner := Lookup(defs, OwnerName(ref).value)[0];
       Contains(owner.range, ref.position) || HasKey(owner.children, name)
  }

  /** The references that are not local, in order. */
  function NonLocal(name: string, refs: seq<Reference>, defs: NameMap<Definition>): (r: seq<Reference>)
    ensures |r| <= |refs|
    ensures forall x | x in r :: x in refs && !ReferenceIsInLocalScope(name, x, defs)
    ensures forall x | x in refs && !ReferenceIsInLocalScope(name, x, defs) :: x in r
  {
    if |refs| == 0 then []
    else
      var rest := NonLocal(name, refs[1..], defs);
      assert forall x | x in refs :: x == refs[0] || x in refs[1..];
      if ReferenceIsInLocalScope(name, refs[0], defs) then rest else [refs[0]] + rest
  }

  /** The findings of `validate_undefined_reference`: nothing when `name`
      is defined; otherwise one report per non-local reference, in order,
      at the reference's position, with no definition. */
  function UndefinedReferenceReports(name: string, refs: seq<Reference>, defs: NameMap<Definition>)
    : (rs: seq<ReferenceReport>)
    ensures HasKey(defs, name) ==> rs == []
    ensures !HasKey(defs, name) ==> |rs| == |NonLocal(name, refs, defs)|
    ensures forall i | 0 <= i < |rs| ::
      rs[i].reference == Some(NonLocal(name, refs, defs)[i]) && rs[i].definition.None?
      && rs[i].error.kind == DefinitionNotFoundForReference
      && rs[i].error.line == NonLocal(name, refs, defs)[i].position.line
      && rs[i].error.column == NonLocal(name, refs, defs)[i].position.column
  {
    if HasKey(defs, name) then []
    else
      var missing := NonLocal(name, refs, defs);
      seq(|missing|, i requires 0 <= i < |missing| =>
        ReferenceReport(DefinitionNotFoundForReferenceError(name, Some(missing[i].position)),
                        Some(missing[i]), None))
  }

  /** `validate_undefined_reference(name, references, definitions, error_handler)`. */
  function ValidateUndefinedReference(name: string, refs: seq<Reference>, defs: NameMap<Definition>,
                                      hasHandler: bool): (o: Outcome<ReferenceReport>)
    ensures HasKey(defs, name) ==> o == Reported([])
    ensures hasHandler ==> o.Reported?
    ensures !hasHandler ==> (o.Raised? <==> !HasKey(defs, name) && |NonLocal(name, refs, defs)| > 0)
    ensures o.Raised? ==> o.error.kind == DefinitionNotFoundForReference
                          && o.error.line == NonLocal(name, refs, defs)[0].position.line
    ensures o.Reported? ==> o.reports == UndefinedReferenceReports(name, refs, defs)
  {
    Deliver(UndefinedReferenceReports(name, refs, defs), ReferenceError, hasHandler)
  }

  /** A reference is reported exactly when its name is undefined and it is
      not local. */
  lemma ReportedIffUndefinedAndNotLocal(name: string, refs: seq<Reference>, defs: NameMap<Definition>,
                                        ref: Reference)
    requires ref in refs
    ensures (exists i | 0 <= i < |UndefinedReferenceReports(name, refs, defs)| ::
               UndefinedReferenceReports(name, refs, defs)[i].reference == Some(ref))
            <==> !HasKey(defs, name) && !ReferenceIsInLocalScope(name, ref, defs)
  {
    var rs := UndefinedReferenceReports(name, refs, defs);
    var missing := NonLocal(name, refs, defs);
    if !HasKey(defs, name) && !ReferenceIsInLocalScope(name, ref, defs) {
      var i :| 0 <= i < |missing| && missing[i] == ref;
      assert rs[i].reference == Some(ref);
    }
    if exists i | 0 <= i < |rs| :: rs[i].reference == Some(ref) {
      var i :| 0 <= i < |rs| && rs[i].reference == Some(ref);
      assert missing[i] in missing;
    }
  }

  /** A template parameter used inside its own rule is local once the rule's
      own definition is the first one under its name: extraction made the
      parameter one of that definition's children. */
  lemma TemplateParameterIsLocal(rule: Node, i: nat, ref: Reference, defs: NameMap<Definition>)
    requires rule.RuleNode? && i < |rule.parameters|
    requires ref.astNode == Some(rule)
    requires |Lookup(defs, rule.name.value)| > 0
    requires Lookup(defs, rule.name.value)[0] == Extraction.DefinitionsFromRule(rule)[0]
    ensures ReferenceIsInLocalScope(rule.parameters[i].value, ref, defs)
  {
    var own := DefinitionFromToken(rule.name, RangeFromMeta(rule.meta), Flags.ModifiersOf(rule.modifiers),
                                   Flags.EMPTY, Some(rule));
    var params := Extraction.DefinitionsFromRuleParams(rule.parameters, own);
    var name := rule.parameters[i].value;
    Extraction.AdoptAllLookup(own, params, name);
    Extraction.SelectFinds(Extraction.Adopted(params, own.name), DefName, i);
    assert |Lookup(Extraction.DefinitionsFromRule(rule)[0].children, name)| > 0;
  }

  /** Inside a rule whose range covers the use, every reference anchored to
      that rule is local, defined or not. */
  lemma InsideRuleRangeIsLocal(name: string, ref: Reference, defs: NameMap<Definition>)
    requires ref.astNode.Some? && ref.astNode.value.RuleNode?
    requires |Lookup(defs, ref.astNode.value.name.value)| > 0
    requires Contains(Lookup(defs, ref.astNode.value.name.value)[0].range, ref.position)
    ensures ReferenceIsInLocalScope(name, ref, defs)
    ensures !HasKey(defs, name) ==> UndefinedReferenceReports(name, [ref], defs) == []
  {
    assert NonLocal(name, [ref], defs) == [];
  }
}
