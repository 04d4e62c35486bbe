# Lark grammar language server: semantic core in Dafny

This project models the semantic-analysis core of `lark-parser-language-server`, a language server for Lark grammar files. The parser turns a grammar into a typed AST (`Rule`, `Term`, `Expansion`, `Import`, …). Over that AST the server:

- extracts the **definitions** each statement introduces and the **references** it makes;
- groups both by name in a **symbol table**;
- runs three **validators**: duplicate definitions, template parameters that shadow a global name, and undefined references outside a rule's local scope;
- can **format** the AST back to grammar text.

The model also covers the document-level helpers of `LarkDocument`: the word under the cursor, diagnostic placement, parse-error conversion, reference discovery in the raw parse tree and the undefined-reference diagnostics.

Modules, in dependency order:

| module | file | models |
|---|---|---|
| `Wrappers` | wrappers.dfy | `Option` / `Result` |
| `Text` | text.dfy | `join`, `strip`, `isupper`, `isalnum`, `str(int)`, `int(str)` |
| `Lark` | lark.dfy | tokens, node metadata and raw parse trees of the Lark library |
| `Utils` | utils.dfy | `utils.get_tokens` |
| `Flags` | flags.dfy | `Kind`, `Modifiers`, `Directives` |
| `Positions` | positions.dfy | `Position`, `Range`, containment |
| `Errors` | errors.dfy | the symbol-table error family |
| `Nodes` | nodes.dfy | AST node construction |
| `AstBuilder` | astbuilder.dfy | the transformer's leaf callbacks |
| `NameMaps` | namemaps.dfy | insertion-ordered `dict[str, list[T]]` |
| `Symbols` | symbols.dfy | `Definition`, `Reference` |
| `Extraction` | extraction.dfy | `definitions_from_*`, `references_from_*` |
| `ReferenceOrder` | referenceorder.dfy | what `references_from_ast_node` finds per variant, and its agreement with `definitions_from_ast_node` |
| `Validators` | validators.dfy | the three validators and local scope |
| `SymbolTables` | symboltable.dfy | `SymbolTable` |
| `Formatter` | formatter.dfy | `formatter` |
| `Document` | document.dfy | the self-contained helpers of `LarkDocument` |

Modelling choices:

- **Dictionaries.** A Python dict of lists is an association list of `Group`s with distinct keys. Key order is insertion order, so error order and flattening order follow the program.
- **Flags.** The flag enumerations are `bv8` masks, and `flag in flags` is `flags & flag == flag`.
- **Error handlers.** A validator with an `error_handler` returns every report in order. One without a handler raises the first report's error: the `Outcome` datatype covers both.
- **Symbol-table validation.** `validate_definitions` is a list of validator calls plus the reports they produce. `validate_references` is one undefined-reference check per referenced name.
- **Statement anchors.** Every reference carries the statement it occurs in (`astNode`), and that anchor drives local-scope resolution. A rule's own definition spans the whole rule, so a reference inside a rule's range is local (`Validators.InsideRuleRangeIsLocal`). A template parameter is local to its rule because extraction made it a child of the rule's definition (`Validators.TemplateParameterIsLocal`).

The implementation modules `symbol_table/symbol.py`, `symbol_table/validators.py`, `symbol_table/errors.py`, `symbol_table/flags.py`, `symbol_table/syntax_tree.py`, `syntax_tree/nodes.py`, `syntax_tree/__init__.py` and `formatter.py` are modelled from their tests: their behaviour is taken from the assertions of their test files, which the source column cites. `symbol_table/__init__.py`, `document.py` and `utils.py` are modelled from their code.

## Model

| member | source | states |
|---|---|---|
| Utils.Flatten | src/lark_parser_language_server/utils.py:4-16 | the flattener never yields a subtree, only the leaves below it; with placeholders off it never yields `None` |
| Utils.FlattenAppend | src/lark_parser_language_server/utils.py:5-10 | leaves are yielded depth first, left to right: flattening distributes over concatenation of siblings |
| Utils.PlaceholdersOnlyDifference | src/lark_parser_language_server/utils.py:7-16 | the output without placeholders is exactly the output with them minus the `None`s, so the flag is passed into every recursive call |
| Utils.FlattenShallow | src/lark_parser_language_server/utils.py:4-13 | children that are neither subtrees nor dropped placeholders are yielded as they are, each once |
| Utils.CollectTokens | src/lark_parser_language_server/utils.py:4-16 | a work-list walk with no recursion yields the same sequence as the recursive generator |
| Text.ParseIntRoundTrip | tests/test_syntax_tree.py:78-89 | `int(str(n)) == n` for every integer, the fact the priority callback and the formatter's `.priority` rely on |
| Text.UpperNameIffConvention | tests/test_symbol_table_errors.py:317-338 | `isupper` holds exactly when the name equals its upper-case form and contains a letter |
| Text.StripIdempotent | tests/test_formatter.py:858-873 | stripping a statement rendering twice is stripping it once |
| Flags.Kind.Value | tests/test_symbol_table_flags.py:83-86 | `Kind.RULE` is `"rule"` and `Kind.TERMINAL` is `"terminal"` |
| Flags.UnionContainsConstituents | tests/test_symbol_table_flags.py:34-61 | a union of flag sets contains a single flag exactly when one of its parts does |
| Flags.FromChar | tests/test_symbol_table_flags.py:166-185 | `_`, `?`, `!` map to single modifiers and every other string to the empty set |
| Flags.ToChar | tests/test_symbol_table_flags.py:187-203 | a single modifier gives a one-character glyph; the empty set and combinations give `""` |
| Flags.GlyphRoundTrip | tests/test_symbol_table_flags.py:205-211 | `to_char(from_char(c)) == c` for the three glyphs |
| Flags.ModifierRoundTrip | tests/test_symbol_table_flags.py:213-227 | `from_char(to_char(m)) == m` for the three single modifiers |
| Flags.ModifiersOf | tests/test_symbol_table_syntax_tree.py:1271-1300 | the accumulated modifiers contain INLINED, CONDITIONALLY_INLINED and PINNED exactly when `_`, `?` and `!` occur, and nothing else |
| Positions.ZeroBased | tests/test_symbol_table_symbol.py:79-88 | a 1-based coordinate loses one; a missing one becomes 0 |
| Positions.PositionFromToken | tests/test_symbol_table_symbol.py:35-44 | the line and (without cleaning) the column are the token's, made 0-based |
| Positions.CleanNameOffset | tests/test_symbol_table_symbol.py:46-77 | with the clean name the column moves right by the number of leading modifier glyphs, on the same line |
| Positions.RangeFromToken | tests/test_symbol_table_symbol.py:121-158 | a token range stays on one line and is exactly as wide as the (clean or full) name |
| Positions.TokenRangeEndIgnoresCleaning | tests/test_symbol_table_symbol.py:134-158 | cleaning moves only the start of a token range, never its end |
| Positions.RangeFromTree | tests/test_symbol_table_symbol.py:160-187 | a tree's range fails exactly when the tree holds no token |
| Positions.RangeFromTokens | tests/test_symbol_table_symbol.py:160-180 | the range runs from the first token's start to the end of the last token's text |
| Positions.SingleTokenTreeRange | tests/test_symbol_table_symbol.py:160-180 | a one-token tree spans exactly that token |
| Positions.RangeFromMeta | tests/test_symbol_table_symbol.py:189-220 | each of the four fields is made 0-based, and a missing field becomes 0 |
| Positions.EndpointsInclusive | tests/test_symbol_table_symbol.py:222-258 | both endpoints are contained; the column before the start and the one after the end are not |
| Positions.ContainsRangePreorder | tests/test_symbol_table_symbol.py:260-282 | range containment is reflexive on valid ranges and transitive |
| Positions.AdjacentRanges | tests/test_symbol_table_symbol.py:1039-1054 | adjacent ranges share their meeting point, but neither contains the other |
| Errors.KindWord | tests/test_symbol_table_errors.py:143-167 | the message says "terminal" exactly for upper-case names and "rule" otherwise |
| Errors.KindWordExamples | tests/test_symbol_table_errors.py:317-338 | mixed case, lower case with digits and the empty name read as rules; upper-case names read as terminals |
| Errors.GenericError | tests/test_symbol_table_errors.py:18-56 | the base error is one column wide, carries no symbol name, and sits at the given position, or at (0, 0) |
| Errors.DefinitionNotFoundError | tests/test_symbol_table_errors.py:61-94 | message `Definition for symbol '{n}' not found.`, `name` is the symbol, width = length of the name (0 for the empty name), position copied or (0, 0) |
| Errors.ShadowedDefinitionError | tests/test_symbol_table_errors.py:108-167 | message `Template parameter '{n}' conflicts with existing {kind} '{n}'.` with the kind word of the name, `name` is the symbol, width = length of the name, position copied |
| Errors.MultipleDefinitionsError | tests/test_symbol_table_errors.py:173-222 | message `Multiple definitions found for {kind} '{n}'.`, `name` is the symbol, width = length of the name, position copied |
| Errors.DefinitionNotFoundForReferenceError | tests/test_symbol_table_errors.py:228-282 | message `No definition found for {kind} '{n}'.`, `name` is the symbol, width = length of the name, position copied |
| Errors.KindedMessageInjective | tests/test_symbol_table_errors.py:354-374 | two names never produce the same duplicate or unresolved-reference message |
| Nodes.BuildRule | tests/test_syntax_tree_nodes.py:356-410 | missing modifiers and parameters become empty, missing priority becomes 0, name and parameters are kept in order, and `_` is added exactly for a leading underscore |
| Nodes.BuildTerm | tests/test_syntax_tree_nodes.py:291-322 | a term without priority has priority 0 and no modifiers unless its name starts with `_` |
| Nodes.AliasedIffAlias | tests/test_syntax_tree_nodes.py:183-245 | a built expansion is not aliased; applying an alias makes it aliased |
| Nodes.BuildImportFromPath | tests/test_syntax_tree_nodes.py:477-502 | the path is all but the last part joined by `.`, the last part is the only symbol, and the alias is kept |
| Nodes.ImportPathRoundTrip | tests/test_syntax_tree_nodes.py:477-487 | path + `.` + symbol gives back the dotted name |
| Nodes.BuildImportFromString | tests/test_syntax_tree_nodes.py:504-514 | a string path and a symbol list are kept unchanged |
| Nodes.BuildComment | tests/test_syntax_tree_nodes.py:576-590 | the content is the first child, or an empty `COMMENT` token |
| Nodes.KeepAstNodes | tests/test_syntax_tree_nodes.py:632-662 | `Ast` keeps exactly the AST-node children and nothing else |
| Nodes.BuildAstIdempotent | tests/test_syntax_tree_nodes.py:632-662 | rebuilding an `Ast` from its own statements changes nothing |
| Nodes.KeepAstNodesAppend | tests/test_syntax_tree_nodes.py:632-654 | filtering preserves the order of the children |
| AstBuilder.RuleModifiers | tests/test_syntax_tree.py:26-58 | the first child's value, or `None` for no child or a `None` value |
| AstBuilder.ItemsOrNone | tests/test_syntax_tree.py:59-77 | `None` exactly for an empty tree, otherwise the items |
| AstBuilder.Priority | tests/test_syntax_tree.py:78-108 | `None` exactly for no child or a `None` value; otherwise the value parsed as an integer, and a failure exactly when `int()` rejects it |
| AstBuilder.PriorityRoundTrip | tests/test_syntax_tree.py:78-89 | a priority printed with `str` reads back as itself |
| AstBuilder.ImportLib | tests/test_syntax_tree.py:110-116 | the last part is the name and a one-part path is empty |
| AstBuilder.ImportLibRoundTrip | tests/test_syntax_tree.py:110-116 | module path + `.` + name gives the dotted name |
| AstBuilder.ImportRel | tests/test_syntax_tree.py:118-124 | as `import_lib` with a leading `.` |
| AstBuilder.Unquote | tests/test_syntax_tree.py:214-222 | the text loses exactly its first and last characters |
| AstBuilder.UnquoteQuoted | tests/test_syntax_tree.py:214-222 | unquoting a quoted text gives the text |
| AstBuilder.SingleChild | tests/test_syntax_tree.py:145-194 | the single child is returned unchanged |
| NameMaps.AppendLookup | src/lark_parser_language_server/symbol_table/__init__.py:45-48 | `setdefault(name, []).append(x)` puts `x` at the end of `name`'s list |
| NameMaps.AppendOther | src/lark_parser_language_server/symbol_table/__init__.py:45-48 | every other name keeps its list |
| NameMaps.AppendKeys | src/lark_parser_language_server/symbol_table/__init__.py:45-46 | existing keys keep their order and a new key goes last |
| NameMaps.AppendAllLookup | src/lark_parser_language_server/symbol_table/__init__.py:42-48 | a collection loop appends to each name exactly the entries of that name, in order |
| NameMaps.AppendAllShape | src/lark_parser_language_server/symbol_table/__init__.py:42-56 | keys are only added, never reordered, and the total grows by the number collected |
| NameMaps.AppendAllKeyed | src/lark_parser_language_server/symbol_table/__init__.py:45-48 | every list stays non-empty and holds only entries of its own name |
| Symbols.KindOfToken | tests/test_symbol_table_syntax_tree.py:113-136 | the kind is TERMINAL exactly for a TERMINAL token and RULE exactly for a RULE token |
| Symbols.DefinitionFromToken | tests/test_symbol_table_symbol.py:310-344 | a definition is named by its token's text, has no parent, and starts with no children |
| Symbols.AppendChild | tests/test_symbol_table_symbol.py:545-658 | the child records its parent and joins the end of its name's list; earlier children and the parent's own fields are kept |
| Symbols.AppendTwoChildren | tests/test_symbol_table_symbol.py:571-604 | two children of one name are both kept, in order |
| Symbols.ReferenceFromToken | tests/test_symbol_table_symbol.py:850-897 | name, kind and anchor come from the token and the caller, and the range contains the position |
| Extraction.DefinitionsFromDeclare | tests/test_symbol_table_syntax_tree.py:113-165 | one declared definition per symbol in order, kind from the token type; none for no symbols |
| Extraction.DefinitionsFromExpansions | tests/test_symbol_table_syntax_tree.py:171-229 | one definition per aliased expansion, named by its alias and of the alias token's kind (`Kind.RULE` for a RULE token), in order; unaliased ones contribute nothing |
| Extraction.DefinitionsFromImport | tests/test_symbol_table_syntax_tree.py:235-298 | an aliased import gives exactly one definition (the alias) with one child per symbol; an unaliased one gives one imported definition per symbol |
| Extraction.AliasedImportChildren | tests/test_symbol_table_syntax_tree.py:234-268 | the alias definition's children are keyed by exactly the imported names, each name holds a child whose parent is the alias, and distinct names give one key per symbol (`len(alias_def.children)`) |
| Extraction.AdoptAllLookup | tests/test_symbol_table_syntax_tree.py:235-270 | each adopted child, pointing at the parent, ends its name's list of children |
| Extraction.DefinitionsFromRuleParams | tests/test_symbol_table_syntax_tree.py:304-330 | one definition per parameter in order, each with the parent's range |
| Extraction.DefinitionsFromRule | tests/test_symbol_table_syntax_tree.py:336-407 | the rule's definition comes first, with its modifiers and one child definition per parameter (the key count is `RuleChildCount`); then the aliased expansions' definitions |
| Extraction.RuleParametersAreChildren | tests/test_symbol_table_syntax_tree.py:351-372 | a parameter not reused as the rule's or an alias's name is a child of the rule's definition and never a top-level definition of its own |
| Extraction.RuleAliasDefinitionName | tests/test_symbol_table_syntax_tree.py:374-390 | after the rule's own definition, the j-th definition is named by the j-th alias of the rule's expansions |
| Extraction.RuleChildCount | tests/test_symbol_table_syntax_tree.py:351-372 | a rule whose template parameters have pairwise different names has exactly one child key per parameter, so two distinct parameters give `len(children) == 2` |
| Extraction.RuleChildKey | tests/test_symbol_table_syntax_tree.py:351-372 | every child key of a rule's definition is one of its parameter names |
| Extraction.RuleParameterIsChild | tests/test_symbol_table_syntax_tree.py:351-372 | every template parameter is a child of the rule's definition that records the rule as its parent |
| Extraction.DefinitionsFromTerm | tests/test_symbol_table_syntax_tree.py:413-460 | the term's definition, with its modifiers and no children, then the aliased expansions' definitions |
| Extraction.DefinitionsFromNode | tests/test_symbol_table_syntax_tree.py:466-513 | only declarations, imports, rules and terms define names |
| Extraction.TokenReferences | tests/test_symbol_table_syntax_tree.py:519-565 | one reference per name token, in order, with the given anchor |
| Extraction.ReferencesKeepOwner | tests/test_symbol_table_syntax_tree.py:1180-1189 | a supplied anchor is copied onto every reference found anywhere below the node |
| Extraction.StatementReferencesAnchored | src/lark_parser_language_server/symbol_table/__init__.py:50-56 | the collection loop supplies no anchor; every reference of a statement is then anchored to that statement (a modelling choice: the extraction code is not part of this model, and only a supplied anchor is pinned by its tests) |
| Extraction.OwnerOnlyAnchors | tests/test_symbol_table_syntax_tree.py:619-646 | the references found below a node are the same whatever the anchor, apart from the anchor itself: the anchor never changes which names are referenced, where, or in what order |
| ReferenceOrder.LeafReferences | tests/test_symbol_table_syntax_tree.py:1012-1036 | a token gives one reference, to its own text, exactly when it is a RULE or TERMINAL token; literals, ranges and comments give none |
| ReferenceOrder.RuleReferences | tests/test_symbol_table_syntax_tree.py:946-992 | a rule references its name first, then its parameters in order, then what its expansions reference |
| ReferenceOrder.ExpansionReferences | tests/test_symbol_table_syntax_tree.py:856-895 | an expansion references what its expressions reference, then its alias as the last reference when it has one |
| ReferenceOrder.ImportReferences | tests/test_symbol_table_syntax_tree.py:619-663 | an import references its symbols in order, then its alias when it has one, and nothing else |
| ReferenceOrder.TemplateUsageReferences | tests/test_symbol_table_syntax_tree.py:719-765 | a template usage references the template first, then what its arguments reference; literal arguments add nothing |
| ReferenceOrder.AliasNameReferenced | tests/test_symbol_table_syntax_tree.py:872-884 | every alias that the expansions of a rule or term define is referenced by those expansions |
| ReferenceOrder.DefinedNamesReferenced | src/lark_parser_language_server/symbol_table/__init__.py:42-56 | every name a statement defines, at top level or as a child, is among the names that statement references, so the two collections agree on every defined name |
| Validators.Deliver | tests/test_symbol_table_validators.py:88-118 | with a handler every report is delivered in order; without one the first report's error is raised, and a clean check raises nothing |
| Validators.SingleDefinitionReports | tests/test_symbol_table_validators.py:70-118 | no definition gives one not-found report with no definition, whose error is about `No definitions found with name '<name>'`; k > 1 give k−1 duplicate reports for the 2nd..kth definitions, named by the name, as wide as it, at their selection starts |
| Validators.NotFoundMentionsName | tests/test_symbol_table_validators.py:70-75 | the not-found error's text contains `No definitions found with name '<name>'` |
| Validators.ValidateSingleDefinition | tests/test_symbol_table_validators.py:62-118 | the check is clean exactly for one definition; without a handler it raises the not-found error for `No definitions found with name '<name>'`, or the second definition's duplicate error named by the name |
| Validators.SingleDefinitionIffUnique | tests/test_symbol_table_validators.py:62-118 | clean exactly for one definition, and the first definition is never blamed |
| Validators.ShadowedDefinitionReports | tests/test_symbol_table_validators.py:124-155 | at most one report, carrying the definition |
| Validators.ValidateShadowedDefinition | tests/test_symbol_table_validators.py:124-155 | flagged exactly when the name is already a key of the scope; a raised error is a shadowing error as wide as the name |
| Validators.ShadowedIffInScope | tests/test_symbol_table_validators.py:124-155 | reported, or raised without a handler, exactly when the name is in scope |
| Validators.NonLocal | tests/test_symbol_table_validators.py:369-402 | exactly the references not in local scope, in order |
| Validators.UndefinedReferenceReports | tests/test_symbol_table_validators.py:291-367 | nothing for a defined name; otherwise one report per non-local reference, in order, at its position, with no definition |
| Validators.ValidateUndefinedReference | tests/test_symbol_table_validators.py:291-324 | a defined name is clean; without a handler an error is raised exactly when some reference is non-local, at the first one |
| Validators.ReportedIffUndefinedAndNotLocal | tests/test_symbol_table_validators.py:326-402 | a reference is reported exactly when its name is undefined and it is not in local scope |
| Validators.TemplateParameterIsLocal | tests/test_symbol_table_validators.py:179-197 | a template parameter used inside its own rule is local: the name is a child of the rule's definition |
| Validators.InsideRuleRangeIsLocal | tests/test_symbol_table_validators.py:161-178 | a reference anchored to a rule whose range contains it is local, so it is never reported |
| SymbolTables.GetItem | src/lark_parser_language_server/symbol_table/__init__.py:36-40 | `table[name]` is present exactly when `name in table`, and is the list stored under that name |
| SymbolTables.RegisterDefinition | tests/test_symbol_table.py:116-131 | the definition goes to the end of its name's list; other names, references and errors are unchanged |
| SymbolTables.RegisterReference | tests/test_symbol_table.py:154-169 | the same for references |
| SymbolTables.RegisterTwice | tests/test_symbol_table.py:116-131 | a second definition of a name lands at index 1 after the first |
| SymbolTables.RegisterDefinitionError | tests/test_symbol_table.py:133-152 | `(error, definition-or-None)` is appended in call order and nothing else changes |
| SymbolTables.RegisterReferenceError | tests/test_symbol_table.py:171-191 | `(error, reference-or-None, definition-or-None)` is appended in call order and nothing else changes |
| SymbolTables.CollectDefinitionsFrom | src/lark_parser_language_server/symbol_table/__init__.py:42-48 | the statement-by-statement loop equals one collection of all extracted definitions in statement order, then extraction order |
| SymbolTables.CollectReferencesFrom | src/lark_parser_language_server/symbol_table/__init__.py:50-56 | the same for references |
| SymbolTables.CollectDefinitions | src/lark_parser_language_server/symbol_table/__init__.py:42-48 | collecting definitions leaves the references and both error lists as they were |
| SymbolTables.CollectReferences | src/lark_parser_language_server/symbol_table/__init__.py:50-56 | collecting references leaves the definitions and both error lists as they were |
| SymbolTables.CollectDefinitionsAppends | src/lark_parser_language_server/symbol_table/__init__.py:42-48 | each name's list grows by exactly the extracted definitions of that name, in order; existing keys stay in place; the total grows by the number extracted |
| SymbolTables.CollectReferencesAppends | src/lark_parser_language_server/symbol_table/__init__.py:50-56 | the same for references |
| SymbolTables.CollectKeepsWellFormed | src/lark_parser_language_server/symbol_table/__init__.py:42-56 | after collection every key maps to a non-empty list of entries with that name, and keys are distinct |
| SymbolTables.AllDefinitionsContainsStored | tests/test_symbol_table.py:229-273 | every stored definition is among all definitions |
| SymbolTables.WithDescendants | tests/test_symbol_table.py:244-260 | a definition comes first, followed by its nested children |
| SymbolTables.OfKind | tests/test_symbol_table.py:193-227 | exactly the definitions of the given kind |
| SymbolTables.GetRuleDefinitions | tests/test_symbol_table.py:193-209 | exactly the rule definitions among all definitions, both directions |
| SymbolTables.GetTerminalDefinitions | tests/test_symbol_table.py:211-227 | exactly the terminal definitions among all definitions, both directions |
| SymbolTables.RulesAndTerminalsPartition | tests/test_symbol_table.py:193-227 | rule and terminal definitions partition all definitions exactly by kind |
| SymbolTables.GetAllReferences | tests/test_symbol_table.py:343-358 | the count of all references is the sum of the list lengths |
| SymbolTables.AllReferencesContainsStored | tests/test_symbol_table.py:343-358 | every stored reference is among all references |
| SymbolTables.OwnerDefinition | tests/test_symbol_table.py:291-341 | the owning definition comes from a reference inside a rule or an aliased import whose owner is defined; nothing when no reference has one |
| SymbolTables.GetDefinition | tests/test_symbol_table.py:275-341 | the first definition of a defined name; otherwise the definition owning a reference to it |
| SymbolTables.GetDefinitionNoneIff | tests/test_symbol_table.py:284-341 | nothing exactly when the name is undefined and no reference to it sits inside a defined rule or aliased import |
| SymbolTables.ChildChecks | tests/test_symbol_table.py:405-430 | one single-definition check per child name |
| SymbolTables.DefinitionChecks | tests/test_symbol_table.py:405-430 | single-definition checks = number of top-level names + number of child names |
| SymbolTables.ValidateDefinitions | tests/test_symbol_table.py:405-430 | definition errors are only appended; definitions, references and reference errors are unchanged |
| SymbolTables.UniqueDefinitionsValidate | tests/test_symbol_table.py:481-512 | a table with one childless definition per name gets no definition errors |
| SymbolTables.ValidateReferences | tests/test_symbol_table.py:461-476 | reference errors are only appended and nothing else changes |
| SymbolTables.DefinedReferencesReportNothing | tests/test_symbol_table.py:461-476 | when every referenced name is defined, reference validation reports nothing |
| SymbolTables.ReferenceReportsAreUndefined | tests/test_symbol_table.py:513-531 | every reference error is about a stored reference whose name has no definition |
| Formatter.ShownModifiers | tests/test_formatter.py:478-498 | the header shows every modifier but `_` |
| Formatter.PrioritySuffix | tests/test_formatter.py:524-544 | no suffix exactly for priority 0; otherwise `.` and text the priority callback reads back as the priority |
| Formatter.Names | tests/test_formatter.py:76-99 | the names of the tokens, in order |
| Formatter.ParameterList | tests/test_formatter.py:499-523 | nothing exactly when there are no parameters; otherwise the names joined by `, ` inside braces |
| Formatter.ParameterListSnoc | tests/test_formatter.py:499-523 | one parameter renders `{p}`, and each further parameter is inserted before the closing brace after `, ` |
| Formatter.TwoParameterHeader | tests/test_formatter.py:499-523 | a rule with two parameters and no modifiers or priority is headed `name{p1, p2}: ` for any names |
| Formatter.ShownModifierGlyphs | tests/test_formatter.py:478-498 | the header never shows `_` and shows `?` / `!` exactly when the rule has them |
| Formatter.UnderscoreRuleHeader | tests/test_formatter.py:457-477 | a rule named with a leading underscore shows the name once, without a separate `_` |
| Formatter.FormatImport | tests/test_formatter.py:315-383 | an import renders as `%import `, then its path, and ends with ` -> alias` when it has one |
| Formatter.ImportRendersDottedName | tests/test_formatter.py:317-331 | a one-symbol import renders as `%import` and the dotted name it was built from |
| Formatter.LiteralRoundTrip | tests/test_syntax_tree.py:214-222 | a string literal renders in quotes that `STRING` strips off again |
| Formatter.DegenerateShapes | tests/test_formatter.py:151-254 | an expansion without expressions renders as nothing, a template usage without arguments as `rule{}`, and an expression as its atom followed by its operators, with `..` before the third of exactly three |
| Formatter.Paragraphs | tests/test_formatter.py:794-873 | one stripped rendering per statement, in order; how these join into the document text is stated by `FormatAppend` |
| Formatter.FormatAppend | tests/test_formatter.py:794-873 | an empty AST gives `""`; each further statement adds a blank line and its stripped rendering |
| Formatter.FormatOverrideAsWritten | tests/test_formatter.py:425-438 | the override rendering as asserted: `%extend ` then the definition |
| Formatter.OverrideAsWrittenBecomesExtend | tests/test_formatter.py:425-438 | as asserted, an override renders exactly like an extension of the same definition |
| Formatter.FormatOverride | tests/test_formatter.py:425-438 | the corrected rendering of the Findings row (the test asserts `%extend `): `%override ` then the definition |
| Formatter.OverrideKeepsDirective | tests/test_formatter.py:257-275 | with `%override`, an override and an extension of the same definition render differently |
| Document.GetSymbolAtPosition | src/lark_parser_language_server/document.py:189-214 | nothing past the last line or the end of the line; nothing exactly when neither the character at the column nor the one before it is a word character; otherwise a maximal word run that contains or ends at the column |
| Document.SymbolIsWord | src/lark_parser_language_server/document.py:198-214 | a returned word is non-empty and all word characters |
| Document.Clamp | src/lark_parser_language_server/document.py:166-172 | the value is pulled into `[0, hi]`, and a value already inside is kept |
| Document.AddDiagnostic | src/lark_parser_language_server/document.py:161-183 | the diagnostic sits on an existing line, at a column no further than its end, spans one character, and carries the message, severity and `lark-language-server` source |
| Document.AddDiagnosticPlacement | src/lark_parser_language_server/document.py:165-172 | an in-document position is kept; a line past the end goes to the last line; a negative line or column goes to 0 |
| Document.OnParseError | src/lark_parser_language_server/document.py:55-74 | the message is `Parse error: …`, a missing or zero line or column becomes 0, and parsing continues |
| Document.ParseErrorPosition | src/lark_parser_language_server/document.py:55-74 | a 1-based in-document error position lands at the same spot 0-based |
| Document.SymbolTokens | src/lark_parser_language_server/document.py:96-103 | exactly the RULE and TOKEN tokens, in order |
| Document.ImportPathSymbols | src/lark_parser_language_server/document.py:122-140 | nothing for a non-import; otherwise the path's symbol tokens, without the last one when there is no alias or the statement is a multi-import |
| Document.Unimported | src/lark_parser_language_server/document.py:113-115 | exactly the scanned symbols that are not import-path symbols |
| Document.FindReferencesGroups | src/lark_parser_language_server/document.py:93-120 | each name's list holds exactly the non-import-path symbols of that name, in scan order; lists are keyed by their own names |
| Document.OccurrenceDiagnostics | src/lark_parser_language_server/document.py:147-159 | one diagnostic per occurrence, at its position, reading `Undefined {kind} '{name}'`; which occurrences are reported is stated by `ValidateReferencesCount` |
| Document.ValidateReferencesCount | src/lark_parser_language_server/document.py:142-159 | one error per occurrence of an undefined name; none when every name is defined; every diagnostic is an `Undefined …` error |

## Left out

- The LSP server, its handlers and `publish_diagnostics`, the command line and transports, and the `to_lsp_*` / hover / completion / document-symbol conversions. These are protocol plumbing over a foreign library.
- The Lark parser, reading the grammar of grammars, and the cached parser and builder singletons. This is file I/O and object identity; the model starts from the parse tree or AST they produce.
- The transformer machinery of `AstBuilder` (`create_transformer`, `transform`). Only its leaf callbacks and the node constructors are modelled.
- `LarkDocument._parse_grammar`, `_analyze` and `_extract_symbols`. They call the parser, catch every exception, and use symbol-table members (`visit_topdown`, `symbols`) that `SymbolTable` in symbol_table/__init__.py does not define. `Document.ValidateReferences` takes the defined names as a set for the same reason.
- `Symbol(token)` of `document.py` is not part of this model. `Document.FindReferences` and `Document.ImportPathSymbols` take the constructor as the parameter `symbolOf`, and compare symbols by value.
- `repr` strings, mock call counts and cache object identity (`get_all_definitions` called twice returning the same object). Repeated calls of the model's pure functions trivially return equal results.
- Non-ASCII letters and digits. `isalnum`, `isupper` and the kind word are ASCII-only here.
- `int()` accepts underscores and surrounding whitespace in Python; `Text.ParseInt` does not.
- `Flags.FromChar`: `None` and numbers are outside the string type. Only the string arguments of the flag tests are modelled.
- Validators: the tests' "missing attribute" mocks are left out. In the model a definition always has a range and children.
- Document.GetSymbolAtPosition: line and column are natural numbers. Python's negative indexing of `self.lines[line]` for a negative line is not modelled.
- Document.AddDiagnostic: requires at least one line. With none, the source computes `min(line, -1)` and indexes `self.lines[-1]`, which raises.
- AstBuilder.SingleChild: requires a non-empty child list. The `literal`, `value`, `nonterminal` and `terminal` callbacks index `[0]` and raise on an empty tree.
- AstBuilder.ImportLib: requires a non-empty part list. The source indexes `[-1]` and raises on an empty one.
- Formatter: a parenthesised alternation is rendered as `(a | b)` wherever it occurs. The tests pin it only as the atom of an expression.
- Formatter.FormatNode: takes a `Node`, which is never `None`. The fallback that renders `None` as `"None"` (tests/test_formatter.py:767-769) is not modelled.
- Formatter: `FormatNode` has no contract of its own. Its renderings are stated by the lemmas above and by `FormatImport` / `FormatOverride`.
- Extraction.ReferencesFromNode, Extraction.ReferencesFromStatements, Extraction.DefinitionsFromStatements: no contract of their own. The content and order of the references are stated by the `ReferenceOrder` lemmas and the anchors by `ReferencesKeepOwner` / `StatementReferencesAnchored` / `OwnerOnlyAnchors`; the statement loops by `SymbolTables.CollectDefinitionsFrom` / `CollectReferencesFrom`.
- Formatter.Format, Formatter.Header, Formatter.Operators: no contract of their own. `Format` is stated by `Paragraphs` and `FormatAppend`, `Header` by `TwoParameterHeader` and `UnderscoreRuleHeader`, and `Operators` through the expression rendering in `DegenerateShapes`.
- Formatter.FormatImport: states the `%import ` prefix, the path and the ` -> alias` ending. The `.SYMBOL` / ` (A, B)` middle is stated only for one symbol, by `ImportRendersDottedName`.
- Positions.Contains: a predicate; its meaning is stated by `EndpointsInclusive` and `ContainsRangePreorder`.
- Document.FindReferences, Document.ValidateReferences, Document.ScanSymbols, Document.AllImportPathSymbols: no contract of their own. They are stated by `FindReferencesGroups`, `ValidateReferencesCount`, `SymbolTokens` and `Unimported` respectively.
- Formatter.FormatNode: an `Override` node renders with `%override `, the corrected rendering of the Findings row. The test at tests/test_formatter.py:425-438 asserts `%extend `, which the model keeps only as `Formatter.FormatOverrideAsWritten`.
- Document.ImportPathSymbols: requires an import tree with exactly two children, the first a subtree, and so do `Document.AllImportPathSymbols`, `Document.FindReferences` and `Document.FindReferencesGroups`. On any other shape the source's `import_path, alias = tree.children` raises `ValueError` (or `scan_values` fails on a token); Lark's grammar never builds such a tree, and that error is not modelled.
- SymbolTables.GetAllDefinitions: has no contract of its own. It follows the test's expectation that children are listed after their parent (`WithDescendants`), but what is proved about it is membership (`AllDefinitionsContainsStored`), not the exact order.
- Positions.RangeFromTree: the `ValueError` for a tree without tokens is `None`.
- Extraction.DefinitionsFromRule: a rule definition's `selectionRange` is the name token's range without cleaning. The tests do not pin that choice.

## Findings

| source | as written | input that shows it | evidently intended | confidence | as-written member | corrected member |
|---|---|---|---|---|---|---|
| tests/test_formatter.py:425-438 | an `Override` node is rendered with the `%extend ` prefix | `%override start: "a"` formats to `%extend start: "a"`, exactly the rendering of `%extend start: "a"` | an override renders with `%override `, so formatting does not turn an override into an extension | medium, not executed | Formatter.OverrideAsWrittenBecomesExtend | Formatter.OverrideKeepsDirective |

`Formatter.FormatNode` uses the corrected `Formatter.FormatOverride`. The as-written rendering is kept as `Formatter.FormatOverrideAsWritten`.
