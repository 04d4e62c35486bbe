/** The self-contained analysis helpers of `LarkDocument` (`document`): the
    word under the cursor, diagnostic placement, parse-error conversion,
    reference discovery in the raw parse tree and the undefined-reference
    diagnostics. */
module Document {
  import opened Wrappers
  import opened Lark
  import opened Text
  import opened NameMaps
  import Utils

  // ---------------------------------------------------------------------
  // Word under the cursor

  /** `text[start..end)` is a non-empty run of word characters that cannot be
      extended on either side. */
  predicate MaximalWord(text: string, start: nat, end: nat) {
    start < end <= |text|
    && (forall k | start <= k < end :: IsWordChar(text[k]))
    && (start == 0 || !IsWordChar(text[start - 1]))
    && (end == |text| || !IsWordChar(text[end]))
  }

  /** No word touches column `col`: the character there and the one before
      it are not word characters. */
  predicate NoWordAt(text: string, col: nat)
    requires col < |text|
  {
    !IsWordChar(text[col]) && (col == 0 || !IsWordChar(text[col - 1]))
  }

  /** `get_symbol_at_position(line, col)`: nothing past the last line or the
      end of the line; otherwise the maximal word run that contains or ends
      at `col`, or nothing when no word touches it. */
  method GetSymbolAtPosition(lines: seq<string>, line: nat, col: nat) returns (r: Option<string>)
    ensures line >= |lines| ==> r.None?
    ensures line < |lines| && col >= |lines[line]| ==> r.None?
    ensures line < |lines| && col < |lines[line]| ==> (r.None? <==> NoWordAt(lines[line], col))
    ensures r.Some? ==> line < |lines| && exists s: nat, e: nat ::
      MaximalWord(lines[line], s, e) && s <= col <= e && r.value == lines[line][s..e]
  {
    if line >= |lines| {
      return None;
    }
    var text := lines[line];
    if col >= |text| {
      return None;
    }
    var start := col;
    while start > 0 && IsWordChar(text[start - 1])
      invariant 0 <= start <= col
      invariant forall k | start <= k < col :: IsWordChar(text[k])
      decreases start
    {
      start := start - 1;
    }
    var end := col;
    while end < |text| && IsWordChar(text[end])
      invariant col <= end <= |text|
      invariant forall k | col <= k < end :: IsWordChar(text[k])
      decreases |text| - end
    {
      end := end + 1;
    }
    if start == end {
      return None;
    }
    assert MaximalWord(text, start, end);
    return Some(text[start..end]);
  }

  /** A word found under the cursor is never empty and is made of word
      characters only. */
  method SymbolIsWord(lines: seq<string>, line: nat, col: nat) returns (r: Option<string>)
    ensures r.Some? ==> |r.value| > 0 && forall k | 0 <= k < |r.value| :: IsWordChar(r.value[k])
  {
    r := GetSymbolAtPosition(lines, line, col);
    if r.Some? {
      var s: nat, e: nat :| MaximalWord(lines[line], s, e) && s <= col <= e && r.value == lines[line][s..e];
      assert forall k | 0 <= k < |r.value| :: r.value[k] == lines[line][s + k];
    }
  }

  // ---------------------------------------------------------------------
  // Diagnostics

  /** LSP diagnostic severities. */
  datatype Severity = Error | Warning | Information | Hint

  /** A one-line diagnostic from `start` to `end` (exclusive) on `line`. */
  datatype Diagnostic = Diagnostic(line: int, start: int, end: int, message: string,
                                   severity: Severity, source: string)

  const SOURCE_NAME := "lark-language-server"

  /** `max(lo, min(x, hi))` in the order the source applies it: first
      `max(0, x)`, then `min(_, hi)`. */
  function Clamp(x: int, hi: int): (r: int)
    requires hi >= 0
    ensures 0 <= r <= hi
    ensures 0 <= x <= hi ==> r == x
  {
    var lower := if x < 0 then 0 else x;
    if lower > hi then hi else lower
  }

  /** `_add_diagnostic(line, col, message, severity)`: the position is
      pulled into the document (a real line, a column no further than that
      line's end) and the diagnostic spans one character. The source indexes
      the last line, so an empty document is not allowed. */
  function AddDiagnostic(lines: seq<string>, line: int, col: int, message: string, severity: Severity)
    : (d: Diagnostic)
    requires |lines| > 0
    ensures 0 <= d.line < |lines|
    ensures 0 <= d.start <= |lines[d.line]| && d.end == d.start + 1
    ensures d.message == message && d.severity == severity && d.source == SOURCE_NAME
  {
    var l := Clamp(line, |lines| - 1);
    var c := Clamp(col, |lines[l]|);
    Diagnostic(l, c, c + 1, message, severity, SOURCE_NAME)
  }

  /** A position inside the document is kept as it is; one past the end is
      moved to the last line, and one before the start to line 0. */
  lemma AddDiagnosticPlacement(lines: seq<string>, line: int, col: int, message: string)
    requires |lines| > 0
    ensures 0 <= line < |lines| && 0 <= col <= |lines[line]| ==>
      var d := AddDiagnostic(lines, line, col, message, Error); d.line == line && d.start == col
    ensures line >= |lines| ==> AddDiagnostic(lines, line, col, message, Error).line == |lines| - 1
    ensures line < 0 ==> AddDiagnostic(lines, line, col, message, Error).line == 0
    ensures col < 0 ==> AddDiagnostic(lines, line, col, message, Error).start == 0
  {
  }

  /** `_on_parse_error(e)`: a 1-based line and column become 0-based, a
      missing or zero one becomes 0, the diagnostic reads
      `Parse error: <e>`, and the parser is told to continue. */
  function OnParseError(lines: seq<string>, errorLine: Option<int>, errorColumn: Option<int>, text: string)
    : (r: (Diagnostic, bool))
    requires |lines| > 0
    ensures r.1
    ensures r.0.message == "Parse error: " + text && r.0.severity == Error
    ensures (errorLine.None? || errorLine == Some(0)) ==> r.0.line == 0
    ensures (errorColumn.None? || errorColumn == Some(0)) ==> r.0.start == 0
  {
    var line := if errorLine.Some? && errorLine.value != 0 then errorLine.value - 1 else 0;
    var column := if errorColumn.Some? && errorColumn.value != 0 then errorColumn.value - 1 else 0;
    (AddDiagnostic(lines, line, column, "Parse error: " + text, Error), true)
  }

  /** A 1-based error position inside the document lands on the same spot
      0-based. */
  lemma ParseErrorPosition(lines: seq<string>, line: nat, column: nat, text: string)
    requires 1 <= line <= |lines| && 1 <= column <= |lines[line - 1]| + 1
    ensures OnParseError(lines, Some(line), Some(column), text).0.line == line - 1
    ensures OnParseError(lines, Some(line), Some(column), text).0.start == column - 1
  {
  }

  // ---------------------------------------------------------------------
  // References in the raw parse tree

  /** What the document knows of one symbol occurrence. */
  datatype DocSymbol = DocSymbol(name: string, kind: string, isUnknown: bool, line: int, column: int)

  function SymbolName(s: DocSymbol): string { s.name }

  /** Tokens naming a rule or a terminal in the raw parse tree. */
  predicate IsSymbolToken(t: Token) {
    t.kind == "RULE" || t.kind == "TOKEN"
  }

  /** The symbol tokens among `tokens`, in order. */
  function SymbolTokens(tokens: seq<Token>): (r: seq<Token>)
    ensures forall t | t in r :: t in tokens && IsSymbolToken(t)
    ensures forall t | t in tokens && IsSymbolToken(t) :: t in r
  {
    if |tokens| == 0 then []
    else
      assert forall t | t in tokens :: t == tokens[0] || t in tokens[1..];
      (if IsSymbolToken(tokens[0]) then [tokens[0]] else []) + SymbolTokens(tokens[1..])
  }

  /** `tree.scan_values(...)` for symbol tokens: every RULE or TOKEN token
      below the tree, depth first, left to right. */
  function ScanSymbols(tree: Tree): seq<Token> {
    SymbolTokens(Utils.TokensOf(Utils.GetTokens(tree, false)))
  }

  /** Import statements of the raw tree. */
  predicate IsImportTree(tree: Tree) {
    tree.data == "import" || tree.data == "multi_import"
  }

  /** The shape the source unpacks: an import path subtree and an alias
      slot. */
  predicate WellShapedImport(tree: Tree) {
    |tree.children| == 2 && tree.children[0].Subtree?
  }

  /** `_extract_symbols_from_import_path(tree)`: nothing for a non-import;
      otherwise the path's symbol tokens, without the last one when the
      statement has no alias (the last one is then the imported name
      itself) or is a `multi_import`. */
  function ImportPathSymbols(tree: Tree, symbolOf: Token -> DocSymbol): (r: seq<DocSymbol>)
    requires IsImportTree(tree) ==> WellShapedImport(tree)
    ensures !IsImportTree(tree) ==> r == []
    ensures IsImportTree(tree) ==>
      var tokens := ScanSymbols(tree.children[0].tree);
      var kept := if tree.data == "multi_import" || tree.children[1].Placeholder?
                  then (if |tokens| == 0 then [] else tokens[..|tokens| - 1]) else tokens;
      |r| == |kept| && forall i | 0 <= i < |r| :: r[i] == symbolOf(kept[i])
  {
    if !IsImportTree(tree) then []
    else
      var tokens := ScanSymbols(tree.children[0].tree);
      var aliasMissing := tree.data == "multi_import" || tree.children[1].Placeholder?;
      var kept := if aliasMissing then (if |tokens| == 0 then [] else tokens[..|tokens| - 1]) else tokens;
      seq(|kept|, i requires 0 <= i < |kept| => symbolOf(kept[i]))
  }

  /** The subtrees of `children` and below, pre-order (Lark's `iter_subtrees`
      visits the same set). */
  function SubtreesOf(children: seq<Child>): (r: seq<Tree>)
    decreases children
  {
    if |children| == 0 then []
    else
      var head := match children[0]
        case Subtree(t) => (assert children[0] in children; assert t < children[0]; [t] + SubtreesOf(t.children))
        case _ => [];
      head + SubtreesOf(children[1..])
  }

  /** Every subtree of the tree, the tree itself first. */
  function Subtrees(tree: Tree): (r: seq<Tree>)
    ensures |r| > 0 && r[0] == tree
  {
    [tree] + SubtreesOf(tree.children)
  }

  /** Every import statement of a raw tree has the unpacked shape. */
  predicate ImportsWellShaped(tree: Tree) {
    forall i | 0 <= i < |Subtrees(tree)| :: IsImportTree(Subtrees(tree)[i]) ==> WellShapedImport(Subtrees(tree)[i])
  }

  /** The path symbols of every import statement, in visiting order. */
  function AllImportPathSymbols(trees: seq<Tree>, symbolOf: Token -> DocSymbol): seq<DocSymbol>
    requires forall i | 0 <= i < |trees| :: IsImportTree(trees[i]) ==> WellShapedImport(trees[i])
  {
    if |trees| == 0 then []
    else ImportPathSymbols(trees[0], symbolOf) + AllImportPathSymbols(trees[1..], symbolOf)
  }

  /** The scanned symbols that are not import-path symbols, in scan order. */
  function Unimported(symbols: seq<DocSymbol>, excluded: seq<DocSymbol>): (r: seq<DocSymbol>)
    ensures forall s | s in r :: s in symbols && s !in excluded
    ensures forall s | s in symbols && s !in excluded :: s in r
  {
    if |symbols| == 0 then []
    else
      assert forall s | s in symbols :: s == symbols[0] || s in symbols[1..];
      (if symbols[0] in excluded then [] else [symbols[0]]) + Unimported(symbols[1..], excluded)
  }

  /** `_find_references()`: every scanned symbol that is not part of an
      import path, grouped by name in scan order. `symbolOf` stands for the
      `Symbol(token)` constructor. */
  function FindReferences(tree: Tree, symbolOf: Token -> DocSymbol): (refs: NameMap<DocSymbol>)
    requires ImportsWellShaped(tree)
  {
    var tokens := ScanSymbols(tree);
    var symbols := seq(|tokens|, i requires 0 <= i < |tokens| => symbolOf(tokens[i]));
    var excluded := AllImportPathSymbols(Subtrees(tree), symbolOf);
    AppendAll([], Unimported(symbols, excluded), SymbolName)
  }

  /** Under each name `_find_references` stores exactly the scanned symbols
      of that name that are not import-path symbols, in scan order, and
      every list is keyed by its own name. */
  lemma FindReferencesGroups(tree: Tree, symbolOf: Token -> DocSymbol, name: string)
    requires ImportsWellShaped(tree)
    ensures var tokens := ScanSymbols(tree);
            var symbols := seq(|tokens|, i requires 0 <= i < |tokens| => symbolOf(tokens[i]));
            var excluded := AllImportPathSymbols(Subtrees(tree), symbolOf);
            Lookup(FindReferences(tree, symbolOf), name) == Select(Unimported(symbols, excluded), SymbolName, name)
    ensures Keyed(FindReferences(tree, symbolOf), SymbolName) && DistinctKeys(FindReferences(tree, symbolOf))
  {
    var tokens := ScanSymbols(tree);
    var symbols := seq(|tokens|, i requires 0 <= i < |tokens| => symbolOf(tokens[i]));
    var excluded := AllImportPathSymbols(Subtrees(tree), symbolOf);
    AppendAllLookup([], Unimported(symbols, excluded), SymbolName, name);
    AppendAllKeyed([], Unimported(symbols, excluded), SymbolName);
  }

  // ---------------------------------------------------------------------
  // Undefined references

  /** `Undefined {kind} '{name}'`, where an unknown symbol's kind reads
      `unknown symbol`. */
  function UndefinedMessage(s: DocSymbol, name: string): string {
    "Undefined " + (if s.isUnknown then "unknown symbol" else s.kind) + " '" + name + "'"
  }

  /** The diagnostics for the occurrences of one undefined name. */
  function OccurrenceDiagnostics(lines: seq<string>, name: string, occurrences: seq<DocSymbol>): (ds: seq<Diagnostic>)
    requires |lines| > 0
    ensures |ds| == |occurrences|
    ensures forall i | 0 <= i < |ds| ::
      ds[i] == AddDiagnostic(lines, occurrences[i].line, occurrences[i].column,
                             UndefinedMessage(occurrences[i], name), Error)
  {
    seq(|occurrences|, i requires 0 <= i < |occurrences| =>
      AddDiagnostic(lines, occurrences[i].line, occurrences[i].column, UndefinedMessage(occurrences[i], name), Error))
  }

  /** `_validate_references()`: for every referenced name, in order, that is
      not among the defined names, one error per occurrence. */
  function ValidateReferences(lines: seq<string>, defined: set<string>, refs: NameMap<DocSymbol>)
    : seq<Diagnostic>
    requires |lines| > 0
  {
    if |refs| == 0 then []
    else
      (if refs[0].name in defined then [] else OccurrenceDiagnostics(lines, refs[0].name, refs[0].items))
      + ValidateReferences(lines, defined, refs[1..])
  }

  /** The occurrences of the referenced names that are not defined. */
  function UndefinedOccurrences(defined: set<string>, refs: NameMap<DocSymbol>): nat {
    if |refs| == 0 then 0
    else (if refs[0].name in defined then 0 else |refs[0].items|) + UndefinedOccurrences(defined, refs[1..])
  }

  /** One diagnostic per occurrence of an undefined name, none for defined
      names, and every diagnostic is an error about an undefined name. */
  lemma {:induction false} ValidateReferencesCount(lines: seq<string>, defined: set<string>, refs: NameMap<DocSymbol>)
    requires |lines| > 0
    ensures |ValidateReferences(lines, defined, refs)| == UndefinedOccurrences(defined, refs)
    ensures (forall i | 0 <= i < |refs| :: refs[i].name in defined) ==> ValidateReferences(lines, defined, refs) == []
    ensures forall d | d in ValidateReferences(lines, defined, refs) ::
      d.severity == Error && "Undefined " <= d.message
  {
    if |refs| > 0 {
      ValidateReferencesCount(lines, defined, refs[1..]);
      var head := if refs[0].name in defined then [] else OccurrenceDiagnostics(lines, refs[0].name, refs[0].items);
      forall d | d in head ensures d.severity == Error && "Undefined " <= d.message {
        var i :| 0 <= i < |head| && head[i] == d;
      }
      if forall i | 0 <= i < |refs| :: refs[i].name in defined {
        assert refs[0].name in defined;
        assert forall i | 0 <= i < |refs[1..]| :: refs[1..][i] == refs[i + 1];
      }
    }
  }
}
