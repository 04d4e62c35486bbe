/** The symbol-table error family: a message, the 0-based position it is
    reported at, and the width of the span it underlines. */
module Errors {
  import opened Wrappers
  import opened Text
  import opened Positions

  datatype ErrorKind =
    | Generic
    | DefinitionNotFound
    | ShadowedDefinition
    | MultipleDefinitions
    | DefinitionNotFoundForReference

  /** `name` is the symbol a named error is about; the generic error has
      no such attribute. */
  datatype SymbolTableError = SymbolTableError(
    kind: ErrorKind, message: string, name: Option<string>, line: int, column: int, width: int)

  /** The word an error message uses for `name`: `"terminal"` when the name
      is upper case (`str.isupper`), `"rule"` otherwise. */
  function KindWord(name: string): (w: string)
    ensures w == "terminal" || w == "rule"
    ensures w == "terminal" <==> IsUpperName(name)
  {
    if IsUpperName(name) then "terminal" else "rule"
  }

  /** Mixed case, lower case with digits and the empty name are all rules;
      a single upper-case letter is a terminal. */
  lemma KindWordExamples()
    ensures KindWord("Mixed_Case") == "rule"
    ensures KindWord("rule123") == "rule"
    ensures KindWord("") == "rule"
    ensures KindWord("A") == "terminal"
    ensures KindWord("MY_TERMINAL_2") == "terminal"
  {
    assert IsAsciiLower("Mixed_Case"[1]);
    assert IsAsciiLower("rule123"[0]);
    assert IsAsciiUpper("A"[0]);
    assert IsAsciiUpper("MY_TERMINAL_2"[0]);
  }

  function LineOf(position: Option<Position>): int {
    if position.Some? then position.value.line else 0
  }

  function ColumnOf(position: Option<Position>): int {
    if position.Some? then position.value.column else 0
  }

  /** `SymbolTableError(message, position)`: one column wide, at the given
      position or at (0, 0). */
  function GenericError(message: string, position: Option<Position>): (e: SymbolTableError)
    ensures e.message == message && e.width == 1 && e.name.None?
    ensures position.None? ==> e.line == 0 && e.column == 0
    ensures position.Some? ==> e.line == position.value.line && e.column == position.value.column
  {
    SymbolTableError(Generic, message, None, LineOf(position), ColumnOf(position), 1)
  }

  /** `"{prefix}{kind} '{name}'."`, the shape shared by the duplicate and the
      unresolved-reference messages. */
  function KindedMessage(prefix: string, name: string): string {
    prefix + KindWord(name) + " '" + name + "'."
  }

  /** A kinded message names exactly one symbol: different names never give
      the same text. */
  lemma KindedMessageInjective(prefix: string, a: string, b: string)
    requires KindedMessage(prefix, a) == KindedMessage(prefix, b)
    ensures a == b
  {
    var ma := KindedTail(a);
    var mb := KindedTail(b);
    KindedMessageSplit(prefix, a);
    KindedMessageSplit(prefix, b);
    DropPrefix(prefix, ma, mb);
    assert ma[0] == KindWord(a)[0] && mb[0] == KindWord(b)[0];
    assert KindWord(a) == KindWord(b);
    KindedTailName(a);
    KindedTailName(b);
  }

  /** The part of a kinded message after its prefix. */
  function KindedTail(name: string): string {
    KindWord(name) + " '" + name + "'."
  }

  lemma KindedMessageSplit(prefix: string, name: string)
    ensures KindedMessage(prefix, name) == prefix + KindedTail(name)
  {
  }

  lemma KindedTailName(name: string)
    ensures KindedTail(name)[|KindWord(name)| + 2..|KindedTail(name)| - 2] == name
  {
  }

  lemma DropPrefix(p: string, x: string, y: string)
    requires p + x == p + y
    ensures x == y
  {
    assert x == (p + x)[|p|..];
    assert y == (p + y)[|p|..];
  }

  /** `DefinitionNotFoundError(name, position)`. */
  function DefinitionNotFoundError(name: string, position: Option<Position>): (e: SymbolTableError)
    ensures e.kind == DefinitionNotFound && e.name == Some(name)
    ensures e.message == "Definition for symbol '" + name + "' not found."
    ensures e.width == |name|
    ensures e.line == LineOf(position) && e.column == ColumnOf(position)
  {
    SymbolTableError(DefinitionNotFound, "Definition for symbol '" + name + "' not found.", Some(name),
                     LineOf(position), ColumnOf(position), |name|)
  }

  /** `ShadowedDefinitionError(name, position)`: a template parameter that
      reuses a top-level name. */
  function ShadowedDefinitionError(name: string, position: Option<Position>): (e: SymbolTableError)
    ensures e.kind == ShadowedDefinition && e.name == Some(name)
    ensures e.message == "Template parameter '" + name + "' conflicts with existing "
                         + KindWord(name) + " '" + name + "'."
    ensures e.width == |name|
    ensures e.line == LineOf(position) && e.column == ColumnOf(position)
  {
    SymbolTableError(ShadowedDefinition,
                     "Template parameter '" + name + "' conflicts with existing "
                     + KindWord(name) + " '" + name + "'.", Some(name),
                     LineOf(position), ColumnOf(position), |name|)
  }

  const MULTIPLE_PREFIX := "Multiple definitions found for "
  const UNRESOLVED_PREFIX := "No definition found for "

  /** `MultipleDefinitionsError(name, position)`. */
  function MultipleDefinitionsError(name: string, position: Option<Position>): (e: SymbolTableError)
    ensures e.kind == MultipleDefinitions && e.name == Some(name)
    ensures e.message == KindedMessage(MULTIPLE_PREFIX, name)
    ensures e.width == |name|
    ensures e.line == LineOf(position) && e.column == ColumnOf(position)
  {
    SymbolTableError(MultipleDefinitions, KindedMessage(MULTIPLE_PREFIX, name), Some(name),
                     LineOf(position), ColumnOf(position), |name|)
  }

  /** `DefinitionNotFoundForReferenceError(name, position)`. */
  function DefinitionNotFoundForReferenceError(name: string, position: Option<Position>): (e: SymbolTableError)
    ensures e.kind == DefinitionNotFoundForReference && e.name == Some(name)
    ensures e.message == KindedMessage(UNRESOLVED_PREFIX, name)
    ensures e.width == |name|
    ensures e.line == LineOf(position) && e.column == ColumnOf(position)
  {
    SymbolTableError(DefinitionNotFoundForReference, KindedMessage(UNRESOLVED_PREFIX, name), Some(name),
                     LineOf(position), ColumnOf(position), |name|)
  }
}
