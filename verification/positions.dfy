/** `Position` and `Range` of the symbol table: 0-based coordinates built
    from Lark's 1-based tokens and node metadata, and the inclusive
    containment tests that scope resolution uses. */
module Positions {
  import opened Wrappers
  import opened Lark
  import Utils

  /** A 0-based line and column. */
  datatype Position = Position(line: int, column: int)

  /** A span from `start` to `end`, both included. */
  datatype Range = Range(start: Position, end: Position)

  /** Document order on positions: by line, then by column. */
  predicate LessEq(a: Position, b: Position) {
    a.line < b.line || (a.line == b.line && a.column <= b.column)
  }

  lemma LessEqTotalOrder(a: Position, b: Position, c: Position)
    ensures LessEq(a, a)
    ensures LessEq(a, b) || LessEq(b, a)
    ensures LessEq(a, b) && LessEq(b, a) ==> a == b
    ensures LessEq(a, b) && LessEq(b, c) ==> LessEq(a, c)
  {
  }

  /** A range whose start does not come after its end. */
  predicate IsValid(r: Range) {
    LessEq(r.start, r.end)
  }

  // ---------------------------------------------------------------------
  // Construction

  /** Modifier glyphs that may prefix a rule or terminal name. */
  predicate IsModifierGlyph(c: char) {
    c == '_' || c == '?' || c == '!'
  }

  /** Number of leading modifier glyphs of `name`. */
  function ModifierPrefixLength(name: string): (n: nat)
    ensures n <= |name|
    ensures forall i | 0 <= i < n :: IsModifierGlyph(name[i])
    ensures n < |name| ==> !IsModifierGlyph(name[n])
  {
    if |name| > 0 && IsModifierGlyph(name[0]) then 1 + ModifierPrefixLength(name[1..]) else 0
  }

  /** `name` without its leading modifier glyphs. */
  function CleanName(name: string): (r: string)
    ensures |r| <= |name| && name == name[..|name| - |r|] + r
    ensures |r| > 0 ==> !IsModifierGlyph(r[0])
  {
    name[ModifierPrefixLength(name)..]
  }

  /** A 1-based coordinate made 0-based; a missing one counts as 0. */
  function ZeroBased(x: Option<int>): (r: int)
    ensures x.Some? ==> r + 1 == x.value
    ensures x.None? ==> r == 0
  {
    match x
    case Some(v) => v - 1
    case None => 0
  }

  /** `Position.from_token(token, use_clean_name)`: the token's start, moved
      past its modifier glyphs when `useCleanName` holds. */
  function PositionFromToken(t: Token, useCleanName: bool): (p: Position)
    ensures p.line == ZeroBased(t.line)
    ensures !useCleanName ==> p.column == ZeroBased(t.column)
  {
    var offset := if useCleanName then ModifierPrefixLength(t.value) else 0;
    Position(ZeroBased(t.line), ZeroBased(t.column) + offset)
  }

  /** The clean position lies exactly the glyph prefix to the right. */
  lemma CleanNameOffset(t: Token)
    ensures PositionFromToken(t, true).line == PositionFromToken(t, false).line
    ensures PositionFromToken(t, true).column
         == PositionFromToken(t, false).column + ModifierPrefixLength(t.value)
  {
  }

  /** `Range.from_token(token, use_clean_name)`: one line, as wide as the
      (clean or full) name. */
  function RangeFromToken(t: Token, useCleanName: bool): (r: Range)
    ensures r.start == PositionFromToken(t, useCleanName)
    ensures r.end.line == r.start.line
    ensures r.end.column - r.start.column
         == if useCleanName then |CleanName(t.value)| else |t.value|
  {
    var start := PositionFromToken(t, useCleanName);
    var name := if useCleanName then CleanName(t.value) else t.value;
    Range(start, Position(start.line, start.column + |name|))
  }

  /** Cleaning the name moves the start of a token's range but never its end. */
  lemma TokenRangeEndIgnoresCleaning(t: Token)
    ensures RangeFromToken(t, true).end == RangeFromToken(t, false).end
    ensures LessEq(RangeFromToken(t, false).start, RangeFromToken(t, true).start)
  {
  }

  /** The range spanning a list of tokens: from the first token's start to the
      last token's end. There is no range without a token. */
  function RangeFromTokens(tokens: seq<Token>): (r: Option<Range>)
    ensures r.None? <==> |tokens| == 0
    ensures r.Some? ==> r.value.start == PositionFromToken(tokens[0], false)
    ensures r.Some? ==> r.value.end == RangeFromToken(tokens[|tokens| - 1], false).end
  {
    if |tokens| == 0 then None
    else
      var last := tokens[|tokens| - 1];
      Some(Range(PositionFromToken(tokens[0], false),
                 Position(ZeroBased(last.line), ZeroBased(last.column) + |last.value|)))
  }

  /** `Range.from_tree(tree)`; `None` stands for the `ValueError` raised for a
      tree that holds no token. */
  function RangeFromTree(tree: Tree): (r: Option<Range>)
    ensures r.None? <==> |Utils.TokensOf(Utils.GetTokens(tree, false))| == 0
  {
    RangeFromTokens(Utils.TokensOf(Utils.GetTokens(tree, false)))
  }

  /** A tree with a single token spans exactly that token. */
  lemma SingleTokenTreeRange(t: Token)
    ensures RangeFromTree(Tree("t", [Leaf(t)])) == Some(RangeFromToken(t, false))
  {
    var tree := Tree("t", [Leaf(t)]);
    Utils.FlattenShallow(tree.children, false);
    assert Utils.GetTokens(tree, false) == [Leaf(t)];
    assert Utils.TokensOf([Leaf(t)]) == [t];
  }

  /** `Range.from_meta(meta)`: every field made 0-based, missing ones counting
      as 1 before the conversion. */
  function RangeFromMeta(meta: Meta): (r: Range)
    ensures r.start.line + 1 == meta.line.GetOr(1)
    ensures r.start.column + 1 == meta.column.GetOr(1)
    ensures r.end.line + 1 == meta.endLine.GetOr(1)
    ensures r.end.column + 1 == meta.endColumn.GetOr(1)
  {
    Range(Position(ZeroBased(meta.line), ZeroBased(meta.column)),
          Position(ZeroBased(meta.endLine), ZeroBased(meta.endColumn)))
  }

  // ---------------------------------------------------------------------
  // Containment

  /** `position in range`: between the endpoints, both included. */
  predicate Contains(r: Range, p: Position) {
    LessEq(r.start, p) && LessEq(p, r.end)
  }

  /** `inner in outer`: both endpoints of `inner` lie in `outer`. */
  predicate ContainsRange(outer: Range, inner: Range) {
    Contains(outer, inner.start) && Contains(outer, inner.end)
  }

  /** Both endpoints belong to a valid range; the column just before the start
      and the column just after the end do not. */
  lemma EndpointsInclusive(r: Range)
    requires IsValid(r)
    ensures Contains(r, r.start) && Contains(r, r.end)
    ensures !Contains(r, Position(r.start.line, r.start.column - 1))
    ensures !Contains(r, Position(r.end.line, r.end.column + 1))
  {
  }

  /** Containment of ranges carries over to the positions they contain. */
  lemma ContainsRangeTransfers(outer: Range, inner: Range, p: Position)
    requires ContainsRange(outer, inner) && Contains(inner, p)
    ensures Contains(outer, p)
  {
    LessEqTotalOrder(outer.start, inner.start, p);
    LessEqTotalOrder(p, inner.end, outer.end);
  }

  /** Range containment is a preorder on valid ranges. */
  lemma ContainsRangePreorder(a: Range, b: Range, c: Range)
    ensures IsValid(a) ==> ContainsRange(a, a)
    ensures ContainsRange(a, b) && ContainsRange(b, c) ==> ContainsRange(a, c)
  {
    if ContainsRange(a, b) && ContainsRange(b, c) {
      ContainsRangeTransfers(a, b, c.start);
      ContainsRangeTransfers(a, b, c.end);
    }
  }

  /** Two ranges that meet at one position both contain it, but neither
      contains the other unless it is a single point. */
  lemma AdjacentRanges(p1: Position, p2: Position, p3: Position)
    requires LessEq(p1, p2) && LessEq(p2, p3) && p1 != p2 && p2 != p3
    ensures Contains(Range(p1, p2), p2) && Contains(Range(p2, p3), p2)
    ensures !ContainsRange(Range(p1, p2), Range(p2, p3))
    ensures !ContainsRange(Range(p2, p3), Range(p1, p2))
  {
  }
}
