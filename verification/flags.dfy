/** `Kind`, `Modifiers` and `Directives` of the symbol table. The two flag
    enumerations are Python `enum.Flag`s; here each is a bit mask. */
module Flags {

  /** Whether a name denotes a rule or a terminal. */
  datatype Kind = Rule | Terminal {
    /** The enumeration's string value. */
    function Value(): (s: string)
      ensures s == "rule" || s == "terminal"
      ensures (s == "terminal") <==> this == Terminal
    {
      match this
      case Rule => "rule"
      case Terminal => "terminal"
    }
  }

  /** A flag set: a bit mask in which each member owns one bit. */
  type Mask = bv8

  const EMPTY: Mask := 0

  // Modifiers
  const INLINED: Mask := 1
  const CONDITIONALLY_INLINED: Mask := 2
  const PINNED: Mask := 4

  // Directives
  const OVERRIDED: Mask := 1
  const EXTENDED: Mask := 2
  const IGNORED: Mask := 4
  const DECLARED: Mask := 8
  const IMPORTED: Mask := 16

  /** Python's `flag in flags`: every bit of `flag` is set in `flags`. */
  predicate Has(flags: Mask, flag: Mask) {
    flags & flag == flag
  }

  /** Members of `Modifiers` (one bit each). */
  predicate IsModifier(m: Mask) {
    m == INLINED || m == CONDITIONALLY_INLINED || m == PINNED
  }

  /** Members of `Directives` (one bit each). */
  predicate IsDirective(d: Mask) {
    d == OVERRIDED || d == EXTENDED || d == IGNORED || d == DECLARED || d == IMPORTED
  }

  /** A union of flag sets contains a single flag exactly when one of its
      constituents does. */
  lemma UnionContainsConstituents(a: Mask, b: Mask, f: Mask)
    requires IsModifier(f) || IsDirective(f)
    ensures Has(a | b, f) <==> Has(a, f) || Has(b, f)
  {
  }

  /** `Modifiers.from_char`: the glyph `_`, `?` or `!` gives its modifier;
      anything else (other text, the empty string, repeated glyphs) gives the
      empty set. */
  function FromChar(s: string): (m: Mask)
    ensures m == EMPTY || IsModifier(m)
    ensures m != EMPTY <==> (s == "_" || s == "?" || s == "!")
  {
    if s == "_" then INLINED
    else if s == "?" then CONDITIONALLY_INLINED
    else if s == "!" then PINNED
    else EMPTY
  }

  /** `Modifiers.to_char`: the glyph of a single modifier, `""` for the empty
      set and for combinations. */
  function ToChar(m: Mask): (s: string)
    ensures s == "" || |s| == 1
    ensures s != "" <==> IsModifier(m)
  {
    if m == INLINED then "_"
    else if m == CONDITIONALLY_INLINED then "?"
    else if m == PINNED then "!"
    else ""
  }

  /** Glyph to flag and back is the identity on the three glyphs. */
  lemma GlyphRoundTrip(s: string)
    requires s == "_" || s == "?" || s == "!"
    ensures ToChar(FromChar(s)) == s
  {
  }

  /** Flag to glyph and back is the identity on single modifiers. */
  lemma ModifierRoundTrip(m: Mask)
    requires IsModifier(m)
    ensures FromChar(ToChar(m)) == m
  {
  }

  /** The union of `FromChar` over a list of modifier glyphs, as a rule or
      term definition accumulates them. */
  function ModifiersOf(glyphs: seq<string>): (m: Mask)
    ensures Has(m, INLINED) <==> "_" in glyphs
    ensures Has(m, CONDITIONALLY_INLINED) <==> "?" in glyphs
    ensures Has(m, PINNED) <==> "!" in glyphs
    ensures m & 0xF8 == 0
  {
    if |glyphs| == 0 then EMPTY
    else
      assert glyphs == [glyphs[0]] + glyphs[1..];
      FromChar(glyphs[0]) | ModifiersOf(glyphs[1..])
  }
}
