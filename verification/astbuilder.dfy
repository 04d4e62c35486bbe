/** The leaf callbacks of `AstBuilder`, the transformer that rewrites a raw
    Lark tree bottom-up into the typed AST: each one receives the already
    transformed children of one production. */
module AstBuilder {
  import opened Wrappers
  import opened Text

  /** `rule_modifiers`: the `value` of the first child, `None` when there is
      no child or that value is `None`. */
  function RuleModifiers<T>(values: seq<Option<T>>): (r: Option<T>)
    ensures |values| == 0 ==> r.None?
    ensures |values| > 0 ==> r == values[0]
  {
    if |values| == 0 then None else values[0]
  }

  /** `template_params` and `name_list`: the children, or `None` when there
      are none. */
  function ItemsOrNone<T>(items: seq<T>): (r: Option<seq<T>>)
    ensures r.None? <==> |items| == 0
    ensures r.Some? ==> r.value == items
  {
    if |items| == 0 then None else Some(items)
  }

  /** `priority`: the first child's value read as an integer; `None` when
      there is no child or its value is `None`, and a failure for text `int()`
      rejects. */
  function Priority(values: seq<Option<string>>): (r: Result<Option<int>, string>)
    ensures (r.Success? && r.value.None?) <==> (|values| == 0 || values[0].None?)
    ensures r.Failure? <==> (|values| > 0 && values[0].Some? && !IsIntLiteral(values[0].value))
    ensures r.Success? && r.value.Some? ==> Some(r.value.value) == ParseInt(values[0].value)
  {
    if |values| == 0 || values[0].None? then Success(None)
    else match ParseInt(values[0].value)
      case Some(n) => Success(Some(n))
      case None => Failure("ValueError")
  }

  /** A priority printed with `str` reads back as itself. */
  lemma PriorityRoundTrip(n: int)
    ensures Priority([Some(IntToString(n))]) == Success(Some(n))
  {
    ParseIntRoundTrip(n);
  }

  /** `import_lib`: the module path (all parts but the last, joined with `.`)
      and the imported name (the last part). An empty list is an `IndexError`
      in the source and is excluded. */
  function ImportLib(parts: seq<string>): (r: (string, string))
    requires |parts| > 0
    ensures r.1 == parts[|parts| - 1]
    ensures |parts| == 1 ==> r.0 == ""
  {
    (Join(parts[..|parts| - 1], "."), parts[|parts| - 1])
  }

  /** Putting the module path and the name back together gives the dotted
      name the parts spell. */
  lemma ImportLibRoundTrip(parts: seq<string>)
    requires |parts| > 1
    ensures ImportLib(parts).0 + "." + ImportLib(parts).1 == Join(parts, ".")
  {
    JoinSplitLast(parts, ".");
  }

  /** `import_rel`: as `import_lib`, with the path marked relative by a
      leading `.`. */
  function ImportRel(parts: seq<string>): (r: (string, string))
    requires |parts| > 0
    ensures r.1 == parts[|parts| - 1]
    ensures |r.0| > 0 && r.0[0] == '.'
    ensures r.0[1..] == ImportLib(parts).0
  {
    ("." + ImportLib(parts).0, parts[|parts| - 1])
  }

  /** `STRING`: the token text without its first and last character (the
      quotes); Python's slice gives `""` for shorter text. */
  function Unquote(s: string): (r: string)
    ensures |s| >= 2 ==> |r| == |s| - 2 && s == [s[0]] + r + [s[|s| - 1]]
    ensures |s| < 2 ==> r == ""
  {
    if |s| >= 2 then s[1..|s| - 1] else ""
  }

  /** Quoting a text and unquoting it gives the text back. */
  lemma UnquoteQuoted(text: string)
    ensures Unquote("\"" + text + "\"") == text
  {
    var s := "\"" + text + "\"";
    assert s[1..|s| - 1] == text;
  }

  /** `literal`, `value`, `nonterminal` and `terminal`: the single child,
      unchanged. */
  function SingleChild<T>(items: seq<T>): (r: T)
    requires |items| > 0
    ensures r == items[0]
  {
    items[0]
  }
}
