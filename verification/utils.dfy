/** `utils.get_tokens`: the depth-first, left-to-right flattening of a raw
    parse tree into its leaves. */
module Utils {
  import opened Lark

  /** The leaves below `children`, in order: subtrees are replaced by their
      own leaves, tokens and other values are kept, and `None` placeholders
      are kept only when `includePlaceholders` holds. */
  function Flatten(children: seq<Child>, includePlaceholders: bool): (r: seq<Child>)
    ensures forall i | 0 <= i < |r| :: !r[i].Subtree?
    ensures !includePlaceholders ==> forall i | 0 <= i < |r| :: !r[i].Placeholder?
    decreases children
  {
    if |children| == 0 then []
    else
      var head := match children[0]
        case Subtree(t) => (assert children[0] in children; assert t < children[0]; Flatten(t.children, includePlaceholders))
        case Placeholder => if includePlaceholders then [Placeholder] else []
        case _ => [children[0]];
      head + Flatten(children[1..], includePlaceholders)
  }

  /** What the flattener yields for one child that is not a subtree. */
  function Emitted(c: Child, includePlaceholders: bool): seq<Child>
  {
    match c
    case Subtree(t) => Flatten(t.children, includePlaceholders)
    case Placeholder => if includePlaceholders then [Placeholder] else []
    case _ => [c]
  }

  /** `get_tokens(tree, include_placeholders)`. */
  function GetTokens(tree: Tree, includePlaceholders: bool): (r: seq<Child>)
    ensures forall i | 0 <= i < |r| :: !r[i].Subtree?
    ensures !includePlaceholders ==> forall i | 0 <= i < |r| :: !r[i].Placeholder?
  {
    Flatten(tree.children, includePlaceholders)
  }

  /** The tokens of a tree in scan order (Lark's `scan_values` with an
      "is a token" predicate, which walks the tree in the same order). */
  function TokensOf(children: seq<Child>): (r: seq<Token>)
    ensures |r| <= |children|
  {
    if |children| == 0 then []
    else (if children[0].Leaf? then [children[0].token] else []) + TokensOf(children[1..])
  }

  /** Flattening distributes over concatenation: siblings are visited left to right. */
  lemma {:induction false} FlattenAppend(a: seq<Child>, b: seq<Child>, includePlaceholders: bool)
    ensures Flatten(a + b, includePlaceholders)
         == Flatten(a, includePlaceholders) + Flatten(b, includePlaceholders)
  {
    if |a| > 0 {
      assert (a + b)[0] == a[0];
      assert (a + b)[1..] == a[1..] + b;
      FlattenAppend(a[1..], b, includePlaceholders);
    } else {
      assert a + b == b;
    }
  }

  /** A tree with no subtrees among its children flattens to those children
      (when no placeholder among them is to be dropped). */
  lemma {:induction false} FlattenShallow(children: seq<Child>, includePlaceholders: bool)
    requires forall i | 0 <= i < |children| :: !children[i].Subtree?
    requires !includePlaceholders ==> forall i | 0 <= i < |children| :: !children[i].Placeholder?
    ensures Flatten(children, includePlaceholders) == children
  {
    if |children| > 0 {
      FlattenShallow(children[1..], includePlaceholders);
    }
  }

  /** `seq` without its `None` placeholders. */
  function DropPlaceholders(s: seq<Child>): (r: seq<Child>)
    ensures forall i | 0 <= i < |r| :: !r[i].Placeholder?
    ensures |r| <= |s|
  {
    if |s| == 0 then []
    else (if s[0].Placeholder? then [] else [s[0]]) + DropPlaceholders(s[1..])
  }

  lemma {:induction false} DropPlaceholdersAppend(a: seq<Child>, b: seq<Child>)
    ensures DropPlaceholders(a + b) == DropPlaceholders(a) + DropPlaceholders(b)
  {
    if |a| > 0 {
      assert (a + b)[1..] == a[1..] + b;
      DropPlaceholdersAppend(a[1..], b);
    } else {
      assert a + b == b;
    }
  }

  /** Without placeholders the flattener yields exactly what it yields with
      them, minus the `None`s: the flag only decides whether placeholders are
      emitted, at every depth. */
  lemma {:induction false} PlaceholdersOnlyDifference(children: seq<Child>)
    ensures Flatten(children, false) == DropPlaceholders(Flatten(children, true))
    decreases children
  {
    if |children| > 0 {
      var c := children[0];
      var headT := match c
        case Subtree(t) => Flatten(t.children, true)
        case Placeholder => [Placeholder]
        case _ => [c];
      var headF := match c
        case Subtree(t) => Flatten(t.children, false)
        case Placeholder => []
        case _ => [c];
      assert Flatten(children, true) == headT + Flatten(children[1..], true);
      assert Flatten(children, false) == headF + Flatten(children[1..], false);
      DropPlaceholdersAppend(headT, Flatten(children[1..], true));
      PlaceholdersOnlyDifference(children[1..]);
      if c.Subtree? {
        assert c in children;
        assert c.tree < c;
        PlaceholdersOnlyDifference(c.tree.children);
      }
    }
  }

  /** Number of tree nodes and leaves under `children`; the measure of the
      iterative walk below. */
  function Size(children: seq<Child>): nat
    decreases children
  {
    if |children| == 0 then 0
    else (match children[0]
          case Subtree(t) => (assert children[0] in children; assert t < children[0]; 1 + Size(t.children))
          case _ => 1) + Size(children[1..])
  }

  lemma {:induction false} SizeAppend(a: seq<Child>, b: seq<Child>)
    ensures Size(a + b) == Size(a) + Size(b)
  {
    if |a| > 0 {
      assert (a + b)[0] == a[0];
      assert (a + b)[1..] == a[1..] + b;
      SizeAppend(a[1..], b);
    } else {
      assert a + b == b;
    }
  }

  /** The generator run to completion with an explicit work list instead of
      recursion; it yields the same sequence as `get_tokens`. */
  method CollectTokens(tree: Tree, includePlaceholders: bool) returns (out: seq<Child>)
    ensures out == GetTokens(tree, includePlaceholders)
  {
    out := [];
    var pending := tree.children;
    while |pending| > 0
      invariant out + Flatten(pending, includePlaceholders) == GetTokens(tree, includePlaceholders)
      decreases Size(pending)
    {
      var c := pending[0];
      var rest := pending[1..];
      assert Flatten(pending, includePlaceholders) == Emitted(c, includePlaceholders) + Flatten(rest, includePlaceholders);
      if c.Subtree? {
        FlattenAppend(c.tree.children, rest, includePlaceholders);
        SizeAppend(c.tree.children, rest);
        pending := c.tree.children + rest;
      } else {
        out := out + Emitted(c, includePlaceholders);
        pending := rest;
      }
    }
  }
}
