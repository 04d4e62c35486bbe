/** Name-keyed lists in first-seen key order: Python's `dict[str, list[T]]`
    as the symbol table fills it (create the list on first sight, then
    append). A map is a list of groups, one per key. */
module NameMaps {
  import opened Wrappers

  datatype Group<T> = Group(name: string, items: seq<T>)

  type NameMap<T> = seq<Group<T>>

  /** The keys in insertion order. */
  function Keys<T>(m: NameMap<T>): (ks: seq<string>)
    ensures |ks| == |m|
    ensures forall i | 0 <= i < |m| :: ks[i] == m[i].name
  {
    if |m| == 0 then [] else [m[0].name] + Keys(m[1..])
  }

  /** `name in d`. */
  predicate HasKey<T>(m: NameMap<T>, name: string) {
    name in Keys(m)
  }

  /** Every key occurs once. */
  predicate DistinctKeys<T>(m: NameMap<T>) {
    forall i, j | 0 <= i < j < |m| :: m[i].name != m[j].name
  }

  /** `d.get(name)`. */
  function Get<T>(m: NameMap<T>, name: string): (r: Option<seq<T>>)
    ensures r.Some? <==> HasKey(m, name)
  {
    if |m| == 0 then None
    else if m[0].name == name then Some(m[0].items)
    else
      assert Keys(m) == [m[0].name] + Keys(m[1..]);
      Get(m[1..], name)
  }

  /** `d.get(name, [])`. */
  function Lookup<T>(m: NameMap<T>, name: string): seq<T> {
    Get(m, name).GetOr([])
  }

  /** With distinct keys, a name's value is the list stored under it. */
  lemma {:induction false} GetDistinct<T>(m: NameMap<T>, i: nat)
    requires DistinctKeys(m) && i < |m|
    ensures Get(m, m[i].name) == Some(m[i].items)
  {
    if i > 0 {
      assert m[1..][i - 1] == m[i];
      GetDistinct(m[1..], i - 1);
    }
  }

  /** `d.setdefault(name, []).append(x)`. */
  function Append<T>(m: NameMap<T>, name: string, x: T): (r: NameMap<T>)
    ensures |r| == |m| || |r| == |m| + 1
  {
    if |m| == 0 then [Group(name, [x])]
    else if m[0].name == name then [Group(name, m[0].items + [x])] + m[1..]
    else [m[0]] + Append(m[1..], name, x)
  }

  /** `x` goes to the end of `name`'s list. */
  lemma {:induction false} AppendLookup<T>(m: NameMap<T>, name: string, x: T)
    ensures Lookup(Append(m, name, x), name) == Lookup(m, name) + [x]
  {
    if |m| > 0 && m[0].name != name {
      AppendLookup(m[1..], name, x);
      assert Append(m, name, x)[1..] == Append(m[1..], name, x);
    }
  }

  /** Every other name keeps its value. */
  lemma {:induction false} AppendOther<T>(m: NameMap<T>, name: string, x: T, other: string)
    requires other != name
    ensures Get(Append(m, name, x), other) == Get(m, other)
  {
    if |m| > 0 && m[0].name != name {
      AppendOther(m[1..], name, x, other);
      assert Append(m, name, x)[1..] == Append(m[1..], name, x);
    }
  }

  /** Existing keys keep their order; a new key goes last. */
  lemma {:induction false} AppendKeys<T>(m: NameMap<T>, name: string, x: T)
    ensures Keys(Append(m, name, x)) == if HasKey(m, name) then Keys(m) else Keys(m) + [name]
  {
    if |m| > 0 {
      assert Keys(m) == [m[0].name] + Keys(m[1..]);
      if m[0].name != name {
        AppendKeys(m[1..], name, x);
        var r := Append(m, name, x);
        assert r[1..] == Append(m[1..], name, x);
        assert Keys(r) == [m[0].name] + Keys(r[1..]);
      } else {
        var r := Append(m, name, x);
        assert Keys(r) == [name] + Keys(r[1..]);
      }
    }
  }

  lemma AppendDistinct<T>(m: NameMap<T>, name: string, x: T)
    requires DistinctKeys(m)
    ensures DistinctKeys(Append(m, name, x))
  {
    var r := Append(m, name, x);
    AppendKeys(m, name, x);
    if !HasKey(m, name) {
      forall i, j | 0 <= i < j < |r| ensures r[i].name != r[j].name {
        assert Keys(r)[i] == r[i].name && Keys(r)[j] == r[j].name;
        if j == |m| {
          assert Keys(m)[i] == r[i].name;
        }
      }
    } else {
      forall i, j | 0 <= i < j < |r| ensures r[i].name != r[j].name {
        assert Keys(r)[i] == r[i].name && Keys(r)[j] == r[j].name;
      }
    }
  }

  /** Total number of entries. */
  function Total<T>(m: NameMap<T>): nat {
    if |m| == 0 then 0 else |m[0].items| + Total(m[1..])
  }

  /** `Append` adds exactly one entry. */
  lemma {:induction false} TotalAppend<T>(m: NameMap<T>, name: string, x: T)
    ensures Total(Append(m, name, x)) == Total(m) + 1
  {
    if |m| > 0 && m[0].name != name {
      var r := Append(m, name, x);
      assert r[1..] == Append(m[1..], name, x);
      TotalAppend(m[1..], name, x);
    } else if |m| > 0 {
      assert Append(m, name, x)[1..] == m[1..];
    }
  }

  /** Every entry of every list, key by key, in list order. */
  function Flatten<T>(m: NameMap<T>): (r: seq<T>)
    ensures |r| == Total(m)
  {
    if |m| == 0 then [] else m[0].items + Flatten(m[1..])
  }

  /** Every stored entry appears in the flattening. */
  lemma {:induction false} FlattenContains<T>(m: NameMap<T>, i: nat, j: nat)
    requires i < |m| && j < |m[i].items|
    ensures exists k | 0 <= k < |Flatten(m)| :: Flatten(m)[k] == m[i].items[j]
  {
    if i == 0 {
      assert Flatten(m)[j] == m[0].items[j];
    } else {
      assert m[1..][i - 1] == m[i];
      FlattenContains(m[1..], i - 1, j);
      var k :| 0 <= k < |Flatten(m[1..])| && Flatten(m[1..])[k] == m[i].items[j];
      assert Flatten(m)[|m[0].items| + k] == Flatten(m[1..])[k];
    }
  }

  /** The entries of `xs` whose key is `name`, in order. */
  function Select<T>(xs: seq<T>, key: T -> string, name: string): (r: seq<T>)
    ensures |r| <= |xs|
    ensures forall j | 0 <= j < |r| :: key(r[j]) == name
  {
    if |xs| == 0 then []
    else (if key(xs[0]) == name then [xs[0]] else []) + Select(xs[1..], key, name)
  }

  /** Every list is non-empty and holds only entries keyed by its own name. */
  predicate Keyed<T>(m: NameMap<T>, key: T -> string) {
    forall i | 0 <= i < |m| ::
      |m[i].items| > 0 && forall j | 0 <= j < |m[i].items| :: key(m[i].items[j]) == m[i].name
  }

  /** The collection loop: append every entry of `xs`, in order, under its key. */
  function AppendAll<T>(m: NameMap<T>, xs: seq<T>, key: T -> string): (r: NameMap<T>)
    decreases |xs|
  {
    if |xs| == 0 then m else AppendAll(Append(m, key(xs[0]), xs[0]), xs[1..], key)
  }

  /** Collecting appends, to each name's list, exactly the collected entries
      with that name, in their order. */
  lemma {:induction false} AppendAllLookup<T>(m: NameMap<T>, xs: seq<T>, key: T -> string, name: string)
    ensures Lookup(AppendAll(m, xs, key), name) == Lookup(m, name) + Select(xs, key, name)
    decreases |xs|
  {
    if |xs| > 0 {
      var m1 := Append(m, key(xs[0]), xs[0]);
      AppendAllLookup(m1, xs[1..], key, name);
      if key(xs[0]) == name {
        AppendLookup(m, name, xs[0]);
      } else {
        AppendOther(m, key(xs[0]), xs[0], name);
      }
    }
  }

  /** Collecting keeps every existing key in place and adds entries only:
      the total grows by the number collected. */
  lemma {:induction false} AppendAllShape<T>(m: NameMap<T>, xs: seq<T>, key: T -> string)
    ensures Keys(m) <= Keys(AppendAll(m, xs, key))
    ensures Total(AppendAll(m, xs, key)) == Total(m) + |xs|
    ensures DistinctKeys(m) ==> DistinctKeys(AppendAll(m, xs, key))
    decreases |xs|
  {
    if |xs| > 0 {
      var m1 := Append(m, key(xs[0]), xs[0]);
      AppendKeys(m, key(xs[0]), xs[0]);
      TotalAppend(m, key(xs[0]), xs[0]);
      if DistinctKeys(m) { AppendDistinct(m, key(xs[0]), xs[0]); }
      AppendAllShape(m1, xs[1..], key);
    }
  }

  /** One append keeps every list non-empty and correctly keyed. */
  lemma {:induction false} AppendKeyed<T>(m: NameMap<T>, name: string, x: T, key: T -> string)
    requires Keyed(m, key) && key(x) == name
    ensures Keyed(Append(m, name, x), key)
  {
    if |m| > 0 && m[0].name != name {
      var r := Append(m, name, x);
      assert Keyed(m[1..], key) by {
        forall i | 0 <= i < |m[1..]|
          ensures |m[1..][i].items| > 0
                  && forall j | 0 <= j < |m[1..][i].items| :: key(m[1..][i].items[j]) == m[1..][i].name
        {
          assert m[1..][i] == m[i + 1];
        }
      }
      AppendKeyed(m[1..], name, x, key);
      assert r == [m[0]] + Append(m[1..], name, x);
      forall i | 0 < i < |r|
        ensures |r[i].items| > 0 && forall j | 0 <= j < |r[i].items| :: key(r[i].items[j]) == r[i].name
      {
        assert r[i] == Append(m[1..], name, x)[i - 1];
      }
    }
  }

  /** Collection keeps every list non-empty and correctly keyed. */
  lemma {:induction false} AppendAllKeyed<T>(m: NameMap<T>, xs: seq<T>, key: T -> string)
    requires Keyed(m, key) && DistinctKeys(m)
    ensures Keyed(AppendAll(m, xs, key), key) && DistinctKeys(AppendAll(m, xs, key))
    decreases |xs|
  {
    if |xs| > 0 {
      AppendKeyed(m, key(xs[0]), xs[0], key);
      AppendDistinct(m, key(xs[0]), xs[0]);
      AppendAllKeyed(Append(m, key(xs[0]), xs[0]), xs[1..], key);
    }
  }
}
