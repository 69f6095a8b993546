/**
 * Properties that relate several `HavingBuilder` calls: the map overloads
 * as ordered folds of the single-column calls, the ignore-null forms as
 * filters, the parameter stream each call adds, and the nested shape of
 * `havingKeywords`.
 */
module HavingProperties {
  import opened Wrappers
  import opened SqlGrammar
  import opened HavingBuilder

  // ---------------------------------------------------------------- reference definitions

  /** The entries whose value is not `null`, in entry order. */
  function NonNullEntries(entries: seq<Entry>): (r: seq<Entry>)
    ensures |r| <= |entries|
    ensures forall x :: x in r <==> x in entries && !x.1.Null?
  {
    if entries == [] then []
    else (if entries[0].1.Null? then [] else [entries[0]]) + NonNullEntries(entries[1..])
  }

  /** The values of `entries`, in entry order. */
  function ValuesOf(entries: seq<Entry>): (r: seq<Value>)
    ensures |r| == |entries|
    ensures forall i :: 0 <= i < |entries| ==> r[i] == entries[i].1
  {
    if entries == [] then [] else [entries[0].1] + ValuesOf(entries[1..])
  }

  /** The values of the entries that are not `null`, in entry order. */
  function NonNullValues(entries: seq<Entry>): (r: seq<Value>)
    ensures |r| <= |entries|
    ensures forall v :: v in r ==> !v.Null?
  {
    if entries == [] then []
    else (if entries[0].1.Null? then [] else [entries[0].1]) + NonNullValues(entries[1..])
  }

  /** `NonNullValues` is the values of `NonNullEntries`: both filter out the same entries. */
  lemma {:induction false} NonNullValuesAgree(entries: seq<Entry>)
    ensures NonNullValues(entries) == ValuesOf(NonNullEntries(entries))
    decreases |entries|
  {
    if entries != [] {
      var first: seq<Entry> := if entries[0].1.Null? then [] else [entries[0]];
      NonNullValuesAgree(entries[1..]);
      ValuesOfAppend(first, NonNullEntries(entries[1..]));
    }
  }

  /** `ValuesOf` distributes over concatenation. */
  lemma ValuesOfAppend(a: seq<Entry>, b: seq<Entry>)
    ensures ValuesOf(a + b) == ValuesOf(a) + ValuesOf(b)
  {
  }

  /** `value` repeated `n` times. */
  function Repeat(value: Value, n: nat): (r: seq<Value>)
    ensures |r| == n
    ensures forall i :: 0 <= i < n ==> r[i] == value
  {
    if n == 0 then [] else [value] + Repeat(value, n - 1)
  }

  /** One `like` fragment per entry, in entry order. */
  function LikeFragments(e: Env, entries: seq<Entry>): (fs: seq<Fragment>)
    ensures |fs| == |entries|
    ensures forall i :: 0 <= i < |entries| ==> fs[i] == BoundFragment(e, entries[i].0, "like", entries[i].1)
  {
    if entries == [] then [] else [BoundFragment(e, entries[0].0, "like", entries[0].1)] + LikeFragments(e, entries[1..])
  }

  /** The fragment `havingMayLike(column, value)` appends when the string form of `null` is `null`. */
  function MayLikeFragment(e: Env, column: string, value: Value): Fragment {
    if TakesLikePath(e, value) then BoundFragment(e, column, "like", value) else EqFragment(e, column, value)
  }

  /** One `MayLikeFragment` per entry, in entry order. */
  function MayLikeFragments(e: Env, entries: seq<Entry>): (fs: seq<Fragment>)
    ensures |fs| == |entries|
    ensures forall i :: 0 <= i < |entries| ==> fs[i] == MayLikeFragment(e, entries[i].0, entries[i].1)
  {
    if entries == [] then [] else [MayLikeFragment(e, entries[0].0, entries[0].1)] + MayLikeFragments(e, entries[1..])
  }

  /** The `" or "`-attached groups the `havingKeywords` closure adds, one per column. */
  function KeywordFragments(e: Env, value: Value, columns: seq<string>): (fs: seq<Fragment>)
    ensures |fs| == |columns|
    ensures forall i :: 0 <= i < |columns| ==>
      fs[i] == NestedFragment(e, NestedHaving(e, HavingMayLike(e, Empty, columns[i], value)), " or ")
  {
    if columns == [] then []
    else [NestedFragment(e, NestedHaving(e, HavingMayLike(e, Empty, columns[0], value)), " or ")]
         + KeywordFragments(e, value, columns[1..])
  }

  // ---------------------------------------------------------------- parameter streams

  /** Appending one fragment appends exactly its parameters to the bucket's parameter stream. */
  lemma ParametersOfAppend(g: Grammar, r: Grammar, f: Fragment)
    requires Extends(g, r, Having, [f])
    ensures Flatten(Bucket(r, Having)) == Flatten(Bucket(g, Having)) + f.params.GetOr([])
  {
    FlattenAppend(Bucket(g, Having), [f]);
    assert [f][1..] == [];
  }

  /** `havingIn` / `havingNotIn` bind the list elements, one per element, in iteration order. */
  lemma InParameters(e: Env, g: Grammar, column: string, values: seq<Value>)
    ensures Flatten(Bucket(HavingIn(e, g, column, values), Having)) == Flatten(Bucket(g, Having)) + values
    ensures Flatten(Bucket(HavingNotIn(e, g, column, values), Having)) == Flatten(Bucket(g, Having)) + values
  {
    ParametersOfAppend(g, HavingIn(e, g, column, values),
      Fragment(e.backQuote(column) + "in" + e.bracket(InList(e, values)), Some(values), " and "));
    ParametersOfAppend(g, HavingNotIn(e, g, column, values),
      Fragment(e.backQuote(column) + "not in" + e.bracket(InList(e, values)), Some(values), " and "));
  }

  /** `havingBetween` / `havingNotBetween` bind `min` then `max`, whatever their order. */
  lemma BetweenParameters(e: Env, g: Grammar, column: string, min: Value, max: Value)
    ensures Flatten(Bucket(HavingBetween(e, g, column, min, max), Having)) == Flatten(Bucket(g, Having)) + [min, max]
    ensures Flatten(Bucket(HavingNotBetween(e, g, column, min, max), Having)) == Flatten(Bucket(g, Having)) + [min, max]
  {
    ParametersOfAppend(g, HavingBetween(e, g, column, min, max),
      Fragment(e.backQuote(column) + "between" + e.placeholder(min) + "and" + e.placeholder(max), Some([min, max]), " and "));
    ParametersOfAppend(g, HavingNotBetween(e, g, column, min, max),
      Fragment(e.backQuote(column) + "not between" + e.placeholder(min) + "and" + e.placeholder(max), Some([min, max]), " and "));
  }

  /** `andHaving` / `orHaving` splice the nested parameters, unchanged, after the existing ones. */
  lemma NestedParameters(e: Env, g: Grammar, info: SqlPartInfo)
    ensures Flatten(Bucket(AndHaving(e, g, info), Having)) == Flatten(Bucket(g, Having)) + info.params
    ensures Flatten(Bucket(OrHaving(e, g, info), Having)) == Flatten(Bucket(g, Having)) + info.params
  {
    ParametersOfAppend(g, AndHaving(e, g, info), NestedFragment(e, info, " and "));
    ParametersOfAppend(g, OrHaving(e, g, info), NestedFragment(e, info, " or "));
  }

  /** `having(column, value)` binds the value, or nothing when it is `null`. */
  lemma HavingValueParameters(e: Env, g: Grammar, column: string, value: Value)
    ensures Flatten(Bucket(HavingValue(e, g, column, value), Having))
         == Flatten(Bucket(g, Having)) + (if value.Null? then [] else [value])
  {
    ParametersOfAppend(g, HavingValue(e, g, column, value), EqFragment(e, column, value));
  }

  /** `having(Map)` binds exactly the non-null values, in entry order (`null` routes to `is null`). */
  lemma {:induction false} HavingMapParameters(e: Env, g: Grammar, entries: seq<Entry>)
    ensures Flatten(Bucket(HavingMap(e, g, entries), Having)) == Flatten(Bucket(g, Having)) + NonNullValues(entries)
    decreases |entries|
  {
    if entries != [] {
      var (column, value) := entries[0];
      var m := HavingValue(e, g, column, value);
      var first: seq<Value> := if value.Null? then [] else [value];
      var before := Flatten(Bucket(g, Having));
      var rest := NonNullValues(entries[1..]);
      HavingValueParameters(e, g, column, value);
      HavingMapParameters(e, m, entries[1..]);
      assert HavingMap(e, g, entries) == HavingMap(e, m, entries[1..]);
      assert NonNullValues(entries) == first + rest;
      assert before + first + rest == before + (first + rest);
    }
  }

  // ---------------------------------------------------------------- map overloads

  /** `having(Map)` is a left fold: the entries of `a` are applied before those of `b`. */
  lemma {:induction false} HavingMapConcat(e: Env, g: Grammar, a: seq<Entry>, b: seq<Entry>)
    ensures HavingMap(e, g, a + b) == HavingMap(e, HavingMap(e, g, a), b)
    decreases |a|
  {
    if a == [] {
      assert a + b == b;
    } else {
      assert (a + b)[0] == a[0];
      assert (a + b)[1..] == a[1..] + b;
      HavingMapConcat(e, HavingValue(e, g, a[0].0, a[0].1), a[1..], b);
    }
  }

  /** `havingIgnoreNull(Map)` is `having(Map)` on the entries whose value is not `null`. */
  lemma {:induction false} HavingMapIgnoreNullFilters(e: Env, g: Grammar, entries: seq<Entry>)
    ensures HavingIgnoreNullEach(e, g, entries) == HavingMap(e, g, NonNullEntries(entries))
    decreases |entries|
  {
    if entries != [] {
      var (column, value) := entries[0];
      var m := HavingValueIgnoreNull(e, g, column, value);
      var rest := NonNullEntries(entries[1..]);
      HavingMapIgnoreNullFilters(e, m, entries[1..]);
      assert HavingIgnoreNullEach(e, g, entries) == HavingIgnoreNullEach(e, m, entries[1..]);
      if value.Null? {
        assert NonNullEntries(entries) == rest;
        assert m == g;
      } else {
        assert NonNullEntries(entries) == [entries[0]] + rest;
        assert ([entries[0]] + rest)[1..] == rest;
        assert m == HavingValue(e, g, column, value);
        assert HavingMap(e, g, [entries[0]] + rest) == HavingMap(e, m, rest);
      }
    }
  }

  /** `havingLike(Map)` appends one `like` fragment per non-null entry, in entry order. */
  lemma {:induction false} HavingLikeMapFragments(e: Env, g: Grammar, entries: seq<Entry>)
    ensures Extends(g, HavingLikeEach(e, g, entries), Having, LikeFragments(e, NonNullEntries(entries)))
    ensures NonNullEntries(entries) == [] ==> HavingLikeEach(e, g, entries) == g
    decreases |entries|
  {
    if entries == [] {
      assert Bucket(g, Having) + [] == Bucket(g, Having);
    } else {
      var (column, value) := entries[0];
      var m := HavingLike(e, g, column, value);
      var rest := NonNullEntries(entries[1..]);
      var r := HavingLikeEach(e, m, entries[1..]);
      HavingLikeMapFragments(e, m, entries[1..]);
      assert HavingLikeEach(e, g, entries) == r;
      if value.Null? {
        assert NonNullEntries(entries) == rest;
        assert m == g;
      } else {
        var f := BoundFragment(e, column, "like", value);
        assert NonNullEntries(entries) == [entries[0]] + rest;
        assert LikeFragments(e, [entries[0]] + rest) == [f] + LikeFragments(e, rest);
        ExtendsTrans(g, m, r, Having, [f], LikeFragments(e, rest));
      }
    }
  }

  /** `havingIgnoreNull(Map)` on a present map is `having(Map)` on its non-null entries. */
  lemma HavingMapIgnoreNullIsFilter(e: Env, g: Grammar, entries: seq<Entry>)
    ensures HavingMapIgnoreNull(e, g, Some(entries)) == HavingMap(e, g, NonNullEntries(entries))
  {
    HavingMapIgnoreNullFilters(e, g, entries);
  }

  /** `havingLike(Map)` on a present map appends one `like` fragment per non-null entry. */
  lemma HavingLikeMapIsFilter(e: Env, g: Grammar, entries: seq<Entry>)
    ensures Extends(g, HavingLikeMap(e, g, Some(entries)), Having, LikeFragments(e, NonNullEntries(entries)))
  {
    HavingLikeMapFragments(e, g, entries);
  }

  /** With `castNullable(null) == null`, `havingMayLike` appends exactly its `MayLikeFragment`. */
  lemma MayLikeAppendsOne(e: Env, g: Grammar, column: string, value: Value)
    requires e.castString(Null) == None
    ensures Extends(g, HavingMayLike(e, g, column, value), Having, [MayLikeFragment(e, column, value)])
  {
  }

  /** `havingMayLike(Map)` appends one fragment per entry, LIKE or equality as the value dictates. */
  lemma {:induction false} HavingMayLikeMapFragments(e: Env, g: Grammar, entries: seq<Entry>)
    requires e.castString(Null) == None
    ensures Extends(g, HavingMayLikeEach(e, g, entries), Having, MayLikeFragments(e, entries))
    ensures Extends(g, HavingMayLikeMap(e, g, Some(entries)), Having, MayLikeFragments(e, entries))
    decreases |entries|
  {
    if entries != [] {
      var m := HavingMayLike(e, g, entries[0].0, entries[0].1);
      MayLikeAppendsOne(e, g, entries[0].0, entries[0].1);
      HavingMayLikeMapFragments(e, m, entries[1..]);
      ExtendsTrans(g, m, HavingMayLikeEach(e, m, entries[1..]), Having,
                   [MayLikeFragment(e, entries[0].0, entries[0].1)], MayLikeFragments(e, entries[1..]));
    }
  }

  /** `havingMayLikeIgnoreNull(Map)` is `havingMayLike(Map)` on the non-null entries. */
  lemma {:induction false} HavingMayLikeIgnoreNullFilters(e: Env, g: Grammar, entries: seq<Entry>)
    ensures HavingMayLikeIgnoreNullEach(e, g, entries) == HavingMayLikeEach(e, g, NonNullEntries(entries))
    ensures HavingMayLikeIgnoreNullMap(e, g, Some(entries)) == HavingMayLikeMap(e, g, Some(NonNullEntries(entries)))
    decreases |entries|
  {
    if entries != [] {
      var (column, value) := entries[0];
      var m := HavingMayLikeIgnoreNull(e, g, column, value);
      var rest := NonNullEntries(entries[1..]);
      HavingMayLikeIgnoreNullFilters(e, m, entries[1..]);
      assert HavingMayLikeIgnoreNullEach(e, g, entries) == HavingMayLikeIgnoreNullEach(e, m, entries[1..]);
      if value.Null? {
        assert NonNullEntries(entries) == rest;
        assert m == g;
      } else {
        assert NonNullEntries(entries) == [entries[0]] + rest;
        assert ([entries[0]] + rest)[1..] == rest;
        assert m == HavingMayLike(e, g, column, value);
        assert HavingMayLikeEach(e, g, [entries[0]] + rest) == HavingMayLikeEach(e, m, rest);
      }
    }
  }

  // ---------------------------------------------------------------- mayLike boundary

  /** `%abc` takes the LIKE path and `abc` the equality path, when strings coerce to themselves. */
  lemma MayLikeBoundary(e: Env, g: Grammar, column: string)
    requires forall s :: e.castString(Str(s)) == Some(s)
    ensures Extends(g, HavingMayLike(e, g, column, Str("%abc")), Having, [BoundFragment(e, column, "like", Str("%abc"))])
    ensures Extends(g, HavingMayLike(e, g, column, Str("abc%")), Having, [BoundFragment(e, column, "like", Str("abc%"))])
    ensures Extends(g, HavingMayLike(e, g, column, Str("abc")), Having, [BoundFragment(e, column, "=", Str("abc"))])
  {
    assert e.castString(Str("%abc")) == Some("%abc");
    assert e.castString(Str("abc%")) == Some("abc%");
    assert e.castString(Str("abc")) == Some("abc");
  }

  // ---------------------------------------------------------------- keywords

  /** The `havingKeywords` closure adds one `" or "` group per column to the nested builder, in column order. */
  lemma {:induction false} KeywordsClosureShape(e: Env, value: Value, columns: seq<string>, b: Grammar)
    ensures Extends(b, KeywordsClosure(e, value, columns, b), Having, KeywordFragments(e, value, columns))
    decreases |columns|
  {
    if columns != [] {
      var m := OrHaving(e, b, NestedHaving(e, HavingMayLike(e, Empty, columns[0], value)));
      KeywordsClosureShape(e, value, columns[1..], m);
      ExtendsTrans(b, m, KeywordsClosure(e, value, columns[1..], m), Having,
                   [NestedFragment(e, NestedHaving(e, HavingMayLike(e, Empty, columns[0], value)), " or ")],
                   KeywordFragments(e, value, columns[1..]));
    }
  }

  /** The parameters one column's `havingMayLike` on a fresh builder binds: the value, unless it is `null`. */
  lemma MayLikeOnFreshBuilder(e: Env, column: string, value: Value)
    requires e.castString(Null) == None
    ensures Flatten(Bucket(HavingMayLike(e, Empty, column, value), Having)) == Repeat(value, if value.Null? then 0 else 1)
  {
    var f := MayLikeFragment(e, column, value);
    MayLikeAppendsOne(e, Empty, column, value);
    assert Bucket(HavingMayLike(e, Empty, column, value), Having) == [f];
    assert [f][1..] == [];
  }

  /** One column's `" or "` group binds the value, unless it is `null`. */
  lemma KeywordFragmentParameters(e: Env, value: Value, column: string)
    requires KeepsParameters(e) && e.castString(Null) == None
    ensures NestedFragment(e, NestedHaving(e, HavingMayLike(e, Empty, column, value)), " or ").params
         == Some(Repeat(value, if value.Null? then 0 else 1))
  {
    MayLikeOnFreshBuilder(e, column, value);
  }

  /** The parameter stream of the nested `havingKeywords` groups: the value once per column, or nothing if `null`. */
  lemma {:induction false} KeywordFragmentsParameters(e: Env, value: Value, columns: seq<string>)
    requires KeepsParameters(e) && e.castString(Null) == None
    ensures Flatten(KeywordFragments(e, value, columns)) == Repeat(value, if value.Null? then 0 else |columns|)
    decreases |columns|
  {
    if columns != [] {
      var fs := KeywordFragments(e, value, columns);
      var once := Repeat(value, if value.Null? then 0 else 1);
      KeywordFragmentParameters(e, value, columns[0]);
      KeywordFragmentsParameters(e, value, columns[1..]);
      assert fs[1..] == KeywordFragments(e, value, columns[1..]);
      assert Flatten(fs) == once + Flatten(fs[1..]);
      if !value.Null? {
        assert Repeat(value, |columns|) == [value] + Repeat(value, |columns| - 1);
      }
    }
  }

  /** `havingKeywords` appends one AND group binding the value once per column (nothing for `null`). */
  lemma KeywordsParameters(e: Env, g: Grammar, value: Value, columns: seq<string>)
    requires KeepsParameters(e) && e.castString(Null) == None
    ensures var r := HavingKeywords(e, g, value, columns);
      && |Bucket(r, Having)| == |Bucket(g, Having)| + 1
      && Bucket(r, Having)[|Bucket(g, Having)|].separator == " and "
      && Bucket(r, Having)[|Bucket(g, Having)|].params == Some(Repeat(value, if value.Null? then 0 else |columns|))
  {
    KeywordsClosureShape(e, value, columns, Empty);
    KeywordFragmentsParameters(e, value, columns);
    assert Bucket(KeywordsClosure(e, value, columns, Empty), Having) == KeywordFragments(e, value, columns);
  }

  /** The ignore-null closure on a `null` value leaves the nested builder untouched. */
  lemma {:induction false} KeywordsIgnoreNullClosureOnNull(e: Env, columns: seq<string>, b: Grammar)
    requires RendersEmptyAsEmpty(e)
    ensures KeywordsIgnoreNullClosure(e, Null, columns, b) == b
    decreases |columns|
  {
    if columns != [] {
      assert HavingMayLikeIgnoreNull(e, Empty, columns[0], Null) == Empty;
      assert Bucket(Empty, Having) == [];
      KeywordsIgnoreNullClosureOnNull(e, columns[1..], b);
    }
  }

  /** `havingKeywordsIgnoreNull(null, columns)` changes nothing. */
  lemma KeywordsIgnoreNullOnNull(e: Env, g: Grammar, columns: seq<string>)
    requires RendersEmptyAsEmpty(e)
    ensures HavingKeywordsIgnoreNull(e, g, Null, columns) == g
  {
    KeywordsIgnoreNullClosureOnNull(e, columns, Empty);
    assert Bucket(Empty, Having) == [];
  }

  /** With a non-null value, each ignore-null step of the closure is the plain step. */
  lemma {:induction false} KeywordsIgnoreNullClosureAgrees(e: Env, value: Value, columns: seq<string>, b: Grammar)
    requires RendersNonEmpty(e) && !value.Null?
    ensures KeywordsIgnoreNullClosure(e, value, columns, b) == KeywordsClosure(e, value, columns, b)
    decreases |columns|
  {
    if columns != [] {
      var inner := HavingMayLike(e, Empty, columns[0], value);
      assert HavingMayLikeIgnoreNull(e, Empty, columns[0], value) == inner;
      assert |Bucket(inner, Having)| == 1;
      assert NestedHaving(e, inner).sql != "";
      var m := OrHaving(e, b, NestedHaving(e, inner));
      KeywordsIgnoreNullClosureAgrees(e, value, columns[1..], m);
    }
  }

  /** With a non-null value and at least one column, `havingKeywordsIgnoreNull` is `havingKeywords`. */
  lemma KeywordsIgnoreNullAgrees(e: Env, g: Grammar, value: Value, columns: seq<string>)
    requires RendersNonEmpty(e) && !value.Null? && columns != []
    ensures HavingKeywordsIgnoreNull(e, g, value, columns) == HavingKeywords(e, g, value, columns)
  {
    KeywordsIgnoreNullClosureAgrees(e, value, columns, Empty);
    KeywordsClosureShape(e, value, columns, Empty);
    assert Bucket(KeywordsClosure(e, value, columns, Empty), Having) != [];
  }
}
