/**
 * The HAVING-clause DSL of `HavingBuilder`: every fluent call becomes zero
 * or one append (or one per entry, for the map forms) on the HAVING bucket.
 * Each method is a pure `Grammar -> Grammar` function; closures are taken
 * as their already rendered `SqlPartInfo`.
 */
module HavingBuilder {
  import opened Wrappers
  import opened SqlGrammar

  /** A column/value pair of a Java `Map`, in iteration order. */
  type Entry = (string, Value)

  /** `ObjectUtils.isEmpty` on a nullable string. */
  predicate IsEmptyText(s: Option<string>) {
    s.None? || s.value == ""
  }

  /** `ObjectUtils.isEmpty` on a nullable collection or array. */
  predicate IsEmptySeq<T>(s: Option<seq<T>>) {
    s.None? || s.value == []
  }

  /** `s.endsWith("%") || s.startsWith("%")`. */
  predicate IsLikePattern(s: string) {
    |s| > 0 && (s[|s| - 1] == '%' || s[0] == '%')
  }

  /** The `havingMayLike` test: the string form of `value` is non-null and starts or ends with `%`. */
  predicate TakesLikePath(e: Env, value: Value) {
    var s := e.castString(value);
    s.Some? && IsLikePattern(s.value)
  }

  /** A parameter-free fragment attached with `" and "`, as `havingRaw(sqlPart)` records it. */
  function PlainFragment(sql: string): Fragment {
    Fragment(sql, None, " and ")
  }

  /** The fragment `column symbol ?` binding exactly `value`, attached with `" and "`. */
  function BoundFragment(e: Env, column: string, symbol: string, value: Value): Fragment {
    Fragment(e.backQuote(column) + symbol + e.placeholder(value), Some([value]), " and ")
  }

  /** A nested closure's rendering, bracketed and attached with `separator`, carrying its parameters. */
  function NestedFragment(e: Env, info: SqlPartInfo, separator: string): Fragment {
    Fragment(e.bracket(info.sql), Some(info.params), separator)
  }

  /** `generateSql(closure, HAVING)`: render the HAVING bucket of the builder a closure produced. */
  function NestedHaving(e: Env, b: Grammar): SqlPartInfo {
    e.render(Bucket(b, Having))
  }

  // ---------------------------------------------------------------- raw

  /** `havingGrammar`: unconditionally appends one HAVING fragment. */
  function HavingGrammar(g: Grammar, sqlPart: string, params: Option<seq<Value>>, separator: string): (r: Grammar)
    ensures Extends(g, r, Having, [Fragment(sqlPart, params, separator)])
  {
    AddSmartSeparator(g, Having, sqlPart, params, separator)
  }

  /** `havingRaw(sqlPart, parameters)`. */
  function HavingRawWith(g: Grammar, sqlPart: Option<string>, params: Option<seq<Value>>): (r: Grammar)
    ensures IsEmptyText(sqlPart) ==> r == g
    ensures !IsEmptyText(sqlPart) && IsEmptySeq(params) ==>
      Extends(g, r, Having, [Fragment(sqlPart.value, None, " and ")])
    ensures !IsEmptyText(sqlPart) && !IsEmptySeq(params) ==>
      Extends(g, r, Having, [Fragment(sqlPart.value, params, " and ")])
  {
    if IsEmptyText(sqlPart) then g
    else HavingGrammar(g, sqlPart.value, if IsEmptySeq(params) then None else params, " and ")
  }

  /** `havingRaw(sqlPart)`. */
  function HavingRaw(g: Grammar, sqlPart: Option<string>): (r: Grammar)
    ensures IsEmptyText(sqlPart) ==> r == g
    ensures !IsEmptyText(sqlPart) ==> Extends(g, r, Having, [PlainFragment(sqlPart.value)])
  {
    if IsEmptyText(sqlPart) then g else HavingGrammar(g, sqlPart.value, None, " and ")
  }

  /** The fragments `havingRaw` records for a list of raw parts: one per non-empty part, in order. */
  function RawFragments(parts: seq<Option<string>>): (fs: seq<Fragment>)
    ensures |fs| <= |parts|
    ensures forall f :: f in fs ==> f.sql != "" && f.params == None && f.separator == " and "
    ensures (forall i :: 0 <= i < |parts| ==> !IsEmptyText(parts[i])) ==>
      |fs| == |parts| && forall i :: 0 <= i < |parts| ==> fs[i] == PlainFragment(parts[i].value)
  {
    if parts == [] then []
    else (if IsEmptyText(parts[0]) then [] else [PlainFragment(parts[0].value)]) + RawFragments(parts[1..])
  }

  /** The loop of `havingRaw(sqlParts)`: `havingRaw` once per part, in order. */
  function HavingRawEach(g: Grammar, parts: seq<Option<string>>): (r: Grammar)
    decreases |parts|
    ensures Extends(g, r, Having, RawFragments(parts))
  {
    if parts == [] then g
    else
      var m := HavingRaw(g, parts[0]);
      var r := HavingRawEach(m, parts[1..]);
      ExtendsTrans(g, m, r, Having,
                   if IsEmptyText(parts[0]) then [] else [PlainFragment(parts[0].value)], RawFragments(parts[1..]));
      r
  }

  /** `havingRaw(Collection<String> sqlParts)`. */
  function HavingRaws(g: Grammar, sqlParts: Option<seq<Option<string>>>): (r: Grammar)
    ensures IsEmptySeq(sqlParts) ==> r == g
    ensures sqlParts.Some? ==> Extends(g, r, Having, RawFragments(sqlParts.value))
  {
    if IsEmptySeq(sqlParts) then g else HavingRawEach(g, sqlParts.value)
  }

  // ---------------------------------------------------------------- comparisons

  /** `having(column, symbol, value)`. */
  function HavingOp(e: Env, g: Grammar, column: string, symbol: string, value: Value): (r: Grammar)
    ensures Extends(g, r, Having, [BoundFragment(e, column, symbol, value)])
  {
    var filled := FillValue(e, value, []);
    assert filled.1 == [value];
    HavingGrammar(g, e.backQuote(column) + symbol + filled.0, Some(filled.1), " and ")
  }

  /** `havingIgnoreNull(column, symbol, value)`. */
  function HavingOpIgnoreNull(e: Env, g: Grammar, column: string, symbol: string, value: Value): (r: Grammar)
    ensures value.Null? ==> r == g
    ensures !value.Null? ==> Extends(g, r, Having, [BoundFragment(e, column, symbol, value)])
  {
    if value.Null? then g else HavingOp(e, g, column, symbol, value)
  }

  /** `havingNull(column)`. */
  function HavingNull(e: Env, g: Grammar, column: string): (r: Grammar)
    ensures Extends(g, r, Having, [PlainFragment(e.backQuote(column) + "is null")])
  {
    HavingRaw(g, Some(e.backQuote(column) + "is null"))
  }

  /** `havingNotNull(column)`. */
  function HavingNotNull(e: Env, g: Grammar, column: string): (r: Grammar)
    ensures Extends(g, r, Having, [PlainFragment(e.backQuote(column) + "is not null")])
  {
    HavingRaw(g, Some(e.backQuote(column) + "is not null"))
  }

  /** `having(column, value)`: a null value routes to `is null`, anything else to `=`. */
  function HavingValue(e: Env, g: Grammar, column: string, value: Value): (r: Grammar)
    ensures value.Null? ==> Extends(g, r, Having, [PlainFragment(e.backQuote(column) + "is null")])
    ensures !value.Null? ==> Extends(g, r, Having, [BoundFragment(e, column, "=", value)])
  {
    if value.Null? then HavingNull(e, g, column) else HavingOp(e, g, column, "=", value)
  }

  /** `havingIgnoreNull(column, value)`. */
  function HavingValueIgnoreNull(e: Env, g: Grammar, column: string, value: Value): (r: Grammar)
    ensures value.Null? ==> r == g
    ensures !value.Null? ==> Extends(g, r, Having, [BoundFragment(e, column, "=", value)])
  {
    if value.Null? then g else HavingValue(e, g, column, value)
  }

  /** The fragment `having(column, value)` appends. */
  function EqFragment(e: Env, column: string, value: Value): Fragment {
    if value.Null? then PlainFragment(e.backQuote(column) + "is null") else BoundFragment(e, column, "=", value)
  }

  /** One `EqFragment` per entry, in entry order. */
  function EqFragments(e: Env, entries: seq<Entry>): (fs: seq<Fragment>)
    ensures |fs| == |entries|
    ensures forall i :: 0 <= i < |entries| ==> fs[i] == EqFragment(e, entries[i].0, entries[i].1)
  {
    if entries == [] then [] else [EqFragment(e, entries[0].0, entries[0].1)] + EqFragments(e, entries[1..])
  }

  /** `having(Map)` (and `having(entity)` on its column/value map): `having(column, value)` per entry. */
  function HavingMap(e: Env, g: Grammar, entries: seq<Entry>): (r: Grammar)
    decreases |entries|
    ensures Extends(g, r, Having, EqFragments(e, entries))
  {
    if entries == [] then g
    else
      var m := HavingValue(e, g, entries[0].0, entries[0].1);
      var r := HavingMap(e, m, entries[1..]);
      ExtendsTrans(g, m, r, Having, [EqFragment(e, entries[0].0, entries[0].1)], EqFragments(e, entries[1..]));
      r
  }

  /** The loop of `havingIgnoreNull(Map)`: `havingIgnoreNull(column, value)` per entry. */
  function HavingIgnoreNullEach(e: Env, g: Grammar, entries: seq<Entry>): Grammar
    decreases |entries|
  {
    if entries == [] then g
    else HavingIgnoreNullEach(e, HavingValueIgnoreNull(e, g, entries[0].0, entries[0].1), entries[1..])
  }

  /** `havingIgnoreNull(Map)`; a null map is ignored. */
  function HavingMapIgnoreNull(e: Env, g: Grammar, entries: Option<seq<Entry>>): (r: Grammar)
    ensures entries.None? ==> r == g
  {
    if entries.None? then g else HavingIgnoreNullEach(e, g, entries.value)
  }

  // ---------------------------------------------------------------- like

  /** `havingLike(column, value)`: delegates to `havingIgnoreNull(column, "like", value)`. */
  function HavingLike(e: Env, g: Grammar, column: string, value: Value): (r: Grammar)
    ensures value.Null? ==> r == g
    ensures !value.Null? ==> Extends(g, r, Having, [BoundFragment(e, column, "like", value)])
  {
    HavingOpIgnoreNull(e, g, column, "like", value)
  }

  /** The loop of `havingLike(Map)`. */
  function HavingLikeEach(e: Env, g: Grammar, entries: seq<Entry>): Grammar
    decreases |entries|
  {
    if entries == [] then g
    else HavingLikeEach(e, HavingLike(e, g, entries[0].0, entries[0].1), entries[1..])
  }

  /** `havingLike(Map)` (and `havingLike(entity)`); a null or empty map is ignored. */
  function HavingLikeMap(e: Env, g: Grammar, entries: Option<seq<Entry>>): (r: Grammar)
    ensures IsEmptySeq(entries) ==> r == g
  {
    if IsEmptySeq(entries) then g else HavingLikeEach(e, g, entries.value)
  }

  /** `havingMayLike(column, value)`: LIKE when the string form looks like a pattern, equality otherwise. */
  function HavingMayLike(e: Env, g: Grammar, column: string, value: Value): (r: Grammar)
    ensures TakesLikePath(e, value) && value.Null? ==> r == g
    ensures TakesLikePath(e, value) && !value.Null? ==>
      Extends(g, r, Having, [BoundFragment(e, column, "like", value)])
    ensures !TakesLikePath(e, value) && value.Null? ==>
      Extends(g, r, Having, [PlainFragment(e.backQuote(column) + "is null")])
    ensures !TakesLikePath(e, value) && !value.Null? ==>
      Extends(g, r, Having, [BoundFragment(e, column, "=", value)])
  {
    var s := e.castString(value);
    if s.Some? && IsLikePattern(s.value) then HavingLike(e, g, column, value)
    else HavingValue(e, g, column, value)
  }

  /** `havingMayLikeIgnoreNull(column, value)`. */
  function HavingMayLikeIgnoreNull(e: Env, g: Grammar, column: string, value: Value): (r: Grammar)
    ensures value.Null? ==> r == g
    ensures !value.Null? && TakesLikePath(e, value) ==>
      Extends(g, r, Having, [BoundFragment(e, column, "like", value)])
    ensures !value.Null? && !TakesLikePath(e, value) ==>
      Extends(g, r, Having, [BoundFragment(e, column, "=", value)])
  {
    if value.Null? then g else HavingMayLike(e, g, column, value)
  }

  /** The loop of `havingMayLike(Map)`. */
  function HavingMayLikeEach(e: Env, g: Grammar, entries: seq<Entry>): Grammar
    decreases |entries|
  {
    if entries == [] then g
    else HavingMayLikeEach(e, HavingMayLike(e, g, entries[0].0, entries[0].1), entries[1..])
  }

  /** `havingMayLike(Map)` (and `havingMayLike(entity)`); a null or empty map is ignored. */
  function HavingMayLikeMap(e: Env, g: Grammar, entries: Option<seq<Entry>>): (r: Grammar)
    ensures IsEmptySeq(entries) ==> r == g
  {
    if IsEmptySeq(entries) then g else HavingMayLikeEach(e, g, entries.value)
  }

  /** The loop of `havingMayLikeIgnoreNull(Map)`. */
  function HavingMayLikeIgnoreNullEach(e: Env, g: Grammar, entries: seq<Entry>): Grammar
    decreases |entries|
  {
    if entries == [] then g
    else HavingMayLikeIgnoreNullEach(e, HavingMayLikeIgnoreNull(e, g, entries[0].0, entries[0].1), entries[1..])
  }

  /** `havingMayLikeIgnoreNull(Map)`; a null or empty map is ignored. */
  function HavingMayLikeIgnoreNullMap(e: Env, g: Grammar, entries: Option<seq<Entry>>): (r: Grammar)
    ensures IsEmptySeq(entries) ==> r == g
  {
    if IsEmptySeq(entries) then g else HavingMayLikeIgnoreNullEach(e, g, entries.value)
  }

  // ---------------------------------------------------------------- in / between

  /** The placeholder list of `in (...)`, as `replaceValuesAndFillParameters(values, params, ",")` writes it. */
  function InList(e: Env, values: seq<Value>): string {
    FillValues(e, values, [], ",").0
  }

  /** `havingIn(column, values)` (collection and array forms). */
  function HavingIn(e: Env, g: Grammar, column: string, values: seq<Value>): (r: Grammar)
    ensures Extends(g, r, Having,
                    [Fragment(e.backQuote(column) + "in" + e.bracket(InList(e, values)), Some(values), " and ")])
  {
    var filled := FillValues(e, values, [], ",");
    assert filled.1 == values;
    HavingGrammar(g, e.backQuote(column) + "in" + e.bracket(filled.0), Some(filled.1), " and ")
  }

  /** `havingNotIn(column, values)` (collection and array forms). */
  function HavingNotIn(e: Env, g: Grammar, column: string, values: seq<Value>): (r: Grammar)
    ensures Extends(g, r, Having,
                    [Fragment(e.backQuote(column) + "not in" + e.bracket(InList(e, values)), Some(values), " and ")])
  {
    var filled := FillValues(e, values, [], ",");
    assert filled.1 == values;
    HavingGrammar(g, e.backQuote(column) + "not in" + e.bracket(filled.0), Some(filled.1), " and ")
  }

  /** `havingInIgnoreEmpty(column, values)` (collection and array forms). */
  function HavingInIgnoreEmpty(e: Env, g: Grammar, column: string, values: Option<seq<Value>>): (r: Grammar)
    ensures IsEmptySeq(values) ==> r == g
    ensures !IsEmptySeq(values) ==> r == HavingIn(e, g, column, values.value)
  {
    if IsEmptySeq(values) then g else HavingIn(e, g, column, values.value)
  }

  /** `havingNotInIgnoreEmpty(column, values)` (collection and array forms). */
  function HavingNotInIgnoreEmpty(e: Env, g: Grammar, column: string, values: Option<seq<Value>>): (r: Grammar)
    ensures IsEmptySeq(values) ==> r == g
    ensures !IsEmptySeq(values) ==> r == HavingNotIn(e, g, column, values.value)
  {
    if IsEmptySeq(values) then g else HavingNotIn(e, g, column, values.value)
  }

  /** `havingIn(column, closure)`: the sub-query's parameters are carried unchanged. */
  function HavingInQuery(e: Env, g: Grammar, column: string, info: SqlPartInfo): (r: Grammar)
    ensures Extends(g, r, Having, [Fragment(e.backQuote(column) + "in" + e.bracket(info.sql), Some(info.params), " and ")])
  {
    HavingGrammar(g, e.backQuote(column) + "in" + e.bracket(info.sql), Some(info.params), " and ")
  }

  /** `havingNotIn(column, closure)`. */
  function HavingNotInQuery(e: Env, g: Grammar, column: string, info: SqlPartInfo): (r: Grammar)
    ensures Extends(g, r, Having, [Fragment(e.backQuote(column) + "not in" + e.bracket(info.sql), Some(info.params), " and ")])
  {
    HavingGrammar(g, e.backQuote(column) + "not in" + e.bracket(info.sql), Some(info.params), " and ")
  }

  /** `havingInRaw(column, sql)`: the text contains `in`, so it is never dropped as empty. */
  function HavingInRaw(e: Env, g: Grammar, column: string, sql: string): (r: Grammar)
    ensures Extends(g, r, Having, [PlainFragment(e.backQuote(column) + "in" + e.bracket(sql))])
  {
    HavingRaw(g, Some(e.backQuote(column) + "in" + e.bracket(sql)))
  }

  /** `havingNotInRaw(column, sql)`. */
  function HavingNotInRaw(e: Env, g: Grammar, column: string, sql: string): (r: Grammar)
    ensures Extends(g, r, Having, [PlainFragment(e.backQuote(column) + "not in" + e.bracket(sql))])
  {
    HavingRaw(g, Some(e.backQuote(column) + "not in" + e.bracket(sql)))
  }

  /** `havingBetween(column, min, max)`: binds `min` then `max`, never reordered. */
  function HavingBetween(e: Env, g: Grammar, column: string, min: Value, max: Value): (r: Grammar)
    ensures Extends(g, r, Having,
      [Fragment(e.backQuote(column) + "between" + e.placeholder(min) + "and" + e.placeholder(max),
                Some([min, max]), " and ")])
  {
    var first := FillValue(e, min, []);
    var second := FillValue(e, max, first.1);
    assert second.1 == [min, max];
    HavingGrammar(g, e.backQuote(column) + "between" + first.0 + "and" + second.0, Some(second.1), " and ")
  }

  /** `havingNotBetween(column, min, max)`. */
  function HavingNotBetween(e: Env, g: Grammar, column: string, min: Value, max: Value): (r: Grammar)
    ensures Extends(g, r, Having,
      [Fragment(e.backQuote(column) + "not between" + e.placeholder(min) + "and" + e.placeholder(max),
                Some([min, max]), " and ")])
  {
    var first := FillValue(e, min, []);
    var second := FillValue(e, max, first.1);
    assert second.1 == [min, max];
    HavingGrammar(g, e.backQuote(column) + "not between" + first.0 + "and" + second.0, Some(second.1), " and ")
  }

  // ---------------------------------------------------------------- exists / sub-queries / columns

  /** `havingExistsRaw(sql)`. */
  function HavingExistsRaw(e: Env, g: Grammar, sql: string): (r: Grammar)
    ensures Extends(g, r, Having, [PlainFragment("exists " + e.bracket(sql))])
  {
    HavingRaw(g, Some("exists " + e.bracket(sql)))
  }

  /** `havingNotExistsRaw(sql)`. */
  function HavingNotExistsRaw(e: Env, g: Grammar, sql: string): (r: Grammar)
    ensures Extends(g, r, Having, [PlainFragment("not exists " + e.bracket(sql))])
  {
    HavingRaw(g, Some("not exists " + e.bracket(sql)))
  }

  /** `havingExists(closure)`: the sub-query's parameters are carried unchanged. */
  function HavingExists(e: Env, g: Grammar, info: SqlPartInfo): (r: Grammar)
    ensures Extends(g, r, Having, [Fragment("exists " + e.bracket(info.sql), Some(info.params), " and ")])
  {
    HavingGrammar(g, "exists " + e.bracket(info.sql), Some(info.params), " and ")
  }

  /** `havingNotExists(closure)`. */
  function HavingNotExists(e: Env, g: Grammar, info: SqlPartInfo): (r: Grammar)
    ensures Extends(g, r, Having, [Fragment("not exists " + e.bracket(info.sql), Some(info.params), " and ")])
  {
    HavingGrammar(g, "not exists " + e.bracket(info.sql), Some(info.params), " and ")
  }

  /** `havingSubQuery(column, symbol, completeSql)`: raw, so dropped only if the whole text is empty. */
  function HavingSubQueryRaw(e: Env, g: Grammar, column: string, symbol: string, completeSql: string): (r: Grammar)
    ensures var text := e.backQuote(column) + symbol + e.bracket(completeSql);
      && (text == "" ==> r == g)
      && (text != "" ==> Extends(g, r, Having, [PlainFragment(text)]))
  {
    HavingRaw(g, Some(e.backQuote(column) + symbol + e.bracket(completeSql)))
  }

  /** `havingSubQuery(column, symbol, closure)`. */
  function HavingSubQuery(e: Env, g: Grammar, column: string, symbol: string, info: SqlPartInfo): (r: Grammar)
    ensures Extends(g, r, Having, [Fragment(e.backQuote(column) + symbol + e.bracket(info.sql), Some(info.params), " and ")])
  {
    HavingGrammar(g, e.backQuote(column) + symbol + e.bracket(info.sql), Some(info.params), " and ")
  }

  /** `havingColumn(column1, symbol, column2)`: two identifiers, nothing bound. */
  function HavingColumn(e: Env, g: Grammar, column1: string, symbol: string, column2: string): (r: Grammar)
    ensures Flatten(Bucket(r, Having)) == Flatten(Bucket(g, Having))
    ensures var text := e.backQuote(column1) + symbol + e.backQuote(column2);
      && (text == "" ==> r == g)
      && (text != "" ==> Extends(g, r, Having, [PlainFragment(text)]))
  {
    var r := HavingRaw(g, Some(e.backQuote(column1) + symbol + e.backQuote(column2)));
    FlattenPlainAppend(g, r, e.backQuote(column1) + symbol + e.backQuote(column2));
    r
  }

  /** `havingColumn(column1, column2)`: `havingColumn(column1, "=", column2)`. */
  function HavingColumnEq(e: Env, g: Grammar, column1: string, column2: string): (r: Grammar)
    ensures Flatten(Bucket(r, Having)) == Flatten(Bucket(g, Having))
    ensures Extends(g, r, Having, [PlainFragment(e.backQuote(column1) + "=" + e.backQuote(column2))])
  {
    HavingColumn(e, g, column1, "=", column2)
  }

  /** The parameters of a bucket extended by `added` are the old ones followed by those of `added`. */
  lemma {:induction false} FlattenAppend(a: seq<Fragment>, b: seq<Fragment>)
    ensures Flatten(a + b) == Flatten(a) + Flatten(b)
  {
    if a == [] {
      assert a + b == b;
    } else {
      assert (a + b)[1..] == a[1..] + b;
      FlattenAppend(a[1..], b);
    }
  }

  /** Appending a parameter-free fragment adds no parameter. */
  lemma FlattenPlainAppend(g: Grammar, r: Grammar, text: string)
    requires r == g || Extends(g, r, Having, [PlainFragment(text)])
    ensures Flatten(Bucket(r, Having)) == Flatten(Bucket(g, Having))
  {
    if r != g {
      FlattenAppend(Bucket(g, Having), [PlainFragment(text)]);
    }
  }

  // ---------------------------------------------------------------- nesting

  /** `andHaving(closure)`: the closure's rendering, bracketed, attached with `" and "`. */
  function AndHaving(e: Env, g: Grammar, info: SqlPartInfo): (r: Grammar)
    ensures Extends(g, r, Having, [NestedFragment(e, info, " and ")])
  {
    HavingGrammar(g, e.bracket(info.sql), Some(info.params), " and ")
  }

  /** `orHaving(closure)`: the closure's rendering, bracketed, attached with `" or "`. */
  function OrHaving(e: Env, g: Grammar, info: SqlPartInfo): (r: Grammar)
    ensures Extends(g, r, Having, [NestedFragment(e, info, " or ")])
  {
    HavingGrammar(g, e.bracket(info.sql), Some(info.params), " or ")
  }

  /** `andHavingIgnoreEmpty(closure)`: nothing when the closure rendered no SQL. */
  function AndHavingIgnoreEmpty(e: Env, g: Grammar, info: SqlPartInfo): (r: Grammar)
    ensures info.sql == "" ==> r == g
    ensures info.sql != "" ==> r == AndHaving(e, g, info)
  {
    if info.sql == "" then g else AndHaving(e, g, info)
  }

  /** `orHavingIgnoreEmpty(closure)`: nothing when the closure rendered no SQL. */
  function OrHavingIgnoreEmpty(e: Env, g: Grammar, info: SqlPartInfo): (r: Grammar)
    ensures info.sql == "" ==> r == g
    ensures info.sql != "" ==> r == OrHaving(e, g, info)
  {
    if info.sql == "" then g else OrHaving(e, g, info)
  }

  // ---------------------------------------------------------------- keywords

  /** The closure of `havingKeywords` run on builder `b`: one `orHaving(inner -> inner.havingMayLike(column, value))` per column. */
  function KeywordsClosure(e: Env, value: Value, columns: seq<string>, b: Grammar): Grammar
    decreases |columns|
  {
    if columns == [] then b
    else KeywordsClosure(e, value, columns[1..],
                         OrHaving(e, b, NestedHaving(e, HavingMayLike(e, Empty, columns[0], value))))
  }

  /** `havingKeywords(value, columns)` (collection and varargs forms). */
  function HavingKeywords(e: Env, g: Grammar, value: Value, columns: seq<string>): (r: Grammar)
    ensures Extends(g, r, Having, [NestedFragment(e, NestedHaving(e, KeywordsClosure(e, value, columns, Empty)), " and ")])
  {
    AndHaving(e, g, NestedHaving(e, KeywordsClosure(e, value, columns, Empty)))
  }

  /** The closure of `havingKeywordsIgnoreNull`: one `orHavingIgnoreEmpty(inner -> inner.havingMayLikeIgnoreNull(column, value))` per column. */
  function KeywordsIgnoreNullClosure(e: Env, value: Value, columns: seq<string>, b: Grammar): Grammar
    decreases |columns|
  {
    if columns == [] then b
    else KeywordsIgnoreNullClosure(e, value, columns[1..],
                                   OrHavingIgnoreEmpty(e, b, NestedHaving(e, HavingMayLikeIgnoreNull(e, Empty, columns[0], value))))
  }

  /** `havingKeywordsIgnoreNull(value, columns)` (collection and varargs forms). */
  function HavingKeywordsIgnoreNull(e: Env, g: Grammar, value: Value, columns: seq<string>): (r: Grammar)
    ensures var info := NestedHaving(e, KeywordsIgnoreNullClosure(e, value, columns, Empty));
      && (info.sql == "" ==> r == g)
      && (info.sql != "" ==> Extends(g, r, Having, [NestedFragment(e, info, " and ")]))
  {
    AndHavingIgnoreEmpty(e, g, NestedHaving(e, KeywordsIgnoreNullClosure(e, value, columns, Empty)))
  }
}
