/**
 * The fragment store behind the query builder: one ordered bucket of SQL
 * fragments per clause kind, and the collaborators whose code is not part
 * of this model (identifier quoting, bracketing, placeholder text, nested
 * rendering, string coercion, order keywords), passed around as one `Env`.
 */
module SqlGrammar {
  import opened Wrappers

  /** A value bound to a placeholder; `Null` is Java's `null`. */
  datatype Value = Null | Str(s: string) | Num(n: int) | Flag(b: bool)

  /** The clause kinds that own a fragment bucket (`Grammar.SQLPartType`). */
  datatype SqlPartType = Select | From | Where | Group | Having | Order | Limit | Union

  /** Sort direction of `orderBy` (`OrderBy.ASC` / `OrderBy.DESC`). */
  datatype OrderBy = Asc | Desc

  /**
   * One call of `addSmartSeparator`: the SQL text, the parameter collection
   * exactly as passed (`None` for a Java `null`), and the separator that
   * attaches the fragment to its siblings.
   */
  datatype Fragment = Fragment(sql: string, params: Option<seq<Value>>, separator: string)

  /** `Grammar.SQLPartInfo`: the rendered text of a nested builder and its parameters. */
  datatype SqlPartInfo = SqlPartInfo(sql: string, params: seq<Value>)

  /**
   * Collaborators the builders call but whose code is not modelled:
   * `backQuote` (dialect quoting), `FormatUtils.bracket`, the placeholder
   * token of `replaceValueAndFillParameters`, the rendering of a fresh
   * nested builder's clause bucket (`generateSql`), `ConversionConfig.castNullable`
   * to `String`, and `OrderBy.getOperation`.
   */
  datatype Env = Env(
    backQuote: string -> string,
    bracket: string -> string,
    placeholder: Value -> string,
    render: seq<Fragment> -> SqlPartInfo,
    castString: Value -> Option<string>,
    operation: OrderBy -> string)

  /** The builder's grammar: a bucket of fragments per clause kind; a missing key is an empty bucket. */
  type Grammar = map<SqlPartType, seq<Fragment>>

  /** The grammar of a freshly created builder. */
  const Empty: Grammar := map[]

  /** The fragments recorded so far for clause kind `k`, in insertion order. */
  function Bucket(g: Grammar, k: SqlPartType): seq<Fragment> {
    if k in g then g[k] else []
  }

  /** `r` is `g` with `added` appended to bucket `k`, every other bucket untouched. */
  ghost predicate Extends(g: Grammar, r: Grammar, k: SqlPartType, added: seq<Fragment>) {
    && Bucket(r, k) == Bucket(g, k) + added
    && forall k' :: k' != k ==> Bucket(r, k') == Bucket(g, k')
  }

  /** Two successive extensions of one bucket are one extension by both lists. */
  lemma ExtendsTrans(g: Grammar, m: Grammar, r: Grammar, k: SqlPartType, a: seq<Fragment>, b: seq<Fragment>)
    requires Extends(g, m, k, a) && Extends(m, r, k, b)
    ensures Extends(g, r, k, a + b)
  {
    assert Bucket(g, k) + a + b == Bucket(g, k) + (a + b);
  }

  /**
   * `addSmartSeparator`: appends one fragment to the tail of bucket `k`.
   * The leading-separator suppression happens when rendering, which is not modelled.
   */
  function AddSmartSeparator(g: Grammar, k: SqlPartType, sql: string, params: Option<seq<Value>>,
                             separator: string): (r: Grammar)
    ensures Extends(g, r, k, [Fragment(sql, params, separator)])
    ensures k in r
  {
    g[k := Bucket(g, k) + [Fragment(sql, params, separator)]]
  }

  /** `replaceValueAndFillParameters`: one placeholder token for `v`, and `v` appended to the parameters. */
  function FillValue(e: Env, v: Value, params: seq<Value>): (string, seq<Value>) {
    (e.placeholder(v), params + [v])
  }

  /**
   * `replaceValuesAndFillParameters`: the placeholder tokens of `vs` joined by
   * `sep`, with the values appended to the parameters in iteration order.
   */
  function FillValues(e: Env, vs: seq<Value>, params: seq<Value>, sep: string): (r: (string, seq<Value>))
    ensures r.1 == params + vs
    decreases |vs|
  {
    if vs == [] then ("", params)
    else if |vs| == 1 then FillValue(e, vs[0], params)
    else
      var (token, params1) := FillValue(e, vs[0], params);
      var (rest, params2) := FillValues(e, vs[1..], params1, sep);
      assert params1 + vs[1..] == params + vs;
      (token + sep + rest, params2)
  }

  /** All parameters of a bucket, fragment after fragment; a `null` collection binds nothing. */
  function Flatten(fs: seq<Fragment>): seq<Value> {
    if fs == [] then [] else fs[0].params.GetOr([]) + Flatten(fs[1..])
  }

  /** Rendering keeps the parameters of the rendered fragments, in order. */
  ghost predicate KeepsParameters(e: Env) {
    forall fs :: e.render(fs).params == Flatten(fs)
  }

  /** Rendering an empty bucket yields empty SQL text. */
  ghost predicate RendersEmptyAsEmpty(e: Env) {
    e.render([]).sql == ""
  }

  /** Rendering a non-empty bucket yields non-empty SQL text. */
  ghost predicate RendersNonEmpty(e: Env) {
    forall fs :: fs != [] ==> e.render(fs).sql != ""
  }
}
