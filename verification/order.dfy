/**
 * The ORDER-BY DSL of `OrderBuilder`: each call appends at most one
 * parameter-free fragment, separated by `","`, to the ORDER bucket and
 * leaves every other bucket as it was.
 */
module OrderBuilder {
  import opened Wrappers
  import opened SqlGrammar

  /** An ORDER fragment as `orderGrammar(sqlPart, null)` records it. */
  function OrderFragment(sql: string): Fragment {
    Fragment(sql, None, ",")
  }

  /** `orderGrammar(sqlPart, parameters)`: unconditionally appends one ORDER fragment with separator `","`. */
  function OrderGrammar(g: Grammar, sqlPart: string, params: Option<seq<Value>>): (r: Grammar)
    ensures Extends(g, r, Order, [Fragment(sqlPart, params, ",")])
  {
    AddSmartSeparator(g, Order, sqlPart, params, ",")
  }

  /** `orderByRaw(sqlPart)`: a null or empty part is ignored; otherwise it is recorded verbatim. */
  function OrderByRaw(g: Grammar, sqlPart: Option<string>): (r: Grammar)
    ensures (sqlPart.None? || sqlPart.value == "") ==> r == g
    ensures sqlPart.Some? && sqlPart.value != "" ==> Extends(g, r, Order, [OrderFragment(sqlPart.value)])
  {
    if sqlPart.None? || sqlPart.value == "" then g else OrderGrammar(g, sqlPart.value, None)
  }

  /** `orderBy(column, type)`: a null column is ignored; otherwise `column direction` is appended. */
  function OrderByColumn(e: Env, g: Grammar, column: Option<string>, direction: OrderBy): (r: Grammar)
    ensures column.None? ==> r == g
    ensures column.Some? ==>
      Extends(g, r, Order, [OrderFragment(e.backQuote(column.value) + " " + e.operation(direction))])
  {
    if column.Some? then OrderByRaw(g, Some(e.backQuote(column.value) + " " + e.operation(direction)))
    else g
  }

  /** `orderBy(column)`: ascending. */
  function OrderByAsc(e: Env, g: Grammar, column: Option<string>): (r: Grammar)
    ensures column.None? ==> r == g
    ensures column.Some? ==>
      Extends(g, r, Order, [OrderFragment(e.backQuote(column.value) + " " + e.operation(Asc))])
  {
    OrderByColumn(e, g, column, Asc)
  }
}
