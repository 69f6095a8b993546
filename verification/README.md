# HAVING and ORDER BY builders of gaarason database-all, in Dafny

This project models the predicate-composition layer of the `gaarason`
query builder: the HAVING-clause DSL of `HavingBuilder` and the ORDER-BY
DSL of `OrderBuilder`. Every fluent call of those classes ends in zero or
more calls of `grammar.addSmartSeparator(partType, sqlPart, parameters,
separator)`, which appends one fragment to the bucket of one clause kind.

The model is functional:

- `SqlGrammar.Grammar` is a map from a clause kind (`SqlPartType`:
  `Having`, `Order`, `Where`, …) to the `seq<Fragment>` recorded for it; a
  missing key is an empty bucket (`Bucket`).
- A `Fragment` is the triple handed to `addSmartSeparator`: SQL text, the
  parameter collection exactly as passed (`None` for a Java `null`), and the
  separator.
- Every builder method is a pure `Grammar -> Grammar` function. Java
  overloads get distinct names (`HavingOp` is `having(column, symbol,
  value)`, `HavingValue` is `having(column, value)`, `HavingMap` is
  `having(Map)`, `OrderByColumn` is `orderBy(column, type)`, …).
- A closure argument (`andHaving`, `orHaving`, `havingIn(column, closure)`,
  `havingExists`, `havingSubQuery(…, closure)`) is taken as its already
  rendered `SqlPartInfo(sql, params)`. The closures that `havingKeywords`
  builds itself are modelled: each runs on an empty grammar and is rendered
  with `Env.render`.
- Map and entity overloads take the map's entries as a `seq<(string, Value)>`
  in iteration order.
- The collaborators whose code is not part of this model are fields of one
  `Env` value passed to every operation: `backQuote`, `FormatUtils.bracket`,
  the placeholder token of `replaceValueAndFillParameters`, the rendering of
  a nested builder's HAVING bucket, `ConversionConfig.castNullable(value,
  String.class)` and `OrderBy.getOperation`. `replaceValueAndFillParameters`
  and `replaceValuesAndFillParameters` are given the minimal contract "one
  placeholder token per value, and that value appended to the parameter
  list, in order" (`FillValue`, `FillValues`); the list text `FillValues`
  builds is an assumption, recorded under "## Left out".
- `Extends(g, r, k, added)` is the central statement: `r` is `g` with
  `added` appended to bucket `k` and every other bucket unchanged.

Facts about rendering are never assumed globally. The lemmas that need
one take it as a precondition: `KeepsParameters` (rendering keeps the
fragments' parameters, in order), `RendersEmptyAsEmpty` (an empty bucket
renders to `""`) and `RendersNonEmpty`.

Two behaviours of the code worth stating plainly:

- `havingIn` does not reject an empty list:
  HavingBuilder.java:227-233 makes no emptiness check, so the model appends
  the `in` fragment with no parameters.
- `havingKeywordsIgnoreNull` skips only a `null` value
  (HavingBuilder.java:176-181 tests `isNull`, not `isEmpty`), so an empty
  string is still searched.

Files: `wrappers.dfy` (`Option`), `grammar.dfy` (module `SqlGrammar`),
`having.dfy` (module `HavingBuilder`), `order.dfy` (module `OrderBuilder`),
`having_properties.dfy` (module `HavingProperties`, the lemmas relating
several calls).

## Model

| member | source | states |
|---|---|---|
| SqlGrammar.AddSmartSeparator | database-query/src/main/java/gaarason/database/query/HavingBuilder.java:33-35 | appends exactly one fragment with the given text, parameters and separator to the named clause bucket; every other bucket is unchanged |
| SqlGrammar.FillValues | database-query/src/main/java/gaarason/database/query/HavingBuilder.java:229-230 | the value-list placeholder helper appends the list's values to the parameters, all of them, in iteration order |
| HavingBuilder.HavingGrammar | database-query/src/main/java/gaarason/database/query/HavingBuilder.java:33-36 | `havingGrammar` appends exactly one HAVING fragment and leaves the other clause buckets alone |
| HavingBuilder.HavingRawWith | database-query/src/main/java/gaarason/database/query/HavingBuilder.java:38-44 | a null or empty SQL part changes nothing; otherwise one `" and "` fragment is appended, and an empty parameter collection is recorded as no parameters (null) |
| HavingBuilder.HavingRaw | database-query/src/main/java/gaarason/database/query/HavingBuilder.java:46-52 | a null or empty SQL part changes nothing; otherwise exactly one parameter-free `" and "` fragment holding the text verbatim |
| HavingBuilder.HavingRawEach | database-query/src/main/java/gaarason/database/query/HavingBuilder.java:57-59 | the loop over raw parts appends one parameter-free fragment per non-empty part, in order, skipping null and empty parts |
| HavingBuilder.HavingRaws | database-query/src/main/java/gaarason/database/query/HavingBuilder.java:54-62 | a null or empty collection changes nothing; otherwise the non-empty parts are appended in order |
| HavingBuilder.HavingOp | database-query/src/main/java/gaarason/database/query/HavingBuilder.java:64-70 | appends one `" and "` fragment `column symbol ?` whose parameters are exactly the one value |
| HavingBuilder.HavingOpIgnoreNull | database-query/src/main/java/gaarason/database/query/HavingBuilder.java:72-75 | a null value changes nothing; a non-null value appends the same fragment as `having(column, symbol, value)` |
| HavingBuilder.HavingValue | database-query/src/main/java/gaarason/database/query/HavingBuilder.java:77-80 | a null value appends the parameter-free `is null` fragment; any other value appends an `=` fragment binding exactly that value |
| HavingBuilder.HavingValueIgnoreNull | database-query/src/main/java/gaarason/database/query/HavingBuilder.java:82-85 | a null value changes nothing; otherwise the `=` fragment binding the value |
| HavingBuilder.HavingMap | database-query/src/main/java/gaarason/database/query/HavingBuilder.java:93-99 | `having(Map)` appends one fragment per entry, in entry order, each the one `having(column, value)` would append |
| HavingBuilder.HavingNull | database-query/src/main/java/gaarason/database/query/HavingBuilder.java:317-321 | appends the parameter-free `is null` fragment (never dropped: the text is non-empty) |
| HavingBuilder.HavingNotNull | database-query/src/main/java/gaarason/database/query/HavingBuilder.java:323-327 | appends the parameter-free `is not null` fragment |
| HavingBuilder.HavingMapIgnoreNull | database-query/src/main/java/gaarason/database/query/HavingBuilder.java:101-109 | a null map changes nothing; for a non-null map see `HavingProperties.HavingMapIgnoreNullIsFilter` |
| HavingBuilder.HavingLike | database-query/src/main/java/gaarason/database/query/HavingBuilder.java:143-146 | a null value changes nothing; otherwise a `like` fragment binding the value verbatim (no `%` added) |
| HavingBuilder.HavingLikeMap | database-query/src/main/java/gaarason/database/query/HavingBuilder.java:154-158 | a null or empty map changes nothing |
| HavingBuilder.HavingMayLike | database-query/src/main/java/gaarason/database/query/HavingBuilder.java:165-173 | when the string form of the value is non-null and starts or ends with `%`, the `like` path (nothing for a null value); otherwise the equality path: `is null` for a null value, `=` binding the value for any other |
| HavingBuilder.HavingMayLikeIgnoreNull | database-query/src/main/java/gaarason/database/query/HavingBuilder.java:175-181 | a null value changes nothing; otherwise one `like` or `=` fragment binding the value, chosen by the `%` test |
| HavingBuilder.HavingMayLikeMap | database-query/src/main/java/gaarason/database/query/HavingBuilder.java:189-193 | a null or empty map changes nothing |
| HavingBuilder.HavingMayLikeIgnoreNullMap | database-query/src/main/java/gaarason/database/query/HavingBuilder.java:200-204 | a null or empty map changes nothing |
| HavingBuilder.HavingSubQueryRaw | database-query/src/main/java/gaarason/database/query/HavingBuilder.java:211-215 | goes through `havingRaw`: one parameter-free fragment `column symbol (sql)`, dropped only if that whole text is empty |
| HavingBuilder.HavingSubQuery | database-query/src/main/java/gaarason/database/query/HavingBuilder.java:218-225 | one `" and "` fragment `column symbol (subquery)` carrying the sub-query's parameters unchanged |
| HavingBuilder.HavingIn | database-query/src/main/java/gaarason/database/query/HavingBuilder.java:227-233 | one `" and "` fragment `column in (…)` whose parameters are the list elements in iteration order (collection and array forms) |
| HavingBuilder.HavingNotIn | database-query/src/main/java/gaarason/database/query/HavingBuilder.java:235-241 | one `" and "` fragment `column not in (…)` whose parameters are the list elements in iteration order |
| HavingBuilder.HavingInRaw | database-query/src/main/java/gaarason/database/query/HavingBuilder.java:243-247 | one parameter-free fragment `column in (sql)` |
| HavingBuilder.HavingNotInRaw | database-query/src/main/java/gaarason/database/query/HavingBuilder.java:249-253 | one parameter-free fragment `column not in (sql)` |
| HavingBuilder.HavingInIgnoreEmpty | database-query/src/main/java/gaarason/database/query/HavingBuilder.java:255-258 | a null or empty list (or array) changes nothing; any other list gives exactly `havingIn` |
| HavingBuilder.HavingNotInIgnoreEmpty | database-query/src/main/java/gaarason/database/query/HavingBuilder.java:260-263 | a null or empty list (or array) changes nothing; any other list gives exactly `havingNotIn` |
| HavingBuilder.HavingInQuery | database-query/src/main/java/gaarason/database/query/HavingBuilder.java:285-290 | one `" and "` fragment `column in (subquery)` carrying the sub-query's parameters unchanged |
| HavingBuilder.HavingNotInQuery | database-query/src/main/java/gaarason/database/query/HavingBuilder.java:292-297 | one `" and "` fragment `column not in (subquery)` carrying the sub-query's parameters unchanged |
| HavingBuilder.HavingBetween | database-query/src/main/java/gaarason/database/query/HavingBuilder.java:299-306 | one `" and "` fragment with exactly two parameters, `min` then `max` |
| HavingBuilder.HavingNotBetween | database-query/src/main/java/gaarason/database/query/HavingBuilder.java:308-315 | one `" and "` fragment with exactly two parameters, `min` then `max` |
| HavingBuilder.HavingExistsRaw | database-query/src/main/java/gaarason/database/query/HavingBuilder.java:329-333 | one parameter-free fragment `exists (sql)` |
| HavingBuilder.HavingNotExistsRaw | database-query/src/main/java/gaarason/database/query/HavingBuilder.java:335-339 | one parameter-free fragment `not exists (sql)` |
| HavingBuilder.HavingExists | database-query/src/main/java/gaarason/database/query/HavingBuilder.java:341-346 | one `" and "` fragment `exists (subquery)` carrying the sub-query's parameters unchanged |
| HavingBuilder.HavingNotExists | database-query/src/main/java/gaarason/database/query/HavingBuilder.java:348-353 | one `" and "` fragment `not exists (subquery)` carrying the sub-query's parameters unchanged |
| HavingBuilder.HavingColumn | database-query/src/main/java/gaarason/database/query/HavingBuilder.java:355-359 | binds no parameter; appends one parameter-free `column1 symbol column2` fragment unless that text is empty |
| HavingBuilder.HavingColumnEq | database-query/src/main/java/gaarason/database/query/HavingBuilder.java:361-364 | binds no parameter; always appends `column1 = column2` |
| HavingBuilder.AndHaving | database-query/src/main/java/gaarason/database/query/HavingBuilder.java:366-370 | always one bracketed fragment attached with `" and "`, carrying the nested parameters unchanged |
| HavingBuilder.OrHaving | database-query/src/main/java/gaarason/database/query/HavingBuilder.java:372-376 | always one bracketed fragment attached with `" or "`, carrying the nested parameters unchanged |
| HavingBuilder.AndHavingIgnoreEmpty | database-query/src/main/java/gaarason/database/query/HavingBuilder.java:378-385 | nothing when the nested SQL is empty; otherwise exactly `andHaving` |
| HavingBuilder.OrHavingIgnoreEmpty | database-query/src/main/java/gaarason/database/query/HavingBuilder.java:387-394 | nothing when the nested SQL is empty; otherwise exactly `orHaving` |
| HavingBuilder.HavingKeywords | database-query/src/main/java/gaarason/database/query/HavingBuilder.java:111-125 | always exactly one bracketed group attached with `" and "`, holding the nested builder's rendering and parameters |
| HavingBuilder.HavingKeywordsIgnoreNull | database-query/src/main/java/gaarason/database/query/HavingBuilder.java:127-141 | nothing when the nested rendering is empty; otherwise one bracketed `" and "` group |
| HavingProperties.InParameters | database-query/src/main/java/gaarason/database/query/HavingBuilder.java:227-241 | `havingIn`/`havingNotIn` extend the HAVING parameter stream by exactly the list, in order |
| HavingProperties.BetweenParameters | database-query/src/main/java/gaarason/database/query/HavingBuilder.java:299-315 | `havingBetween`/`havingNotBetween` extend the parameter stream by `min` then `max`, never reordered |
| HavingProperties.NestedParameters | database-query/src/main/java/gaarason/database/query/HavingBuilder.java:366-376 | `andHaving`/`orHaving` splice the nested parameters, unchanged, after the existing ones |
| HavingProperties.HavingMapParameters | database-query/src/main/java/gaarason/database/query/HavingBuilder.java:93-99 | `having(Map)` binds exactly the non-null values, in entry order; null values bind nothing |
| HavingProperties.HavingMapConcat | database-query/src/main/java/gaarason/database/query/HavingBuilder.java:95-97 | `having(Map)` is a left fold: applying `a ++ b` is applying `a` then `b` |
| HavingProperties.HavingMapIgnoreNullFilters | database-query/src/main/java/gaarason/database/query/HavingBuilder.java:104-106 | the loop of `havingIgnoreNull(Map)` equals `having(Map)` on the entries whose value is not null |
| HavingProperties.HavingMapIgnoreNullIsFilter | database-query/src/main/java/gaarason/database/query/HavingBuilder.java:101-109 | `havingIgnoreNull(Map)` on a non-null map equals `having(Map)` on the entries whose value is not null |
| HavingProperties.HavingLikeMapFragments | database-query/src/main/java/gaarason/database/query/HavingBuilder.java:159-161 | the loop of `havingLike(Map)` appends one `like` fragment per non-null entry, in entry order, and nothing else; with no non-null entry it changes nothing |
| HavingProperties.HavingLikeMapIsFilter | database-query/src/main/java/gaarason/database/query/HavingBuilder.java:154-163 | `havingLike(Map)` on a non-null map appends one `like` fragment per non-null entry, in entry order, and nothing else |
| HavingProperties.MayLikeAppendsOne | database-query/src/main/java/gaarason/database/query/HavingBuilder.java:165-173 | when the string form of null is null, `havingMayLike` always appends exactly one fragment; for a null value it is `is null` |
| HavingProperties.HavingMayLikeMapFragments | database-query/src/main/java/gaarason/database/query/HavingBuilder.java:189-198 | `havingMayLike(Map)` appends one fragment per entry, in entry order, each the one `havingMayLike(column, value)` appends |
| HavingProperties.HavingMayLikeIgnoreNullFilters | database-query/src/main/java/gaarason/database/query/HavingBuilder.java:200-209 | `havingMayLikeIgnoreNull(Map)` equals `havingMayLike(Map)` on the non-null entries |
| HavingProperties.MayLikeBoundary | database-query/src/main/java/gaarason/database/query/HavingBuilder.java:167-172 | `%abc` and `abc%` take the LIKE path, `abc` the equality path |
| HavingProperties.KeywordsClosureShape | database-query/src/main/java/gaarason/database/query/HavingBuilder.java:113-118 | the keyword closure adds one `" or "` group per column, in column order, each the rendering of `havingMayLike(column, value)` on a fresh builder |
| HavingProperties.KeywordsParameters | database-query/src/main/java/gaarason/database/query/HavingBuilder.java:111-120 | `havingKeywords` appends one `" and "` group binding the value once per column, or nothing when the value is null |
| HavingProperties.KeywordsIgnoreNullOnNull | database-query/src/main/java/gaarason/database/query/HavingBuilder.java:127-136 | `havingKeywordsIgnoreNull(null, columns)` changes nothing |
| HavingProperties.KeywordsIgnoreNullAgrees | database-query/src/main/java/gaarason/database/query/HavingBuilder.java:127-136 | with a non-null value and at least one column, `havingKeywordsIgnoreNull` equals `havingKeywords` |
| OrderBuilder.OrderGrammar | database-query/src/main/java/gaarason/database/query/OrderBuilder.java:26-29 | appends exactly one ORDER fragment with separator `","`; every other bucket is unchanged |
| OrderBuilder.OrderByRaw | database-query/src/main/java/gaarason/database/query/OrderBuilder.java:45-51 | a null or empty part changes nothing; otherwise it is appended verbatim as one parameter-free ORDER fragment |
| OrderBuilder.OrderByColumn | database-query/src/main/java/gaarason/database/query/OrderBuilder.java:31-38 | a null column changes nothing; otherwise exactly one parameter-free ORDER fragment `column direction` with separator `","`; only the ORDER bucket changes |
| OrderBuilder.OrderByAsc | database-query/src/main/java/gaarason/database/query/OrderBuilder.java:40-43 | a null column changes nothing; otherwise the same fragment as `orderBy(column, ASC)` |

## Left out

- Rendering (`addSmartSeparator`'s leading-separator suppression, joining, placeholder text, dialect quoting, `FormatUtils.bracket`): their code is not part of this model, so they are `Env` fields and no claim about final SQL text is proved.
- `generateSql(closure)`: it builds a fresh builder whose code is not part of this model; closure overloads take its `SqlPartInfo` result instead.
- Entity overloads (`having(entity)`, `havingLike(entity)`, `havingMayLike(entity)`): `ModelShadowProvider.columnValueMap` is reflection; they coincide with the map overloads on the entries it would produce.
- Array and varargs overloads (`havingIn(column, Object...)`, `havingKeywords(value, String...)`, …): `Arrays.asList` makes them the collection overloads, which is how they are modelled.
- `ConversionConfig.castNullable` and `OrderBy.getOperation`: their code is not part of this model; both are `Env` fields.
- Java values: `Value` is a small closed datatype (`Null`, string, integer, boolean) standing for `Object`.
- SqlGrammar.FillValues: the text of the value list is assumed to be the placeholder tokens joined by the separator (`""` for an empty list), because the code of `replaceValuesAndFillParameters` is not part of this model; only its parameter half (the values appended in order) is the helper's stated contract. `HavingBuilder.HavingIn` and `HavingBuilder.HavingNotIn` mention this text through `InList`.
- HavingProperties.MayLikeAppendsOne: stated only for a string coercion that maps null to null; for another coercion `havingMayLike(column, null)` may append nothing, which `HavingBuilder.HavingMayLike` states.
- HavingProperties.HavingMayLikeMapFragments: stated only for a string coercion that maps null to null, for the same reason.
- HavingProperties.KeywordsParameters: stated only for a renderer that keeps the fragments' parameters in order, and a coercion that maps null to null.
- HavingProperties.KeywordsIgnoreNullOnNull: stated only for a renderer that renders an empty bucket as empty text.
- HavingProperties.KeywordsIgnoreNullAgrees: stated only for a renderer that renders a non-empty bucket as non-empty text.
- Eager loading (`RelationshipListLambda`, `RelationshipTrait`): interface signatures only, the resolver is not part of this model.
- `Group`, `Value`, `Union`, `Shortcut` builder interfaces: no implementation is part of this model.
- Builder serialisation and the MSSQL dialect tests: Java object serialisation, file I/O and a live database.
