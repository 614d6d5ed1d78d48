# Verified model of the query rewrites and the catalog

The repository answers PostgreSQL catalog queries on top of DataFusion. Two parts of it carry
claims that are easy to get wrong, and this project models both in Dafny and proves what they keep.

**The query rewrites** (`src/replace.rs`, `src/clean_duplicate_columns.rs`,
`src/session_identity_spellings.rs`) turn PostgreSQL statements into forms DataFusion can plan. The
model has one syntax tree (`SqlAst`), one evaluator with SQL's three-valued logic, outer scopes,
joins, LATERAL, grouping, subqueries and LIMIT (`SqlEval`), and one visitor that hands every
expression to a callback child-first with a running counter, as the parser's mutable visitor does
(`SqlVisit`). Each pass is written as a callback of that visitor. Four general theorems carry the
proofs:

- `SqlCongruence`: a callback that keeps the value of every expression it is handed keeps the result
  of every statement, at any nesting depth. A check on expressions says where the callback may be
  used, and a position says whether a place needs the value or only whether it is true.
- `SqlScope`: a tree's value depends only on what its outward references find; renaming qualifiers
  and adding or hiding outer names are cases of it.
- `SqlCarry`: what a check needs still holds after a pass, so passes compose.
- `FrameViews`: a SELECT sees its FROM rows only through the references it makes.

Evaluation gives a result or an error. A theorem about a pass says: where the written statement gives
a result, the rewritten one gives the same. Where a pass does not keep the meaning of everything it
accepts, the condition is stated on the written tree, an "if and only if" says when a single
replacement is exact, and a lemma gives a concrete statement on which it fails.

**The catalog** (`src/catalog_oid_registry.rs`, `src/declared_catalog_source.rs`,
`src/combined_catalog_source.rs`, `src/lazy_catalog.rs`) gives objects their OIDs, unites sources and
merges user rows over built-in rows. The registries are classes whose methods change their fields;
the persistent one is also a step machine with crashes and reopenings. Loops that fill vectors and
sets are methods proved against functions, and the theorems are about those functions and about all
runs of the machines.

| files | subject |
|---|---|
| `Wrappers`, `SqlValues`, `SqlAst`, `SqlEval`, `SqlVisit` | values, syntax, evaluation, the visitor |
| `Flats`, `Bags`, `Grouping` | lists up to order and repetition; what grouping and aggregates make of them |
| `SqlCongruence`, `SqlScope`, `SqlCarry`, `SqlMentions`, `SqlBinders`, `SqlOccurrences`, `SqlTallies`, `FrameViews` | the general theorems and what is read off a tree |
| `LateralAggregate`, `ExistsRewrites`, `BooleanSubquery`, `TupleRewrites`, `LimitToMax`, `ArrayIteration`, `AliasTables`, `AliasPass`, `SrfUnnest` | one pass each |
| `ArrayAggregates`, `ArrayExactness`, `AliasExactness`, `SrfExactness`, `FailingStatements` | the array pass under aggregates; exact conditions, and statements on which passes fail |
| `PassShapes`, `AliasShapes` | what each pass replaces, and that the shape is gone afterwards |
| `ColumnNames`, `Precedence`, `PassText`, `SessionSpellings` | names, text and source positions |
| `OidRegistry`, `DeclaredSource`, `DeclaredIdentity`, `CombinedSource`, `CatalogSource` | identity and sources |
| `CatalogRows`, `InfoSchema`, `CatalogJoins`, `CatalogComplete`, `LazyMerge`, `DeclaredCatalog`, `DeclaredComplete`, `Keys`, `Decimal` | catalog rows, joins and the merge |

Where code and comments differ, the code is followed:

- The comment on the lateral rewrite calls it an exact equivalent. The code also accepts INNER joins
  and `count`; `LateralAggregate.LateralExact` states when the two joins agree, and
  `LateralStatements.InnerJoinLosesTheRow` and `LateralStatements.LeftCountBecomesNull` give joins
  that differ.
- The comment on the array rewrite says the result is the same. The code does not look at the
  series' lower bound or at which array is subscripted. `ArrayExactness.IndexedExactly` says when
  the rows are kept for any bounds, `ArrayStatements.LowerBoundExactly` that a lower bound of at most
  one is the exact condition without a look at the data, and `ArrayStatements.OtherArrayMatters`,
  `ArrayStatements.RepeatedElementIsCountedOnce` and `ArrayStatements.WildcardLosesColumn` give
  statements that change.
- The alias pass is documented as resolving references unambiguously. An alias inside that reuses an
  enclosing table's bare name is captured: `AliasCaptures.InnerAliasCaptures`.

## Model

| member | source | states |
|---|---|---|
| SqlCongruence.VisitSoundQ | src/replace.rs:374-380 | Child-first rewriting at any depth: a callback sound at every checked expression leaves the rows of every query as they were. |
| SqlCongruence.VisitSoundE | src/replace.rs:374-380 | The same for an expression, as a value or as a condition according to where it stands. |
| SqlScope.ScopeE | src/replace.rs:4662-4674 | A renamed expression has the value of the written one wherever its references find, under their new names, what they found before; nested scopes included. |
| SqlCarry.BoundedE | src/replace.rs:374-380 | A check that each single replacement re-establishes holds of the whole rewritten tree, for callbacks with a counter. |
| LateralAggregate.LateralExact | src/replace.rs:2559-2679 | For one outer row, NULL keys included, LATERAL aggregate and grouped equi-join continue it alike if and only if the row matches something, or the join is LEFT and the aggregates over nothing are all NULL. |
| LateralAggregate.NullAggregatesAgree | src/replace.rs:2525-2557 | Every aggregate but `count`, and comparisons of such aggregates, are NULL over an empty group, so the padding agrees. |
| LateralSelect.LateralKeepsRows | src/replace.rs:2583-2679 | The whole SELECT around the join returns the same rows when every outer row agrees, whatever follows in FROM, WHERE, grouping and projection. |
| LateralSelect.DecorrelateLoop | src/replace.rs:2711-2719 | The loop over a FROM clause's joins replaces each in place, with the keys the counter numbers. |
| LateralSelect.LateralPassKeepsRows | src/replace.rs:2711-2719 | All lateral joins of one FROM clause together, keys named by the counter: with LEFT joins of NULL-on-empty aggregates the SELECT returns the same rows. |
| LateralShapes.LateralIsGrouped | src/replace.rs:2583-2679 | Each lateral aggregate of a FROM clause, whichever side of its equality is the inner column, comes out as the join grouped by that column, on the other side, under the next key. |
| LateralShapes.KeysDiffer | src/replace.rs:2645-2646 | No two of them share a key. |
| LateralShapes.NoLateralIsLeft | src/replace.rs:2711-2719 | After the loop no lateral aggregate of the shape is left in the clause. |
| LateralSelect.LeftNullAggregates | src/replace.rs:2559-2679 | For LEFT joins of such aggregates the condition holds of all data. |
| LateralStatements.InnerJoinLosesTheRow | src/replace.rs:2559-2679 | An INNER lateral `max` over an empty table had a row of NULL and loses it: a concrete join the recogniser accepts. |
| LateralStatements.LeftCountBecomesNull | src/replace.rs:2525-2679 | A LEFT lateral `count` over an empty table was 0 and becomes NULL: a concrete join the recogniser accepts. |
| BooleanSubquery.BooleanToExistsValue | src/replace.rs:917-955 | The EXISTS built for a boolean scalar subquery is true when the subquery is true and false when it is false or NULL, under every LIMIT and OFFSET that can keep it so. |
| BooleanSubquery.BooleanToExistsExact | src/replace.rs:917-955 | As a value the replacement is then exact if and only if the subquery's answer is not NULL. |
| BooleanSubquery.BooleanToExistsKeepsRows | src/replace.rs:866-968 | The whole pass keeps the result of every statement in which the predicates stand where only their truth matters, hold no aggregate, and have LIMIT 0, or no OFFSET and no LIMIT 1. |
| BooleanSubquery.FoldedTruth | src/replace.rs:917-955 | Under any LIMIT and OFFSET the EXISTS counts the rows on which the comparison is true: it holds if and only if there are more of them than OFFSET and LIMIT is not 0. |
| ExistsPipeline.WindowExactly | src/replace.rs:894-955 | Without a look at the data, the truth of every such subquery is kept if and only if it has LIMIT 0, or no OFFSET and no LIMIT 1. |
| BooleanSubquery.AggregateExactly | src/replace.rs:894-955 | An aggregate comparison: the EXISTS answers if and only if the subquery's FROM and WHERE keep no row, and keeps the truth if and only if besides the comparison is not true of no rows. |
| ExistsRewrites.ExistsToCountExact | src/replace.rs:988-1063 | EXISTS or NOT EXISTS and its count test have the same value if and only if there is no OFFSET, no LIMIT 0, and an aggregate projection has rows. |
| ExistsRewrites.ExistsToCountKeepsValues | src/replace.rs:988-1063 | The whole pass keeps the exact value in any expression position. |
| ExistsStatements.WindowDropsTheCount | src/replace.rs:988-1063 | NOT EXISTS with LIMIT 0, and with OFFSET 1 over one row, holds and becomes NULL: two concrete statements. |
| ExistsStatements.AggregateExistsOverNothing | src/replace.rs:988-1063 | EXISTS of an aggregate over no rows is true and becomes false: a concrete statement. |
| ExistsPipeline.PipelineKeepsRows | src/replace.rs:866-1063 | Boolean-subquery to EXISTS to count, run one after the other over every nesting depth, keeps the rows of every statement the one check on the written tree admits. |
| SubqueryShapes.PipelineLeaves | src/replace.rs:855-1063 | After the first pass no scalar subquery selects one comparison, and after both no EXISTS over a SELECT without GROUP BY and HAVING is left, at any depth. |
| ExistsPipeline.UnderNotARowIsGained | src/replace.rs:917-955 | Under NOT a NULL comparison gains a row: a concrete statement. |
| ExistsPipeline.WindowChangesTruth | src/replace.rs:894-955 | For each other LIMIT and OFFSET a concrete statement whose truth changes: LIMIT 1 gains a row, OFFSET loses one. |
| ExistsPipeline.AggregateIsRefused | src/replace.rs:894-955 | `(SELECT count(*) > 0)` is true as written and an error afterwards: a concrete statement. |
| TupleRewrites.TupleEqualityValue | src/replace.rs:4588-4610 | Row equality decomposed into a conjunction has the identical three-valued result, any arity. |
| TupleRewrites.Conjoin | src/replace.rs:4588-4610 | The loop builds the left-leaning conjunction of equalities after what is already there. |
| TupleRewrites.TupleEqualityKeepsRows | src/replace.rs:4562-4624 | The whole pass keeps every statement, with no condition. |
| SubqueryShapes.EveryRowIsCompared | src/replace.rs:4562-4624 | After the pass no equality of two rows of one length is left, at any depth, where no row was written inside another. |
| SubqueryShapes.RowInRowIsLeft | src/replace.rs:4588-4610 | A row inside a row leaves such an equality behind: a concrete expression. |
| TupleRewrites.TupleInValue | src/replace.rs:1364-1415 | The EXISTS built for a multi-column IN is true exactly when the membership is, for any arity and any NULLs. |
| TupleRewrites.TupleInExact | src/replace.rs:1364-1415 | As a value it is exact if and only if the membership is not NULL; as a condition NOT IN differs exactly where it was NULL. |
| TupleRewrites.TupleInKnown | src/replace.rs:1408-1412 | IN and NOT IN are both exact when no compared value is NULL. |
| TupleRewrites.TupleInKeepsRows | src/replace.rs:1344-1424 | The whole pass keeps every statement in which the memberships stand unnegated where only their truth matters and no outer name is hidden by the inner FROM. |
| SubqueryShapes.EveryMembershipIsExists | src/replace.rs:1344-1424 | After the pass no membership of a row of several columns among as many plain items is left, negated or not, at any depth. |
| TupleRewrites.MovedReadsExactly | src/replace.rs:1389-1405 | A reference moved into the inner FROM reads the same record on all data if and only if that FROM binds nothing under its name. |
| TupleStatements.HiddenNameIsCaptured | src/replace.rs:1389-1405 | An outer name the inner FROM also binds is captured, and a false membership becomes true: a concrete statement. |
| TupleStatements.LimitComesLater | src/replace.rs:1364-1415 | Under LIMIT 1 a membership tested on the first row is tested on all rows afterwards, and becomes true: a concrete statement. |
| TupleStatements.AggregateIsRefused | src/replace.rs:1364-1415 | A membership among aggregates is true as written and an error afterwards: a concrete statement. |
| LimitToMax.MaxIsAllowed | src/replace.rs:1065-1131 | `max` answers one of the values an unordered LIMIT 1 could have given, NULL exactly when there is no non-NULL value. |
| LimitToMax.MaxAgrees | src/replace.rs:1065-1131 | With at most one row, or rows of one value, the two are equal however LIMIT 1 chooses. |
| LimitToMax.MaxCanDiffer | src/replace.rs:1136-1168 | Otherwise some way of choosing differs, so the condition above is exact. |
| LimitToMax.LimitOneToMaxRefines | src/replace.rs:1096-1131 | The whole pass: what the rewritten statement returns, the written one returns for some allowed choice at the replaced places. |
| LimitShapes.LimitExactly | src/replace.rs:1096-1168 | A scalar subquery is replaced by its `max`, the LIMIT gone, if and only if it is a plain LIMIT 1 and its WHERE or item mentions, at any depth, a column whose folded qualifier is none of its FROM's folded names. |
| LimitShapes.CorrelatedIsReplaced | src/replace.rs:1201-1290 | A plain LIMIT 1 with a free reference that its FROM does not answer is replaced. |
| LimitShapes.UncorrelatedIsKept | src/replace.rs:1201-1290 | One all of whose columns are qualified by its own FROM's names is returned unchanged. |
| LimitShapes.EveryLimitIsMax | src/replace.rs:1096-1131 | After the pass no such correlated LIMIT 1 is left, at any depth. |
| SqlSayings.SayE | src/replace.rs:1235-1290 | A check on the references of a tree holds exactly when it holds of every occurrence, at any depth, hidden or not. |
| ArrayRows.IndexRows | src/replace.rs:3876-4060 | Each row of the membership form appears in the indexed form once for every index that holds the value sought. |
| ArrayRows.IndexToAnyKeepsRows | src/replace.rs:4027-4060 | A SELECT the pass changes has afterwards the same set of rows for every array, NULL and empty too, none oftener than before, and the same bag when no array repeats an element. |
| ArrayRows.IndexToAnyKeepsScalar | src/replace.rs:4063-4080 | EXISTS keeps its truth and a scalar subquery its value without asking that elements be distinct. |
| ArrayShapes.WalkIsMembership | src/replace.rs:3876-4060 | A SELECT that walks an array by the indexes of its first series, which nothing else names, loses the series and gets `value = ANY(array)` in place of the equation, under any casts and either way round. |
| ArrayShapes.NamedSeriesStays | src/replace.rs:4044-4060 | A series an item still names is left with the whole SELECT. |
| ArrayIteration.WalkStep | src/replace.rs:3937-3966 | Condition by condition: the indexed form holds at an index exactly when the ANY form holds and that index hits. |
| ArrayAggregates.IndexToAnyKeepsGroups | src/replace.rs:4027-4060 | An aggregating SELECT, grouped or not, with or without HAVING and DISTINCT, gives the same answer: always when it only asks for `max` and `min`, and for `count` and `sum` too when no array repeats an element. |
| ArrayAggregates.IndexToAnyHandsOver | tests/array_index_iteration_rewrite.rs:44-74 | Any other aggregate without GROUP BY, `string_agg` of names among them, is handed the same values, as often when no array repeats an element. |
| ArrayAggregates.IndexToAnyKeepsDistinct | src/replace.rs:4027-4060 | SELECT DISTINCT returns the same rows whether or not an array repeats elements. |
| GroupedSelect.SelectsAgree | src/replace.rs:4027-4060 | What an aggregating SELECT answers depends only on its plain list of keys and arguments, as a bag, or as a set when only `max` and `min` are asked for. |
| ArrayExactness.IndexedExactly | src/replace.rs:3889-3932 | For any series bounds and any array: the set of rows is kept if and only if each kept row's value is held at some index, and the bag of different rows if and only if at exactly one. |
| ArrayStatements.SmallExactly | src/replace.rs:3876-4060 | The same if and only if for whole SELECTs, over every lower bound and every pair of arrays. |
| ArrayStatements.CountExactly | src/replace.rs:3876-4060 | `count(*)` keeps its answer if and only if one index holds the value just when the array has it. |
| ArrayStatements.LowerBoundExactly | src/replace.rs:3889-3921 | A lower bound keeps the rows for every array if and only if it is at most 1: from 2 on some array loses a row. |
| ArrayStatements.OtherArrayMatters | src/replace.rs:3923-3932 | A series bounded by another array loses a row the rewrite returns: a concrete statement. |
| ArrayStatements.RepeatedElementIsCountedOnce | src/replace.rs:3937-3966 | `count(*)` over an array that holds the value twice goes from 2 to 1: a concrete statement. |
| ArrayStatements.WildcardLosesColumn | src/replace.rs:4027-4060 | `*` loses the column of the removed series: a concrete statement. |
| AliasTables.AliasLoop | src/replace.rs:4646-4657 | The loop over FROM items yields the aliased items, the counter, and pairs in which each bare name finds its first alias. |
| AliasRenaming.AliasesRename | src/replace.rs:4679-4718 | Distinct written names become distinct names, each unaliased table its own generated one, everything else unchanged. |
| AliasedFrom.FromMoves | src/replace.rs:4642-4743 | The rows of the aliased FROM, its derived tables and ON conditions renamed, are the rows of the written one under the new names. |
| AliasedSelect.SelectMoves | src/replace.rs:4662-4674 | Over those rows the renamed WHERE, grouping, HAVING and projection give the same result. |
| AliasCarries.CarriesSaying | src/replace.rs:4726-4743 | Whatever the pass has done inside, a subtree refers only to what it referred to as written, or to aliases numbered below the counter. |
| AliasCarries.CarriesBinding | src/replace.rs:4726-4743 | And it binds only written names that last, or such aliases. |
| AliasPass.SubqueryKeeps | src/replace.rs:4642-4674 | A subquery keeps its rows when the child-first pass reaches it, whatever number the shared counter has come to. |
| AliasPass.AliasPassKeepsMeaning | src/replace.rs:4632-4743 | The whole pass is a capture-free renaming: every statement the checks admit returns the same result, references from nested subqueries to enclosing ones included. |
| AliasShapes.EveryTableIsNamed | src/replace.rs:4698-4714 | In the statement the pass returns, at every depth, each table in the FROM of a subquery that is a plain SELECT has a schema and an alias. |
| AliasShapes.AliasesAreGivenOnce | src/replace.rs:4698-4743 | Counted over the whole statement: the written aliases stay, and the n tables that had none get `subq0_t` to the n-th, each exactly once. |
| SqlTallies.ChangeB | src/replace.rs:374-380 | What a callback changes of a count at one expression, with its counter, it changes of the count over the whole visited tree. |
| AliasExactness.AliasedReadsExactly | src/replace.rs:4642-4674 | At one FROM clause a reference reads the same record, whatever the data, if and only if a reference to a bare table sees it and meets neither its old nor its new name in between, and any other meets no alias just given. |
| AliasExactness.OneStepExactly | src/replace.rs:4642-4718 | For one subquery, its clauses, FROM items and ON conditions at any depth: all its references read the records and all its tables are the tables they were, if and only if each reference reaches its item and each unqualified table is pg_catalog's or found nowhere. |
| AliasExactness.CarriedExactly | src/replace.rs:4662-4674 | With nothing in between, that is the condition the whole-pass theorem puts on references. |
| SqlOccurrences.VisibleE | src/replace.rs:4662-4674 | The occurrences read off a tree that no name in between hides are exactly its outward references. |
| AliasCaptures.InnerAliasCaptures | src/replace.rs:4662-4674 | An inner alias that reuses an enclosing bare name is captured: a concrete statement whose value changes. |
| AliasCaptures.OtherSchemaIsLost | src/replace.rs:4698-4701 | A table only another schema has cannot be found any more: a concrete statement. |
| ProjectionSrf.Classify | src/replace.rs:1646-1670 | The loop answers no call, one call, or several different ones, exactly as the sequence of field accesses has none, one or several distinct calls. |
| UnnestedProjection.RowMoves | src/replace.rs:1707-1816 | One source row gives as many rows as its call has elements, none for an empty list, every field access of one row reading the same element; each row has one column more for each wildcard and is otherwise the same. |
| UnnestedProjection.UnnestingExactly | src/replace.rs:1846-1879 | The derived table that unnests the call and the redirected projection return exactly the rows of the written SELECT, in order, if and only if no item is a wildcard or there is no row; with DISTINCT too. |
| UnnestedColumns.ColumnReadsExactly | src/replace.rs:1734-1842 | A qualified column reads the same on all data if and only if it names a table of the FROM or of an enclosing query and the new name hides nothing, or no row can hold it. |
| SrfShapes.OneCallIsUnnested | src/replace.rs:1646-1816 | When all field accesses, at any depth, are on one call, it is unnested in the derived table, and afterwards no item reads a field of a call or is that call. |
| SrfShapes.WholeCallsAreWrapped | src/replace.rs:1846-1865 | Without field accesses each item that is a call is wrapped and everything else stays. |
| SrfShapes.TwoCallsAreLeft | src/replace.rs:1866-1868 | With accesses to two different calls the SELECT is left as written. |
| WrappedProjection.WrappingKeepsRows | src/replace.rs:1846-1865 | Calls that are whole items, several different ones included, keep their rows when wrapped where they stand. |
| UnnestingStatements.StarGainsColumn | src/replace.rs:1760-1816 | A wildcard beside the call gains the element as one more column: a whole SELECT, before and after. |
| UnnestingStatements.DerivedAliasIsLost | src/replace.rs:1734-1756 | A column of a derived table in FROM keeps a qualifier nothing binds any more: a whole SELECT that answers as written and fails afterwards. |
| ColumnNames.AliasProjection | src/clean_duplicate_columns.rs:22-120 | The loop over a projection equals the fold that gives each unnamed column the next alias and records its PostgreSQL name. |
| ColumnNames.ReportedNames | src/clean_duplicate_columns.rs:22-105 | The recorded name, by cases: a column's own, a cast's type, a function's name, `?column?` otherwise. |
| ColumnNames.NestedUntouched | src/clean_duplicate_columns.rs:126-178 | Below the client's own projections nothing changes. |
| ColumnNames.AliasThenRestore | src/clean_duplicate_columns.rs:298-380 | Aliasing and restoring gives every unnamed top-level column its recorded name and leaves the rest as written, if and only if no written alias is one the map renames. |
| ColumnNames.KeysAreAliases | src/clean_duplicate_columns.rs:22-178 | The map's keys are exactly the aliases written, and no alias is written twice. |
| ColumnNames.RestoredExactly | src/clean_duplicate_columns.rs:298-380 | The same round trip in the query's own terms: if and only if no column is written `alias_k` with k up to the number of unnamed columns, unless the k-th unnamed one is reported under that name. |
| ColumnNames.WrittenAliasIsLost | src/clean_duplicate_columns.rs:363-380 | A column the client calls `alias_1` comes back under another name: a concrete statement. |
| ColumnNames.DedupProjection | src/clean_duplicate_columns.rs:196-220 | The renaming loop with its count map equals the positional definition: the k-th use of a name becomes `name_k`. |
| ColumnNames.DedupExactly | src/clean_duplicate_columns.rs:196-220 | The renamed plain names are distinct if and only if none of the names made is already written. |
| ColumnNames.NestedDedupExactly | src/clean_duplicate_columns.rs:222-256 | The same for every nested SELECT the pass enters, at any depth. |
| ColumnNames.WrittenSuffixClashes | src/clean_duplicate_columns.rs:196-215 | `x, x_2, x` comes out with `x_2` twice: a concrete statement. |
| Precedence.RoundTrip | src/replace.rs:943-949 | Written out and parsed under PostgreSQL's precedence, a tree comes back, its chains leaning left, if and only if every looser operand stands in parentheses. |
| Precedence.LeftwardKeepsValue | src/replace.rs:1396-1405 | Leaning a chain to the left changes no value and no condition. |
| PassText.BooleanReadsBack | src/replace.rs:943-949 | The boolean-subquery pass, which parenthesises, keeps every statement in the class that reads back. |
| PassText.CountReadsBack | src/replace.rs:1036-1050 | So does the count pass where its comparison fits its place. |
| PassText.TupleInReadsBack | src/replace.rs:1396-1405 | The tuple pass does so where the kept WHERE has no bare OR and the operands bind tightly enough. |
| PassText.TupleEqualityReadsBack | src/replace.rs:4588-4610 | So does row equality where a bare conjunction fits its place. |
| PassText.RowReadsBackExactly | src/replace.rs:4588-4610 | The conjunction written for one row equality is read again as itself if and only if every element, as written, binds tightly and reads back. |
| PassText.NotRowReadsBackExactly | src/replace.rs:4588-4610 | Directly under NOT, if and only if besides there is a single column. |
| PassText.UnderNotItReadsOtherwise | src/replace.rs:4588-4610 | Directly under NOT the unparenthesised conjunction is read as another tree. |
| SessionSpellings.ByteOffsetOf | src/session_identity_spellings.rs:233-248 | The loop answers the byte offset of the first character boundary at the given line and column. |
| SessionSpellings.ByteOffsetInverts | src/session_identity_spellings.rs:233-248 | It inverts the line and column of every boundary, widths of one to four bytes, and answers for no other location. |
| SessionSpellings.LocationsIncrease | src/session_identity_spellings.rs:233-248 | Locations grow strictly along the text. |
| SessionSpellings.CollectCuts | src/session_identity_spellings.rs:185-215 | The loop over triples of significant tokens collects the cut of every matched keyword and pair of parentheses. |
| SessionSpellings.RangesExactly | src/session_identity_spellings.rs:185-215 | The ranges are exactly those of an unquoted `current_user` or `session_user`, in any case, followed by its two parentheses. |
| SessionSpellings.CutsOrdered | src/session_identity_spellings.rs:185-215 | The cuts are in bounds, in order and disjoint. |
| SessionSpellings.CopyOutside | src/session_identity_spellings.rs:217-226 | The copy loop outputs exactly the bytes outside the cuts. |
| SessionSpellings.KeepCharacters | src/session_identity_spellings.rs:217-226 | Cutting those bytes is cutting those characters, whatever their width. |
| SessionSpellings.DropParentheses | src/session_identity_spellings.rs:169-226 | The whole edit removes exactly the matched ranges of the original text. |
| OidRegistry.RunKeepsInv | src/catalog_oid_registry.rs:195-203 | After any run of calls the recorded OIDs, both of each pair, are exactly the integers from 16384 to the counter, each held once, and the counter fits in an i32. |
| OidRegistry.AnswersAreStable | src/catalog_oid_registry.rs:319-351 | A name answered once answers the same whatever is called in between. |
| OidRegistry.NoOidTwice | src/catalog_oid_registry.rs:299-351 | Different names answer with disjoint OIDs in every run. |
| OidRegistry.InMemoryRegistry.Allocate | src/catalog_oid_registry.rs:299-312 | The allocator returns the counter and moves it, or refuses and moves nothing. |
| OidRegistry.InMemoryRegistry.ResolveDatabase | src/catalog_oid_registry.rs:319-327 | The method's answer and new state are those of the atomic machine. |
| OidRegistry.InMemoryRegistry.ResolveSchema | src/catalog_oid_registry.rs:328-338 | The same for schemas. |
| OidRegistry.InMemoryRegistry.ResolveRelation | src/catalog_oid_registry.rs:340-351 | The same for relations, which take two numbers. |
| PersistentRegistry.RedbRegistry.Call | src/catalog_oid_registry.rs:205-274 | One transactional call, with a fault possible at every step: it answers as the atomic machine and commits its state, or fails and leaves the file as it was, or as the whole call leaves it when a commit that took reports a failure. |
| PersistentRegistry.RunsKeepInv | src/catalog_oid_registry.rs:129-154 | Every run of ask, begin, look, bump, write, commit, fail, late failure, return, crash and reopen steps keeps the system's invariant. |
| PersistentRegistry.CallIsServed | src/catalog_oid_registry.rs:205-274 | From any state with the write lock free, a client's own steps can all be taken, and it is told the atomic machine's answer, whose state the file then holds. |
| PersistentRegistry.NoHalfAllocation | src/catalog_oid_registry.rs:205-274 | At every moment the file holds the state some run of whole calls leaves on the atomic machine. |
| PersistentRegistry.ClientsAreToldTheTruth | src/catalog_oid_registry.rs:205-274 | The registry is linearizable: a call is placed in the history after it was made and before it is answered, as that client's call, and its answer is the atomic machine's at that place. |
| PersistentRegistry.AnsweredInOrder | src/catalog_oid_registry.rs:205-274 | A call made after another was answered comes after it in the history. |
| PersistentRegistry.DurableAnswers | src/catalog_oid_registry.rs:129-154 | An answer stays the same through any crashes and reopenings. |
| DeclaredSource.FromDeclarations | src/declared_catalog_source.rs:119-203 | The three loops, on the registry object they change, end with the result and the registry state of the fold over the declarations. |
| DeclaredIdentity.AcceptedExactly | src/declared_catalog_source.rs:119-203 | The builder succeeds if and only if nothing is declared twice, every referenced database is declared, and the registry has room for the new names. |
| DeclaredIdentity.DeclareExactly | src/declared_catalog_source.rs:119-203 | Then the rows carry the registry's OIDs and the registry is where the calls in turn leave it. |
| DeclaredIdentity.SpaceExact | src/catalog_oid_registry.rs:195-203 | A sequence of calls is answered if and only if the numbers its new names take still fit. |
| DeclaredIdentity.Redeclared | src/declared_catalog_source.rs:119-203 | Any permutation of an accepted set, after anything else was registered, is accepted, changes no registry state, and gives every object its old OIDs. |
| DeclaredIdentity.NumbersAreDistinct | src/declared_catalog_source.rs:280-294 | No two objects share a number but the `public` schemas, which are all 2200. |
| CombinedSource.UnionRefusing | src/combined_catalog_source.rs:94-156 | The loop for databases and relations succeeds if and only if all reported names are distinct, and then reports them in order. |
| CombinedSource.UnionRetaining | src/combined_catalog_source.rs:116-126 | The loop for schemas keeps the first of each name, in order. |
| CombinedSource.UnionFirst | src/combined_catalog_source.rs:158-175 | Columns come whole from the first source that has any. |
| CombinedSource.FirstWins | src/combined_catalog_source.rs:116-126 | What is kept has each key once, the earliest, and every key reported. |
| CombinedSource.NestedIsFlattened | src/combined_catalog_source.rs:86-230 | A combined source inside another answers every method as the flattened list: same rows, same order, same failures. |
| CombinedSource.UnionRefusesNames | src/combined_catalog_source.rs:94-156 | Databases and relations are told apart by name: the union is refused if and only if a source fails or a name comes up twice. |
| CombinedSource.UnionKeepsNames | src/combined_catalog_source.rs:116-230 | Schemas and settings are told apart by name: one of each reported name stays. |
| CombinedSource.UnionLosesNone | src/combined_catalog_source.rs:177-208 | Indexes and constraints are told apart by OID: with distinct OIDs none is lost, whatever their names. |
| CombinedSource.FirstAnswerIsFirst | src/combined_catalog_source.rs:158-175 | The columns are those of the first source with any. |
| CatalogJoins.NamespaceJoins | src/lazy_catalog.rs:1560-1575 | Every pg_class.relnamespace is the oid of a pg_namespace row. |
| CatalogJoins.AttributeJoins | src/lazy_catalog.rs:1325-1370 | relnatts is the number of pg_attribute rows of the relation, whose attnums are exactly 1 to relnatts. |
| CatalogJoins.TypeJoins | src/lazy_catalog.rs:1577-1594 | A relation has exactly one row type, and reltype and typrelid point at each other. |
| CatalogJoins.DefaultJoins | src/lazy_catalog.rs:1657-1673 | atthasdef holds if and only if exactly one pg_attrdef row exists for the column. |
| CatalogComplete.ClassCounts | src/lazy_catalog.rs:1560-1575 | pg_class has as many rows with an OID as the source reports relations and indexes with it. |
| CatalogComplete.RelationIsListed | src/lazy_catalog.rs:1560-1575 | Every reported relation, of any kind, has exactly one pg_class row of its OID, which describes it. |
| CatalogComplete.IndexIsListed | src/lazy_catalog.rs:1568-1571 | So has every reported index. |
| CatalogComplete.AttrelidJoins | src/lazy_catalog.rs:1596-1617 | Every attrelid is the OID of exactly one pg_class row. |
| CatalogComplete.AdrelidJoins | src/lazy_catalog.rs:1657-1673 | Every adrelid is the OID of exactly one pg_class row. |
| CatalogComplete.TyprelidJoins | src/lazy_catalog.rs:1577-1585 | Every typrelid is the OID of exactly one pg_class row. |
| CatalogComplete.PlacesComplete | src/lazy_catalog.rs:1596-1617 | The walk visits exactly the reported relations, each with its reported columns. |
| CatalogComplete.ColumnsAreListed | src/lazy_catalog.rs:1325-1370 | A reported relation's pg_attribute rows are its columns, one each, in order, with their names, types, numbers, NOT NULL and default flags. |
| CatalogComplete.DefaultsAreListed | src/lazy_catalog.rs:1657-1673 | It has one pg_attrdef row for each column with a default and none for another. |
| CatalogComplete.TypeIsListed | src/lazy_catalog.rs:1577-1585 | It has exactly one row type, which describes it. |
| CatalogComplete.IndexHasDetails | src/lazy_catalog.rs:1619-1631 | Every reported index has its pg_index row. |
| CatalogComplete.ConstraintHasRow | src/lazy_catalog.rs:1633-1655 | Every reported constraint has its pg_constraint row. |
| CatalogComplete.InfoColumnsAgree | src/lazy_catalog.rs:1418-1460 | information_schema.columns lists the columns of pg_attribute in the same order, ordinals equal to attnums and nullability to the absence of NOT NULL. |
| CatalogComplete.InfoTablesAgree | src/lazy_catalog.rs:1677-1685 | information_schema.tables lists the relations pg_type has row types for, in the same order and schemas. |
| CatalogComplete.SchemasAreListed | src/lazy_catalog.rs:1543-1549 | pg_namespace and information_schema.schemata list every reported schema in order, with owner and the default owner. |
| CatalogRows.CollectAttributeRows | src/lazy_catalog.rs:1596-1617 | The nested walk over schemas and relations collects the rows of the places the source reports, failing where it fails. |
| CatalogRows.CollectAttrdefRows | src/lazy_catalog.rs:1657-1673 | The walk with the running synthetic OID numbers the defaults in turn. |
| CatalogRows.CollectClassRows | src/lazy_catalog.rs:1560-1575 | The walk for pg_class, indexes included. |
| CatalogRows.CollectNamespaceRows | src/lazy_catalog.rs:1543-1549 | The walk for pg_namespace, one row for each schema fetched, failing where the fetch fails. |
| CatalogRows.CollectTypeRows | src/lazy_catalog.rs:1577-1594 | The walk for pg_type, the row type of each relation. |
| InfoSchema.CollectInfoTables | src/lazy_catalog.rs:1677-1685 | The walk for information_schema.tables over schemas and relations, failing where the source fails. |
| InfoSchema.CollectInfoColumns | src/lazy_catalog.rs:1694-1710 | The walk for information_schema.columns, positions from 1 within each relation. |
| InfoSchema.CollectInfoSchemata | src/lazy_catalog.rs:1712-1721 | The walk for information_schema.schemata. |
| CatalogRows.FetchSchemasLoop | src/lazy_catalog.rs:829-842 | The schema walk gives the schemas the source reports, in order, and refuses a name reported twice. |
| LazyMerge.ScanLoop | src/lazy_catalog.rs:1855-1907 | The scan with its key sets equals the scan function. |
| LazyMerge.ScanMerges | src/lazy_catalog.rs:1775-1907 | A scan fails if and only if two user rows agree on the key; otherwise it serves the built-in rows no user row shadows, in order, then all user rows. |
| LazyMerge.ScanByObject | src/lazy_catalog.rs:757-809 | The same table by table, with the columns that identify a row of each of the thirteen tables, and for pg_namespace the name that shadows, written out. |
| LazyMerge.OwnOidsAreServed | src/lazy_catalog.rs:757-773 | Rows of pg_index and pg_constraint with OIDs of their own are never refused. |
| LazyMerge.ComponentsExact | src/lazy_catalog.rs:1728-1763 | The written keys, decimal numbers and NULL sentinel included, are equal if and only if the values are. |
| DeclaredCatalog.DeclaredScans | src/lazy_catalog.rs:763-809 | With distinct column names in each table no scan of a declared source raises the duplicate error, for each of the thirteen catalog tables. |
| DeclaredCatalog.AcceptedDeclarationsScan | src/declared_catalog_source.rs:119-203 | From declarations to scans: whatever set is accepted, in whatever state the registry is, no catalog table of the source is refused for duplicates as long as no declared table repeats a column name. |
| DeclaredComplete.RelationsExactly | src/declared_catalog_source.rs:227-241 | A schema's relations are exactly those declared in it, in the order of their declarations. |
| DeclaredComplete.ColumnsExactly | src/declared_catalog_source.rs:244-259 | A declared relation's columns are its own. |
| DeclaredComplete.SchemasExactly | src/declared_catalog_source.rs:215-225 | A database's schemas are exactly those declared in it, in order. |
| DeclaredComplete.EveryTableIsServed | src/declared_catalog_source.rs:119-260 | From any accepted set of declarations: every declared table has its one pg_class row under the OID the registry keeps for it and in its schema, and one pg_attribute row for each declared column, in order. |
| DeclaredComplete.EverySchemaIsServed | src/declared_catalog_source.rs:119-225 | And every declared schema has its pg_namespace row. |
| DeclaredCatalog.MergedNamespaces | src/lazy_catalog.rs:804-809 | The merged pg_namespace of a declared source has distinct names and distinct OIDs. |
| DeclaredCatalog.NamespaceScanIsUnique | src/lazy_catalog.rs:1855-1907 | So have the rows the scan serves, however the built-in rows are batched. |

## Left out

- Parsing, tokenizing and DataFusion's planning and execution: trees and token positions are inputs, and the evaluator is PostgreSQL's meaning of the fragment.
- In-place change of the syntax tree: a pass is a function from trees to trees, so sharing inside a tree is not modelled; the order of visiting and the running counter are.
- ORDER BY, WITH, three-part names, unqualified columns other than a table function's alias, window functions and NULLS ordering are not in the tree.
- Error kinds and messages: an error is one value, and a rewritten statement may succeed where the written one fails.
- Names are compared as they stand; the passes' case-insensitive comparison is modelled on names already folded.
- Casts, operators and scalar functions are one constructor with a name, their meaning a parameter; the array pass assumes that the casts in the series' bound keep a value and `array_upper` answers the length.
- LateralSelect.LateralKeepsRows: stated for a join of a given SELECT; the pass's own walk into derived tables and WITH is a shallow traversal and is not modelled; `LateralSelect.LateralPassKeepsRows` replaces the joins of one FROM clause together, where they meet the condition on all data. The grouped subquery must raise no error of its own, since it also computes groups no outer row asks for.
- LateralAggregate.LateralExact: asks that the subquery has no HAVING, DISTINCT, LIMIT or OFFSET and that only the equality looks outside, which the recogniser does not check.
- BooleanSubquery.BooleanToExistsKeepsRows: an aggregate inside CASE, which evaluation may not reach, is not in `BooleanSubquery.AggregateExactly`; the two passes together also leave out LIMIT 0, where the count becomes NULL.
- ArrayRows.IndexToAnyKeepsRows: asks for one comparison in a conjunction, on the array that bounds the series, a lower bound of at most one, and a rewritten SELECT that raises no error, which depends on the data, so it is stated SELECT by SELECT. `*` loses a column and is not covered; aggregates, grouping and DISTINCT are in `ArrayAggregates`, where values compared by `max` and `min` are totally ordered and `sum` adds integers.
- ArrayRows.IndexToAnyKeepsScalar: for SELECTs without aggregates; an aggregating one is an `ArrayAggregates` SELECT, whose one row is then the same.
- ArrayAggregates.IndexToAnyHandsOver: the order in which an aggregate without its own ORDER BY takes its values is not promised.
- TupleRewrites.TupleInKeepsRows: asks that neither side aggregates and the subquery has no LIMIT, and that no reference written in the tuple, even one bound by a subquery of its own, uses a name of the inner FROM; the recogniser checks none of it, and `TupleStatements` shows what LIMIT and aggregates do. A negated membership depends on the data and is treated one at a time.
- AliasPass.AliasPassKeepsMeaning: asks that no written name has the form of a generated one, that unaliased tables are pg_catalog's, and that inner explicit names do not reuse an enclosing bare name; table functions without an alias are not in the tree. No converse is stated for whole statements, because it is false there: a captured reference may read an equal value, or stand where nothing reads it; `AliasExactness` has the exact condition for what a reference reads.
- UnnestedProjection.UnnestingExactly: on its own small projection language, without grouping and without the names of output columns; asks for distinct column names across FROM, one call without a call inside it, and qualified columns that `UnnestedColumns.ColumnReadsExactly` keeps. The closing change of dots into subscripts keeps values by definition and is not modelled.
- PassText.TupleInReadsBack: operands inside casts, calls and ANY arrays are written as units.
- PassText.CountReadsBack: no converse for whole statements, because it is false there: a projection that would not read back is one the pass throws away.
- DeclaredSource.FromDeclarations: on the in-memory registry object; the persistent one answers alike by `PersistentRegistry.RedbRegistry.Call`, but a store failure inside the builder is not modelled.
- SubqueryShapes.EveryRowIsCompared: asks that no row is an element of another, because otherwise it is false: `SubqueryShapes.RowInRowIsLeft`.
- DeclaredComplete.EveryTableIsServed: asks that no table has more columns than an i32 can count, since pg_class is then refused.
- CatalogComplete.RelationIsListed: asks that no two relations or indexes of a database share an OID, which is the host's to see to.
- Precedence.RoundTrip: over the connectives the passes write; arithmetic and other operators are units.
- SessionSpellings.ByteOffsetOf: a byte is modelled as a position inside a character of known width, not by its bits.
- Batches of callbacks: a source's reply is a sequence of batches, a combined source's reply is given as one.
- Columns of catalog rows other than identity, kind, type, position, count, nullability and default flags; OID counters of pg_index and pg_constraint.
- Type strings of declared columns are resolved before the model begins.
- The registry file's format and locking: a transaction is committed whole or not at all.
- The one-node cast rewrites, SET handling, routing, text snapshots and the server: each is settled by reading one branch.
