# Verified model of omni-sql's query, protocol and cache logic

This project models, in Dafny, the parts of omni-sql whose correctness depends on more than one function at a time, and proves
what they promise. `dafny verify dfyconfig.toml` covers the whole project.

## What is modelled

**SQL to MongoDB** (`Values`, `Ordering`, `Partition`, `Sql`, `SetFunctions`, `Mongo`, `HavingNames`, `Predicate`, `Grouping`, `OrderSpec`,
`ColumnOrder`, `Select`, `Headers`, `SelectCorrect`, `Mentions`, `OrderedAnswer`, `Acceptance`, `Translator`, `SelectClashes`, `LatestJoin`,
`JoinShapes`). SQL expressions have a three-valued evaluator
(ISO/IEC 9075:1992, sections 8.2, 8.4, 8.6 and 8.12 for conditions, 6.5 for set functions, 7.7 and 7.8 for GROUP BY and HAVING); MongoDB filters, expressions and stages
have one over documents with missing, null, scalar, array and object fields. A SELECT's answer is defined on the SQL side alone, and
the emitted find or pipeline is proved to return it. `Translator` holds the class that fills the aggregate table lazily and pushes
stages one by one; it takes a SELECT exactly when its header and clauses are in the grammar that `Headers` and `Acceptance` spell out.
ORDER BY has a second meaning in `OrderedAnswer`, by what the result rows show. In HAVING a name denotes a grouping column, and an output only when no grouping column has the name (docs/MONGODB.md,
line 47, offers output names in ORDER BY alone). The theorem covers every accepted SELECT and every collection whose documents hold
scalars in the fields the query groups, orders or takes MIN and MAX of, and numbers or nulls under SUM and AVG. Elsewhere documents may
hold anything, as long as no order comparison meets two arrays or two objects and no indexable equality meets an array that contains its
literal; `list_contains` needs nothing. There are three clashes a caller can look for in the SELECT: COUNT(*) and a count of a column
literally named `*` in one SELECT share a slot; a HAVING name that is both a grouping column and the name of an output with another value
is read as the output; and the sort object changes an ungrouped ORDER BY that repeats a column with another direction or names
integer-like columns out of order.

**Predicate pushdown** (`Subexpressions`, `SourcePlan`, `PlanShapes`). The split of a WHERE tree into pushed filters and a residual, the projection, and the proof
that, where the plan spells its fields as the documents do, neither loses a row, nor adds one unless a pushed equality meets an array that
contains its literal, for any engine that evaluates the residual and ignores the case of names. What such an engine may read is defined by
the columns that stand anywhere in an expression, apart from the visit that collects the projected fields.

**MCP bridge** (`Bridge`, `BridgeInvariant`, `BridgeLaws`, `BridgeClass`). Each public method and each timer or abort callback runs to completion,
so each is one step of a state machine; `McpBridge` is the object, whose methods are proved to be those steps. Clock readings, ids
(never repeated) and poll tokens are parameters. Promises are a settlement count per request.

**HTTP sessions** (`Sessions`, `SessionsInvariant`, `SessionLaws`, `SessionObjects`). The steps between awaits of initialise, request, close and
timer, interleaved in any order; `SessionObjects` holds the session and server state objects.

**Lexer, statement finder, identifiers** (`Lexer`, `LexerCorrect`, `TokenGrammar`, `Tokenizer`, `Slices`, `Statements`, `StatementMarks`,
`ContextSlices`, `SubqueryChoice`, `ContextLoops`, `Identifiers`). `TokenGrammar` says of the characters alone what a token is and where
literals, comments and quoted names end; the lexer's list is the only one that follows it. The lexer may be restarted at any token boundary, except where a PostgreSQL dollar-quote delimiter
follows an identifier character; no slice the statement finder or context resolution makes meets the exception. All theorems hold
for every keyword set.

**Row caps** (`RowCap`, `RowCapCorrect`, `RowCapGrammar`, `RowCapAgain`, `RowCapTokenizer`). Both adapters' tokenizers as one scan with two flavours. The
PostgreSQL cap is exact for every text; the MySQL one exactly unless a quote is left open or the statement ends in two dashes, which a following
space turns into a comment.

**Bounded output** (`Paging`, `Framing`, `BoundedResult`), **schema shapes** (`SchemaShape`) and the **metadata cache** (`Cache`,
`CacheAgreement`, `CacheLaws`, `CacheObject`).

## Where code and intent part

Each line names a lemma about an input that shows it, and the theorem that says when the code meets its intent.

- `StarClashDiffers`: two counts in one slot; `UnclashedIff` with `SharedSlotIff`.
- `HavingNameDiffers`: HAVING reads an output instead of the grouping column; `HavingNameIff`.
- `UnfaithfulSorts`: the sort object is not the ORDER BY list; `SortObjectFaithfulIff`.
- `MemberDiffers`: a pushed equality matches an array; `FieldEqFaithfulIff`, `LeafDenotes`, `SplitDenotes`.
- `CaseDiffers`: a pushed equality misses a field spelled in another case; `LeafSpelledIff`, `PushdownKeepsAnswer`.
- `ReorderedColumns`: the projection object reorders the select list; `ColumnOrderIff`.
- `DollarNameIsLost`: an unquoted name lexes as a string; `FormatRoundTripIff`.
- `DashExample` and `OpenExample`: the cap is lost in a comment, or added twice; `PrepareIsExactIff`, `PrepareOnceIff`.
- `MissedRow`: a last full batch hides further rows; `MoreMeansMoreIff`.
- `LargeRowEscapes`: a frame over the bound; `AllFramesFitIff`.
- `UnnamedColumnRefused`: a bounded result the bridge refuses; `BoundedIsValid`.
- `DroppedSchemaLingers` and `EmptyListForgotten`: memory and a restart differ; `MemoryIsFreshIff`.

The statement finder may also return a statement that starts after the cursor, when the cursor is strictly inside a separator token
of more than one character (`StatementIs`).

## Modelling choices

- Names are plain keys, compared exactly; only the engine behind a pushdown's residual ignores their (ASCII) case. Scalars have one
  total order, among which objects and arrays have a place (null, numbers, strings, objects, arrays, booleans); a missing field sorts
  as null. Groups come in order of first appearance and sorting is stable, on both sides.
- Numbers are reals; a numeral's value is taken as parsed.
- SELECT * of a latest-row join returns the base collection's columns.
- A rejected translation carries no message.
- Strings are sequences of Unicode scalar values where the code sees UTF-16 units; in `Framing` and `BoundedResult` they stand for
  bytes.
- In `Sessions`, constructing the transport and the server after admission is taken not to throw: an exception there would keep the
  admitted capacity for ever.
- In `Cache`, the tables are maps with the uniqueness, foreign key and cascade rules of the DDL, and JSON columns round-trip.

## Model

| member | source | states |
|---|---|---|
| `Ordering.SortOrderIsStableSort` | packages/backend/src/mongo-sql.ts:228 | the one sort both sides share is a permutation, sorted by key and direction, that keeps the order of equal keys |
| `SetFunctions.OrderIff` | docs/MONGODB.md:54 | the order of values: NULL first, numbers by size, text by the first differing character, FALSE before TRUE |
| `SetFunctions.LeastIs` | packages/backend/src/mongo-sql.ts:109 | MIN is one of the values, and none is smaller |
| `SetFunctions.MembersStand` | packages/backend/src/mongo-sql.ts:220 | a group has the rows with its key, each once and in their order |
| `Partition.GroupsCoverRows` | packages/backend/src/mongo-sql.ts:220 | grouping loses and invents no row: the group sizes add up to the number of rows |
| `Predicate.SharedSlotIff` | packages/backend/src/mongo-sql.ts:70 | two aggregates share an accumulator exactly when they are the same aggregate, or are COUNT(*) and a COUNT of a column literally named `*` |
| `SelectClashes.StarClashDiffers` | packages/backend/src/mongo-sql.ts:70-118 | `SELECT COUNT(*) AS n, COUNT("*") AS m` on one empty document: SQL answers 1 and 0, the emitted query the same value twice, whatever the table |
| `Mentions.UnclashedIff` | packages/backend/src/mongo-sql.ts:70-101 | no two aggregates of a SELECT share a signature and differ, exactly when it does not count both its rows and a column named `*` |
| `Mentions.FlatEligible` | docs/MONGODB.md:54 | collections of scalar fields, numeric under SUM and AVG, are eligible for every SELECT without a clash |
| `Headers.NameIff` | packages/backend/src/mongo-sql.ts:9-12 | a name is a field name exactly when no part between dots is empty or starts with `$`, and it has no NUL |
| `Headers.HeaderIff` | packages/backend/src/mongo-sql.ts:46-93 | a SELECT has one header at most: the schema's database or else the default one, the alias or else the name as qualifier, the columns' names, groups and grouping, exactly for the source, list and groups that are supported |
| `Acceptance.TakenIsCondition` | packages/backend/src/mongo-sql.ts:138-167 | a condition that is taken is in the grammar: comparisons, IS NULL and IN over operands, under AND, OR, NOT and parentheses |
| `Acceptance.ConditionIsTaken` | packages/backend/src/mongo-sql.ts:138-167 | every condition in the grammar is taken, once each aggregate it mentions has a slot |
| `Acceptance.MatchFilterIff` | packages/backend/src/mongo-sql.ts:169-196 | an indexable filter is made exactly of those conditions and of `list_contains` on a field and a literal |
| `Acceptance.AssembledIsAccepted` | packages/backend/src/mongo-sql.ts:197-245 | what is assembled has its clauses in the grammar |
| `Acceptance.AcceptedIsAssembled` | packages/backend/src/mongo-sql.ts:197-245 | a SELECT whose clauses are in the grammar is assembled, once each aggregate has a slot |
| `HavingNames.HavingNameIff` | packages/backend/src/mongo-sql.ts:125-134 | looking a HAVING name up among the outputs first gives the grouping column's value in every group, exactly when the output is that column or its MIN, MAX or AVG |
| `SelectClashes.HavingNameDiffers` | packages/backend/src/mongo-sql.ts:125-134 | `SELECT x AS y, COUNT(*) AS x ... GROUP BY x HAVING x > 1` on one row with x = 5: SQL answers one row, the emitted query none |
| `Predicate.InDenotes` | packages/backend/src/mongo-sql.ts:150-159 | IN is TRUE and FALSE of exactly the values the emitted membership accepts and rejects, NULLs in the list included |
| `Predicate.ComparisonDenotes` | packages/backend/src/mongo-sql.ts:160-166 | each comparison and its inverse agree with the SQL comparison on non-null scalars |
| `Predicate.GroupRefDenotes` | packages/backend/src/mongo-sql.ts:98-124 | a reference emitted after grouping reads the value SQL gives the aggregate or grouping column of that group, when no other aggregate has its slot |
| `Predicate.PredDenotes` | packages/backend/src/mongo-sql.ts:138-168 | for every condition and row or group, the emitted expression holds iff SQL says TRUE, and the negated one iff SQL says FALSE, HAVING names meaning grouping columns first |
| `Grouping.MainAccValue` | packages/backend/src/mongo-sql.ts:107-115 | each accumulator computes the SQL set function: COUNT(f) skips nulls, AVG/MIN/MAX of nothing is null, SUM before its null check |
| `Grouping.SlotsDistinct` | packages/backend/src/mongo-sql.ts:103-115 | accumulator slots, SUM's counters, group keys and `_id` never collide |
| `Grouping.SlotsHold` | packages/backend/src/mongo-sql.ts:98-124 | every slot a later stage reads is defined by the group stage and holds its aggregate's value |
| `Grouping.DefaultsHold` | packages/backend/src/mongo-sql.ts:105-116 | the default document gives every aggregate its value over no rows |
| `Grouping.GroupStagePresents` | packages/backend/src/mongo-sql.ts:94-124 | the group stage yields one document per SQL group, in the same order, nulls and missing fields in one group |
| `Grouping.GlobalStagesPresent` | packages/backend/src/mongo-sql.ts:219-224 | facet and default replacement yield exactly one document for the global group, also over no rows |
| `OrderSpec.SetEntryCorrect` | packages/backend/src/mongo-sql.ts:204-217 | setting a key of the sort object overwrites its direction, keeps its place, and enumerates integer keys first |
| `SetFunctions.IndexIff` | packages/backend/src/mongo-sql.ts:204 | the property names enumerated first are the integers from 0 to 2^32 - 2 as they print |
| `SetFunctions.IndexOrder` | packages/backend/src/mongo-sql.ts:204 | they are enumerated by value |
| `OrderSpec.ObjectIsListIff` | packages/backend/src/mongo-sql.ts:206-217 | the sort object enumerates as the ORDER BY list exactly when no direction is overwritten and integer-like names come first in order |
| `OrderSpec.SortObjectFaithfulIff` | packages/backend/src/mongo-sql.ts:206-217 | for every list of flat documents the sort object sorts as the ORDER BY list does, exactly under those two conditions |
| `OrderSpec.UnfaithfulSorts` | packages/backend/src/mongo-sql.ts:216 | two ORDER BY lists, each with two documents that change places: an overwritten direction, and an integer-like name |
| `ColumnOrder.ColumnOrderIff` | packages/backend/src/mongo-sql.ts:199-202 | the columns of an aggregate come in select-list order exactly when integer-like names come first and ascend and only they come before a selected `_id` |
| `ColumnOrder.ColumnsComplete` | packages/backend/src/mongo-sql.ts:199-202 | in whatever order, the columns are the selected ones, each once, `_id` only if selected |
| `ColumnOrder.FillProjection` | packages/backend/src/mongo-sql.ts:199-202 | the projection object filled output by output has those columns |
| `ColumnOrder.ReorderedColumns` | packages/backend/src/mongo-sql.ts:199-202 | `SELECT b AS "2", a AS "1"` and `SELECT a, _id ... LIMIT 5` return their columns the other way round |
| `SelectCorrect.FieldEqFaithfulIff` | packages/backend/src/mongo-sql.ts:184 | pushed equality is SQL equality on a document exactly when no array holds the literal |
| `SelectCorrect.ElemEqDenotes` | packages/backend/src/mongo-sql.ts:187-194 | the element match is SQL's `list_contains` |
| `SelectCorrect.MatchFilterDenotes` | packages/backend/src/mongo-sql.ts:170-196 | an indexable filter matches exactly the documents whose WHERE is TRUE, arrays included, where no equality meets an array with its literal and no other comparison two arrays or objects |
| `SelectCorrect.ProjectDenotes` | packages/backend/src/mongo-sql.ts:199-202 | the projection of a document is the SQL result row |
| `SelectCorrect.GroupedAnswer` | packages/backend/src/mongo-sql.ts:218-236 | the grouped pipeline (filter, group, HAVING, sort slots, sort, limit, project) returns the SQL answer |
| `SelectCorrect.PlainAnswer` | packages/backend/src/mongo-sql.ts:226-236 | the ungrouped pipeline returns the SQL answer; projecting after sort and limit changes nothing |
| `SelectCorrect.FindAnswer` | packages/backend/src/mongo-sql.ts:237-243 | the find form returns the SQL answer |
| `SelectCorrect.MeaningPreserved` | packages/backend/src/mongo-sql.ts:42-245 | whatever form an accepted SELECT takes, executing it returns exactly the SQL rows in order, on documents that fit it and but for the three clashes; `OrderedAnswer.ReturnedInOrder` says what that order shows |
| `OrderedAnswer.TermStands` | packages/backend/src/mongo-sql.ts:206-217 | an ORDER BY name that heads a column of the result is worth what the row shows there; any other is that field of the document, or the grouping column or aggregate |
| `OrderedAnswer.AnswerIsOrdered` | packages/backend/src/mongo-sql.ts:206-228 | the answer is a prefix, cut by LIMIT, of all rows or groups, each once, ordered by those values in their directions, equal ones in their original order |
| `OrderedAnswer.ReturnedInOrder` | packages/backend/src/mongo-sql.ts:206-245 | two documents of the emitted query that agree on the first ORDER BY names show the next name's values in its direction |
| `OrderedAnswer.HavingNameShown` | packages/backend/src/mongo-sql.ts:125-134 | in HAVING the name of a result column that is no grouping column means what the group's row shows there |
| `Translator.SelectTranslator.constructor` | packages/backend/src/mongo-sql.ts:94-97 | translation starts with an empty aggregate table |
| `Translator.SelectTranslator.GroupValue` | packages/backend/src/mongo-sql.ts:98-124 | the lazily filled table grows by at most one entry per call, and the reference returned stays right however it grows |
| `Translator.SelectTranslator.Value` | packages/backend/src/mongo-sql.ts:125-137 | operands before and after grouping, right for every later state of the table |
| `Translator.SelectTranslator.NullTest` | packages/backend/src/mongo-sql.ts:147-149 | IS NULL and IS NOT NULL under negation |
| `Translator.SelectTranslator.Membership` | packages/backend/src/mongo-sql.ts:150-159 | IN and NOT IN under negation, with NULLs in the list |
| `Translator.SelectTranslator.Comparison` | packages/backend/src/mongo-sql.ts:160-166 | the six comparisons under negation |
| `Translator.SelectTranslator.Condition` | packages/backend/src/mongo-sql.ts:138-168 | the recursive condition, right for every later state of the table |
| `Translator.SelectTranslator.OutputValue` | packages/backend/src/mongo-sql.ts:201 | what one output is projected from, grouped or not |
| `Translator.SelectTranslator.SortValue` | packages/backend/src/mongo-sql.ts:208-216 | what one term of a grouped ORDER BY is sorted by |
| `Translator.SelectTranslator.ProjectOutputs` | packages/backend/src/mongo-sql.ts:199-202 | the select list in order, one projection entry per output |
| `Translator.SelectTranslator.SortTerms` | packages/backend/src/mongo-sql.ts:206-217 | ORDER BY terms of a grouped query, one sort slot each; what output names stand for is stated by `OrderedAnswer.TermStands` |
| `Translator.SortEntries` | packages/backend/src/mongo-sql.ts:206-217 | the sort object of an ungrouped query, built by repeated assignment; what output names stand for is stated by `OrderedAnswer.TermStands` |
| `Translator.AssembleStepwise` | packages/backend/src/mongo-sql.ts:94-245 | pushing stages one after another builds the assembled query, and refuses only what no table of slots makes assemblable |
| `Translator.TranslateSelect` | packages/backend/src/mongo-sql.ts:42-245 | a SELECT is translated exactly when its header and clauses are in the grammar; the query then returns the SQL answer on every eligible collection, its rows ordered by what they show under the names of ORDER BY |
| `LatestJoin.JoinKeys.constructor` | packages/backend/src/mongo-sql.ts:273-274 | no keys are collected at first |
| `LatestJoin.JoinKeys.AddPair` | packages/backend/src/mongo-sql.ts:286-292 | one equality adds one variable and one condition on it |
| `LatestJoin.JoinKeys.Equality` | packages/backend/src/mongo-sql.ts:275-293 | the ON tree's equalities are collected left to right, or the join is refused |
| `LatestJoin.OnKeysDenote` | packages/backend/src/mongo-sql.ts:275-293 | the collected key pairs hold of two rows exactly when ON is TRUE of them under the names it is translated with |
| `LatestJoin.JoinRun` | packages/backend/src/mongo-sql.ts:300-304 | lookup, unwind and replaceRoot return the base documents joined with the one row, and nothing without a row |
| `LatestJoin.FindTailRun` | packages/backend/src/mongo-sql.ts:295-299 | a find query turned into stages returns what the find returns |
| `LatestJoin.JoinMeaning` | packages/backend/src/mongo-sql.ts:248-307 | the whole pipeline returns the outer SELECT over the documents on which ON is TRUE with the CTE's row, columns being read by the aliases, or else names, that FROM and JOIN give |
| `LatestJoin.TranslateLatestJoin` | packages/backend/src/mongo-sql.ts:248-307 | a join is accepted exactly when its shape, its ON condition and both SELECTs are, on one collection; it returns the join's answer, with ON read by the statement's own names, on every eligible collection |
| `JoinShapes.JoinScopeIff` | packages/backend/src/mongo-sql.ts:249-272 | the join is scoped exactly for one plain CTE with ORDER BY and LIMIT 1, joined by name to a collection called differently, under the statement's own names |
| `JoinShapes.OnKeysIff` | packages/backend/src/mongo-sql.ts:275-286 | ON is taken exactly when it equates fields of the collection with fields the CTE selects, either way round, joined by AND |
| `JoinShapes.JoinTakenIff` | packages/backend/src/mongo-sql.ts:249-286 | both together, in terms of the statement |
| `SourcePlan.LeafDenotes` | packages/backend/src/mongo-sql-source.ts:68-73 | on a document with the field under its spelling, a pushed leaf matches whenever SQL says TRUE, and only then exactly when it meets no array that contains its literal |
| `SourcePlan.LeafSpelledIff` | packages/backend/src/mongo-sql-source.ts:47-73 | among documents with given fields a pushed leaf agrees with SQL on all, such arrays aside, exactly when no field differs from the leaf's in case only |
| `SourcePlan.PushedDenotes` | packages/backend/src/mongo-sql-source.ts:58-78 | a pushed tree whose fields are spelled as stored matches every row on which SQL says TRUE, and no other unless one of its equalities meets such an array |
| `SourcePlan.SplitDenotes` | packages/backend/src/mongo-sql-source.ts:79-92 | with pushed fields spelled as stored, a row that makes the WHERE TRUE matches every pushed filter and makes the residual TRUE, and no other does unless a pushed equality meets such an array |
| `SourcePlan.TruthOnProjection` | packages/backend/src/mongo-sql-source.ts:96-107 | the WHERE's truth depends on the projected columns only, when those are spelled as stored |
| `SourcePlan.PushdownKeepsAnswer` | packages/backend/src/mongo-sql-source.ts:58-109 | evaluating the rewritten SELECT on filtered, projected documents gives the rows of the original on full ones, for every engine that reads no more than the fields of the columns standing in an expression, where the plan's fields are spelled as stored and no pushed equality meets such an array |
| `SourcePlan.MemberDiffers` | packages/backend/src/mongo-sql-source.ts:58-109 | `SELECT x FROM c WHERE x = 5` on `{x: [5]}`: the plan returns a row the original SELECT does not, whatever the engine |
| `SourcePlan.CaseDiffers` | packages/backend/src/mongo-sql-source.ts:58-109 | the same SELECT on `{X: 5}`: the original returns a row, for an engine that ignores case, and the plan none |
| `SourcePlan.Planner.constructor` | packages/backend/src/mongo-sql-source.ts:79 | no filter is pushed at first |
| `SourcePlan.Planner.Remaining` | packages/backend/src/mongo-sql-source.ts:80-92 | the filters pushed and the residual left are those of the split |
| `SourcePlan.CollectFields` | packages/backend/src/mongo-sql-source.ts:96-103 | the names collected are the fields that columns anywhere in the base SELECT read, and the star is noticed wherever a star or a COUNT stands |
| `SourcePlan.PlanSource` | packages/backend/src/mongo-sql-source.ts:45-109 | the plan of that name, whose parts `PlanShapes` states: none without a pushable conjunct, a database or a field, else filter, projection and residual |
| `SourcePlan.ColumnsIff` | packages/backend/src/mongo-sql-source.ts:12-17 | the visit finds the columns standing anywhere in an expression, and nothing else |
| `SourcePlan.StarIff` | packages/backend/src/mongo-sql-source.ts:99-100 | the visit notices a star or a COUNT wherever one stands |
| `SourcePlan.ClashesIff` | packages/backend/src/mongo-sql-source.ts:47-53 | the visit finds a clash exactly when a column outside the select list may mean one of its entries, by name or qualifier, in any case |
| `PlanShapes.FieldsIff` | packages/backend/src/mongo-sql-source.ts:96-103 | a field is in the plan exactly when a column of the rewritten SELECT reads it, at any depth |
| `PlanShapes.WholeIff` | packages/backend/src/mongo-sql-source.ts:97-107 | whole documents are fetched exactly when a star or a COUNT stands in the rewritten SELECT |
| `PlanShapes.ColumnIsFetched` | packages/backend/src/mongo-sql-source.ts:96-107 | every column of the rewritten SELECT, however deep, finds its field among what is fetched |
| `PlanShapes.LeafIff` | packages/backend/src/mongo-sql-source.ts:58-78 | a leaf is pushed exactly when it is a field equal to, or a list field containing, a literal other than NULL, on a collection with a known database |
| `PlanShapes.PlanIff` | packages/backend/src/mongo-sql-source.ts:45-105 | there is a plan exactly when the collection can be filtered, nothing is ambiguous, some conjunct can be pushed, and a field or a whole document is read |
| `BridgeInvariant.RunKeepsInv` | packages/backend/src/mcp-bridge.ts:452-754 | the bridge's invariant holds after any interleaving of calls, timers and aborts |
| `BridgeInvariant.SettledExactlyOnLeaving` | packages/backend/src/mcp-bridge.ts:534-557 | in every reachable state a submitted request has settled once if it left `pending` and not at all otherwise |
| `BridgeInvariant.CountersAddUp` | packages/backend/src/mcp-bridge.ts:646-655 | queued plus in flight is all of `pending`, which never exceeds the queue size |
| `BridgeInvariant.DeliveredInOrder` | packages/backend/src/mcp-bridge.ts:716-722 | requests are delivered in submission order; one that was overtaken had timed out, been aborted or lost its listener |
| `BridgeInvariant.DeliveredOnce` | packages/backend/src/mcp-bridge.ts:571-581 | no request is delivered twice |
| `BridgeInvariant.ParkedPollIsHolders` | packages/backend/src/mcp-bridge.ts:493-508 | a parked poll means an empty queue and belongs to the lease holder |
| `BridgeInvariant.RefusedOnlyAtClaim` | packages/backend/src/mcp-bridge.ts:482-487 | a well-formed poll is refused iff another listener holds an unexpired lease, so the later check never fires |
| `BridgeInvariant.OnlyOwnerAnswers` | packages/backend/src/mcp-bridge.ts:585-629 | only the listener a request was delivered to can answer it; the answer settles exactly that request, completed by a valid result alone and otherwise failed with the code the response gives |
| `BridgeInvariant.ApprovedOnceInTime` | packages/backend/src/mcp-bridge.ts:631-638 | no request is approved twice, each by the listener it went to and with more than a second left |
| `BridgeInvariant.ExpirySparesDelivered` | packages/backend/src/mcp-bridge.ts:737-753 | lease expiry rejects exactly the undelivered requests and leaves the delivered ones answerable |
| `BridgeInvariant.HistoryIsRecent` | packages/backend/src/mcp-bridge.ts:678-703 | the history lists the newest submissions up to its bound, each pending exactly while its request is, else with its outcome |
| `BridgeLaws.AnswerTells` | packages/backend/src/mcp-bridge.ts:597-629 | after an accepted answer the request's outcome and its retained history entry are completed exactly for a valid result, else failed with the code of the case |
| `BridgeLaws.SubmitAnswers` | packages/backend/src/mcp-bridge.ts:511-583 | which reply a submission gets, and where an accepted request goes |
| `BridgeLaws.NextAnswers` | packages/backend/src/mcp-bridge.ts:477-509 | which reply a poll gets: the oldest undelivered request, nothing, a parked poll, or the refusal of the case |
| `BridgeLaws.CloseRejectsAll` | packages/backend/src/mcp-bridge.ts:661-675 | closing fails every open request as unavailable and forgets listener, poll and queue |
| `BridgeLaws.TimersTell` | packages/backend/src/mcp-bridge.ts:534-557 | a timeout and an abort fail the request they belong to, each with its own code, and no other |
| `BridgeClass.McpBridge.constructor` | packages/backend/src/mcp-bridge.ts:452-475 | a new bridge is in the initial state |
| `BridgeClass.McpBridge.SettlePromise` | packages/backend/src/mcp-bridge.ts:691-703 | settling marks the first history entry with the id |
| `BridgeClass.McpBridge.ExpireListener` | packages/backend/src/mcp-bridge.ts:737-753 | the method is the expiry step |
| `BridgeClass.McpBridge.ExpireListenerIfNeeded` | packages/backend/src/mcp-bridge.ts:733-735 | expiry at or after the lease's deadline, invariant kept |
| `BridgeClass.McpBridge.Close` | packages/backend/src/mcp-bridge.ts:661-676 | the method is the closing step, invariant kept |
| `BridgeClass.McpBridge.Next` | packages/backend/src/mcp-bridge.ts:477-509 | the method is the polling step and gives its reply, invariant kept |
| `BridgeClass.McpBridge.ClaimListener` | packages/backend/src/mcp-bridge.ts:705-714 | a claim succeeds iff no other listener holds the lease, and renews it |
| `BridgeClass.McpBridge.Submit` | packages/backend/src/mcp-bridge.ts:511-583 | the method is the submitting step and gives its reply, invariant kept |
| `BridgeClass.McpBridge.Enqueue` | packages/backend/src/mcp-bridge.ts:558-582 | an accepted request is recorded and goes to the holder's parked poll, or else to the end of the queue |
| `BridgeClass.McpBridge.RecordHistory` | packages/backend/src/mcp-bridge.ts:678-689 | one entry is added and the oldest dropped past the bound |
| `BridgeClass.McpBridge.Respond` | packages/backend/src/mcp-bridge.ts:585-629 | the method is the answering step and gives its reply, invariant kept; an accepted request is completed by a valid result alone, else failed with the code the response gives |
| `BridgeClass.McpBridge.ApproveExecution` | packages/backend/src/mcp-bridge.ts:631-638 | the method is the approving step, invariant kept |
| `BridgeClass.McpBridge.Release` | packages/backend/src/mcp-bridge.ts:640-644 | only the lease holder's release closes the bridge |
| `BridgeClass.McpBridge.Status` | packages/backend/src/mcp-bridge.ts:646-655 | the counters returned add up to `pending`, within the queue size |
| `BridgeClass.McpBridge.OnTimeout` | packages/backend/src/mcp-bridge.ts:534-544 | a timeout settles a pending request and takes it out of the queue, else does nothing |
| `BridgeClass.McpBridge.OnAbort` | packages/backend/src/mcp-bridge.ts:546-557 | the same for an abort |
| `BridgeClass.McpBridge.OnPollEnd` | packages/backend/src/mcp-bridge.ts:496-508 | the end of a poll releases that poll only |
| `BridgeClass.McpBridge.OnLeaseTimer` | packages/backend/src/mcp-bridge.ts:711 | the lease timer expires the listener, invariant kept |
| `SessionsInvariant.ReachesInv` | packages/mcp-server/src/index.ts:404-571 | the session manager's invariant holds after any interleaving of its steps |
| `SessionsInvariant.WithinCapacity` | packages/mcp-server/src/index.ts:528-541 | sessions, and sessions plus unregistered initialisations, never exceed the limit |
| `SessionsInvariant.CountersAreExact` | packages/mcp-server/src/index.ts:428-437 | a session's counter is the number of requests in flight on it, and capacity is held exactly by running initialisations |
| `SessionsInvariant.TimerIffIdle` | packages/mcp-server/src/index.ts:413-426 | a timer is armed exactly for idle sessions in the table, none of which is disposed of |
| `SessionsInvariant.ClosedAtMostOnce` | packages/mcp-server/src/index.ts:439-448 | a session's server is closed once if disposed of, else never |
| `SessionsInvariant.IdleTimerFindsNoRequest` | packages/mcp-server/src/index.ts:416-420 | a firing idle timer finds no request in flight and disposes of the session |
| `SessionsInvariant.ClientCloseNeverDisposes` | packages/mcp-server/src/index.ts:543-546 | a session the client closed after its initialisation was handled is never disposed of, however the run continues |
| `SessionsInvariant.ClientCloses` | packages/mcp-server/src/index.ts:543-546 | the client's close leaves its session in that state |
| `SessionsInvariant.CloseAllEmpties` | packages/mcp-server/src/index.ts:636-638 | closing disposes of every session in the table, each for the first time, and empties it |
| `SessionLaws.FailedInitDisposes` | packages/mcp-server/src/index.ts:562-565 | a failed initialisation disposes of its session, closed once and out of the table, and holds its place until the request ends |
| `SessionLaws.GoneForGood` | packages/mcp-server/src/index.ts:562-565 | no session that was disposed of comes back, whatever happens later |
| `SessionLaws.RequestsCount` | packages/mcp-server/src/index.ts:577-596 | a request counts from its beginning to its end; its end arms the timer exactly of a session that is then idle and in the table |
| `SessionLaws.RegisteredIsFound` | packages/mcp-server/src/index.ts:536-542 | a session that gets its id is found under it, its timer waiting for the initialisation to end |
| `SessionLaws.InitEnds` | packages/mcp-server/src/index.ts:566-569 | the end of an initialisation gives its place back and arms the timer of a session that is idle and in the table |
| `SessionObjects.HttpSession.constructor` | packages/mcp-server/src/index.ts:551-559 | a session being initialised counts that request |
| `SessionObjects.HttpSession.BeginRequest` | packages/mcp-server/src/index.ts:428-432 | a request stops the timer and counts |
| `SessionObjects.HttpSession.ArmIdleTimer` | packages/mcp-server/src/index.ts:413-422 | the timer is armed only for a tracked, undisposed, idle session |
| `SessionObjects.HttpSession.EndRequest` | packages/mcp-server/src/index.ts:434-437 | the counter never drops below zero, and the last request arms the timer |
| `SessionObjects.HttpServerState.Forget` | packages/mcp-server/src/index.ts:404-411 | exactly the session's entries leave the table |
| `SessionObjects.HttpServerState.Dispose` | packages/mcp-server/src/index.ts:439-448 | a second disposal does nothing |
| `SessionObjects.HttpServerState.Admit` | packages/mcp-server/src/index.ts:528-532 | admission iff sessions and running initialisations leave room |
| `SessionObjects.HttpServerState.OnInitialized` | packages/mcp-server/src/index.ts:536-542 | the session enters the table under its id |
| `SessionObjects.HttpServerState.OnClosed` | packages/mcp-server/src/index.ts:543-546 | the client's close forgets the session with the id, and changes nothing for an id the table does not have |
| `SessionObjects.HttpServerState.OnIdle` | packages/mcp-server/src/index.ts:416-420 | the timer's callback |
| `SessionObjects.HttpServerState.EndInitialization` | packages/mcp-server/src/index.ts:566-569 | the request ends and capacity is given back |
| `SessionObjects.HttpServerState.CloseSessions` | packages/mcp-server/src/index.ts:636-638 | every session is disposed of and the table is empty |
| `LexerCorrect.TokensTileInput` | packages/autocomplete-engine/src/lexer.ts:38-194 | tokens tile the input without gap or overlap, none but the end marker is empty, and it comes last |
| `LexerCorrect.FirstCut` | packages/autocomplete-engine/src/lexer.ts:46-190 | which rule applies and what it takes does not depend on the text after the token |
| `LexerCorrect.BoundaryIsTokenEnd` | packages/autocomplete-engine/src/lexer.ts:38-194 | the boundaries are 0 and the token ends |
| `LexerCorrect.RestartIff` | packages/autocomplete-engine/src/lexer.ts:86 | lexing a rest afresh differs from lexing it in context exactly when a PostgreSQL dollar-quote delimiter follows an identifier character |
| `LexerCorrect.BoundaryDecomposition` | packages/autocomplete-engine/src/lexer.ts:38-194 | the tokens of the text are those of its two sides, the second moved, for every boundary, exactly without that exception |
| `TokenGrammar.StringEndIff` | packages/autocomplete-engine/src/lexer.ts:98-111 | a string literal ends with the first quote that is neither paired nor, with escapes, behind a backslash, or with the text |
| `TokenGrammar.QuotedEndIff` | packages/autocomplete-engine/src/lexer.ts:119-135 | so does a quoted name, at its own closing mark |
| `TokenGrammar.BlockEndIff` | packages/autocomplete-engine/src/lexer.ts:61-72 | a block comment ends where a prefix closes all that were opened, or with the text |
| `TokenGrammar.TokenIff` | packages/autocomplete-engine/src/lexer.ts:46-190 | the token in front is the one lexeme that the grammar allows there |
| `TokenGrammar.TokenizeIff` | packages/autocomplete-engine/src/lexer.ts:38-194 | only one list covers the text and follows the grammar: the lexer's |
| `TokenGrammar.LiteralToken` | packages/autocomplete-engine/src/lexer.ts:96-114 | a token that starts at a quote, or at PostgreSQL's `E'`, is one string literal up to its end, and no other token lies in it |
| `TokenGrammar.CommentToken` | packages/autocomplete-engine/src/lexer.ts:60-84 | a token that starts with a comment mark is one comment, to its closing mark or to the end of its line |
| `TokenGrammar.DollarToken` | packages/autocomplete-engine/src/lexer.ts:86-95 | in PostgreSQL a token that starts with a tag is one string, to the next occurrence of that tag |
| `TokenGrammar.SemicolonToken` | packages/autocomplete-engine/src/lexer.ts:172-178 | a semicolon is a token of its own wherever no literal, comment or quoted name covers it |
| `Tokenizer.SkipRun` | packages/autocomplete-engine/src/lexer.ts:54-55 | the loops over whitespace, line comments and identifiers |
| `Tokenizer.SkipBlockComment` | packages/autocomplete-engine/src/lexer.ts:62-69 | the block comment loop, nested for PostgreSQL |
| `Tokenizer.SkipString` | packages/autocomplete-engine/src/lexer.ts:98-110 | the string loop with doubled quotes and escapes |
| `Tokenizer.SkipQuoted` | packages/autocomplete-engine/src/lexer.ts:121-134 | the quoted identifier loop with doubled closing quotes |
| `Tokenizer.ScanQuoted` | packages/autocomplete-engine/src/lexer.ts:116-140 | a quoted identifier, without its quotes and with doubled ones single |
| `Tokenizer.SkipNumber` | packages/autocomplete-engine/src/lexer.ts:144-155 | the number loop with exponents |
| `Tokenizer.ScanPlain` | packages/autocomplete-engine/src/lexer.ts:96-190 | one pass for strings, quoted names, words, numbers and single characters: the token in front, as the grammar says it |
| `Tokenizer.Scan` | packages/autocomplete-engine/src/lexer.ts:46-190 | one pass of the main loop gives the token in front, as the grammar says it |
| `Tokenizer.Tokenize` | packages/autocomplete-engine/src/lexer.ts:38-194 | the tokens cover the input, each is what the grammar says where it stands, and the end marker is last |
| `Identifiers.QuotedIsOneToken` | packages/dialect-descriptors/src/index.ts:170-180 | a quoted name is one identifier token with that value, in any context but before another closing quote |
| `Identifiers.QuoteRoundTrip` | packages/dialect-descriptors/src/index.ts:170-180 | lexing the quoted form of any string, in any dialect, gives one identifier token with that value |
| `Identifiers.FormatRoundTripIff` | packages/dialect-descriptors/src/index.ts:187-206 | lexing the formatted name gives that too, exactly unless it is an unquoted PostgreSQL name starting with a dollar-quote delimiter |
| `Identifiers.DollarNameIsLost` | packages/dialect-descriptors/src/index.ts:200-206 | the name `$a$` is such a name |
| `Identifiers.FormatKeepsCase` | packages/dialect-descriptors/src/index.ts:187-206 | the database resolves a formatted metadata name to itself; a typed one iff it is quoted or folding leaves it alone |
| `Identifiers.FormatIff` | packages/dialect-descriptors/src/index.ts:187-206 | a name is left as it is exactly when it is a bare word, no keyword and, for metadata, has no letter that PostgreSQL or Oracle would fold; otherwise it is quoted |
| `Slices.WholeAgrees` | packages/autocomplete-engine/src/context.ts:104-138 | a slice between boundaries that no identifier character precedes lexes to the input's own tokens there |
| `Slices.WholeNested` | packages/autocomplete-engine/src/context.ts:461-462 | a slice of such a slice is one of the input |
| `Statements.SeparatorsSorted` | packages/autocomplete-engine/src/context.ts:130 | separators come out in order, so sorting them changes nothing |
| `Statements.StatementIs` | packages/autocomplete-engine/src/context.ts:104-138 | the statement is bounded by separators or the input's ends, holds none, and holds the cursor iff the cursor is not strictly inside one |
| `StatementMarks.SeparatorIff` | packages/autocomplete-engine/src/context.ts:111-130 | a token separates statements exactly when it is a `;`, for Oracle a `/` and for SQL Server a GO alone on its line |
| `StatementMarks.SemicolonsCovered` | packages/autocomplete-engine/src/context.ts:111-138 | every semicolon in the statement found is covered by a literal, a comment or a quoted name |
| `ContextSlices.ActiveClosesLater` | packages/autocomplete-engine/src/context.ts:442-460 | a parenthesis open at the cursor closes at or after it |
| `ContextSlices.SubqueryIs` | packages/autocomplete-engine/src/context.ts:433-462 | the subquery chosen follows its parenthesis, is a whole slice, and holds the cursor |
| `SubqueryChoice.SubqueryIff` | packages/autocomplete-engine/src/context.ts:433-462 | there is a subquery exactly when a parenthesis open at the cursor is followed by SELECT or WITH; it is the innermost such one, up to where it closes |
| `SubqueryChoice.ActiveIsInnermost` | packages/autocomplete-engine/src/context.ts:428-462 | the slice a cursor is resolved in lies in the statement, and no subquery of it holds the cursor any more |
| `ContextSlices.ActiveSpanIsWhole` | packages/autocomplete-engine/src/context.ts:428-466 | the slice reached by the recursion is whole, at every depth |
| `ContextSlices.ResolvedTokensAgree` | packages/autocomplete-engine/src/context.ts:428-473 | statement and innermost slice see exactly the full token list's tokens there |
| `ContextLoops.LineBounds` | packages/autocomplete-engine/src/context.ts:86-92 | the line around an offset |
| `ContextLoops.IsLineIsolated` | packages/autocomplete-engine/src/context.ts:94-101 | whether a token is the only significant one on its line |
| `ContextLoops.FindStatement` | packages/autocomplete-engine/src/context.ts:104-138 | the loop over the tokens finds the statement |
| `ContextLoops.PickSpan` | packages/autocomplete-engine/src/context.ts:131-137 | last separator before the cursor, first one from it on |
| `ContextLoops.FindSubquery` | packages/autocomplete-engine/src/context.ts:440-462 | stack, query test and matching parenthesis find the subquery |
| `ContextLoops.FindActiveSpan` | packages/autocomplete-engine/src/context.ts:428-466 | the recursion finds the active slice |
| `RowCapCorrect.ScanCut` | packages/adapters-pg/src/introspection.ts:434-527 | cutting after a token and going on with a space keeps the tokens before it and the scan after it |
| `RowCapCorrect.CapIsExact` | packages/adapters-pg/src/introspection.ts:400-432 | a capped text lexes to the statement's tokens, LIMIT, the digits of limit + 1, and the optional semicolon |
| `RowCapCorrect.CapOnce` | packages/adapters-pg/src/introspection.ts:417-419 | a capped text is left alone, whatever limit is asked for then |
| `RowCapCorrect.CapIdempotent` | packages/adapters-pg/src/introspection.ts:400-432 | capping twice is capping once, for every text and limit |
| `RowCapGrammar.PgPieceIff` | packages/adapters-pg/src/introspection.ts:440-522 | what PostgreSQL's tokenizer takes, said without its scanners: quoted texts, nested comments and tagged strings end where a mark closes them, or the text is given up |
| `RowCapGrammar.DepthIsOpen` | packages/adapters-pg/src/introspection.ts:507-521 | a token's depth is the number of parentheses open where it stands |
| `RowCapGrammar.CapPointIff` | packages/adapters-pg/src/introspection.ts:403-433 | a text is capped exactly when it is one statement that starts as a query, has a top-level command, and no word that limits rows or writes |
| `RowCapGrammar.QueryIsCapped` | packages/adapters-pg/src/introspection.ts:422-433 | a single SELECT without such words gets the clause after its last token, for every limit a query can have |
| `RowCapCorrect.PrepareIsExactIff` | packages/adapters-mysql/src/introspection.ts:464-479 | a prepared text lexes to the statement's tokens, LIMIT and `?`, exactly when no quote is open and the statement does not end in two dashes |
| `RowCapGrammar.MySqlPieceIff` | packages/adapters-mysql/src/introspection.ts:359-405 | what MySQL's tokenizer takes, said without its scanners |
| `RowCapGrammar.PreparePointIff` | packages/adapters-mysql/src/introspection.ts:464-477 | a text is prepared with a limit exactly when it is one SELECT, perhaps behind common table expressions, without a top-level LIMIT, INTO, PROCEDURE or locking clause |
| `RowCapAgain.PrepareOnceIff` | packages/adapters-mysql/src/introspection.ts:466-468 | preparing an exactly prepared text again changes nothing, exactly when the parentheses are balanced where the clause went |
| `RowCapAgain.OpenExample` | packages/adapters-mysql/src/introspection.ts:466-468 | `SELECT(` is given a second clause by a second preparation |
| `RowCapCorrect.DashExample` | packages/adapters-mysql/src/introspection.ts:349-353 | an input whose inserted clause becomes a comment |
| `RowCapTokenizer.ScanPgPiece` | packages/adapters-pg/src/introspection.ts:440-522 | one pass of the PostgreSQL tokenizer's loop, as the grammar of pieces says it |
| `RowCapTokenizer.TokenizeSql` | packages/adapters-pg/src/introspection.ts:434-527 | the PostgreSQL tokenizer's loop gives the scan |
| `RowCapTokenizer.SkipQuote` | packages/adapters-mysql/src/introspection.ts:332-347 | the quoted text loop, backslash and doubled quotes included |
| `RowCapTokenizer.ScanMySqlPiece` | packages/adapters-mysql/src/introspection.ts:359-405 | one pass of the MySQL tokenizer's loop, as the grammar of pieces says it |
| `RowCapTokenizer.TokenizeMysqlSql` | packages/adapters-mysql/src/introspection.ts:355-409 | the MySQL tokenizer's loop gives the scan |
| `RowCapTokenizer.FindMainStatement` | packages/adapters-mysql/src/introspection.ts:411-429 | the loop over common table expressions finds the main statement's word |
| `Paging.RunCursor` | packages/adapters-pg/src/introspection.ts:569-600 | the first rows up to the limit, and the flag raised iff more rows exist than the batches that were read |
| `Paging.ReachIsRoundedUp` | packages/adapters-pg/src/introspection.ts:572-596 | what is read is the limit rounded up to whole batches |
| `Paging.MoreMeansMoreIff` | packages/adapters-pg/src/introspection.ts:591-595 | the flag means more rows than the limit, for every cursor, exactly when the batch size divides the limit |
| `Paging.CappedNeverMore` | packages/adapters-pg/src/introspection.ts:551-595 | under the server-side cap the flag is never raised for other limits, even when a row is cut off |
| `Paging.MissedRow` | packages/adapters-pg/src/introspection.ts:591-595 | 1501 rows, a limit of 1500, and the flag stays down |
| `Framing.FrameBatch` | packages/backend/src/index.ts:449-473 | frames carry the batch's rows in order, as full as the next row allows; failure iff the first or last row, or an empty frame, is too large |
| `Framing.AllFramesFitIff` | packages/backend/src/index.ts:449-473 | when framing succeeds, all frames are within the bound exactly when no row strictly between the first and the last is too large |
| `Framing.LargeRowEscapes` | packages/backend/src/index.ts:449-473 | framing a batch of a one-byte row, a row of one byte more than the bound and a one-byte row succeeds with a frame over the bound |
| `BoundedResult.BoundMcpQueryResult` | packages/backend/src/mcp-handlers.ts:57-70 | the result's size is within the bound, its rows are the longest prefix the margin and limit allow, flags raised iff rows are left out or the source says so; texts, flags and finite numbers come through unchanged |
| `BoundedResult.ConvertedIff` | packages/backend/src/mcp-handlers.ts:63 | the rows kept are converted cell by cell: texts, flags and finite numbers unchanged, long integers and other values as text, null only for null and undefined |
| `BoundedResult.BoundedIsValid` | packages/backend/src/mcp-bridge.ts:385-400 | for every limit up to 1000 the bridge accepts a bounded result exactly when connection and columns have usable names and types, the counts are not negative and the kept rows fill the columns |
| `BoundedResult.UnnamedColumnRefused` | packages/backend/src/mcp-bridge.ts:389 | a column without a name makes the bridge refuse it |
| `SchemaShape.InferredFits` | packages/backend/src/mongo-sql-snapshot.ts:8-33 | every value fits the shape inferred from it, whatever the samples; a scalar fits a type name only if it is one of that type's values |
| `SchemaShape.TypeNameIff` | packages/backend/src/mongo-sql-snapshot.ts:19-30 | which type name each kind of scalar gets; no other value gets one but JSON |
| `SchemaShape.ShallowNeverFails` | packages/backend/src/mongo-sql-snapshot.ts:8-9 | values nesting within the depth limit are never refused |
| `SchemaShape.SamplesOnlyRefine` | packages/backend/src/mongo-sql-snapshot.ts:11-18 | samples only replace JSON and add columns; they change nothing the values settle |
| `SchemaShape.JsonOnlyWhenForced` | packages/backend/src/mongo-sql-snapshot.ts:16-32 | JSON is inferred for present values only when nothing else fits, or all are documents without keys |
| `SchemaShape.DocumentsFit` | packages/backend/src/mongo-sql-snapshot.ts:51-56 | every document of a snapshot is a row of its structure |
| `CacheAgreement.RunKeeps` | packages/metadata-cache/src/index.ts:223-492 | index and tables agree after any sequence of operations |
| `CacheAgreement.MemoryAgrees` | packages/metadata-cache/src/index.ts:223-492 | connections, groups, password slots, sync times, schema lists up to an empty one, and stored schemas agree; other names in memory are those an ingest dropped |
| `CacheAgreement.MemoryIsFreshIff` | packages/metadata-cache/src/index.ts:223-346 | memory is what a restart would build exactly when no dropped name lingers and no connection was last upserted with an empty schema list or a password slot |
| `CacheAgreement.EmptyListForgotten` | packages/metadata-cache/src/index.ts:332-343 | an upsert with an empty list and a password slot: the configuration in memory has them, the one after a restart has not |
| `CacheAgreement.IngestStores` | packages/metadata-cache/src/index.ts:451-481 | an accepted ingest stores exactly the given schemas, which have distinct names |
| `CacheLaws.IngestIff` | packages/metadata-cache/src/index.ts:425-491 | an ingest for a known connection is taken exactly when its schemas have distinct names, and in each the relations are tables and views under distinct names and the functions have distinct names; otherwise nothing changes |
| `CacheLaws.IngestLists` | packages/metadata-cache/src/index.ts:425-491 | the tables then hold exactly those schemas, relations and functions, memory lists each of them so, and no other connection changes |
| `CacheLaws.UpsertUpdates` | packages/metadata-cache/src/index.ts:303-346 | a known connection keeps its group, sync time, schemas, and its password slot when none is given |
| `CacheLaws.MoveIff` | packages/metadata-cache/src/index.ts:406-418 | a move is taken for a known connection and no group or an existing one; memory and row then have that group, and nothing else changes |
| `CacheAgreement.DroppedSchemaLingers` | packages/metadata-cache/src/index.ts:249-267 | a schema left out by an ingest stays in memory |
| `CacheObject.MetadataCache.constructor` | packages/metadata-cache/src/index.ts:209-212 | opening builds the index from the tables |
| `CacheObject.MetadataCache.LoadAll` | packages/metadata-cache/src/index.ts:223-247 | the loop over connections |
| `CacheObject.MetadataCache.LoadSchemas` | packages/metadata-cache/src/index.ts:249-299 | stored schemas overwrite those in memory and nothing is removed |
| `CacheObject.MetadataCache.UpsertConnection` | packages/metadata-cache/src/index.ts:303-346 | the method is the upsert, an empty list stored as none but kept in memory; agreement kept |
| `CacheObject.MetadataCache.RemoveConnection` | packages/metadata-cache/src/index.ts:348-352 | the method is the removal with its cascade, agreement kept |
| `CacheObject.MetadataCache.DeleteConnectionGroup` | packages/metadata-cache/src/index.ts:389-404 | the group leaves every row and every connection in memory |
| `CacheObject.MetadataCache.MoveConnection` | packages/metadata-cache/src/index.ts:406-417 | the method is the move, refused for unknown connections and groups |
| `CacheObject.MetadataCache.IngestIntrospection` | packages/metadata-cache/src/index.ts:425-492 | rows are written one by one, a refused one restores the tables as they were, and an accepted ingest is the step of that name; agreement kept |
| `CacheObject.MetadataCache.WriteSchemas` | packages/metadata-cache/src/index.ts:451-481 | the insertion loop succeeds exactly for distinct names and storable schemas, and then has written those |
| `CacheObject.MetadataCache.WriteSchema` | packages/metadata-cache/src/index.ts:452-480 | one schema with its relations and functions, row by row |

## Left out

- The column order of a find, which is that of the stored documents.
- Dotted paths, BSON numeric subtypes, collation, the sort of arrays by one of their elements, floating-point rounding and unstable sort ties.
- Parsing and generating SQL text, error messages, and the checks of mongoSqlSourcePlan that the statement is one linear chain of
  common table expressions without subqueries (lines 20-41): the model starts from the parsed base SELECT.
- A WITH clause inside the latest-row common table expression.
- Database drivers, sockets, keyring, SQLite itself, and the JVM sidecar.
- Validation of MCP results other than query results, of tool arguments, of HTTP headers and of options.
- The bridge's real time: a lease timer or timeout is a step that may come at any moment, which covers every timing.
- Scope, clause and qualifier detection of the autocomplete engine (extractScope, detectClause), its ranking and its suggestion text.
- Descriptors without identifierQuotePairs, and characters outside the Basic Multilingual Plane as the two units the code sees.
- Properties an object inherits from its prototype, which shape reads under names such as constructor; mongoSqlValue, and
  mongoSqlNeedsSchemaSample, which follows from the shape without samples.
- The order of struct columns beyond first appearance, and sparse arrays.
- Migration of old cache files, lastSyncedAt queries and the completion lookups of the cache.
- The direct execution path of the PostgreSQL adapter for statements that cannot back a cursor.
- Reading word lists, introspection queries and version checks: table-driven.
