# go-tidb in Dafny

go-tidb compiles Go queries to TiDB SQL, hydrates the rows into Go models and runs migration files. Every part
of it claims that a fast or textual form means the same as a simple one. This project models those parts and
proves the claims, or proves exactly when they hold.

| Part | Files | What is proved |
|---|---|---|
| values, SQL text and its parser | SqlValues, SqlText, SqlClause | reading written text back gives the condition that was meant |
| predicate compiler | LikePattern, Schema, PredicateMeaning, PredicateCompiler, PredicateWriter, SemiJoin | the compiled text has the truth of the tree on every row and database; where its hints go |
| keyset pagination | Ordering, Keyset, KeysetWriter, SelectClause, Pagination, WalkExact, SelectReading | the whole SELECT text, read back, returns what was asked for; walking page by page visits every row once, in order, and stops; exactly when it does |
| relation-first rewrites | LimitFirst, RelationRewrite, KeyReach, RelationFirst, RelationFirstMeaning, RelationFirstWriter, StatementLists, TopNReading, RelationFirstExample | when TopN and Count on the association side answer like EXISTS |
| bulk updates | BulkUpdate, BulkWriter, BulkArguments, BulkExec, BulkCapacity, BulkMeaning | CASE updates in batches leave the table that single-row updates leave |
| lookup keys and preloads | RelationKey, Preload | each parent gets the rows with its key, batched or not, and shares no element |
| inlined to-one relations | InlinePreload, InlineJoin, InlineWriter, InlineReading | hydrating a LEFT JOIN row gives the records it was joined to |
| migration runs | TableOrder, MigrationPlan, MigrationRun | invariants of every run with a failure at any point |
| migration SQL | SqlLexer, SqlSections, SqlMigration, SqlRelex, SqlTrim, SqlCanonical, SqlSnapshot, SqlDrift, SqlReading, SqlFileReading, SqlCounters, SqlGuards | which texts lex and to which tokens; sections split as they were checked; canonical text determines the kept tokens; snapshots are hashed alike exactly when they keep the same statements |
| plan summaries | PlanSummary | the operator tree is recovered from its indentation |

Code that works step by step is modelled step by step: the compilers, the sorter, the candidate search, the
migration runner, and the models and plan nodes that are filled in place are classes with methods; loops are
loops. Each method is proved against a function of its inputs or of the old state, and the theorems are about
those functions.

## Hypotheses

- A column domain is totally ordered and compared exactly; a column that a row does not map is NULL. NULL sorts
  lowest. AND, OR and NOT follow section 8.12 of ISO/IEC 9075:1992, LIKE section 8.5; only TRUE keeps a row.
- The relation-first theorems assume what docs/queries.md:375-389 asks of the data: declared keys are unique,
  non-NULL association keys reference existing rows, and the pairs of a pure junction are whole and unique.
- Parents of one preload are distinct objects. Database answers are arbitrary unless a lemma says otherwise.
- A call into the database, the file system or the listener works, fails, or fails after its effect.

## Where the code does less than its documentation says

- Descending `SeekAfter` by a soft-delete time held by value drops the rows whose time is NULL, because
  `cursorFieldCanBeNull` does not count such a field; ascending, a cursor taken from such a row is refused.
  `Keyset.SeekExactlyUnlessMissed` gives the exact condition for one row, `WalkExact.WalksCompleteIff` for whole
  walks, and `Keyset.SoftDeleteTimeIsMissed` and `Keyset.SoftDeleteTimeIsRefused` inputs.
- A direct has_many with a nullable association key may still be rewritten. The TopN form then differs from EXISTS
  on some page exactly when a NULL key sorts before a whole one, and the Count form counts the rows with NULL keys.
  `RelationFirstMeaning.TopNIffNullKeysLast` and `CountIffWholeKeys` give the conditions, and
  `RelationFirstExample` a schema, a query and rows for which every other hypothesis holds.
- `splitSQL` trims a statement after lexing it. A comment of only two dashes at the very end loses the blank that
  made it a comment and comes back as two tokens. `SqlTrim.StatementKeepsTokensIff` says for which statements of
  which sources the tokens that were checked survive, `SqlTrim.FileStatementsIff` says it for the sections of an
  accepted file, and `SqlTrim.DashCommentComesBack` shows an accepted file whose statement changes.

## Model

| member | source | states |
|---|---|---|
| LikePattern.EscapeLikePattern | orm/predicate.go:349-382 | The two loops produce the escaped pattern with its wildcards, and the buffer size computed first is its exact length. |
| LikePattern.PatternMeaning | orm/predicate.go:289-307 | For every value, `!`, `%` and `_` included, the pattern matches a text iff the value is its prefix, suffix or substring. |
| SqlClause.TextMeansClause | orm/predicate.go:105-174 | Parsing the text of any clause with SQL precedence consumes all of it, binds the i-th placeholder to the i-th argument, and gives the condition meant. |
| SqlClause.JoinedTextMeansClauses | orm/select_clause.go:94-157 | The same for conditions joined by AND without outer parentheses, whatever follows in the statement. |
| Schema.RelationPlanFor | orm/relation_predicate.go:99-152 | A relation gives a plan exactly when its keys pair up, directly or through a junction as wide as they are, and its models are known; the plan is for its target. |
| PredicateCompiler.ReachesIffBelongs | orm/relation_predicate.go:99-152 | A plan reaches exactly the target rows that the relation's own key fields, junction columns and edge model join to the source row, none of them soft-deleted. |
| PredicateCompiler.AliasesDistinct | orm/relation_predicate.go:278-298 | No two tables of a statement get one name, target or junction. |
| PredicateCompiler.DecimalReads | orm/relation_predicate.go:278-298 | The number in a name is the decimal numeral of its place, without leading zeros. |
| PredicateCompiler.FirstAliases | orm/relation_predicate.go:14-19 | The constants for the first two are the same numbering. |
| PredicateCompiler.ComparisonMeaning | orm/predicate.go:190-201 | For every operator and value, the comparison that is written holds exactly when the stored value is above, below, equal to or apart from the given one, as the operator says. |
| PredicateCompiler.CompiledTextMeansTree | orm/predicate.go:99-307 | For every accepted tree, row and database, the emitted text read back has the three-valued truth of the tree; no token or argument is left. |
| PredicateCompiler.CompileCapacity | orm/predicate.go:69-87 | The recursive pre-pass counts the arguments of a condition list. |
| PredicateCompiler.ArgumentsMatchCapacity | orm/predicate.go:69-87 | Compiling appends exactly that many arguments. |
| PredicateWriter.Compiler.WriteCondition | orm/predicate.go:99-127 | The writing compiler refuses exactly the trees that are not accepted, appends exactly the clause and arguments that CompiledTextMeansTree is about, and restores descriptor, qualifier and both depth counters even on refusal. |
| PredicateWriter.Compiler.WriteRun | orm/predicate.go:129-175 | Children are written left to right with the connective between them, each taking the alias numbers after the ones before it. |
| PredicateWriter.Compiler.WriteRelation | orm/relation_predicate.go:175-265 | EXISTS over the target or through the junction: correlation, soft-delete scopes and children in the inner scope; the outer scope is back afterwards. |
| PredicateWriter.Compiler.WriteIn | orm/predicate.go:231-264 | An IN list has one placeholder per value; the empty list becomes FALSE or TRUE. |
| SemiJoin.HintsAreRight | orm/relation_predicate.go:267-271 | In every tree, exactly the EXISTS of collection relations with conditions of their own that stand under no NOT and no OR carry the semi-join hint, in writing order. |
| SemiJoin.AnyAliasGivenIff | orm/select_clause.go:86-89 | The root gets an alias exactly when its conditions give out aliases to other tables. |
| Ordering.OrderedUnique | orm/select_clause.go:320-353 | When no two rows agree on the ordered columns, ORDER BY admits only one result. |
| Keyset.ValidateSeekAfter | orm/keyset.go:47-112 | The validator, with its counting shortcut, accepts exactly the cursors that fit the order term by term when the order names the whole primary key. |
| Keyset.ResolveOrderField | orm/select_clause.go:355-378 | Finds the field of an order term exactly when it is mapped, stored, has a direction and is named by no earlier term. |
| Keyset.CursorUsable | orm/keyset.go:70-91 | A cursor value is accepted exactly for its own field, one that can be bound, with NULL only where the field can stand for it. |
| Keyset.CountedKeysAreAll | orm/keyset.go:92-111 | As many ordered key fields as there are key fields means every one is ordered. |
| Keyset.SeekExactlyUnlessMissed | orm/keyset.go:129-212 | Read back, the condition is TRUE exactly for rows strictly after the cursor in the mixed-direction order with NULL lowest, if and only if the row is not a missed one. |
| Keyset.MissedIff | orm/keyset.go:114-127 | A row is missed if and only if the first term in which it differs from the cursor is descending, only the cursor has a value there, and the field is a key, or no pointer and neither bytes nor custom. |
| Keyset.ExpectedNullsAreNotMissed | orm/keyset.go:114-127 | Rows with NULL only in order columns whose field is no key and a pointer, bytes or custom are never missed. |
| Keyset.SoftDeleteTimeIsMissed | orm/keyset.go:114-127 | An accepted cursor and a row after it that the condition drops. |
| Keyset.SoftDeleteTimeIsRefused | orm/keyset.go:79-85 | Ordered ascending, the cursor taken from a row with that NULL is refused. |
| Keyset.SeekAfterCompileCapacity | orm/keyset.go:25-45 | The count of the pre-pass over the cursor. |
| Keyset.SeekArguments | orm/keyset.go:129-212 | The condition appends exactly that many arguments. |
| KeysetWriter.KeysetCompiler.WriteLevel | orm/keyset.go:129-149 | Text and arguments grow by exactly the clause whose meaning is proved, parenthesised. |
| KeysetWriter.KeysetCompiler.WriteNullLevel | orm/keyset.go:151-179 | After a NULL cursor value: ascending, descending, last and inner levels. |
| KeysetWriter.KeysetCompiler.WriteValueLevel | orm/keyset.go:181-212 | After a cursor value: the strict head, and equality with the levels below. |
| SelectClause.CompileSelectClauses | orm/select_clause.go:34-168 | Refuses exactly what cannot be compiled; otherwise appends the clauses and arguments that SelectAnswers is about to the caller's text. |
| SelectClause.WhereSelects | orm/select_clause.go:94-157 | That WHERE, read back inside the statement, is TRUE for a row exactly when the selection keeps it, and leaves the arguments of LIMIT and OFFSET. |
| SelectClause.RootAliasIsFree | orm/relation_predicate.go:273-298 | The root alias never clashes with a generated one. |
| SelectReading.SelectReads | orm/select_clause.go:86-157 | The clauses (root alias, WHERE, ORDER BY, LIMIT, OFFSET) are read back whole, and every argument is taken by its placeholder. |
| SelectReading.SelectAnswers | orm/select_clause.go:86-157 | What is read, run as SQL on any database, returns exactly the rows the selection asks for: those it keeps, ordered by the caller's fields and directions, cut to the caller's page. |
| Pagination.WalkIsAccepted | orm/keyset.go:47-112 | Every cursor taken from the last row of a page is accepted. |
| Pagination.RestAfter | orm/keyset.go:129-212 | Seeking after row k leaves exactly the rows behind it, in order. |
| Pagination.WalkVisitsInOrder | orm/select_clause.go:127-157 | After any number of pages the rows seen are a prefix of all matching rows in ORDER BY order, and the next page continues there. |
| Pagination.WalkIsCompleteAndStops | orm/select_clause.go:127-157 | An empty page comes after at most as many pages as rows, and then every matching row was seen exactly once. |
| WalkExact.WalksCompleteIff | orm/keyset.go:47-127 | Walks at every limit have all their queries accepted, end, and see every matching row in order, if and only if the matching rows have NULL only in order columns whose field is no key and a pointer, bytes or custom. |
| WalkExact.NullsFitCompletes | orm/select_clause.go:127-157 | Then such a walk can always be taken to its end. |
| SelectReading.TextWalkVisits | orm/select_clause.go:86-157 | When each page is what the server returns for the compiled text, the pages show the matching rows in the caller's order, each once, every next query is accepted, and an empty page ends a complete walk. |
| SelectReading.TextWalksCompleteIff | orm/keyset.go:47-127 | Walks of compiled statements are complete at every limit under exactly the condition of WalksCompleteIff. |
| LimitFirst.LimitFirstAgrees | orm/relation_topn.go:80-237 | Limiting association rows and joining the roots equals limiting the matched roots, for every limit and offset, when NULL keys sort last. |
| LimitFirst.LimitFirstIffNullKeysLast | orm/relation_topn.go:80-237 | It equals it on every page and for every valid server result if and only if NULL keys sort last. |
| LimitFirst.NullKeyTakesAPlace | orm/relation_topn.go:379-387 | A NULL key before a whole one gives a limit on which the two answers differ. |
| LimitFirst.CountIffComplete | orm/relation_count.go:16-85 | Counting association rows counts matched roots if and only if every key is whole. |
| RelationRewrite.CandidateSearch.Collect | orm/relation_topn.go:303-322 | The traversal counts every collection Has under AND, OR and NOT, and keeps the first and whether it is a root predicate itself. |
| RelationRewrite.OnlyCandidate | internal/relationtopn/decision.go:93-115 | The structural test leaves one shape only: a single root predicate that is the collection Has. |
| RelationRewrite.ConjunctiveEqualFieldExists | orm/relation_topn.go:616-631 | Finds exactly the fields that an Equal under ANDs fixes. |
| RelationRewrite.CompileMetadata | orm/relation_topn.go:336-391 | The collecting loops give the metadata of a relation, or none when its target, junction or edge is not described. |
| RelationRewrite.UniqueGoNames | orm/relation_topn.go:449-464 | The primary key, if there is one, and then the declared unique keys, by field name. |
| RelationRewrite.EdgePairUnique | orm/relation_topn.go:393-403 | True iff the primary key or a declared unique key of the edge lies whole within the source and target columns. |
| KeyReach.PairUniqueExact | internal/relationtopn/decision.go:130-150 | That test is exact: it holds if and only if no table that keeps the declared keys has a whole source-target pair twice. |
| RelationRewrite.KeyCovered | internal/relationtopn/decision.go:133-150 | True iff the key is not empty and every column of it is among the source or target columns. |
| RelationRewrite.NonNullColumns | orm/relation_topn.go:379-387 | The junction columns that must not be NULL, each once, in order. |
| RelationRewrite.SameFields | orm/relation_topn.go:648-658 | True iff two lists of fields have the same names in the same order. |
| RelationRewrite.MatchesUniqueKey | orm/relation_topn.go:521-538 | True iff some declared key has as many fields and contains all of them. |
| RelationRewrite.OrderIsKey | orm/relation_topn.go:633-646 | True iff the order names the source key field by field, in either direction. |
| RelationRewrite.RelationUniquePerRoot | orm/relation_topn.go:474-496 | True iff some declared target key is fixed whole by the relation and the conditions. |
| KeyReach.UniquePerRootExact | orm/relation_topn.go:474-496 | That test is exact: it holds if and only if no table that keeps the declared target keys has two rows that agree, without NULL, on everything the relation and the conditions fix. |
| RelationRewrite.RelationCanFilterJunction | orm/relation_topn.go:498-558 | True iff the junction's own columns answer every condition: the target key is declared, nothing is soft-deleted, only equalities on it. |
| RelationRewrite.AnalyzeTopN | orm/relation_topn.go:239-301 | The TopN rewrite is chosen exactly when its conditions hold; otherwise no plan would satisfy them, and the reason given is the first check that fails. |
| RelationRewrite.AnalyzeCount | orm/relation_count.go:87-122 | The same for the Count rewrite. |
| RelationFirstMeaning.FixedAgrees | orm/relation_topn.go:616-631 | Two rows that satisfy the conditions agree on every field found fixed. |
| RelationFirstMeaning.AssociationDistinct | orm/relation_topn.go:474-496 | So each root has at most one association row that counts, for has_many, pure and via many-to-many. |
| RelationFirstMeaning.SelectedIsKept | orm/relation_topn.go:137-205 | The inner FROM and WHERE, joined to the target or on the junction alone, select exactly the association rows that count, each once. |
| RelationFirstMeaning.LinkedIffKept | orm/relation_predicate.go:175-265 | A root has such a row exactly when EXISTS keeps it. |
| RelationFirstMeaning.TopNIffNullKeysLast | orm/relation_topn.go:80-301 | Whenever the rewrite is chosen, its rows equal those of EXISTS with ORDER BY, LIMIT and OFFSET on every page if and only if rows with a NULL association key sort last. |
| RelationFirstMeaning.JunctionTopNAnswersLikeExists | orm/relation_topn.go:336-391 | Through a junction, pure or via, it always does. |
| RelationFirstMeaning.DescendingKeySortsNullLast | orm/relation_topn.go:633-646 | So does a single descending key, nullable or not. |
| RelationFirstMeaning.CountIffWholeKeys | orm/relation_count.go:16-122 | Whenever the Count rewrite is chosen, it counts the roots EXISTS keeps iff no counted row has a NULL key; through a junction always. |
| RelationFirstExample.UnownedPostHidesAuthor | orm/relation_topn.go:239-301 | An input with a nullable has_many key: the rewrite is chosen, the integrity contract holds, and some page differs. |
| RelationFirstExample.UnownedPostIsCounted | orm/relation_count.go:87-122 | An input for which the chosen Count is not the number of roots. |
| RelationFirstWriter.CompileTopN | orm/relation_topn.go:80-237 | Refuses exactly bad conditions or pagination; otherwise the text and arguments are those of the query SelectedIsKept is about. |
| RelationFirstWriter.TopNWhereReads | orm/relation_topn.go:137-205 | The WHERE of the TopN text reads back as that query's condition and leaves the arguments of LIMIT and OFFSET. |
| TopNReading.TopNReads | orm/relation_topn.go:80-237 | The whole TopN text (select lists, derived table, WHERE, ORDER BY, LIMIT, OFFSET, root join) is read back and every argument is taken by its placeholder. |
| TopNReading.TopNTextAnswers | orm/relation_topn.go:80-237 | What is read, run as SQL on any database the rewrite allows, answers exactly what TopNIffNullKeysLast is about. |
| TopNReading.JoinOrderIsAsked | orm/relation_topn.go:118-220 | The LEADING hint and a plain JOIN, or STRAIGHT_JOIN and no hint: the latter exactly for many-to-many through an edge model. |
| TopNReading.CountTextAnswers | orm/relation_count.go:16-85 | The Count text, read back whole, counts the association rows that CountIffWholeKeys is about. |
| RelationFirstWriter.CompileCount | orm/relation_count.go:16-85 | The Count statement, with its WHERE flag, is the counted query's text and arguments. |
| RelationFirstWriter.WriteJunctionPredicate | orm/relation_topn.go:569-605 | A condition on the target key is written against the junction column in its place. |
| BulkUpdate.BindsInOrder | orm/bulk_update.go:211-255 | Binding a statement's values to its placeholders from left to right gives the statement meant. |
| BulkUpdate.CasesAreValues | orm/bulk_update.go:257-320 | For distinct keys, every CASE takes the value of the row's own input. |
| BulkUpdate.BatchIsRowByRow | orm/bulk_update.go:211-320 | One CASE statement leaves the table that single-row primary-key updates leave one after another, evaluating SET from left to right. |
| BulkUpdate.RowAfterwards | orm/mutation.go:551-567 | No row is added or lost; rows out of scope or without an input stay; a matched row has the new values and nothing else changed. |
| BulkWriter.RenderUpdateMany | orm/bulk_update.go:257-320 | The rendered text is the CASE update for any inputs of that many rows, with placeholders for the values. |
| BulkArguments.FillMany | orm/bulk_update.go:211-255 | After the index arithmetic, slot k of the array holds the value of the k-th placeholder, and no slot is left. |
| BulkArguments.FillOne | orm/bulk_update.go:211-255 | The one-row statement: new values, then the key once. |
| BulkArguments.ArmsApart | orm/bulk_update.go:228-252 | The ranges of two CASE arms never overlap, and all end before the keys. |
| BulkArguments.PlaceOf | orm/bulk_update.go:228-252 | Every slot belongs to an arm or a key. |
| BulkArguments.SlotCount | orm/bulk_update.go:207-209 | The placeholders of a statement are its rows times the parameters per row. |
| BulkExec.RowsPerStatement | orm/bulk_mutation.go:86-95 | A row that fits by itself is never refused, and a batch is as large as the placeholder limit allows. |
| BulkExec.BatchFits | orm/bulk_mutation.go:86-105 | Every statement is within the limit, the one-row fallback included. |
| BulkExec.BatchIsLargest | orm/bulk_mutation.go:86-95 | One row more than a batch holds has too many placeholders for a statement. |
| BulkExec.SameText | orm/bulk_mutation.go:146-160 | The text kept from the batch before is right for any batch of the same size. |
| BulkExec.CompileRange | orm/bulk_mutation.go:66-84 | Text and arguments of a batch, with or without a kept text. |
| BulkExec.Exec | orm/bulk_mutation.go:119-182 | Statements go out batch by batch up to the first failure; the total is the sum of the completed ones. |
| BulkExec.SentMeans | orm/bulk_mutation.go:119-182 | Each statement sent, bound in order, is the update of its batch and within the limit. |
| BulkExec.BatchesAreRowByRow | orm/bulk_mutation.go:119-182 | After any number of statements the table is what single-row updates of the inputs sent so far leave. |
| BulkExec.BatchesPartition | orm/bulk_mutation.go:146-180 | The batches concatenate to the inputs, in order. |
| BulkExec.CountIsExact | orm/bulk_mutation.go:209-211 | The announced number of statements is the number sent. |
| BulkMeaning.TextMeansBatch | orm/bulk_update.go:257-320 | The text of a batch, read back (SET list, CASE arms, IN list, scope) and run by the rules of SQL with three-valued tests, leaves on every table what the batch means, one row or many. |
| BulkMeaning.SentRuns | orm/bulk_mutation.go:119-182 | So does every statement sent, bound argument by argument. |
| BulkCapacity.UpdateManySQLCapacity | orm/bulk_update.go:322-356 | The reserved capacity is the exact length of the rendered text. |
| RelationKey.ComponentKeyExact | orm/preload.go:1234-1258 | Two components get one key iff they are equal, both float zeros taken as one. |
| RelationKey.EncodingInjective | orm/preload.go:1260-1274 | The composite encoding determines the tuple, whatever the lengths. |
| RelationKey.TupleKeyExact | orm/preload.go:1063-1108 | Two key tuples get one lookup key iff they agree component by component. |
| RelationKey.ModelKey | orm/preload.go:1063-1108 | A model without some component has no key; otherwise it has the tuple's key. |
| RelationKey.ValidateUpdateKeys | orm/bulk_update.go:127-205 | Accepts exactly the rows without a nil key value, no two with the same key where no column goes through a Valuer; a Valuer that returns nil is not looked at; a refusal names an offending row. |
| Preload.BatchFillsBudget | orm/preload.go:431 | A batch of keys binds at most 5000 values unless it is a single key, and one key more would bind too many. |
| Preload.PreparePreloadParents | orm/preload.go:602-635 | Relation fields are emptied; each key has exactly its parents in order, and is asked for once. |
| Preload.AssignPreloadedTarget | orm/preload.go:1005-1031 | One element is added at the end: the target, or a new copy of it. |
| Preload.HydratePreloadBatch | orm/preload.go:822-883 | Every parent gains the rows with its key in their order, no two parents share an element, and a batch with a row nobody asked for is an error. |
| Preload.ExecutePreloadPlan | orm/preload.go:518-585 | Keys are asked for once, in order, within the batch size; on success each parent shows exactly the rows with its key and no element is shared. |
| Preload.RunBatches | orm/preload.go:537-585 | It succeeds iff every statement asked answered with usable rows. |
| Preload.BatchesReceive | orm/preload.go:537-585 | Whatever the batch size, the batches give a key the rows that reading everything gives it. |
| Preload.BatchesAgreeWithLoadAll | orm/preload.go:637-669 | The load-all and the keyed path leave every parent with the same records in the same order. |
| Preload.AnswersAreUsable | orm/preload.go:843-856 | A correct answer to a batch is never refused. |
| Preload.SameLookupIffSameKey | orm/preload.go:1063-1108 | A row goes to a parent exactly when their keys agree component by component. |
| InlinePreload.PreloadTargetKeyScanIndexes | orm/inline_preload.go:199-215 | Fails exactly when the projection omits a key column; otherwise points at each of them. |
| InlinePreload.UnflattenIffFlat | orm/inline_preload.go:217-260 | Values of an outer join hydrate to a record (or none) exactly when they are the flattening of that record, the widths of every subtree included. |
| InlinePreload.UnflattenAllIffFlat | orm/inline_preload.go:191-260 | The same for all relations of a record; the values must be exactly as many as the columns. |
| InlinePreload.RoundTrip | orm/inline_preload.go:157-165 | Hydrating the flattening of any record tree, with relations absent anywhere, gives the tree. |
| InlinePreload.InlinePreloadKeyPresent | orm/inline_preload.go:270-284 | Counting NULLs tells a whole key, an absent record and a broken key apart. |
| InlinePreload.ScanFields | orm/inline_preload.go:239-247 | The fields are filled in order up to the first that cannot hold its NULL. |
| InlinePreload.HydrateTarget | orm/inline_preload.go:231-255 | A present record becomes a new model that holds it with all records below it, in objects of its own. |
| InlinePreload.HydrateInlinePreloads | orm/inline_preload.go:217-260 | The offset loop returns what reading the layout gives, failure for failure; it sets exactly the relations that are present and leaves every other field of the root. |
| InlineJoin.JoinsNumbered | orm/inline_preload.go:110-117 | The shared counter gives the k-th relation in preorder the k-th name; it is joined to the root or to an earlier name. |
| InlineJoin.FirstAliases | orm/inline_preload.go:16-25 | The names held in constants are the same numbering. |
| InlineJoin.OnMeansPairs | orm/inline_preload.go:167-188 | The ON condition is TRUE exactly for a live row with the source's key, never for NULL keys. |
| InlineJoin.OnReads | orm/inline_preload.go:167-188 | The ON text reads back as that condition and takes no argument. |
| InlineJoin.FromSettles | orm/inline_preload.go:167-189 | In every joined row each relation holds a partner row of its source, or NULLs when there is none. |
| InlineJoin.HydrationIsJoin | orm/inline_preload.go:28-72 | Hydrating any returned row gives the tree of rows that the root and the records below it pair with. |
| InlineJoin.RootRepeatsIff | orm/inline_preload.go:167-189 | A root comes back more than once if and only if a joined record has two partner rows; it is never lost. |
| InlineWriter.AssignInlinePreloadAliases | orm/inline_preload.go:110-117 | In place, every plan node gets the names of its join, and the counter advances by the number of nodes. |
| InlineWriter.WriteInlinePreloadColumns | orm/inline_preload.go:157-165 | The select list names the columns in the order in which the values are read back. |
| InlineWriter.WriteInlinePreloadJoins | orm/inline_preload.go:167-189 | The text of the joins, one after another in numbering order. |
| InlineReading.JoinsAreRead | orm/inline_preload.go:167-189 | The text of the joins is read back join by join, with its ON condition, taking no argument. |
| InlineReading.JoinsMeanFrom | orm/inline_preload.go:167-189 | Outer joins run from what was read give exactly the rows the theorems are about. |
| InlineReading.WrittenJoinsHydrate | orm/inline_preload.go:28-72 | The written columns and joins, read back and run on any database, return rows whose values hydrate to the records the root is joined to. |
| TableOrder.OrderExact | migrate/snapshot.go:192-232 | The search succeeds iff every reference resolves and no tables but a table with itself form a ring; then each table is listed once, after the tables it needs. |
| TableOrder.TableSorter.VisitTable | migrate/snapshot.go:198-222 | The recursive visit over marks and result does what the functional search does, failure for failure. |
| TableOrder.OrderTables | migrate/snapshot.go:192-232 | The result does not depend on the order in which the map yields its keys. |
| MigrationPlan.BuildPlan | migrate/plan.go:26-89 | A plan takes the pending files in order or the latest registrations backwards, as many as asked, each step with the statements of its direction's section of the file of that version, and ends at the target; a refusal names the first reason: the count, an unmanaged database, too few candidates, or the first version without a file, without a way back, or without statements. |
| MigrationPlan.PendingExact | migrate/plan.go:41-51 | A version is pending iff it has a file and is not registered. |
| MigrationPlan.PendingInFileOrder | migrate/plan.go:41-51 | The pending versions are those of the unregistered files, one for each, in the order of the files. |
| MigrationPlan.UpRunsUpSections | migrate/plan.go:61-76 | An up plan runs the up sections of the first unregistered files, in the order of the files. |
| MigrationPlan.DownRunsDownSections | migrate/plan.go:61-76 | A down plan runs the down sections of the latest registrations, newest first. |
| MigrationPlan.FilesByVersion | migrate/plan.go:37-40 | The map finds a file for exactly the versions that have one, the last of that name. |
| MigrationPlan.DownRemovesTop | migrate/plan.go:52-56 | Every step of a reversal removes the version then on top of the history. |
| MigrationPlan.TargetIsTop | migrate/plan.go:77-87 | The version a history ends with after up or down steps. |
| MigrationRun.Runner.Apply | migrate/apply.go:16-108 | Whatever fails and whenever: the statements sent are a prefix of the plan, and of their outcomes only the last may be a failure; completed files are a prefix of the plan's versions, and the outcome of every statement of theirs is success; the listener was told the outcome of each statement sent, once and in order; the version is the top of the recorded history; each unsent statement is reported once; success means the target version was reached, and nothing fails without a fault. |
| MigrationRun.Runner.RunPlan | migrate/apply.go:48-105 | The invariant of the loop over files: how statements, history and snapshot stand at every point. |
| MigrationRun.Runner.ExecuteStatement | migrate/event.go:35-50 | A statement is sent exactly when its started event is accepted; its outcome is that of this call, the second event tells it, and the step succeeds only if both work. |
| MigrationRun.Runner.RunStatements | migrate/apply.go:61-70 | The statements of a file are sent in order, each only after all before it worked. |
| MigrationRun.Runner.RecordVersion | migrate/history.go:58-76 | The history changes by this version only, is unknown only when the call failed after its effect, and the listener is told the registration or removal and how it ended. |
| MigrationRun.Runner.ReportUnexecuted | migrate/apply.go:32-47 | Reports every statement not sent, in order, even when the listener fails. |
| MigrationRun.EndsAtTarget | migrate/plan.go:77-87 | Recording all steps of a plan ends at its target version. |
| PlanSummary.PlanTreeDepth | orm/plan_summary.go:92-110 | The depth that an operator's indentation shows, or none. |
| PlanSummary.AcceptedIffTree | orm/plan_summary.go:64-90 | The depths pass the checks exactly when they are the preorder of some single-rooted tree. |
| PlanSummary.TrueParents | orm/plan_summary.go:64-90 | In such a sequence, an operator's parent is the last shallower line before it. |
| PlanSummary.SummarizeReadPlan | orm/plan_summary.go:44-90 | TreeKnown iff every line has a depth and the depths form a tree; then parents and children are those of the lines. |
| PlanSummary.PrintedReads | orm/plan_summary.go:92-110 | The printed lines of a tree have its preorder depths. |
| PlanSummary.PrintedExample | orm/plan_summary.go:92-110 | A join over a selection and two readers, as the server prints it. |
| PlanSummary.SummaryRecoversTree | orm/plan_summary.go:44-110 | Summarizing a printed tree recovers every parent and child, in order. |
| SqlLexer.ScanTokens | migrate/sql.go:20-100 | The index-driven loop computes the token sequence of its text, or refuses. |
| SqlReading.TextReads | migrate/sql.go:20-100 | A text written as words, values in any of the three quotes (the quote doubled, or escaped outside back quotes), punctuation, comments and executable comments is read as exactly the words, values, marks and executable comments, each one token. |
| SqlReading.LexesIff | migrate/sql.go:20-100 | A text lexes if and only if it has no NUL and is written that way. |
| SqlReading.LiteralIsOneToken | migrate/sql.go:63-88 | A quoted value, whatever stands in it, is one token with its whole text, and what follows is read as by itself. |
| SqlFileReading.FileReads | migrate/sql.go:36-46 | With directives: the text lexes if and only if only blanks stand before each on its line, and then they are tokens among the others, without the blanks behind them. |
| SqlSections.SplitSQL | migrate/sql.go:158-184 | It succeeds iff the text lexes into valid statements only, and returns their trimmed texts. |
| SqlGuards.StatementIff | migrate/sql.go:186-209 | A statement is accepted exactly when its first two words are a supported pair, in any case, and none of its tokens is reserved. |
| SqlGuards.WordReservedIff | migrate/sql.go:211-233 | A word is reserved iff it is one of the four names, in any case. |
| SqlGuards.QuotedReservedIff | migrate/sql.go:151-156 | A back-quoted name is reserved iff what it stands for, doubled back quotes taken once, is one of them. |
| SqlGuards.CommentReservedIff | migrate/sql.go:211-233 | An executable comment is reserved iff the SQL behind its marker, feature and version does not lex or holds a reserved token. |
| SqlGuards.OpenFeatureIsReserved | migrate/sql.go:315-331 | So is one whose feature is not closed. |
| SqlMigration.MigrationParts | migrate/sql.go:104-145 | Accepts exactly the files with an up section and perhaps one down section of valid statements; up + down is the file. |
| SqlFileReading.WrittenFileSplits | migrate/sql.go:104-145 | A file written as comments, the up directive, statements, the down directive and statements is accepted, and its boundary is right before its down directive. |
| SqlRelex.ScanBefore | migrate/sql.go:20-100 | Cut at any place the scan comes by, the front has the tokens it had in the whole, if and only if the cut does not separate a comment of nothing but two dashes from its line break; then the two dashes are added. |
| SqlRelex.ScanAfter | migrate/sql.go:20-100 | A tail lexes iff it does inside the whole, to the same tokens. |
| SqlRelex.SectionsSplit | migrate/sql.go:104-184 | Each section of an accepted file splits without error into exactly the statements, token by token, that were checked in the file, at least one. |
| SqlRelex.PartsSplit | migrate/sql.go:377-390 | So what MigrationParts returns can always be split. |
| SqlTrim.TrimKeepsTokensIff | migrate/sql.go:173-181 | Trimming a text keeps its tokens if and only if it does not end in a comment of nothing but two dashes; then it gains the two dashes. |
| SqlTrim.CutIsChecked | migrate/sql.go:158-184 | What is cut out at semicolons for a statement has exactly the tokens that were checked. |
| SqlTrim.StatementKeepsTokensIff | migrate/sql.go:158-184 | For every source that splits, each returned statement lexes, to the tokens that were checked if and only if its cut has no such comment at its end. |
| SqlTrim.FileStatementsIff | migrate/sql.go:377-390 | The same for the sections of every accepted file, against the statements checked in the file. |
| SqlTrim.DashCommentComesBack | migrate/sql.go:158-184 | An accepted file with one statement, which splits and comes back with other tokens than were checked. |
| SqlCanonical.CanonicalReads | migrate/sql.go:240-283 | Lexing the canonical text gives exactly the kept tokens, words in upper case. |
| SqlCanonical.CanonicalExact | migrate/sql.go:240-283 | Two texts have one canonical text iff they keep the same tokens. |
| SqlCanonical.CleanCommentWhole | migrate/sql.go:300-313 | An executable comment without its counters is again one comment, or nothing. |
| SqlCounters.CounterIsLeftOut | migrate/sql.go:240-298 | Texts whose tokens differ only in NAME = digits outside parentheses, NAME being AUTO_INCREMENT or AUTO_RANDOM_BASE in any case, have the same canonical text. |
| SqlCounters.CounterInsideStays | migrate/sql.go:240-298 | Inside parentheses the three tokens are kept. |
| SqlCounters.CounterCommentIsLeftOut | migrate/sql.go:300-331 | An executable comment that holds only such a counter makes no difference outside parentheses. |
| SqlCounters.BodyStands | migrate/sql.go:315-331 | The SQL of an executable comment starts behind its marker, its feature in brackets and its version. |
| SqlCounters.CaseIsLeftOut | migrate/sql.go:240-283 | Texts whose tokens differ only in the case of words have the same canonical text. |
| SqlSnapshot.CanonicalSQL | migrate/sql.go:240-283 | The printing loop computes the canonical text. |
| SqlSnapshot.NormalizeAllocatorComment | migrate/sql.go:300-313 | The comment is rebuilt from its canonical body. |
| SqlSnapshot.SnapshotHashText | migrate/snapshot.go:142-156 | The text that is hashed. |
| SqlSnapshot.SortIgnoresOrder | migrate/snapshot.go:150-155 | Sorting depends only on which texts there are, and how often. |
| SqlSnapshot.SnapshotIgnoresOrder | migrate/snapshot.go:142-156 | Snapshots with the same statements in another order are hashed as one text. |
| SqlDrift.SnapshotExact | migrate/snapshot.go:142-156 | Two snapshots are hashed as one text if and only if their statements keep the same token sequences, equally often, in whatever order. |

## Left out

- Optimizer hints and read policies (LEADING, STRAIGHT_JOIN, SEMI_JOIN_REWRITE, READ_FROM_STORAGE, SET_VAR, FORCE
  INDEX) do not change what a query means; where LEADING, STRAIGHT_JOIN and SEMI_JOIN_REWRITE go is proved, the others
  are not modelled.
- PredicateCompiler.CompileCapacity: counts arguments only; predicates are written as tokens, not characters, so the
  SQL length it also reserves and the quoting of identifiers there are not modelled. Bulk updates and canonical SQL
  are modelled character by character.
- Keyset.SeekAfterCompileCapacity: counts arguments only, for the same reason.
- SelectClause.CompileSelectClauses: without FORCE INDEX, read policy and the reserved length.
- RelationFirstWriter.CompileTopN: without read policies and without inlined joins, which are modelled for their own
  statement.
- BulkExec.RowsPerStatement: the update branch; INSERT batches are not modelled.
- BulkExec.CompileRange: updates only, likewise.
- BulkExec.Exec: updates only, likewise.
- INSERT, upsert, DELETE, conditional and predicate UPDATE statements: their rendering and argument order only
  repeat what the bulk update shows.
- Preload.AssignPreloadedTarget: slices of pointers and of values; the single-pointer case serves to-one relations,
  which are compiled as inlined joins (orm/preload.go:352) and never reach it (orm/preload.go:526).
- Preload.HydratePreloadBatch: without the refusal of a second row for a to-one key, unreachable for the same reason:
  only has_many and many-to-many plans are hydrated in batches.
- InlinePreload.ScanFields: value conversions and Scanner errors are not modelled, only whether a NULL fits.
- Preload.ExecutePreloadPlan: one level with distinct parents; nested levels, whose parents may share cells after a
  shallow copy, are not modelled, and neither is the text of the preload statements.
- InlineWriter.AssignInlinePreloadAliases: fields named by literals for the first eight aliases are one numbering.
- RelationKey.ModelKey: a Valuer is represented by the value it returns; its errors are left out.
- MigrationRun.Runner.Apply: what a failed SQL statement did to the schema, the lock, the clock of events and a nil
  listener; a failed call may have had its effect.
- MigrationPlan.BuildPlan: the order of the history is given; equal creation times are not modelled.
- Baseline, Status, schema capture, portable references, normalized DDL, the linter's simulated catalog, model
  description and edit-distance hints.
- Aggregates and their joins, plan access paths, EXPLAIN collection and runtime observation.
- Character classes outside ASCII: Unicode blanks and upper-casing; a byte above 127 is one character.
- String collation and numeric coercion: columns compare exactly.
- Reflection, struct tags, caches, database connections and the texts of error messages.
