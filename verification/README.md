# GORM: a verified model of its algorithms and protocols

GORM is an object-relational mapper. Underneath the reflection and the SQL text it holds a number of real
algorithms and protocols. This project models those and proves what they keep:

- **Expiring LRU cache** (`Recency`, `LruList`, `Lru`, `LruRuns`). The ring of linked nodes, the index and the hundred
  expiry buckets are modelled on the heap and proved to implement a plain most-recent-first list; the list is then
  followed through every interleaving of callers with the background sweeper.
- **Prepared statements** (`PreparedStmt`, `PreparedSteps`, `PreparedRuns`, `PreparedProgress`, `PreparedOnce`,
  `PreparedHits`). Any number of callers run the double-checked locking over the shared store, as a transition system
  whose steps are the points at which the Go code can be interrupted.
- **WHERE compiler** (`Conditions`, `SearchCondition`, `Where`, `ConditionLaws`, `SoftDelete`). Condition trees are
  printed as text, read back by a parser with SQL's precedence (subclause 8.12 of ISO/IEC 9075:1992, with repeated NOT
  accepted as an extension), and compared in three-valued logic.
- **Bind variables** (`BindVars`, `BindVarForms`, `Placeholders`, `Splice`, `StatementVars`). Recursive expansion of
  arguments, splicing of subqueries that were built on their own, and inlining for the log.
- **Orderings** (`ReorderModels`, `Reorderer`, `ReorderClosure`, `SortCallbacks`, `SortTurns`, `SortAfters`). The
  depth-first walk over models that are discovered during the walk, and the insertion of callbacks by before/after
  constraints.
- **Data movement** (`Blocks`, `Transactions`, `Batches`, `EitherBatches`, `Decimals`, `StringKeys`, `Preloads`,
  `PreloadJoins`, `PreloadTables`, `Backfill`). Nested transaction blocks by savepoints, batched reading under a limit
  and an offset, preloading as a join through a map of strings, and the setting of generated keys.

Code that updates state is modelled by classes and methods with loops, each proved against a function; the laws are
lemmas about those functions. For each operation it is also stated what it does without that function: on the state
before and after, or on what is written. `dafny verify dfyconfig.toml` checks the project.

## What turned out not to hold

For each of these it is proved what the code does instead, and, where there is one, the condition under which it does
what one expects.

- Adding under a key that is cached replaces the value without telling the eviction callback: the books balance only
  when the replaced pair is counted (`Lru.LRU.Add`).
- The driver can prepare one query twice at the same time if an entry is taken away, or expires, while its statement is
  being prepared, and only then (`PreparedOnce.OnePreparation`, `PreparedOnce.TakenAwayLetsTwoPrepare`).
- The negated text of a condition is its negation except for membership in an empty list, where it never is
  (`Conditions.NegationIsExact`).
- `Not(And(a, b))` with conditions that can negate themselves is printed as NOT a AND NOT b. It is the negation of the
  conjunction exactly on the rows where all the conditions are worth the same (`ConditionLaws.NotOfAnd`). With raw
  conditions every Or group below NOT starts a new run (`ConditionLaws.NotOfRuns`).
- Soft delete keeps the accepted rows if no reordering is due (`SoftDelete.SoftDeleteFilters`); if one is due, some are
  lost, such as those on which only the first expression that is no single Or holds, and others come back. Which do is
  stated exactly (`SoftDelete.SoftDeleteLoses`).
- Arguments that find no question mark are appended without a placeholder, and variables and placeholders are then out
  of step (`BindVars.PlaceholdersInStep`, `Splice.MarksInStep`).
- A subquery can be spliced in exactly if ahead of no placeholder stands text that looks like it, or a literal question
  mark, and no slice of bytes comes first in a parenthesis (`Splice.SpliceIsInline`). A query is explained in place
  exactly if ahead of no placeholder stands a literal question mark (`Splice.ExplainIsInline`).
- Models that come to light while others are being ordered may be parsed and not listed; which are listed is stated
  exactly (`ReorderClosure.WithAutoAdd`, `ReorderClosure.WithoutAutoAdd`, `ReorderClosure.AllParsedAreListed`). The
  dependency that is appended in the deferred call is not part of the model: it never reaches the map, because the struct
  was copied before (`migrator/migrator.go:963-976`).
- Sorting callbacks that only say what they follow goes on for ever exactly if one follows itself in the end
  (`SortAfters.AftersSort`). A before that looks ahead makes its target's own constraint void
  (`SortAfters.FirstBeforeForgets`), and a conflict may be reported although an order exists
  (`SortCallbacks.ConflictDespiteAnOrder`).
- The error of a savepoint that is refused stays on the handle: a block that ignores it loses what it writes later, and
  the outermost block returns an error although it commits. When the promise is kept all the same is stated exactly
  (`Transactions.TransactionHonoured`, `Transactions.IgnoredRefusal`).
- A transaction that is begun through a handle with an error is opened, and neither used nor ended
  (`Transactions.Handle.Transaction`).
- Inside a transaction a failing statement has no transaction of its own: what it wrote before it failed stays, unless
  the block around it fails too (`Transactions.Handle.Statement`).
- Reading in batches ignores a limit of 0 (`Batches.WantedIsWindow`).
- With a filter joined by OR the key condition binds to its last part alone. What the other parts find comes back with
  every batch: rows are handed over once each only if those parts find none of the rows before the last query
  (`EitherBatches.EitherIsRead`), and without a total reading ends only if they find fewer than a batch holds
  (`EitherBatches.EndsExactly`).
- Two keys of several columns can have the same string, and a key the database takes for the same can have another one:
  a zero is spelled `nil`, a pointer to zero `0`. Preloading is a join exactly if that does no harm
  (`PreloadJoins.DirectIsJoin`, `PreloadTables.ThroughIsJoin`), and fails exactly if a row is found under a string that
  was not asked for (`PreloadTables.PreloadTable`, `PreloadJoins.PointerToZeroFails`). When no record has a key,
  preloading leaves what the records held before (`Preloads.Preload`).

## Model

| member | source | states |
|---|---|---|
| LruRing.LruList.Insert | internal/lru/lru.go:432-440 | the node is put behind the given one; the list stays a cycle of exactly its nodes through the sentinel |
| LruRing.LruList.Remove | internal/lru/lru.go:448-457 | exactly the given node leaves the cycle, with no stale links in it |
| LruRing.LruList.MoveToFront | internal/lru/lru.go:488-494 | the node comes first, all others keep their order |
| LruRing.LruList.PushFrontExpirable | internal/lru/lru.go:480-483 | a fresh node with the key, value and expiry comes first |
| LruRing.LruList.Back | internal/lru/lru.go:417-422 | the last node, or none for an empty list |
| Lru.LRU.constructor | internal/lru/lru.go:52-94 | an empty cache in which ring, index and buckets agree; a negative size and a time to live that is not positive are replaced |
| Lru.LRU.Add | internal/lru/lru.go:118-144 | the heap structure still agrees and implements Add on the recency list; the item is first, with a full time to live and in the bucket swept last, and exactly the item it replaces, or the oldest of a full cache, is gone; the callback and the cache account for every pair but the replaced one |
| Lru.LRU.Get | internal/lru/lru.go:147-160 | a live item yields its value and is first from then on, the others as they were; an expired or missing key yields nothing and moves nothing |
| Lru.LRU.Remove | internal/lru/lru.go:189-197 | exactly the item of the key is gone, the others as they were; it is reported, and the result tells whether there was one |
| Lru.LRU.RemoveOldest | internal/lru/lru.go:200-208 | the least recently used item leaves and is returned |
| Lru.LRU.Resize | internal/lru/lru.go:275-291 | the list is cut to the new size from its front, all of it stays without a limit, and the number that left is returned |
| Lru.LRU.Purge | internal/lru/lru.go:98-113 | nothing is left; everything leaves through the callback, the buckets are emptied but keep their newest times |
| Lru.LRU.Keys | internal/lru/lru.go:237-249 | exactly the keys that have not expired, oldest first |
| Lru.LRU.AddToBucket | internal/lru/lru.go:342-349 | the entry sits in the bucket behind the cursor and in no other, whose newest time is raised to its expiry; the 8-bit index does not overflow |
| Lru.LRU.RemoveFromBucket | internal/lru/lru.go:352-354 | the entry leaves the one bucket it names |
| Lru.LRU.RemoveElement | internal/lru/lru.go:313-320 | a node leaves ring, index and bucket together and is reported once |
| Lru.LRU.SweepBegin | internal/lru/lru.go:324-333 | which bucket is up and how long to sleep |
| Lru.LRU.SweepEnd | internal/lru/lru.go:334-338 | no item of the bucket is left, every item of another is, in the old order, and nothing else; the cursor is the next one modulo a hundred |
| Recency.SweepTakes | internal/lru/lru.go:324-339 | on the recency list too a sweep takes exactly the bucket it looked at, and moves the cursor |
| Recency.AddAdds | internal/lru/lru.go:118-144 | what adding leaves on the list, item by item, and the one bucket whose newest time is raised |
| Recency.GetFinds | internal/lru/lru.go:147-160 | what looking up finds, and what it moves |
| Recency.ShrinkTakes | internal/lru/lru.go:98-113 | purging leaves nothing, removing the oldest takes the last of the list, resizing what is beyond the new size |
| Recency.LiveKeysListed | internal/lru/lru.go:237-249 | the keys read off are those of live items, each behind all that are older |
| Lru.LRU.ModelWellFormed | internal/lru/lru.go:16-49 | an agreeing heap structure stands for a list with distinct keys, within capacity, every item no later than its bucket's newest time |
| LruRuns.StepKeepsInv | internal/lru/lru.go:98-354 | every operation and both halves of a sweep keep the list well formed, and the bucket a sleeper waits for is not touched by additions |
| LruRuns.RunKeepsInv | internal/lru/lru.go:98-354 | the same in every state of every interleaving |
| LruRuns.Departures | internal/lru/lru.go:118-339 | an item leaves only by its key being added or removed, as the oldest of a full cache, by resize or purge, or when it has expired |
| LruRuns.Arrivals | internal/lru/lru.go:118-144 | an item comes only by Add, with the expiry the time to live gives it, and never into the bucket under the cursor |
| LruRuns.SweepNeverEarly | internal/lru/lru.go:324-349 | in every run, what a sweep takes has expired, whatever the callers do while the sweeper sleeps unlocked |
| LruRuns.CachedIsLastAdded | internal/lru/lru.go:118-160 | in every run a cached value is the last one added under its key |
| LruRuns.ComesCloser | internal/lru/lru.go:324-349 | an item that survives comes closer to the cursor by exactly the completed sweeps |
| LruRuns.GoneAfterHundredSweeps | internal/lru/lru.go:324-349 | after a hundred completed sweeps no key is left that was not added meanwhile, wherever the cursor began |
| PreparedRuns.StepKeepsInv | prepare_stmt.go:52-86 | every step of every caller, and every eviction, keeps the protocol's invariant |
| PreparedRuns.RunKeepsInv | prepare_stmt.go:52-86 | the invariant holds in every state of every run |
| PreparedRuns.ReceivesFinished | internal/stmt_store/stmt_store.go:124-184 | a caller only receives a finished statement for its query, never one prepared in a transaction unless it is in one, with its handle set exactly if there is no error |
| PreparedRuns.OutcomeFixed | internal/stmt_store/stmt_store.go:158-184 | once announced a statement's outcome never changes |
| PreparedRuns.SharersAgree | prepare_stmt.go:66-86 | all callers that share a statement see the same outcome |
| PreparedRuns.FailedIsUnmapped | internal/stmt_store/stmt_store.go:170-180 | once a failure is announced no key leads to the failed statement |
| PreparedProgress.NoDeadlock | prepare_stmt.go:52-86 | while a call is unfinished some caller can take a step, although lock holders wait for channels |
| PreparedProgress.StepDecreases | prepare_stmt.go:52-86 | every event uses up one of a bounded number of steps |
| PreparedProgress.EveryCallReturns | prepare_stmt.go:52-86 | no run is longer than 13 events a call, and a run in which no caller can move has finished every call |
| PreparedOnce.OnePreparation | prepare_stmt.go:66-86 | unless an entry is taken away, or taken for expired, while its statement is on its way to the driver or in it, that query is never prepared twice at the same time, whatever else is evicted, expires or is closed |
| PreparedOnce.SoloPreparation | prepare_stmt.go:66-86 | a caller that finds the lock free and its query missing or expired is in the driver after seven moves, with its statement stored |
| PreparedOnce.TakenAwayLetsTwoPrepare | prepare_stmt.go:66-86 | wherever a query is in the driver, its entry is gone or taken for expired and the lock is free, another caller for it gets into the driver too |
| PreparedOnce.EvictionLetsTwoPrepare | prepare_stmt.go:109-127 | a run of two callers with one eviction in which both are in the driver for the same query |
| PreparedOnce.ExpiryLetsTwoPrepare | internal/stmt_store/stmt_store.go:124-184 | a run of two callers without any removal, in which the entry expires while it is prepared, that ends the same way |
| PreparedHits.ReadHit | prepare_stmt.go:67-73 | a caller whose statement is stored, finished and fit for it returns with it after two moves under the read lock; statements, store and driver are not touched |
| PreparedHits.WriteHit | prepare_stmt.go:77-83 | so does one that finds it when it has got the write lock |
| PreparedHits.MissIsMiss | prepare_stmt.go:76-85 | a caller goes on to store a statement of its own exactly if there is none, it has expired, or the one found belongs to a transaction and the caller to none |
| PreparedHits.PreparesOnMiss | prepare_stmt.go:66-86 | in every run whoever prepares has missed before, for one of these reasons |
| PreparedHits.WaitsForAnother | internal/stmt_store/stmt_store.go:124-130 | a statement that is not finished is waited for |
| PreparedHits.AnswerIsKept | internal/stmt_store/stmt_store.go:168-184 | the driver's answer is what the preparer returns and the statement keeps; after an error the entry is gone, otherwise it stays and has its handle |
| PreparedHits.CloseDeletes | prepare_stmt.go:52-59 | Close deletes the keys it goes through, and nothing else |
| PreparedHits.WriterKeepsOthersOut | prepare_stmt.go:67-76 | a caller gets past the lock exactly if no writer has it or waits for it |
| Conditions.LeafPrints | clause/expression.go:190-353 | the text printed for each of the eight kinds of leaf is worth, on every row, what the leaf means there: comparisons of the column with the value, NULL tests, membership |
| Conditions.NegationIsExact | clause/expression.go:190-365 | for every leaf and row, the negated text is worth the negation of what the leaf means exactly if the leaf is not membership in an empty list; for those it is stated what it is worth |
| SearchCondition.FlowParses | clause/where.go:43-89 | the parser reads a flat list of factors as an OR of AND-runs, in order, for every starting state of its two loops |
| SearchCondition.PrintReads | clause/where.go:121-245 | every structured tree prints as one factor whose reading, NOT over AND over OR, has the tree's meaning |
| Where.WhereParses | clause/where.go:23-89 | the printed clause is read to its last token as what the clause means under the list rule and the reordering |
| Where.BuildTwice | clause/where.go:23-41 | building again prints the same text and moves nothing, despite the swap in place |
| Where.LoneGroupPrints | clause/where.go:23-28 | a clause that holds one AND group prints like its members |
| Where.Clause.Build | clause/where.go:23-41 | the builder receives the clause's text, and the expressions are left with the leading single Or moved |
| Where.BuildExprs | clause/where.go:43-89 | the loop writes the list with OR before each single Or, the join word elsewhere, and wraps what has to be wrapped |
| Where.BuildNot | clause/where.go:168-245 | the two forms of NOT are written, with and without elements that negate themselves |
| Where.BuildNegatedItem | clause/where.go:187-204 | one element under a distributed NOT: negated by itself if it can, else behind NOT, in parentheses where needed |
| Where.BuildGroup | clause/where.go:121-150 | an And or Or group of several members stands in parentheses |
| ConditionLaws.ListAccepts | clause/where.go:43-89 | a list accepts a row exactly when one of its AND-runs is true from end to end |
| ConditionLaws.AndList | clause/where.go:43-89 | joined by AND throughout a list is the conjunction of its elements, in three-valued logic |
| ConditionLaws.AddedCondition | clause/where.go:43-89 | a condition added by Or is an alternative to everything before it; one added to a list without Or is one more that has to hold |
| ConditionLaws.OrGroup | clause/where.go:142-150 | an Or group is the disjunction of its elements |
| ConditionLaws.MakeAndMeans | clause/where.go:103-115 | leaving out the group around a single element changes neither the meaning nor that it is joined by AND |
| ConditionLaws.NotMeans | clause/where.go:168-245 | with a self-negating element NOT means none of them; without one, and without Or groups, it means not all of them |
| ConditionLaws.NotOfRuns | clause/where.go:210-244 | without a self-negating element NOT rejects exactly the rows on which a run of its elements holds, where every Or group starts a new run |
| ConditionLaws.NotOfRunsDiffers | clause/where.go:216-224 | NOT (a AND (b OR c)) with raw conditions rejects every row on which b holds and a does not |
| ConditionLaws.NotOfAnd | clause/where.go:152-162 | NOT of a conjunction with a self-negating element and no single Or is printed as its negation exactly for rows on which all elements are worth the same |
| ConditionLaws.NotOfAndDiffers | clause/where.go:152-207 | a row that NOT (a = 1 AND b = 2) should accept and the printed text does not |
| SoftDelete.SoftDeleteMeans | soft_delete.go:76-96 | the rewritten clause is worth the conditions in their given order AND the soft-delete condition |
| SoftDelete.OnlyUndeleted | soft_delete.go:76-96 | for every structured clause, or none, the text after the rewrite accepts no deleted row |
| SoftDelete.SoftDeleteFilters | soft_delete.go:76-96 | if no reordering is due the rewritten clause is worth the printed one AND the soft-delete condition |
| SoftDelete.SwappedRuns | clause/where.go:23-41 | the reordered clause accepts a row exactly if the moved expression or one of the single Ors behind the first holds, or the first with what is joined to it now, or a later run |
| SoftDelete.GivenRuns | clause/where.go:43-89 | in the given order it accepts a row exactly if a single Or holds that nothing is joined to, or the last of them with the expression behind it and what is joined to that, or a later run |
| SoftDelete.SoftDeleteLoses | soft_delete.go:76-96 | if a reordering is due: exactly which undeleted rows are accepted before the rewrite and not after it, and exactly which after it and not before, by which terms and runs of the given list hold |
| SoftDelete.SoftDeleteLosesSome | soft_delete.go:76-96 | a list, a row that is lost and a row that comes back |
| SoftDelete.Statement.ModifyStatement | soft_delete.go:76-96 | the scan for a single Or and the two updates make the clause the rewritten one, once, unless unscoped |
| SoftDelete.Statement.AddWhere | clause/where.go:92-101 | new conditions are merged behind the ones that are there |
| SoftDelete.RewriteTwice | soft_delete.go:77-94 | a second rewrite changes nothing |
| BindVars.VarFills | statement.go:175-269 | filling each placeholder by its number gives the text with every value written in place, over any nesting |
| BindVars.PlaceholdersInStep | statement.go:175-269 | there are as many placeholders as variables, the k-th for the k-th, exactly if no argument is left over |
| Splice.MarksInStep | statement.go:175-269 | where every placeholder is a question mark, there are as many as variables exactly if as many question marks found no argument as arguments no question mark |
| BindVars.ExprInStep | clause/expression.go:28-58 | a template leaves over exactly the arguments behind its last question mark and those its arguments leave over |
| BindVars.VarShifts | statement.go:175-269 | behind d more variables the same is written with every number raised by d |
| BindVarForms.OneForm | statement.go:181-200 | a value is the next placeholder, a column its name, a named argument nothing but a variable |
| BindVarForms.ListForm | statement.go:205-212 | a list of values is placeholders in turn, separated by commas, in parentheses unless behind one; an empty one is (NULL), and behind one a NULL variable |
| BindVarForms.JoinedForm | statement.go:175-180 | several arguments of any kind stand one after the other with a comma between |
| BindVarForms.BytesForm | clause/expression.go:161-182 | a slice of bytes behind a parenthesis is one placeholder and one variable for each byte |
| BindVarForms.TemplateForm | clause/expression.go:34-50 | the next question mark takes the next argument, the text before it is copied, and the argument goes bare exactly if that text ends in a parenthesis |
| BindVarForms.CopiedForm | clause/expression.go:51-58 | text without question marks, or without arguments, is copied, and arguments left over are appended |
| StatementVars.Statement.AddVar | statement.go:175-212 | the loop appends text and variables as specified, separated by commas |
| StatementVars.Statement.AddOne | statement.go:181-268 | each kind of argument: named, column, expression, list, empty list, slice of bytes, scalar |
| StatementVars.Statement.ProcessValue | clause/expression.go:161-182 | behind a parenthesis a list comes without its own, an empty one as one NULL variable, and a slice of bytes as one number after the other |
| StatementVars.Statement.Build | clause/expression.go:28-58 | the byte loop with its two flags gives each question mark the next argument and appends what is left over |
| StatementVars.Statement.AddSubquery | statement.go:213-244 | splicing in a built subquery leaves the statement as if it had been built in place exactly if the subquery's text is recoverable |
| Placeholders.Unnumber | statement.go:224-229 | the loop replaces the placeholders one after the other, each by its leftmost occurrence |
| Placeholders.BindVarsDiffer | statement.go:226-227 | different variables have different placeholders |
| Placeholders.NextIsReplaced | statement.go:228 | with no text ahead that looks like it, the leftmost occurrence of the next placeholder is that placeholder, even where its digits begin a longer number |
| Placeholders.LookalikeSpoils | statement.go:228 | text ahead that looks like the next placeholder is replaced instead, which leaves a question mark where the template has a literal |
| Placeholders.UnnumberedExactly | statement.go:223-229 | the template is recovered exactly if ahead of no placeholder stands literal text that looks like it |
| Splice.RebuildTemplate | statement.go:231-237 | building the template again numbers from the outer offset, with the variables in order, if no literal question mark stands ahead of a placeholder and no slice of bytes behind a parenthesis |
| Splice.ExposedDiffers | clause/expression.go:161-182 | a slice of bytes whose placeholder stands behind a parenthesis comes back as other variables |
| Splice.StrayDiffers | clause/expression.go:34-41 | a question mark ahead of a placeholder, where the text has a literal, takes a variable away and changes what is built; the text itself, if there are no slices of bytes |
| Splice.RebuiltExactly | statement.go:223-237 | un-numbering and building again behind n variables raises the numbers by n and changes nothing else, exactly if the text is recoverable |
| Splice.SpliceIsInline | statement.go:213-244 | splicing in a subquery behind any number of variables equals building it in place exactly if its text is recoverable |
| Splice.LookalikeIsReplaced | statement.go:228 | a text that is not recoverable |
| Splice.BytesAreTakenApart | statement.go:202-204 | a list with a slice of bytes, which is not recoverable: it is rebuilt as its bytes |
| Splice.ExplainSQL | logger/sql.go:153-168 | the byte loop gives each question mark the next literal and never reads what it has written |
| Splice.ExplainIsInline | logger/sql.go:153-168 | building with question marks and explaining equals writing each literal in place, for all literals whatever they contain, exactly if no literal question mark stands ahead of a placeholder |
| Splice.QuotedReadsBack | logger/sql.go:117-118 | a string with its quotes doubled reads back as itself and ends where the literal ends |
| Reorderer.Walk.ParseDependence | migrator/migrator.go:934-981 | parsing records a model once, lists it if asked, and parses the join tables behind it |
| Reorderer.Walk.InsertIntoOrderedList | migrator/migrator.go:983-1002 | the recursive walk, which parses what it finds, ends on every graph and lists as specified |
| Reorderer.Walk.Run | migrator/migrator.go:1004-1019 | views first in their order, then the models in the walk's order |
| Reorderer.KindsKept | migrator/migrator.go:1004-1010 | every view and every model the caller passes comes out once, in its place among its kind |
| ReorderModels.ReorderLists | migrator/migrator.go:919-1020 | with auto-add every given model is listed, none twice, and with each the models its constraints reference, cycles included |
| ReorderModels.ReorderSorts | migrator/migrator.go:983-1014 | every dependency comes first exactly if the listed models depend on each other without a cycle |
| ReorderClosure.WithAutoAdd | migrator/migrator.go:983-1014 | with auto-add the listed models are exactly those that the given ones bring up through join tables, and those these depend on, directly or not |
| ReorderClosure.WithoutAutoAdd | migrator/migrator.go:943-980 | without auto-add exactly the given models that were not parsed behind earlier ones are listed, in their order |
| ReorderClosure.AllParsedAreListed | migrator/migrator.go:991-998 | everything that is parsed is listed exactly if the listed models are closed under what parsing defers |
| ReorderModels.LateJoinTableIsLost | migrator/migrator.go:961-972 | a join table parsed during the walk is not listed |
| ReorderModels.GivenJoinTableIsLost | migrator/migrator.go:943-945 | without auto-add a given model that was parsed behind an earlier one is not listed |
| SortCallbacks.Sorter.GetRIndex | callbacks.go:252-259 | the last position of a name, or -1 |
| SortCallbacks.Sorter.PlaceBefore | callbacks.go:285-301 | the before constraint: placed, checked, or handed to its target |
| SortCallbacks.Sorter.SortCallback | callbacks.go:284-340 | one callback and, before it, the one it is to follow, with the shared list and fields |
| SortCallbacks.Sorter.Sort | callbacks.go:342-346 | all callbacks in turn, up to the first conflict |
| SortCallbacks.SortOneExtends | callbacks.go:284-340 | whatever the constraints, names that are placed keep their order, and the callback is placed |
| SortCallbacks.SortAllPlacesEachOnce | callbacks.go:261-346 | on success every registered name is placed, each once, and nothing else |
| SortTurns.TurnPlaces | callbacks.go:286-289 | a callback that names nobody goes to the front if it is to run before everyone and something is placed, else to the end |
| SortTurns.TurnBeforeOne | callbacks.go:290-293 | one that is to run before a placed one goes right ahead of it |
| SortTurns.TurnChecks | callbacks.go:294-314 | a placed callback is in conflict exactly if it stands behind the one it is to run before or ahead of the one it is to follow; otherwise nothing changes |
| SortTurns.LooksAgain | callbacks.go:326-331 | when the one it is to follow has been placed behind it, a callback is looked at again and found in conflict |
| SortTurns.TargetIsTold | callbacks.go:315-324 | the first callback that has to wait for another is what that one is told to run before, and that stays |
| SortTurns.BeforeEveryone | callbacks.go:284-346 | where no constraint names anyone, sorting succeeds, and every callback that is to run before everyone, but the first of the list, stands ahead of all registered before it and of all that are not to |
| SortCallbacks.LooksBackSorts | callbacks.go:284-346 | constraints that name earlier callbacks are all satisfied, unless some after-target is not strictly ahead of the before-target when its turn comes, which is exactly when sorting fails; no recursion is needed |
| SortAfters.AftersSort | callbacks.go:303-340 | callbacks that only say what they follow, earlier or later in the list, fresh or sorted before, are all put behind it, with as much depth as there are callbacks, exactly if none follows itself in the end; otherwise sorting goes on for ever |
| SortAfters.RegisterKeeps | callbacks.go:227-231 | one more callback with an after can be registered behind such a list: the theorem holds of the list again |
| SortAfters.ForgetsAfter | callbacks.go:297-300 | a before whose target is registered and not placed yet makes everything that follows independent of what the target was to follow |
| SortAfters.FirstBeforeForgets | callbacks.go:297-300 | if the first callback's before names a registered one, sorting comes to the same whatever that one is to follow |
| SortAfters.FirstBeforeLoses | callbacks.go:297-300 | told to follow a name that comes out behind it, that one stays where it was, and sorting succeeds with the constraint broken |
| SortCallbacks.MutualAfterLoops | callbacks.go:315-331 | two callbacks that are each to follow the other recurse without end |
| SortCallbacks.ForwardBeforeLosesAfter | callbacks.go:297-300 | a before that looks ahead replaces its target's after, and sorting succeeds without it |
| SortCallbacks.ConflictDespiteAnOrder | callbacks.go:284-346 | a conflict is reported although an order satisfies every constraint |
| Transactions.Handle.Transaction | finisher_api.go:637-677 | outcome and database after an outermost block: all its callback wrote, as its handles let it, or nothing; an error left on the handle is returned although the commit took effect |
| Transactions.Handle.Nested | finisher_api.go:640-655 | a block inside keeps its writes or, on error or panic, goes back to its own savepoint; a savepoint that is refused leaves an error on the enclosing handle |
| Transactions.Handle.Statement | callbacks/transaction.go:7-32 | a statement's own transaction neither commits nor rolls back the one around it; outside one, its writes are all kept or all dropped; on a handle with an error it does nothing and fails |
| Transactions.Handle.Begin | finisher_api.go:680-713 | inside a transaction beginning is an error and changes nothing; outside, an error on the handle does not keep the transaction from being opened |
| Transactions.Handle.Commit | finisher_api.go:716-723 | a commit adds the transaction's writes or, when it fails, none; an older error stays on the handle |
| Blocks.KeptLasts | finisher_api.go:637-677 | what each block promises to the one around it adds up to the writes that no enclosing failure undoes |
| Transactions.HeededTransaction | finisher_api.go:637-677 | if no block goes on after a block inside it was refused its savepoint, exactly the writes of blocks that succeed with all the blocks around them end up in the database, panics included |
| Transactions.TransactionHonoured | finisher_api.go:640-676 | without panics outcome and database are what the block promises exactly if it promises to fail, or cannot be committed, or honours its promise |
| Blocks.HonouredExactly | finisher_api.go:642-655 | a block that promises success comes to the outcome and the writes it promises exactly if nothing is to be written, and no error minded, through a handle behind a refusal that was ignored, or only in blocks inside that do not matter |
| Blocks.ErrorStopsWrites | gorm.go:448-450 | once there is an error on a handle nothing more is written through it |
| Blocks.UnnestedIsKept | finisher_api.go:642 | without savepoints no handle gets an error |
| Transactions.IgnoredRefusal | finisher_api.go:644-671 | a block whose later write is lost, whose earlier one is committed, and that returns an error |
| Transactions.BackToOwn | finisher_api.go:648-655 | going back to one's own savepoint undoes exactly the block, if no block inside used its name |
| Transactions.ReusedNameKeepsWrites | finisher_api.go:643-651 | with the name reused inside, what the outer block wrote before stays |
| Batches.FindInBatches | finisher_api.go:186-256 | the rows are visited once each, in key order, in batches full but for the last, up to the total; it ends, stops early only on a callback's error or a zero key, and reports a zero key exactly if a full batch ends in one and more is due |
| Batches.WantedIsWindow | finisher_api.go:196-211 | the rows visited are those of the offset and the limit exactly unless the limit is 0 and there are rows behind the offset |
| Batches.WantedIs | finisher_api.go:196-211 | the rows visited are the slice from the offset on, as long as a positive limit |
| Batches.KeysAre | finisher_api.go:213-251 | a query finds exactly the keys of rows that match, behind the key it starts after |
| Batches.KeysAfter | finisher_api.go:246-251 | the rows behind a found key are the rest of the result |
| Batches.BatchFinds | clause/limit.go:30-46 | each batch asks for its size from the offset the first time, and from the last key without offset after that |
| Batches.LaterWins | clause/limit.go:30-46 | a limit or offset set later wins, one left out keeps the earlier, a negative offset takes it back |
| Batches.StaysSized | finisher_api.go:230-237 | cutting the last batch down to the remainder never exceeds the total and never asks for an empty batch |
| EitherBatches.FindEither | finisher_api.go:213-252 | the same loop with a filter joined by OR, followed for any number of rounds: the batches it hands over and whether it has ended |
| EitherBatches.EitherKeysAre | finisher_api.go:251 | a query finds the rows of the first part whatever their key, and those of the last part behind the key |
| EitherBatches.EitherIsRead | finisher_api.go:213-252 | reading ends with every row that is found handed over once exactly if the first part finds none of the rows before the last query: the first (count / n) * n, or fewer if the total cuts off |
| EitherBatches.EndsExactly | finisher_api.go:226-251 | without a total reading ends exactly if the first part finds fewer rows than a batch holds, and then within one round more than there are rows; otherwise it never does |
| EitherBatches.TotalEnds | finisher_api.go:230-237 | with a total reading always ends |
| EitherBatches.OrFilterRepeats | finisher_api.go:251 | if the first part alone finds a first batch, every round hands over that same batch |
| EitherBatches.OneComesBack | finisher_api.go:251 | a table of three rows on which the first comes back with every batch, and reading ends |
| StringKeys.ToStringKey | utils/utils.go:86-111 | the parts of a key joined by underscores, zero values of other types as nil |
| StringKeys.KeyStrings | utils/utils.go:86-111 | what each kind of value is spelled as, and the underscore between two columns |
| Decimals.ReadsBack | utils/utils.go:100 | a number that is written out reads back, so different numbers are spelled differently |
| StringKeys.IdsByString | utils/utils.go:86-111 | a row is found under a uint key exactly if it has the same string, whether it holds the number or points to it |
| StringKeys.SameStringSameParts | utils/utils.go:86-111 | the string settles every part if no part but the last contains an underscore; always for one column |
| StringKeys.DifferentKeysSameString | utils/utils.go:110 | two keys of two columns with the same string |
| Preloads.GetIdentityFieldValuesMap | schema/utils.go:108-179 | every element with a key that is not all zero is in the map once, under its string, and the first key with each string is asked for |
| Preloads.AskedOnce | schema/utils.go:165-170 | no two of the keys asked for have the same string |
| Preloads.Assign | callbacks/preload.go:299-348 | every record is cleared and then handed each row as often as the row's key links to it; it fails exactly if a row links to nothing |
| Preloads.HeldHolds | callbacks/preload.go:330-346 | a field for many rows holds them all in order, a field for one row the last |
| Preloads.Relink | callbacks/preload.go:228-245 | each record is linked to a key once for every join row that leads there |
| Preloads.Preload | callbacks/preload.go:248-350 | each record is handed the rows found with its string key, in order; nothing is touched when no record has a key |
| Preloads.PreloadThrough | callbacks/preload.go:196-247 | the same through a join table, once for every join row |
| PreloadJoins.DirectIsJoin | callbacks/preload.go:248-348 | every record is handed exactly the rows of the nested-loop join, which compares what the database stores, in fetch order, exactly if every row that belongs to a record has the string of all the records it belongs to, and of no other |
| PreloadJoins.JoinCounts | callbacks/preload.go:248-348 | that join holds every row of the table with the record's key that meets the conditions, as often as it is there |
| PreloadJoins.IdsHaveOwnStrings | callbacks/preload.go:248-348 | with uint keys, and rows that hold them or point to them, preloading is the join on every table |
| PreloadJoins.JoinIsAtHome | callbacks/preload.go:325-328 | wherever preloading is the join, every row the query finds is assigned |
| PreloadJoins.PointerFindsItsRecord | utils/utils.go:86-111 | a foreign key behind a pointer finds the record with that uint key, and has its string |
| PreloadJoins.PointerToZeroFails | callbacks/preload.go:325-328 | a zero in a key of two columns and a pointer to zero: the query finds the row and assigning it fails |
| PreloadTables.ThroughIsJoin | callbacks/preload.go:196-348 | through a join table too, each row once for every join row that pairs the two, exactly if for every record and row as many join rows are lost by their strings as lead there without pairing the two |
| PreloadTables.ThroughCounts | callbacks/preload.go:196-348 | that join holds a row once for each join row that pairs it with the record |
| PreloadTables.IdsAreBalanced | callbacks/preload.go:196-348 | with uint keys preloading through a join table is the join on all three tables |
| PreloadTables.NoneAstray | callbacks/preload.go:228-245 | where none leads astray, exactly if every join row that pairs a record with a row leads there by its strings |
| PreloadTables.PointerToZeroIsLost | callbacks/preload.go:228-245 | a join row with a pointer to zero is lost |
| PreloadTables.JoinIsLed | callbacks/preload.go:228-328 | wherever preloading through a join table is the join, every row found is assigned |
| PreloadTables.PreloadTable | callbacks/preload.go:185-350 | from the table to the records: preloading fails exactly if a row that is found has the string of no key asked for, and leaves the join under that condition, for many rows only then, and always with uint keys; or what was there if no record has a key |
| PreloadTables.PreloadThroughTable | callbacks/preload.go:185-350 | the same through a join table: it fails exactly if no join row leads from a key asked for to a row that is found, and with uint keys it leaves the join |
| PreloadJoins.SharedStringSharesRows | utils/utils.go:110 | two keys and a row for which the condition fails |
| Backfill.SetForward | callbacks/create.go:200-210 | rows with a key keep it; the first without one gets the reported key, and each the one before it plus the increment |
| Backfill.SetReversed | callbacks/create.go:186-198 | counted back from the last reported key, which the last such row gets, they are numbered alike |
| Backfill.GeneratedNumbered | callbacks/create.go:186-210 | the keys given by either loop are numbered in steps of the increment over the rows without one |

## Left out

- Lru.LRU.Add: expiry times are naturals counted from the zero time; overflow of time arithmetic is not modelled.
- Lru.LRU.constructor: no timer or goroutine is started; the sweeper is the two events of `LruRuns`. The sentinel node is passed in.
- LruRuns.SweepNeverEarly: a caller's operation is one step, because it runs under the cache's mutex.
- PreparedRuns.RunKeepsInv: prepare_stmt.go and stmt_store.go are modelled as a transition system instead of methods, because what matters is how callers interleave.
- PreparedRuns.ReceivesFinished: does not say that the handle is still open: the driver's statement is closed some time after an eviction, also while a caller that received it still uses it.
- PreparedOnce.OnePreparation: is stated for runs in which no entry for the query is taken away, or taken for expired, while it is being prepared; `TakenAwayLetsTwoPrepare` is the other side.
- Where.WhereParses: raw text with AND or OR inside is printed with the source's heuristics but kept out of the meaning, which is stated for structured leaves and groups that are not empty.
- Conditions.NegationIsExact: `Neq` with an empty slice prints NOT IN (), which is no SQL predicate; the model reads it as one that holds of every row (`clause/expression.go:271-281`). `Where.WhereParses` and what follows from it hold of the text as SQL only without it.
- ConditionLaws.NotMeans: without a self-negating element, lists with Or groups are left to `NotOfRuns`, which says which rows are rejected.
- ConditionLaws.NotOfAnd: a list with a single Or in it is no conjunction; its runs are left to `ListAccepts`.
- SoftDelete.Statement.ModifyStatement: the marker that the rewrite was done is a field instead of an entry in the clause map.
- BindVars.VarFills: named expressions, Valuer types and dialects whose placeholders are not numbered by position are not modelled.
- Splice.ExplainSQL: the branch for numeric placeholders and the printing of values other than strings are not modelled.
- Splice.SpliceIsInline: for subqueries without leftover arguments and without "@", which sends the text to named expressions.
- ReorderModels.ReorderSorts: models have distinct tables and can all be parsed; parsing is a given graph.
- SortCallbacks.Sorter.SortCallback: recursion is bounded by a depth, because it does not end for some constraints. Names are numbers; none is empty or "*".
- SortAfters.ForgetsAfter: lists in which befores and afters that look ahead are mixed have no exact condition; what is lost is stated for the constraint that is overwritten.
- The stable sort that moves `*` callbacks is left out: its comparator is no order when both directions apply (`callbacks.go:266-274`). So are removed callbacks and the look-up of handlers (`callbacks.go:348-353`).
- Transactions.Handle.Transaction: savepoint names are distinct from those of enclosing blocks (the source draws them at random); going back to a savepoint succeeds; one connection, no manual savepoints; a commit that reports an error has no effect and ends the transaction.
- Blocks.HonouredExactly: like `TransactionHonoured`, for callbacks that do not panic of themselves.
- Transactions.TransactionHonoured: is exact for callbacks that do not panic of themselves; with panics `HeededTransaction` gives one direction, because a panic that is not reached, and another that is then met behind it, can come to the same by chance.
- Transactions.Handle.Statement: one error is not told from another.
- Batches.FindInBatches: the filter is a conjunction (`EitherBatches` has the other case), the table does not change, keys are unique, queries do not fail, and the batch size is positive.
- EitherBatches.FindEither: the loop is followed for a given number of rounds, because it need not end; callbacks do not fail, there is no user offset, no key is zero, and the parts joined by OR are told apart only as the last one and the others.
- Preloads.GetIdentityFieldValuesMap: elements are told apart by identity for records and by value for join rows, where only the keys are used; the branch for a map as destination is left out.
- Preloads.Preload: nested preloads, embedded structs, polymorphic values and the writing of the IN condition (`schema/utils.go:197-225`) are left out.
- Backfill.SetReversed: the branches for maps are left out.
- Reflection, schema and tag parsing, field access, drivers, dialects, contexts, and the running of SQL: tables are sequences, fields are functions, answers of the database are parameters.
- Migrator DDL, associations, generics, chainable setters, clauses with straight-line Build methods, log formatting: they would only add easy members.
