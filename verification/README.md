# Daft OLAP connector: a verified model

The connector turns a Daft scan of a ClickHouse or Apache Doris table into SQL tasks and streams
their rows back. This project models the parts whose correctness is not visible from one function
and proves what they promise:

* **Scan planning.** A Daft filter is compiled all or nothing, a limit is pushed only when safe, and
  the table is split into partition or tablet groups with one task per group. Whatever rows the
  database picks under a limit, Daft's final answer is the one an unsplit, unoptimised scan would give
  (`FilterCompiler`, `PredicateIr`, `ScanSemantics`, `ScanPlanner`). Every planned task gets a
  statement the builders accept (`TaskStatements`), and a server that reads the emitted SQL text gives
  Daft the right answer (`TaskAnswers`).
* **SQL rendering and binding.** Rendered predicates and whole statements can be read back, the fragment
  scanners equal tokenise-then-substitute, the two Doris styles send the same statement, and ClickHouse parameters
  land in their own placeholders (`Identifiers`, `PredicateText`, `SqlText`, `PredicatePieces`,
  `SelectText`, `FragmentTokens`, `DorisFragment`, `DorisSql`, `ClickHouseFragment`, `NamedBinding`,
  `ClickHouseSql`, `ClickHouseBinding`, `FragmentMarkers`, `StatementReader`, `DorisReader`,
  `ClickHouseReader`).
* **ClickHouse types.** The argument splitter inverts joining, and the rewriting to transport types
  is total on valid types, closed, idempotent and lossless (`TypeArguments`, `TransportTypes`,
  `TransportMeaning`).
* **Grouping, slicing and graph walks.** The 4/3 - 1/(3k) bound for the greedy balancer, chunking of
  tablets, minimal batch slicing, and both walks over object graphs (`WeightedGroups`,
  `AdjacentGroups`, `BatchSlices`, `ObjectGraphs`).
* **Reader lifecycle.** The MySQL reader as a transition system with cancellation and failing driver
  calls, its adaptive fetch loop, and the cursor that must not be drained (`ReaderProtocol`,
  `MySqlStream`, `CursorLifecycle`).

`dafny verify dfyconfig.toml` checks everything. `Wrappers`, `Sequences` and `Characters` hold shared
helpers.

## How the parts are modelled

* A table is a sequence of rows, each with its partition or tablet id. A database `LIMIT n` returns any
  `min(n, count)` qualifying rows. Comparison of two non-null values, evaluation of expressions that are
  never pushed down and the trusted SQL fragment are parameters; AND, OR, NOT, BETWEEN, IN and IS NULL
  follow sections 8.12, 8.3, 8.4 and 8.6 of SQL-92 (ISO/IEC 9075:1992).
* What discovery returns is a parameter. Its soundness is an assumption: listed ids are distinct, and
  every row (ClickHouse) or every row the planning query matches (Doris) lies in a listed id.
* A statement is also described as a list of pieces: fixed text, quoted names, cast types, single
  characters of the trusted fragment, and slots for values. Filling the slots with driver markers must
  give the text the builders return; filling them with value texts is what the server should receive.
  The drivers' `%` formatting is a one-pass function over the text.
* The source protects `%` only in the trusted fragment. A database, table, column, count-output or cast
  text that contains `%` therefore breaks a statement that binds a value. `DorisSql.StyleAgreement` and
  `ClickHouseBinding.BindingExact` state the exact condition under which binding is right, and
  `DorisSql.PercentNameDisagrees` and `ClickHouseBinding.PercentNameBreaks` give a request that the
  builders accept and that fails.
* The readers of statements have their own literals and are given only the rendered trusted fragment,
  which no parser can delimit (`DorisReader.FragmentMayCloseItself`).
* Reader runs are arbitrary sequences of enabled actions: pulls, cancellations (also repeated ones while
  the close is awaited), early generator close, further closes, event-loop deliveries and single driver
  calls of the worker, each of which may fail.
* A cursor close is modelled for any driver, also one whose cursor refers to another result at close than
  the one validated. `SSCursorLifecycle.Close` states exactly when that drains rows, and
  `CursorLifecycle.SwappedResultIsDrained` is such a driver.

## Model

| member | source | states |
|---|---|---|
| `ScanPlanner.ClickHouseAnswerCorrect` | src/daft_olap/clickhouse/datasource.py:144-228 | For every table, filter, trusted fragment, limit, split option and sound partition list, and for whatever rows the database picks under a limit, reapplying the Daft filter to the concatenated task results and taking the limit gives a correct answer: exactly the qualifying multiset, or min(limit, count) of it |
| `ScanPlanner.DorisAnswerCorrect` | src/daft_olap/doris/datasource.py:166-275 | The same for Doris tablets, where the list only has to cover the rows the planning query matches, including the empty pruning result that becomes one LIMIT 0 task |
| `TaskAnswers.ClickHouseStatementsAnswer` | src/daft_olap/clickhouse/datasource.py:184-228 | End to end from SQL text: a server that reads the emitted statements with their dictionaries and delivers any rows their limits allow leaves Daft with a correct answer, for every table, filter, trusted fragment, limit and sound partition list |
| `TaskAnswers.DorisStatementsAnswer` | src/daft_olap/doris/datasource.py:222-275 | The same for the emitted MySQL statements and their positional values, for every sound tablet list |
| `TaskAnswers.ClickHouseStatementIsTask` | src/daft_olap/clickhouse/datasource.py:213-227 | The text and dictionary of task i read back as the source's table, the task's columns with their casts, predicate, partition ids and limit, behind the source's trusted fragment; every caller parameter keeps its value |
| `TaskAnswers.DorisStatementIsTask` | src/daft_olap/doris/datasource.py:259-275 | The text and values of a MySQL task read back as the source's table, the task's columns, tablets, predicate and limit, behind the source's trusted fragment, whose values come first |
| `TaskAnswers.ClickHouseCanDeliver` | src/daft_olap/clickhouse/datasource.py:213-227 | A server can read every emitted statement and has something to deliver for it |
| `TaskAnswers.DorisCanDeliver` | src/daft_olap/doris/datasource.py:259-275 | The same for every emitted MySQL statement |
| `TaskAnswers.DorisFlightFrame` | src/daft_olap/doris/datasource.py:259-275 | A Flight statement binds nothing and frames the source's fragment and the scan's predicate, both with literals, with the same table, columns, tablets and limit |
| `TaskAnswers.ClickHouseStatementRows` | src/daft_olap/clickhouse/datasource.py:213-222 | The rows a server selects for the statement it has read are the rows of the task |
| `TaskAnswers.DorisStatementRows` | src/daft_olap/doris/datasource.py:259-269 | The rows a server selects for the statement it has read are the rows of the task |
| `TaskAnswers.ClickHouseCountReads` | src/daft_olap/clickhouse/datasource.py:184-205 | The count statement reads back as a count over the source's table behind its trusted fragment, without predicate, partitions or limit |
| `TaskAnswers.DorisCountReads` | src/daft_olap/doris/datasource.py:222-245 | The same for the Doris count statement |
| `ScanPlanner.ClickHouseGetTasks` | src/daft_olap/clickhouse/datasource.py:207-228 | The scan part: the emitted tasks are the planned ones, and errors of column selection, compilation and discovery are passed on |
| `ScanPlanner.DorisGetTasks` | src/daft_olap/doris/datasource.py:247-275 | The same for Doris, with the limit replaced by zero when pruning left no tablet |
| `ScanPlanner.EmitTasks` | src/daft_olap/doris/datasource.py:250-275 | One task per planned group, in order, all with the same columns, condition and limit |
| `ScanPlanner.PartitionSplitIff` | src/daft_olap/clickhouse/datasource.py:144-182 | A scan is split exactly when splitting is on, rows are wanted, no physical column is called `_partition_id` and a supported, non-empty partition list is known; then every partition is in one group. Planning fails exactly when discovery was needed, failed and must not |
| `ScanPlanner.TabletSplitIff` | src/daft_olap/doris/datasource.py:166-220 | The same for tablets; a plan is marked empty exactly when pruning left no tablet |
| `ScanPlanner.EmptyPruningAsksForNothing` | src/daft_olap/doris/datasource.py:258-259 | An empty pruning result becomes one task with LIMIT 0; otherwise every task carries the scan's limit |
| `TaskStatements.ClickHouseGetStatements` | src/daft_olap/clickhouse/datasource.py:184-228 | The whole of `get_tasks` down to SQL and dictionary of every task: it succeeds exactly on a valid count without a limit or a plannable scan, given acceptable fragment and parameters, and yields the specified statement per task or the one count statement |
| `TaskStatements.DorisGetStatements` | src/daft_olap/doris/datasource.py:166-275 | The same for Doris in either style, including the planning statement that is built before discovery and may be refused |
| `TaskStatements.ClickHouseTaskAccepted` | src/daft_olap/clickhouse/datasource.py:213-222 | The builder refuses a planned task only for the caller's fragment and parameters, and all tasks of a source or none: selected columns, emitted casts, compiled condition, partition groups and limit always pass its checks |
| `TaskStatements.DorisTaskAccepted` | src/daft_olap/doris/datasource.py:259-269 | The builder refuses a planned task exactly when the source's fragment and parameters do not fit together or Flight cannot write a literal, so all tasks of a scan or none |
| `TaskStatements.ProjectionAccepted` | src/daft_olap/clickhouse/schema.py:102-108 | The casts a scan emits are transport types that pass the validation `build_select` repeats on them |
| `TaskStatements.ColumnsDelivered` | src/daft_olap/clickhouse/schema.py:81-108 | Every scanned column is delivered, by its cast or without one, in a type that needs no further rewriting and from which the declared values can be read |
| `TaskStatements.ClickHouseGroupsUsable` | src/daft_olap/clickhouse/datasource.py:144-182 | A plan has at least one group, and no partition group is empty |
| `TaskStatements.DorisGroupsUsable` | src/daft_olap/doris/datasource.py:166-220 | A plan has at least one group, and every tablet group is a non-empty list of positive ids |
| `TaskStatements.CountIsAnswerSize` | src/daft_olap/_compat.py:190-210 | A pushed count is the size of every correct answer to the same request without aggregation |
| `TaskStatements.CountPushedIff` | src/daft_olap/_compat.py:190-210 | A count is pushed exactly for an unfiltered global count with at most one column and an output name; any other aggregation is refused |
| `TaskStatements.ScanFitsBuilders` | src/daft_olap/_compat.py:213-220 | The scanned columns are non-empty, distinct and valid, and a compiled condition is well formed and free of NULL comparisons |
| `ScanSemantics.PartsAnswer` | src/daft_olap/_compat.py:223-230 | If the parts of a table are delivered under a limit that `safe_database_limit` allows, Daft's answer from them is correct |
| `FilterCompiler.CompiledIffSupported` | src/daft_olap/_compat.py:52-167 | For valid column names compilation never raises, and yields a predicate if and only if every subtree lies in the supported grammar |
| `FilterCompiler.CompiledMeaning` | src/daft_olap/_compat.py:80-154 | The compiled tree has the three-valued value of the expression on every row |
| `FilterCompiler.CompiledShape` | src/daft_olap/_compat.py:52-154 | The compiled tree references exactly the columns of the expression, is well formed and contains no NULL comparison |
| `FilterCompiler.VisitedColumnsValid` | src/daft_olap/_compat.py:53-57 | A visit that succeeds has validated every column name in the expression |
| `FilterCompiler.PushedFilterMeaning` | src/daft_olap/_compat.py:157-167 | A filter that `compile_filter` pushed means the same in the database and in Daft, without any assumption on names |
| `FilterCompiler.EvalInTruth` | src/daft_olap/_compat.py:132-139 | IN as a disjunction of equalities has the value section 8.4 of SQL-92 prescribes, also with NULLs |
| `FilterCompiler.EvalExprProjected` | src/daft_olap/_compat.py:213-220 | A filter keeps its value on rows projected to any superset of its columns |
| `FilterCompiler.RequiredScanColumns` | src/daft_olap/_compat.py:213-220 | Exactly the projected columns, or all of them, plus those the residual filter reads; refused exactly when one is unknown |
| `FilterCompiler.SelectedInOrder` | src/daft_olap/_compat.py:220-220 | The selected columns keep the order of the schema |
| `FilterCompiler.LimitPushedIff` | src/daft_olap/_compat.py:223-230 | The limit is pushed exactly when it is zero, there is no filter, or the filter lies in the supported grammar |
| `PredicateIr.EvalProjected` | src/daft_olap/_common/predicate_ir.py:127-137 | A predicate reads only its referenced columns |
| `PredicateIr.RefusedLiterals` | src/daft_olap/_common/predicate_ir.py:41-68 | Exactly non-finite numbers, temporals with a zone and values of other types are refused as literals |
| `WeightedGroups.BalanceBound` | src/daft_olap/_common/contracts.py:317-330 | With k the least of items, target and max: for every other assignment of the items to k buckets, 3k times the weight of each of our groups is at most (4k - 1) times the rival's heaviest bucket; negative weights count as zero |
| `WeightedGroups.BucketCount` | src/daft_olap/_common/contracts.py:323-323 | There are exactly as many buckets as the least of items, target and max |
| `WeightedGroups.HandlingOrder` | src/daft_olap/_common/contracts.py:326-326 | Items are handled by falling weight, equal weights by name |
| `Sequences.TextLeqMeaning` | src/daft_olap/_common/contracts.py:330-330 | Names are ordered by their first differing character, a prefix first |
| `WeightedGroups.GroupsPartition` | src/daft_olap/_common/contracts.py:317-330 | No name is lost, invented or repeated; at most as many groups as items, target and max, all non-empty and sorted |
| `WeightedGroups.GroupsOrderIndependent` | src/daft_olap/_common/contracts.py:317-330 | The groups depend only on the multiset of items |
| `WeightedGroups.GroupWeightedItems` | src/daft_olap/_common/contracts.py:317-330 | The loop with its bucket and weight lists computes the groups of the specification |
| `WeightedGroups.FillBuckets` | src/daft_olap/_common/contracts.py:324-329 | The loop over mutable buckets and weights equals placing the items one after another on the first lightest bucket |
| `WeightedGroups.LightestBucket` | src/daft_olap/_common/contracts.py:327-327 | The minimum search finds the first bucket of least load |
| `AdjacentGroups.GroupsChunkSorted` | src/daft_olap/_common/contracts.py:333-344 | The groups hold exactly the ids, ascending from group to group; they are non-empty, of equal size except a last one that is no larger, and at most as many as ids, target and max |
| `AdjacentGroups.GroupSizeIsLeast` | src/daft_olap/_common/contracts.py:339-344 | With k the least of ids, target and max there are at most k groups, and no smaller group size would let k groups hold all ids |
| `AdjacentGroups.GroupsOrderIndependent` | src/daft_olap/_common/contracts.py:333-344 | The groups depend only on the multiset of ids |
| `AdjacentGroups.ChunkCount` | src/daft_olap/_common/contracts.py:340-344 | Rounding the group size up never yields more groups than wanted |
| `BatchSlices.IterBatchSlices` | src/daft_olap/_common/contracts.py:246-268 | The slices tile the batch, each has 1..batch_rows rows and is within batch_bytes or a single row, for any byte function; if bytes are monotone among the slices of this batch no other such slicing is shorter |
| `BatchSlices.NextSize` | src/daft_olap/_common/contracts.py:253-266 | The next slice is admissible and, for bytes monotone within the batch, the longest one at its offset |
| `BatchSlices.SearchSize` | src/daft_olap/_common/contracts.py:257-266 | The binary search returns a size within the byte target or one row, and for bytes monotone within the searched rows no larger size fits |
| `BatchSlices.TilesConcatenate` | src/daft_olap/_common/contracts.py:246-268 | Slices that tile a batch concatenate to it |
| `BatchSlices.FewestFrom` | src/daft_olap/_common/contracts.py:246-268 | For bytes monotone within the batch, a greedy slicing that starts no earlier than a rival needs no more slices |
| `ObjectGraphs.SnapshotAcceptance` | src/daft_olap/_common/contracts.py:52-88 | The validator accepts exactly the values from which no walk reaches a callable or comes back to an object on it; shared acyclic containers are accepted |
| `ObjectGraphs.ContainedObjects` | src/daft_olap/_common/contracts.py:68-86 | The snapshot walk enters keys and values of mappings and members of collections, the parameter walk values and members, and neither anything else |
| `ObjectGraphs.SnapshotValidator.Check` | src/daft_olap/_common/contracts.py:52-88 | The recursion with its mutable active set terminates, decides as the specification does, and restores the set on every exit |
| `ObjectGraphs.SnapshotValidator.CheckAll` | src/daft_olap/_common/contracts.py:67-88 | Members are checked in order up to the first failure, and the active set is restored |
| `ObjectGraphs.ParameterRejection` | src/daft_olap/_common/contracts.py:172-198 | The walk rejects if and only if a timezone-aware temporal is reachable through mapping values or collection members, on cyclic graphs too |
| `ObjectGraphs.ParameterValidator.Check` | src/daft_olap/_common/contracts.py:176-195 | The walk with its mutable visited set terminates and computes the specification's verdict and set |
| `ObjectGraphs.ParameterValidator.CheckAll` | src/daft_olap/_common/contracts.py:185-198 | The same over a list of values |
| `ReaderProtocol.ConnectionsClosedOnce` | src/daft_olap/doris/transports/mysql.py:104-190 | In every run no connection is closed twice, and once the stream has ended and the worker is idle with an empty queue, closing each connection ever created was attempted exactly once and none is held |
| `ReaderProtocol.CloseComesLast` | src/daft_olap/doris/transports/_thread.py:34-45 | Closing is attempted only by the worker, for a connection it took out of the reader, when no open or fetch is running or pending, and none starts later |
| `ReaderProtocol.EndedStreamLeavesNothingOpen` | src/daft_olap/doris/transports/_thread.py:38-55 | After the stream has ended, even by repeated cancellation during close, the worker takes at most nine more steps, and when it can take none every connection was closed exactly once |
| `ReaderProtocol.EveryBatchIsYielded` | src/daft_olap/doris/transports/mysql.py:164-172 | In every run the number of batches yielded equals the number of fetches that came back with rows, whenever no reply is under way and nothing was cancelled; a cancellation loses at most one batch |
| `ReaderProtocol.EndOfStreamCloses` | src/daft_olap/doris/transports/mysql.py:164-190 | After a failed open, a failed fetch or the end of the rows nothing is ever yielded again, and the delivery of that reply makes the stream close |
| `ReaderProtocol.ClosesForAReason` | src/daft_olap/doris/transports/mysql.py:164-190 | A stream that closes was cancelled, closed early, could not open or fetch, or ran out of rows |
| `ReaderProtocol.OpenMakesAllCalls` | src/daft_olap/doris/transports/mysql.py:104-118 | In every run `_open` connects, makes the cursor, validates it, executes, validates the result and reads the description in this order, each at most once, and no batch is fetched or yielded before all of them succeeded |
| `ReaderProtocol.WaitingProgresses` | src/daft_olap/doris/transports/_thread.py:34-45 | Whoever awaits a call is never stuck: the worker can go on or a reply is there |
| `ReaderProtocol.RunKeepsInvariant` | src/daft_olap/doris/transports/_thread.py:27-55 | Protocol and ownership invariants hold in every state of every run: the phase fits the queue, the worker and the kind of reply, and an open connection is always held by the reader or by the closing worker |
| `ReaderProtocol.OnlyClosingForever` | src/daft_olap/doris/transports/_thread.py:38-45 | Once the close operation is reached, nothing but closing is ever left for the worker |
| `ReaderProtocol.NothingSubmittedAfterClose` | src/daft_olap/doris/transports/_thread.py:38-55 | After a close was submitted no job is submitted any more: no second close however often the reader is closed, and none to an executor that was shut down |
| `MySqlStream.StreamQuery` | src/daft_olap/doris/transports/mysql.py:157-190 | Without a failing open, fetch or close the stream succeeds with exactly the cursor's rows in order, with one it yields a prefix and fails; all slices are bounded, every fetched batch is cut into the fewest slices when bytes grow with the rows, and at most batch_rows - 1 multi-row batches were oversized |
| `MySqlStream.MySqlBatchReader.Fetch` | src/daft_olap/doris/transports/mysql.py:120-131 | A batch is the next rows of the cursor, as many as asked for unless it ends; the fetch size is adapted to the batch, stays in 1..batch_rows and never grows |
| `MySqlStream.OversizedLowers` | src/daft_olap/doris/transports/mysql.py:125-130 | Every oversized batch of several rows strictly lowers the fetch size |
| `MySqlStream.AdaptedIsLargest` | src/daft_olap/doris/transports/mysql.py:125-130 | After an oversized batch the fetch size is the largest one up to the old for which rows of the same average size fit the byte target, and at least one |
| `MySqlStream.AdaptedKeeps` | src/daft_olap/doris/transports/mysql.py:125-130 | A batch within the byte target leaves the fetch size alone |
| `MySqlStream.SliceBatch` | src/daft_olap/doris/transports/mysql.py:171-172 | The slices of a batch are bounded and concatenate to it; if bytes grow with the rows of the batch, no other bounded cutting has fewer parts |
| `CursorLifecycle.SSCursorLifecycle.Close` | src/daft_olap/doris/transports/_pymysql.py:137-172 | Whatever call fails: the connection is closed exactly once and the cursor at most once, the first recorded failure is raised, and a second close changes nothing; unread rows are drained if and only if the captured result is finished while the cursor is attached to another, unfinished one; after an abort the captured result is finished and ownerless unless setting that failed; an unreadable flag, and nothing else, is reported as incompatible |
| `CursorLifecycle.SSCursorLifecycle.ValidateCursor` | src/daft_olap/doris/transports/_pymysql.py:69-80 | Succeeds exactly when the cursor refers to our connection and both result references can be read |
| `CursorLifecycle.SSCursorLifecycle.ValidateResult` | src/daft_olap/doris/transports/_pymysql.py:82-109 | Succeeds exactly on a shared result with a boolean flag, owned by the connection unless finished; a failure captures nothing |
| `CursorLifecycle.SSCursorLifecycle.CloseInactive` | src/daft_olap/doris/transports/_pymysql.py:111-113 | Cursor before connection; it drains exactly when the cursor is attached to an unfinished result |
| `CursorLifecycle.SSCursorLifecycle.AbortActiveOrUnvalidated` | src/daft_olap/doris/transports/_pymysql.py:115-135 | Connection first; the result is released, and the cursor is closed only after it was detached |
| `CursorLifecycle.SwappedResultIsDrained` | src/daft_olap/doris/transports/_pymysql.py:137-172 | A driver that replaces a finished, validated result by an active one: closing drains the new one |
| `CursorLifecycle.Driver.CloseCursor` | tests/unit/test_pymysql_lifecycle.py:70-77 | Closing a cursor attached to an active result drains it |
| `TypeArguments.SplitTypeArguments` | src/daft_olap/clickhouse/schema.py:111-147 | The index loop over depth, quote and escape state computes the specified split |
| `TypeArguments.SplitJoin` | src/daft_olap/clickhouse/schema.py:111-147 | Splitting undoes joining with ", " on every non-empty list of trimmed balanced arguments |
| `TypeArguments.SplitSound` | src/daft_olap/clickhouse/schema.py:111-147 | Every successful split yields trimmed, balanced parts without a top-level comma, none longer than the text |
| `TransportTypes.ParseSound` | src/daft_olap/clickhouse/schema.py:150-165 | Parsed arguments are complete and strictly shorter than the type, so the recursive validator terminates |
| `TransportTypes.BuildParses` | src/daft_olap/clickhouse/schema.py:150-165 | A printed constructor parses back to its name and arguments |
| `TransportTypes.TransportIffValid` | src/daft_olap/clickhouse/schema.py:187-297 | Rewriting succeeds on exactly the strings the validator accepts |
| `TransportTypes.TransportFixedPoint` | src/daft_olap/clickhouse/schema.py:261-297 | The rewritten type is accepted again, rewriting it returns it unchanged, and it is one complete argument |
| `TransportMeaning.TransportLossless` | src/daft_olap/clickhouse/schema.py:261-297 | Every accepted type and its rewriting are related through all nesting: Date becomes Date32, addresses, UUIDs and enums become String, DateTime becomes DateTime64(0) with the same zone, named members keep their names, and everything else is unchanged |
| `TransportMeaning.AcceptedLeaves` | src/daft_olap/clickhouse/schema.py:187-253 | Which leaf types are accepted, with the bounds of their arguments |
| `TransportMeaning.AcceptedConstructors` | src/daft_olap/clickhouse/schema.py:193-215 | Wrappers, maps and tuples are accepted exactly with the right number of accepted arguments |
| `TransportMeaning.NumberOfDigits` | src/daft_olap/clickhouse/schema.py:168-177 | Sizes and scales are read in base ten |
| `TransportTypes.FieldIsNoType` | src/daft_olap/clickhouse/schema.py:180-184 | A named field with a parsable type is never itself a type, so trying the plain reading first hides no field |
| `TransportTypes.FieldRecognised` | src/daft_olap/clickhouse/schema.py:180-184 | A rewritten named or quoted field is recognised as the same field |
| `Identifiers.QuoteInverts` | src/daft_olap/_common/identifiers.py:32-35 | A quoted identifier of any content can be read back whatever follows it |
| `Identifiers.IdentifierRules` | src/daft_olap/_common/identifiers.py:23-29 | Every text but the empty one and one with a NUL character is an identifier |
| `PredicateText.Renderer.RenderOperand` | src/daft_olap/clickhouse/sql.py:52-59 | A literal appends one parameter and gives its marker; NULL is refused |
| `PredicateText.Renderer.RenderPredicate` | src/daft_olap/clickhouse/sql.py:61-78 | Succeeds exactly on trees without NULL literals and appends their literals in text order |
| `PredicateText.ReadPredicateInverts` | src/daft_olap/clickhouse/sql.py:52-86 | The parser reads a rendered tree back exactly, whatever precedes it in the parameter numbering and follows it in the text |
| `PredicateText.NamedRoundTrip` | src/daft_olap/clickhouse/sql.py:84-86 | ClickHouse text plus named parameters determine the tree |
| `PredicateText.PositionalRoundTrip` | src/daft_olap/doris/sql.py:102-137 | Doris text plus positional parameters determine the tree and use up all parameters |
| `PredicateText.ParameterNamesDistinct` | src/daft_olap/clickhouse/sql.py:57-57 | Generated names are equal only for equal numbers |
| `PredicatePieces.RenderIsFilled` | src/daft_olap/doris/sql.py:102-137 | Rendering with markers fills the common layout of a predicate with them |
| `PredicatePieces.FlightIsFilled` | src/daft_olap/doris/sql.py:102-137 | Flight rendering succeeds exactly when there is no NULL and every literal can be written, and fills the same layout with the literals |
| `SqlText.PositionalBindingExact` | src/daft_olap/doris/sql.py:164-273 | One-pass positional formatting puts each value in its slot and changes nothing else if and only if no quoted name and no cast type contains a percent sign |
| `DorisFragment.RenderUnsafeFragment` | src/daft_olap/doris/sql.py:164-219 | Succeeds exactly when names are distinct, quotes close, marker and parameter names agree and values are renderable; the text is the substituted tokens and the values are in marker order |
| `DorisFragment.ScanQuoted` | src/daft_olap/doris/sql.py:188-200 | Inside a quoted value every character is copied, and the quote closes where the tokeniser says |
| `DorisFragment.ScanPlain` | src/daft_olap/doris/sql.py:201-213 | Outside quotes a marker is substituted, a quote opens or a character is copied, as the tokeniser says; a marker that cannot be rendered fails the fragment |
| `DorisFragment.TokensLossless` | src/daft_olap/doris/sql.py:164-219 | The tokens spell the fragment |
| `DorisFragment.TokensIffQuotesClose` | src/daft_olap/doris/sql.py:164-219 | Tokenising succeeds exactly when every quoted value is closed |
| `DorisFragment.MarkersFound` | src/daft_olap/doris/sql.py:140-161 | A marker token with a given name stands exactly where the scanner's own conditions say |
| `FragmentMarkers.DorisMarkersFound` | src/daft_olap/doris/sql.py:140-161 | The markers of a fragment are exactly the `:name` of its text that stand outside quotes and not after a colon, each with its whole name, where quotes are followed one character at a time |
| `FragmentMarkers.DorisQuotesClose` | src/daft_olap/doris/sql.py:187-216 | A fragment is accepted by the scanner exactly when its text ends outside quotes |
| `DorisSql.BuildSelect` | src/daft_olap/doris/sql.py:222-273 | Accepts exactly the described requests; returns the statement that reads back as the request and, in the MySQL style only, the values in slot order |
| `DorisSql.FillSelect` | src/daft_olap/doris/sql.py:222-273 | In both styles the statement is one and the same list of pieces with its slots filled in that style |
| `DorisReader.MysqlReadBack` | src/daft_olap/doris/sql.py:222-273 | A parser for whole statements reads the text and values of every accepted request back as its table, projection, tablets, predicate and limit, given the rendered fragment |
| `DorisReader.FrameReadBack` | src/daft_olap/doris/sql.py:222-273 | In either style the text frames its WHERE clause with the requested table, projection, tablets and limit |
| `DorisReader.FragmentMayCloseItself` | src/daft_olap/doris/sql.py:246-264 | Why the fragment must be given: one that closes its own parenthesis reads like a shorter fragment and a further clause |
| `DorisSql.RenderCondition` | src/daft_olap/doris/sql.py:135-137 | The predicate in either style, with its parameters |
| `DorisSql.FlightOkIsMysqlOk` | src/daft_olap/doris/sql.py:222-273 | Whatever the Flight style accepts the MySQL style accepts |
| `DorisSql.StyleAgreement` | src/daft_olap/doris/datasource.py:175-184 | Formatting the MySQL-style statement with the Flight literals of its parameters gives the Flight-style statement character for character, if and only if nothing is bound or no identifier contains a percent sign |
| `DorisSql.PlanningIsAccepted` | src/daft_olap/doris/datasource.py:175-184 | For any tablets and limit of a task, the planning request is accepted and has the task's WHERE clause and values in the same style |
| `DorisSql.PlanningCarriesFilter` | src/daft_olap/doris/datasource.py:175-184 | For any tablets and limit, what PyMySQL sends for the planning statement ends in the WHERE clause of the Flight task, character for character, if and only if nothing is bound or no identifier contains a percent sign |
| `DorisSql.PercentNameDisagrees` | src/daft_olap/doris/sql.py:222-273 | A column named `a%b` next to a bound value: both styles accept the request, but PyMySQL cannot format its statement and sends nothing |
| `ClickHouseFragment.RenderUnsafeFragment` | src/daft_olap/clickhouse/sql.py:111-143 | Succeeds exactly when names are distinct and placeholders and parameters name the same set; placeholders are kept and every other percent sign is doubled when something is bound |
| `ClickHouseFragment.TokensLossless` | src/daft_olap/clickhouse/sql.py:111-143 | The tokens of a fragment spell it |
| `FragmentMarkers.ClickHouseHolesFound` | src/daft_olap/clickhouse/sql.py:37-37 | The placeholders of a fragment are exactly the occurrences of `%(name)s` in its text |
| `ClickHouseSql.RenderProjection` | src/daft_olap/clickhouse/sql.py:89-108 | Succeeds exactly on a valid count name, a valid column list, or a projection over the selected columns with valid identifiers and cast types |
| `ClickHouseSql.RenderColumns` | src/daft_olap/clickhouse/sql.py:100-108 | One expression per projected column, refusing invalid names and cast types |
| `ClickHouseSql.RenderPartitionClause` | src/daft_olap/clickhouse/sql.py:146-159 | One generated parameter per partition id added to the dictionary, its placeholders in order; an empty list is refused |
| `ClickHouseSql.RenderCondition` | src/daft_olap/clickhouse/sql.py:84-86 | The predicate text with its numbered dictionary |
| `ClickHouseSql.RenderClauses` | src/daft_olap/clickhouse/sql.py:182-200 | Exactly when fragment, predicate and partitions are acceptable: the present clauses in order and the whole dictionary |
| `ClickHouseSql.BuildSelect` | src/daft_olap/clickhouse/sql.py:162-208 | Accepts exactly the described requests; the statement is the list of pieces in which every slot holds the placeholder of its key |
| `ClickHouseReader.ReadBack` | src/daft_olap/clickhouse/sql.py:162-208 | A parser for whole statements reads the text and dictionary of every accepted request back as its table, projection with casts, predicate, partition ids and limit, given the rendered fragment |
| `ClickHouseSql.ParametersNeverCollide` | src/daft_olap/clickhouse/sql.py:175-187 | User, predicate and partition names never collide: the dictionary has one entry per parameter, and each keeps its own value |
| `ClickHouseBinding.SlotsHoldTheirValues` | src/daft_olap/clickhouse/sql.py:162-208 | The key in each slot is bound to what the slot stands for: the caller's value, the predicate's literal or the partition id |
| `ClickHouseBinding.SlotsAreTheParameters` | src/daft_olap/clickhouse/sql.py:162-208 | The placeholders of the statement are exactly the returned keys |
| `ClickHouseBinding.BindingExact` | src/daft_olap/clickhouse/sql.py:111-208 | Binding replaces each placeholder by its own value and keeps every other character if and only if nothing is bound or no table, column or cast text contains a percent sign: for each way of writing the values without percent signs, and for all ways of writing them together |
| `ClickHouseBinding.PercentNameBreaks` | src/daft_olap/clickhouse/sql.py:162-208 | A column named `a%b` next to a bound value: the request is accepted, and whatever the driver writes for the value formatting fails and nothing is sent |
| `NamedBinding.NamedFill` | src/daft_olap/clickhouse/sql.py:111-208 | Without percent signs in names, one-pass named formatting puts each value in its slots and changes nothing else |
| `NamedBinding.NamedBindingExact` | src/daft_olap/clickhouse/sql.py:111-208 | For value texts without percent signs, formatting is exact if and only if no quoted name and no cast type contains one |

## Left out

- Real drivers, sockets, HTTP and TLS: only the driver behaviour the connector relies on is modelled, such as when closing a cursor drains it.
- `src/daft_olap/doris/transports/flight.py` and `src/daft_olap/clickhouse/transport.py`: the same orchestration as the MySQL reader, around Arrow casts.
- Discovery queries and the validation of their responses: their results are parameters with stated soundness.
- `src/daft_olap/doris/schema.py` and the lookup of Daft's private count enum: flat case tables; whether an aggregation is the global count is an input.
- The text of literals: `render_flight_literal` and clickhouse-connect's value formatting are arbitrary functions, so Base64, float, decimal and temporal text are not modelled.
- `%` conversions other than `%%`, `%s` and `%(name)s`: the modelled formatters refuse them, while Python gives some of them a meaning.
- Dynamic type checks (a `bool` where an integer is expected, text where a list is expected) and error messages: values are typed, and errors keep their class only.
- Python limits: the recursion limit, the digit limit of `int()` on long numbers and failure to start a thread.
- The order of the returned ClickHouse parameter pairs: they are a map, as the driver uses them.
- Arrow layout, pickling, error translation, secret handling, redacted representations and option freezing.
- MySqlStream.StreamQuery: the loop and its slices on values, without suspension at each yield and without the class of the raised error; suspension, cancellation and closing are in ReaderProtocol.
- ScanPlanner.ClickHouseGetTasks: only the scan part and no SQL text; the count branch, the planning statement and the texts are in TaskStatements.
- ScanPlanner.DorisGetTasks: only the scan part and no SQL text; the count branch, the planning statement and the texts are in TaskStatements.
- TaskStatements.ClickHouseGetStatements: the schema is taken to be a valid column list with accepted types, as schema discovery builds it; which of several errors is raised first is not part of the contract.
- TaskStatements.DorisGetStatements: the schema is taken to be a valid column list, as schema discovery builds it; which of several errors is raised first is not part of the contract.
- TaskAnswers.DorisFlightFrame: literals in Flight statements are arbitrary texts and are not parsed; `DorisSql.StyleAgreement` ties the WHERE clause to the MySQL statement that is read back.
- TaskAnswers.ClickHouseStatementsAnswer: a cast changes the representation of a value only, as `TransportMeaning.TransportLossless` describes; rows are compared by column.
- ClickHouseBinding.BindingExact: for a value whose text contains a percent sign, a name that contains one can make the formatted text come out right by coincidence; the condition is exact for texts without one and for all texts together.
- DorisSql.BuildSelect: which of several errors is raised first is not part of the contract.
- ClickHouseSql.BuildSelect: which of several errors is raised first is not part of the contract.
