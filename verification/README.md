# Endb: a verified model of its core

Endb is a SQL document database in Common Lisp with a Rust parser. These modules model the parts where its
correctness is decided, and prove what those parts are for.

- **Metadata and log.** `Json` is the merge patch and diff that the transaction log stores, `JsonPatches` what
  sequences of patches do. `TxLog` is the disk store: write-ahead logs, archive, snapshots, extracted objects,
  mem-table, snapshot thread, crashes and restarts. `TxLogRuns` and `TxLogObjects` prove what every run keeps,
  `TxLogStaleRead` that the condition under which objects stay readable is exact, `TxLogJobs` what a whole
  snapshot job amounts to, `TxLogRestore` what comes back when the local logs are lost. `DiskStores` is the
  store as an object with mutable fields and a ghost history, whose methods promise these results.
- **Commits and the server.** `Commits` is `commit-write-tx`. `Dbms` is the optimistic protocol of the HTTP
  and WebSocket handlers as a state machine, `DbmsRuns` its history, and `DbmsServer` the object whose
  handlers keep that history and promise each client its outcome.
- **Parsing.** `Peg` gives the grammar language of the `peg!` macro a tree-valued meaning. `PegEngine` is the
  generated code over one shared, truncated and patched event buffer, `PegTrace` what is tried and fails on
  the way. `PegCut`, `PegTermination`, `PegLossless`, `ParseErrors` and `CstReplay` prove what cuts do,
  termination, losslessness, the error report and the rebuilding of the tree. `SqlGrammar` is the whole SQL
  grammar: its parsing terminates, its cuts only reject, and every SQL text gets a tree or a true report.
- **Planning.** `VarGroups`, `Planner`, `PlannerProof` and `PlannerCorrect` are the join planner with hash joins
  and sideways information passing; `PlanShape` is about the choices it makes, `PlanExecutor` the emitted
  program as loops over hash tables. `Conjuncts` is the preparation of WHERE and FROM, `RecursiveCte` the
  recursion loop, `Pruning` and `Bloom` file skipping.
- **Arrays.** `Arrow` and `ArrowPush` are the self-widening arrays, `ArrowKinds` says which types they end up
  with, `RowEncoding` and `BlockEncoding` are the order-preserving row format.

What the model takes as given, and what becomes a parameter: regular expressions, whitespace skipping and the
alphanumeric test are functions with bounds (`Peg.Lexer`); statement execution and constraint checks are
functions that keep unchanged metadata identical and leave the reserved keys alone (`Dbms.Engine`); identity
of metadata (`eq`) is a version number; general predicates are functions of the variables they mention;
hashing agrees on equal values (`Pruning.HashesAgree`). Messages of one connection are handled one at a time.
SQL equality is an equivalence on non-null values. Crashes leave whole log entries; rotation is one step. JSON
text round trips are the identity. Parsing and the recursion loop carry a `fuel` that bounds rule calls,
repetitions and rounds: more fuel never changes an answer (`Peg.MoreFuel`), and `PegTermination` says how much
suffices.

Where the program does not keep what one would expect, the exact condition or a concrete case is proved:

- a diff loses a new NULL and a FALSE at a missing key (`Json.PatchOfDiff`, both directions);
- closes of hidden rules do not pop the error context, so contexts hold stale labels, one per hidden close
  (`ParseErrors.ContextCoversOpenRules`, `ParseErrors.ContextIsOpenRules`);
- a parse is lossless exactly when no pattern matches the empty string past the current whitespace
  (`PegLossless.LosslessIff`); the one unanchored alternative of the SQL grammar, in interval_literal, matches
  no empty text, but its leaf may begin with text that the pattern passed over (`PegLossless.UnanchoredLeaf`);
- objects stay readable through every continuation of a run exactly when no commit writes other bytes to a
  path than its log already has (`TxLogStaleRead.ReadableIff`); a crash that tears off a transaction after its
  objects, followed by reuse of its id, makes such a commit (`TxLogStaleRead.ReuseIsUnclean`);
- a store that is restored without its local logs from a snapshot beyond the first transaction appends to a
  file that the next start skips, or overwrites with the archived one, so commits made before the next
  rotation are lost again (`TxLogRestore.RestoredCommitsLost`; `TxLogRestore.AppendedSince` has the other cases);
- statistics know nothing of absent columns: a matching row is in a file that pruning skips exactly when the
  clause is IS NULL, the row lacks the column and the file's filter for the column does not know NULL
  (`Pruning.RulesOutAMatchIff`);
- UNION recursion does not leave out rows seen before, so it stops exactly when the paths of rows from the
  initial ones are bounded, and no reachable cycle ever does (`RecursiveCte.StopsIffPathsBounded`,
  `RecursiveCte.CycleNeverStops`);
- a 32-byte string ends with an empty large block (`BlockEncoding.Blocks`), which keeps the order.

## Model

| member | source | states |
|---|---|---|
| Json.PatchOfDiff | src/json.lisp:156-187 | patching a with diff(a, b) gives b if and only if at every level each value of b is already present in a, or is new, not NULL and itself round-trips |
| Json.PlainTargetRoundTrips | src/json.lisp:156-187 | in particular when b has no NULL under a key and no FALSE at a key that a lacks |
| Json.PatchIdempotent | src/json.lisp:156-168 | applying any patch twice equals applying it once, as replay needs when a log is read again |
| Json.DiffLosesNullAndMissingFalse | src/json.lisp:170-187 | concrete targets that are lost: a NULL and a FALSE at a missing key |
| Json.DiffMentionsChanges | src/json.lisp:170-187 | a diff of objects has exactly the keys that were dropped, added or changed, with NULL for a dropped one and the diff of the two values for the others |
| Json.DiffOfSame | src/json.lisp:170-187 | the diff of an object with itself is empty |
| TxLogRuns.ReplayAfterEveryRun | src/storage.lisp:106-121 | after every run of commits, rotations, snapshot steps, crashes and restarts, replay returns the fold of exactly the log entries that are on disk |
| TxLogRuns.ReplayIsHistory | src/storage.lisp:167-218 | in every state that keeps the invariant, replay of snapshot and newer logs, local or archived, is the metadata of the whole history |
| TxLogRuns.StepKeepsInv | src/storage.lisp:138-263 | every commit, snapshot-thread operation, mem-table deletion, crash and start keeps the invariant between logs, archive, latest snapshot and history |
| TxLogRuns.CommitKeepsInv | src/storage.lisp:220-263 | a logged transaction with or without rotation extends the history by itself |
| TxLogRuns.SnapshotKeepsInv | src/storage.lisp:138-165 | each single operation of a snapshot job, whatever happens in between, keeps the history replayable |
| TxLogRuns.CrashKeepsInv | src/storage.lisp:69-98 | losing memory and the tail of the active log leaves exactly the transactions whose entries survive |
| TxLogRuns.BootKeepsDisk | src/storage.lisp:57-98 | opening the latest log and fetching archived ones back changes nothing that replay depends on |
| TxLogRuns.FetchChangesNothing | src/storage.lisp:184-194 | an archived log that is fetched over a local one of the same name has the same content |
| TxLogRuns.FilesAreSuffix | src/storage.lisp:196-201 | the files not skipped are exactly the logs from the snapshot's position on, with no gap |
| TxLogRuns.ReplayTwice | src/storage.lisp:106-121 | replaying any log a second time changes nothing, whatever its transactions overwrote or deleted |
| TxLogRuns.ReplayOwnLog | src/storage.lisp:196-201 | in particular the log named with the snapshot's own id, which start-up does not skip |
| JsonPatches.PatchAllTwice | src/json.lisp:156-168 | applying any sequence of patches twice equals applying it once |
| TxLogStaleRead.ReadableIff | src/storage.lisp:123-165 | for every run: each of its commits met the byte condition if and only if no continuation of any part of it by commits without objects, snapshot steps, mem-table deletions, crashes and starts ever reads a logged object wrongly |
| TxLogStaleRead.UncleanGoesStale | src/storage.lisp:138-165 | after any commit outside the condition, from any reachable state and for every number of logs per snapshot, such a continuation leads to a running store where a logged object reads back with other bytes |
| TxLogObjects.ObjectsStayReadable | src/storage.lisp:123-131 | after every run whose commits meet the condition, those with further objects included, each object of each logged transaction reads back with its own bytes, at once or after the restart |
| TxLogObjects.StepKeepsObjects | src/storage.lisp:138-165 | extraction, change of the latest snapshot, log deletion, mem-table deletion, crash, start and every commit that meets the condition leave each object a readable copy |
| TxLogObjects.SnapshotKeepsObjects | src/storage.lisp:138-165 | logs are deleted and mem-table entries dropped only when the object store has their objects |
| TxLogObjects.BootKeepsObjects | src/storage.lisp:208-214 | start-up puts back into the mem-table what the object store does not have yet |
| TxLogObjects.CommitKeepsObjects | src/storage.lisp:250-263 | new objects are readable and older ones stay so, given that the active log has no other bytes for their paths |
| TxLogStaleRead.ReuseIsUnclean | src/storage.lisp:250-263 | a torn transaction whose id and path are used again with other bytes is such a commit |
| TxLogStaleRead.StaleRead | src/storage.lisp:123-165 | so the run that reuses such an id can go on to a stale read, whatever number of logs makes a snapshot |
| TxLogJobs.JobEndsJobbed | src/storage.lisp:138-165 | whenever a whole snapshot job is done, in any order of its operations and mem-table deletions, the store is the one with its snapshot latest and the previous one gone, all objects of its logs extracted, exactly those logs deleted and exactly its objects out of the mem-table |
| TxLogJobs.JobCanEnd | src/storage.lisp:138-165 | every queued job can be brought to that end |
| TxLogJobs.RotationQueues | src/storage.lisp:220-248 | a rotation queues a job exactly when enough logs are pending: for all local logs and the mem-table as it was, with the snapshot of that moment, and counts from zero again |
| TxLogJobs.PendingAfterStart | src/storage.lisp:196-212 | after a start the count of pending logs is that of the local logs which no snapshot covers, without the active one |
| TxLogRestore.RestoreIsArchived | src/storage.lisp:167-218 | when the local log directory is lost, start-up brings back exactly the transactions of the archived logs if there is a snapshot, and none at all without one |
| TxLogRestore.LocalLogsIgnored | src/storage.lisp:184-201 | with a snapshot beyond the first transaction, whatever local files of archived names other than the snapshot's contain, replay gives the archived history |
| TxLogRestore.AppendedSince | src/storage.lisp:184-206 | what replay makes of anything appended after such a restore: ignored with a snapshot beyond the first transaction, applied before the archived logs with one of the first, applied as it is without a snapshot |
| TxLogRestore.RestoredCommitsLost | src/storage.lisp:63-98 | so after such a restore no commit survives a restart, through any sequence of commits that do not fill the log, crashes and starts |
| DiskStores.DiskStore.StoreWriteTx | src/storage.lisp:250-263 | the history grows by exactly the transaction, replay of the disk now gives its metadata, the run invariant is kept with or without rotation, and all objects stay readable if the log has no other bytes for the new paths |
| DiskStores.DiskStore.RotateWal | src/storage.lisp:220-248 | the archive gets the closed log under its name with exactly the log entries of its transactions, the new active log is empty, and replay still gives the same metadata |
| DiskStores.DiskStore.StoreReplay | src/storage.lisp:167-218 | on a directory that some run left, snapshot, fetch, filter, fold and extraction return the metadata of the whole history and bring the store up with every object readable; on any other they fail as replay does |
| DiskStores.DiskStore.SnapshotThread | src/storage.lisp:138-165 | whatever the next operation of the thread deletes or replaces, the history stays as it is, replay still returns its metadata and its objects stay readable |
| DiskStores.DiskStore.DropFromMemTable | src/storage.lisp:241-242 | deleting a mem-table entry of a finished job loses no object |
| DiskStores.DiskStore.StoreGetObject | src/storage.lisp:265-268 | the path of a logged object gives the bytes of the transaction that wrote it, wherever its copy is at the moment |
| Commits.NewMdIsStamped | src/sql.lisp:84-108 | if the diff can express the change, what is installed is the transaction's metadata with its number, the log version and the batches' checksums |
| Commits.AddBatchPatches | src/sql.lisp:92-102 | writing checksums into the diff equals patching them in after the diff, when nothing but objects is on the way |
| Commits.ChecksumInstalled | src/sql.lisp:92-102 | below its table and file every batch reads "sha1" and "byte_size" as its own checksum and size, every other key there is as before, whatever the order of the hash table |
| Commits.NewMdReads | src/sql.lisp:84-108 | the metadata that a commit makes reads the checksum and size of every one of its batches |
| Commits.NewMdKeepsRest | src/sql.lisp:84-108 | every other key of a described file, and every file that is not in a batch, is as the transaction left it |
| Commits.Advances | src/sql.lisp:84-87 | whatever else the diff says, the transaction number grows by one and the log entry carries the version replay demands |
| DbmsRuns.OneSerialHistory | src/http.lisp:95-141 | after any interleaving of clients and maintenance the installed states form one serial history with consecutive ids ending in the current state |
| DbmsRuns.StepKeepsInv | src/http.lisp:223-272 | every request, message, critical section and job keeps: each installed state is its statements executed on its immediate predecessor |
| DbmsRuns.LockKeepsInv | src/http.lisp:229-248 | every outcome of the lock has its reply, in terms of the execution on the current state: Conflict for a stale COMMIT, Constraint failed exactly for a change that breaks a constraint, the rows, the raised message, or the answer to BEGIN, COMMIT and ROLLBACK; what is installed is those statements on the current state |
| DbmsRuns.SuccessMeansInstalled | src/http.lisp:122-141 | no client is told of a success while its change was refused, nor of a failure while it was installed |
| DbmsRuns.LockInstallsIff | src/http.lisp:122-141 | taking the lock installs exactly when the execution on the current state changes it, meets the constraints, and no interactive transaction is stale |
| DbmsRuns.RequestSeesInstalled | src/http.lisp:108-142 | a request gets the rows of its execution on the current state, goes on to the lock only as a changing POST, and every other outcome has its own reply |
| DbmsRuns.MessageSeesSnapshot | src/http.lisp:249-276 | inside BEGIN a connection sees its own statements on the state it began on and nothing installed since; BEGIN, COMMIT and ROLLBACK move it as told |
| DbmsRuns.NewInstallOk | src/sql.lisp:78-109 | an installed transaction records its base, number, versioned diff and constraint check truthfully |
| DbmsRuns.InstalledReads | src/sql.lisp:92-108 | in every installed state the batches of its transaction read back with their own checksum and size |
| DbmsRuns.LogGivesState | src/storage.lisp:106-121 | folding the log entries of the installed transactions gives the current metadata |
| DbmsServer.DbServer.Commit | src/sql.lisp:78-109 | the loop over the buffer pool computes exactly the specified diff, and the new state reads every batch with its checksum and size; unchanged metadata and failed constraints write nothing and signal as they do |
| DbmsServer.DbServer.Query | src/http.lisp:95-158 | the reply is that of the statement executed on the current state; only a changing POST goes on to the lock; nothing is installed and the serial history is kept |
| DbmsServer.DbServer.WithLockHeld | src/http.lisp:122-141 | installs exactly when the execution on the current state changes it, meets the constraints and no interactive transaction is stale; the reply of each outcome, installed or not, is the one that `LockReply` derives from that execution; the history stays serial |
| DbmsServer.DbServer.CommitOrRetry | src/http.lisp:122-141 | the comparison by identity, the commit, the second execution and the refusal compose to the locked step |
| DbmsServer.DbServer.OnMessage | src/http.lisp:223-276 | inside BEGIN the reply comes from the connection's own statements on the state it began on, outside from the current state; BEGIN, COMMIT and ROLLBACK open, submit and drop the transaction; nothing is installed |
| DbmsServer.DbServer.Maintain | src/sql.lisp:45-51 | a maintenance job is installed exactly when it changes the current state, ends in rows and meets the constraints; the history stays serial |
| Peg.MoreFuel | lib/endb_proc_macro/src/lib.rs:92-292 | an answer other than running out of fuel does not depend on the fuel |
| Peg.LiteralMatchesIff | lib/endb_proc_macro/src/lib.rs:131-167 | a literal matches exactly when each character is the same or its other ASCII case and, unless it is punctuation, no alphanumeric character follows |
| Peg.LookMeans | lib/endb_proc_macro/src/lib.rs:262-264 | & succeeds exactly when its expression does, and consumes and yields nothing |
| Peg.PlusMeans | lib/endb_proc_macro/src/lib.rs:265-268 | + fails when its expression fails and is otherwise * |
| Peg.OptMeans | lib/endb_proc_macro/src/lib.rs:269-273 | ? does not fail at the start of a character: it is its expression, or skips whitespace when that fails |
| PegEngine.ParseState.Run | lib/endb_proc_macro/src/lib.rs:92-292 | every generated parser refines the tree meaning: on success the buffer grew by the flattened forest, on failure exactly by the residue the code leaves; a tracking call logs exactly the trace of rule calls and failed terminals, in order, with their descriptors and ranges, and nothing below a negation |
| PegEngine.ParseState.RunSeq | lib/endb_proc_macro/src/lib.rs:171-189 | sequences accumulate events and truncate on any failure |
| PegEngine.ParseState.RunOrd | lib/endb_proc_macro/src/lib.rs:192-210 | choices try the next alternative only after a plain failure and stop at a cut |
| PegEngine.ParseState.RunStar | lib/endb_proc_macro/src/lib.rs:212-231 | repetition ends in success at a plain failure and in failure at a cut |
| PegEngine.ParseState.RunNeg | lib/endb_proc_macro/src/lib.rs:233-255 | negation leaves no events and no errors of its body and absorbs a cut |
| PegEngine.ParseState.RunRule | lib/endb_proc_macro/src/lib.rs:324-345 | a rule wraps its body in open and close events; its error log is balanced with every error inside a rule |
| PegEngine.ParseState.CloseRule | lib/endb_proc_macro/src/lib.rs:306-322 | the close event and the patched open event are hidden exactly when the last event closes the one right after the open |
| PegEngine.LastClosesFirst | lib/endb_proc_macro/src/lib.rs:306-318 | that test on the buffer holds exactly when the body is a single rule node |
| PegTrace.MissesAreFailedTries | lib/endb_proc_macro/src/lib.rs:92-292 | the traced misses are exactly the terminals and negations that a run of the expression tries and that fail, at their positions and under the calls on the way; the definition of a try is independent of the trace |
| PegTrace.FailureMisses | lib/endb_proc_macro/src/lib.rs:92-292 | whenever an expression of the macro fails, something was tried and failed |
| PegCut.CutsOnlyReject | lib/endb_proc_macro/src/lib.rs:171-260 | cuts turn some outcomes into hard errors and change nothing else: any other result is that of the grammar without cuts, provided what is negated is free of them |
| PegCut.CutDecides | lib/endb_proc_macro/src/lib.rs:191-260 | after a cut a failure is not retried by a choice, does not end a repetition in success, and is absorbed by a negation |
| PegCut.UncutHasNoCuts | lib/endb_proc_macro/src/lib.rs:256-260 | the grammar compared with has no cuts, and one without cuts is left as it is |
| PegTermination.EveryRuleTerminates | lib/endb_proc_macro/src/lib.rs:212-231 | with rules ranked so that none reaches itself, and no starred body succeeds, without advancing, every parse ends within fuel linear in the input |
| PegTermination.LeftRecursionDiverges | lib/endb_proc_macro/src/lib.rs:324-345 | a rule that calls itself first exhausts any fuel |
| PegTermination.StarredEmptyDiverges | lib/endb_proc_macro/src/lib.rs:212-231 | so does a starred empty literal |
| SqlGrammar.SqlRanked | lib/endb_cst/src/sql.rs:8-270 | every rule of the SQL grammar calls only lower-ranked rules before advancing and stars only advancing bodies |
| SqlGrammar.SqlParsingTerminates | lib/endb_cst/src/sql.rs:8-270 | every text is parsed or rejected, from any rule, within fuel linear in its length |
| SqlGrammar.SqlCutsOnlyReject | lib/endb_cst/src/sql.rs:8-270 | the cuts of the SQL grammar turn some outcomes into hard errors and change no other |
| SqlGrammar.ParseSql | src/lib/cst.lisp:107-125 | SQL text always gives an answer: the visible tree of the parse, which is that of the grammar without cuts, or exactly what was tried and failed at the furthest such position |
| PegLossless.LosslessIff | lib/endb_proc_macro/src/lib.rs:94-170 | leaves and skipped whitespace tile the parsed text, the whitespace after each leaf skipped at once, for all parsers and inputs, exactly when empty matches lie within the skipped whitespace |
| PegLossless.EmptyAtStartIsLossless | lib/endb_proc_macro/src/lib.rs:94-118 | a lexer whose empty matches are all found right at the position meets the condition, whether or not its patterns are anchored |
| PegLossless.UnanchoredLeaf | lib/endb_cst/src/sql.rs:30 | a match found further on gives one leaf that runs from the position, so the text passed over is in it |
| PegLossless.TilesInOrder | lib/endb_proc_macro/src/lib.rs:94-170 | the leaves are in bounds, non-empty, in order and disjoint |
| ParseErrors.EventsToErrors | lib/endb_cst/src/lib.rs:114-150 | on the log of any parse the context never underflows and the result is exactly the errors at the furthest start, in log order, each under at least one rule |
| ParseErrors.ContextCoversOpenRules | lib/endb_cst/src/lib.rs:120-131 | every rule that is really open is on the context stack in order, with one stale label more per hidden close |
| ParseErrors.ContextIsOpenRules | lib/endb_cst/src/lib.rs:120-131 | the context is exactly the open rules if and only if no hidden rule has closed |
| ParseErrors.SomeAtFurthest | lib/endb_cst/src/lib.rs:132-145 | if anything was logged, something is reported |
| ParseErrors.ReportOfFailure | lib/endb_cst/src/lib.rs:114-150 | a failed parse reports the greatest position at which anything was tried and failed, exactly what failed there, in the order in which it was tried, each under the calls that led to it |
| CstReplay.ReplayRebuilds | src/lib/cst.lisp:75-105 | replaying the events of a forest backwards puts exactly its visible trees, hidden ones spliced, in front of the top frame and leaves the others alone |
| CstReplay.ParseResult.Replay | lib/endb_lib/src/lib.rs:82-101 | the reverse loop over the events runs the callbacks of the visible ones without breaking the stack |
| CstReplay.ParseSqlCst | src/lib/cst.lisp:107-125 | text to tree: the visible tree of the parse, whose texts are the input at their ranges, or what was tried and failed furthest, each in a context |
| CstReplay.TreeIsFaithful | src/lib/cst.lisp:85-105 | every text in the tree is the input between its start and end |
| VarGroups.Components | src/sql/compiler.lisp:755-765 | the groups are the connected components of the given pairs: all covered, disjoint, and none divisible |
| VarGroups.MergeShrinks | src/sql/compiler.lisp:755-765 | each round that changes something makes the groups fewer, larger or shorter, so the recursion ends |
| PlannerCorrect.QueryCorrect | src/sql/compiler.lisp:767-827 | for all tables and clauses the planned program gives exactly the multiset of rows of the cross product that satisfy every clause |
| PlannerCorrect.PlanCorrect | src/sql/compiler.lisp:786-827 | the same from every intermediate point of planning, with clauses consumed, joins made and indexes available |
| PlannerCorrect.OrderIrrelevant | src/sql/compiler.lisp:903-912 | planning the tables in any permutation of the given order gives the same multiset of rows |
| PlannerCorrect.InitialOrderCorrect | src/sql/compiler.lisp:903-912 | so does the order the compiler picks, tables with scan clauses first and each group sorted by size |
| PlannerCorrect.JoinRow | src/sql/compiler.lisp:601-728 | a row that passes scan filters, earlier indexes, key lookup and pushed filters satisfies every clause settled so far; a row that does not is in no result |
| PlannerCorrect.ProbeSound | src/sql/compiler.lisp:622-688 | a row rejected by an earlier index is part of no complete result row |
| PlannerCorrect.ReuseProbeSound | src/sql/compiler.lisp:631-638 | looking up group members in an earlier index as it stands is sound, through tables not joined yet |
| PlannerCorrect.KeysProbeSound | src/sql/compiler.lisp:640-688 | looking up join values collected from an earlier index is sound |
| PlannerCorrect.KeyMeaning | src/sql/compiler.lisp:604-616 | in-variables and out-variables are aligned, and equal keys mean that all join clauses hold |
| PlannerCorrect.GroupEqual | src/sql/compiler.lisp:768-773 | variables of one group are equal in every result row |
| PlannerProof.PickFirst | src/sql/compiler.lisp:774-783 | the cross product may start with any table |
| PlanShape.PickJoins | src/sql/compiler.lisp:774-783 | the next table is the first one that an equality joins to what is bound; the first of all is taken only when there is none |
| PlanShape.EachClauseEarly | src/sql/compiler.lisp:786-827 | no clause is tested later than with the table that binds its last variable, and none is left for the end when the tables have all variables |
| PlanShape.PlanIsSideways | src/sql/compiler.lisp:622-688 | in the whole plan each new index is filtered by every earlier one whose keys can be reused, or else by the values of exactly those join variables that its table has, and by no other |
| PlanExecutor.RunQuery | src/sql/compiler.lisp:767-827 | ordering, planning and running the loops yields exactly the filtered cross product |
| PlanExecutor.Executor.Run | src/sql/compiler.lisp:800-827 | the emitted loops push what the plan means, however often cached indexes are reused |
| PlanExecutor.Executor.IndexFor | src/sql/expr.lisp:2017-2023 | an index is built once and every later lookup finds the same table |
| PlanExecutor.Executor.ScanInto | src/sql/compiler.lisp:696-726 | the build loop with its pushes and final reversal stores every kept row under its key in scan order |
| PlanExecutor.Executor.SipTable | src/sql/compiler.lisp:660-688 | the probe table has an entry for exactly the keys that pass |
| PlanExecutor.PlanReady | src/sql/compiler.lisp:693-728 | every index has its own key and reads only indexes built before it |
| PlanExecutor.LookupPush | src/sql/expr.lisp:56-62 | with equality without nulls as the test, a push is seen under exactly the equal keys |
| Conjuncts.ConjunctsKeepSameRows | src/sql/compiler.lisp:143-154 | a predicate is exactly true when all its conjuncts are, common factors of disjunctions included |
| Conjuncts.CommonFactors | src/sql/compiler.lisp:143-154 | the clauses taken from a disjunction are itself and exactly the conjuncts of both its sides |
| Conjuncts.TruthTables | src/sql/compiler.lisp:143-154 | AND is the lesser and OR the greater of no, unknown and yes; an equality is unknown exactly with a NULL |
| Conjuncts.ConnectivesMean | src/sql/compiler.lisp:143-154 | a disjunction is true when either side is and false when both are, a conjunction the other way round |
| Conjuncts.UsingMeans | src/sql/compiler.lisp:210-224 | the predicate made for USING is true exactly when for every pair both columns are equal, and mentions exactly those columns |
| Conjuncts.JoinTreeIsFlat | src/sql/compiler.lisp:208-255 | one FROM item: the flat list filtered by the collected ON and USING clauses has the rows of the join tree, in order, where USING keeps the rows in which every pair of its columns is equal |
| Conjuncts.BaseRowsAre | src/sql/compiler.lisp:208-255 | a table in FROM gives its rows in order, each bound to its columns |
| Conjuncts.ListIsFlat | src/sql/compiler.lisp:999-1000 | the same for a whole FROM list of such items |
| Conjuncts.QueryIsFlat | src/sql/compiler.lisp:999-1000 | WHERE and the join clauses of the whole FROM list over the flat list give the rows of the query |
| RecursiveCte.Evaluate | src/sql/compiler.lisp:1828-1842 | the loop stops exactly at the first empty round; UNION ALL returns the collected rounds, UNION each of their rows once, in the order of first occurrence |
| RecursiveCte.LeastFixpoint | src/sql/compiler.lisp:1828-1842 | once it stops, the UNION result has each row of the least fixpoint of the initial rows and the step exactly once |
| RecursiveCte.RoundOnce | src/sql/compiler.lisp:1828-1842 | each round of UNION has every row that its step gives once, in the order of first occurrence |
| RecursiveCte.OncePerRow | src/sql/expr.lisp:1935-1944 | rows without repeats have each row exactly once as a bag |
| RecursiveCte.SumOfIterates | src/sql/compiler.lisp:1828-1842 | once it stops, the UNION ALL result is as a bag the sum of all iterates |
| RecursiveCte.StopsIff | src/sql/compiler.lisp:1836-1842 | for row-wise steps the loop stops if and only if the rows it can reach carry a bounded rank that the step strictly lowers |
| RecursiveCte.RowByRow | src/sql/compiler.lisp:1836-1842 | a step that treats each row by itself is row-wise, and each row gives exactly its own rows |
| RecursiveCte.StopsIffPathsBounded | src/sql/compiler.lisp:1836-1842 | if and only if the paths of rows that start at an initial one are bounded in length |
| RecursiveCte.RankedStops | src/sql/compiler.lisp:1836-1842 | the rank also bounds the number of rounds |
| RecursiveCte.CycleNeverStops | src/sql/compiler.lisp:1836-1842 | any cycle that can be reached from the initial rows, of any length, keeps the loop going for ever, under UNION too |
| Pruning.RulesOutAMatchIff | src/sql/compiler.lisp:306-453 | for every clause form, a file is ruled out although a row of it satisfies the clause if and only if the clause is IS NULL, the row lacks the column and the filter does not know NULL |
| Pruning.Scan | src/sql/compiler.lisp:534-581 | the scan gives the matching rows of the files it reads, in order, and equals the scan that reads all if and only if no file loses a row in that way |
| Pruning.CalculateStats | src/sql/db.lisp:351-389 | the statistics calculated from the records of a file cover every value present in them, which is what the scan needs, and their least and greatest values occur in it |
| Pruning.ComparisonIsSharp | src/sql/compiler.lisp:382-453 | with these statistics a file is read for a comparison of a column with a constant exactly when one of its rows satisfies it |
| Pruning.BetweenIsSharp | src/sql/compiler.lisp:369-380 | for BETWEEN exactly when one row is not below and one, maybe another, not above |
| Pruning.OrderedMeans | src/sql/compiler.lisp:382-453 | comparisons are a total order on numbers that agrees with equality, and never true of NULL |
| Pruning.LostRow | src/sql/compiler.lisp:324-347 | a covered file that loses its row |
| Bloom.BuildFilter | src/bloom.lisp:20-61 | after any inserts nothing inserted is missing, and every set bit is accounted for by an inserted value |
| Bloom.Insert | src/bloom.lisp:31-37 | exactly the eight bits of the value are set in addition |
| Bloom.Check | src/bloom.lisp:39-46 | true exactly when the filter exists and all eight bits are set |
| Bloom.InBounds | src/bloom.lisp:26-56 | every bit index lies in the filter, for every size of whole blocks of bits |
| Bloom.OneBitPerWord | src/bloom.lisp:26-56 | the eight bits of a value lie in one block, one in each of its eight words |
| Bloom.EightBits | src/bloom.lisp:26-56 | so they are eight different bits |
| Bloom.BlockShare | src/bloom.lisp:48-56 | the blocks share the upper halves of the hashes out evenly and in order |
| Bloom.MadeSized | src/bloom.lisp:20-24 | a positive expected size gives such a filter at any fill ratio |
| Bloom.SizeIsLeast | src/bloom.lisp:20-24 | the size is the least number of whole blocks that reaches expected size by fill ratio |
| ArrowPush.Push | src/arrow.lisp:406-450 | a push onto any array, whatever it widens, appends exactly the value and keeps every earlier element; an array stays made for exactly the kinds of values it holds, at every level |
| ArrowPush.PushTyped | src/arrow.lisp:988-1118 | the array's own push method appends exactly the value, inside lists and struct columns too |
| ArrowPush.PushNull | src/arrow.lisp:441-444 | NULL is appended to every kind of array without widening it |
| ArrowPush.Widen | src/arrow.lisp:406-424 | a non-empty typed array becomes a union of itself, unchanged, and a new array for the value; an empty one just the new array |
| ArrowPush.PushUnion | src/arrow.lisp:1230-1257 | a union appends to the first child that takes the value, or to a new one only if none does; its other children stay as they are |
| ArrowPush.Backfilled | src/arrow.lisp:435-439 | a null array becomes typed with its NULLs kept |
| ArrowPush.Get | src/arrow.lisp:489-494 | reading returns the element of the abstract sequence |
| ArrowPush.GetList | src/arrow.lisp:1002-1009 | a list element is read item by item between its offsets |
| ArrowPush.GetStruct | src/arrow.lisp:1129-1136 | a struct element is read column by column |
| ArrowPush.Column.Append | src/arrow.lisp:395-399 | a column grows by exactly the pushed value |
| ArrowPush.ToArrow | src/arrow.lisp:395-399 | an array built from values holds exactly those values and is made for exactly their kinds, at every level |
| ArrowKinds.UnionIffMixed | src/arrow.lisp:395-450 | such an array is a union exactly when it holds values of several kinds, with one child for each kind in order of first occurrence, and without a type exactly when it holds only NULLs |
| ArrowKinds.KindsOnce | src/arrow.lisp:395-450 | the kinds of values are listed once each |
| ArrowPush.FromArrow | src/arrow.lisp:489-494 | reading all elements gives them back |
| Arrow.StructPushed | src/arrow.lisp:1106-1127 | pushing to every column pushes a row, valid or NULL |
| Arrow.ListPushed | src/arrow.lisp:988-1000 | a new offset after the items adds the list, valid or NULL |
| RowEncoding.IntRowOrder | src/arrow.lisp:606-623 | NULL below all integers, integers by value; neither row is a prefix of the other |
| RowEncoding.IntRowReads | src/arrow.lisp:606-623 | nine bytes, all zero for NULL, from which the number can be read back |
| RowEncoding.Int64RowEncode | src/arrow.lisp:606-617 | the nine bytes written are the validity byte and the sign-flipped number, highest byte first |
| RowEncoding.BelowMeans | src/arrow.lisp:1138-1146 | a decided comparison stays decided whatever bytes follow |
| BlockEncoding.BlockEncodedRow | src/arrow.lisp:899-926 | the two calls of write-blocks produce the block-wise encoding, with the extra empty block after 32 bytes |
| BlockEncoding.BlockRowOrder | src/arrow.lisp:899-931 | NULL, then the empty string, then by content, across small and large blocks |
| BlockEncoding.RowsCompare | src/arrow.lisp:1138-1146 | for the same columns the encodings compare like the values field by field, are distinct for distinct values, and none is a prefix of another |

## Left out

- TxLogObjects.ObjectsStayReadable: needs that no commit writes other bytes to a path that the active log already has; without that it is false, and `TxLogStaleRead.ReadableIff` says that the condition is exact.
- PegLossless.EmptyAtStartIsLossless: regular expressions are parameters, so that the patterns of the SQL grammar match no empty text past the position is a property of the patterns that is not proved here.
- PlannerCorrect.QueryCorrect: starts with no bound variables and tables without free variables; LATERAL and LEFT JOIN items and correlated subqueries are not covered.
- PlanExecutor.Executor.Run: the order in which results are pushed is modelled as appending; the bloom check on the key sets of earlier joins, and the hash-index scan path, are not modelled.
- ArrowPush.Push: arrays are values, so update in place and sharing of nested arrays are not captured; booleans, dates, times, intervals, decimals, binaries and empty structs are left out, and so are the 8-bit limit on union children and the 32-bit limit on offsets.
- RecursiveCte.Evaluate: rounds are bounded by fuel; when the loop would run for ever is `RecursiveCte.StopsIff`.
- RecursiveCte.StopsIff: steps work row by row; recursive terms that join the working table with itself or aggregate it are not covered.
- Pruning.CalculateStats: values that cannot be compared with each other are not modelled.
- Conjuncts.JoinTreeIsFlat: the rows of a LEFT JOIN are a parameter.
- SqlGrammar.SqlParsingTerminates: that every pattern but the anchor matches only non-empty text is required of the lexer.
- DiskStores.DiskStore.RotateWal: one step, as in the transition system; a crash between its file operations is not modelled.
- TxLogRestore.RestoredCommitsLost: the first rotation after a restore, which archives the newest local file instead of the one appended to, is not modelled.
- Rotation as several steps, damaged logs and their repair, the tar format, the SHA-1 check of snapshots.
- Savepoints, authentication, streaming of responses, JSON-RPC framing, CSV and other formats.
- LIMIT and OFFSET, GROUP BY, temporal visibility, DML and upserts, compaction's own merging of files.
- Buffer pool eviction, the blocking queue's internals, the information schema.
- Rendering of error reports, the macro's own syntax, regular expressions themselves, row order of decimals, intervals, floats and lists.
