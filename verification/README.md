# fn0, modelled and verified in Dafny

fn0 runs user functions and gives them a document database, object storage, metrics, logs and
metered responses. This project models the parts of it that carry a real correctness claim and
proves those claims for every input, every schedule or every reachable state. `dafny verify
dfyconfig.toml` checks all of it.

**The optimistic document transaction** (`doc-db`). A transaction runs a user closure that reads
documents at separate instants and buffers its writes; at commit the reads become conditions, the
writes become mutations, and one atomic `transact` checks the former and applies the latter.
`doc_types`, `memory_store` and `memory_database` say what `transact` means; `trx_state` and
`trx_object` are the bookkeeping of one attempt; `backends` puts the memory store beside an
abstract store whose revisions never repeat; `interleaving` is the step system in which any number
of attempts run beside plain puts and deletes. On top of it stand the attempt invariant,
what a commit leaves behind and when it succeeds (`buffered_writes`, `commit_decision`),
serializability, where it fails and why each of its provisos is needed (`stale_commits`,
`marked_closures`, `needed_provisos`), conservation of counters (`lost_update`,
`counting_closures`) and the bounded retry loop (`retry`, `backoffs`). `turso`, `turso_refinement` and `begin_immediate` treat the SQL
backend, whose statements travel in messages that can be lost, refused or answered badly. `paging`
covers reads collected page by page, and `rpc` the path from a guest to the host database.

**The metric cardinality gate** (`fn0/fn0/src/metric_gate.rs`): `text_order`, `metric_keys`,
`metric_gate`, `metric_runs`, `metric_room`, `metric_filter`, `metric_cap_breaks`.

**Single hard properties elsewhere**: `decimals` and `list_xml` (reading a bucket listing),
`heading_ids` and `heading_document` (unique ids in a rendered document), `body_budget` (memory for
request bodies), `metered_body` (paying for egress) and `log_lines` (splitting guest output into
lines). `collections` holds facts about sets and sequences that several modules share.

## How to read the main results

- A closure is a function from the replies received so far to the next action. `Solo` runs it
  against one unchanging backend, `SoloCommit` also commits it; both are written without reference
  to the interleaved steps, and `SoloIsASchedule` shows that they are what the step system does when
  nobody else moves.
- The memory store restarts a document's version at 0 when the key is deleted and created again,
  and a plain put wraps it past the largest 64-bit integer. The model counts these restarts in a
  history variable, the *incarnation* of a key, which no operation reads. Serializability on the
  memory store holds when no document the attempt read was restarted in between, no load of the
  attempt failed to deserialize, and no key the closure asked for holds a negative version. Without
  the first condition it fails: `StaleReaderIsNotSerial` gives, for every key, every version and any
  two contents, a run from an initial world whose committed result differs from the serial one, and
  `ReaderIsAtomicIff` says for that closure exactly when the two agree. `StaleCommitIsNotSerial` is
  the converse for every attempt, and `HealthIsNeeded` and `LoadabilityIsNeeded` show the same for
  the other two conditions.
- What a transaction does to a document is stated over the closure's own operations, without the
  entries, conditions or mutations in between: after a commit the document is what was last written
  through its handle, gone after a delete, the created document after a create, and what it was
  otherwise (`LoadedDocument`, `CreatedDocument`, `UntouchedDocument`). `CommitDecides` says exactly
  when a commit succeeds and which document a conflict names. `EverySetCounts` is the absence of
  lost updates for closures that set a counter to what their handle showed plus one.
- `register_loaded` fills its index before the document is deserialized. The index and the entry
  list are inverse exactly when no load failed that way (`Bookkeeping`), and a closure that goes on
  after such a failure can write to another key than it asked for (`SwallowedLoadErrorMisplaces`).
- The memory and SQL backends give equal results unless the first failing condition names a revision
  above the largest 64-bit integer or meets a negative version, or a commit would move a version past
  the largest integer; `BackendsAgreeIff` is exact.
- A SQL commit is reported as such exactly as it happened, with one exception in each direction, and
  `Turso.TursoTransaction.Transact` states both exactly. COMMIT can run while the client is told of
  an error or of nothing. And `commit` does not count results, so a reply without a result for a
  COMMIT that did not run is taken for success (`CommitReportedWithoutResult`). The transaction on
  the server is closed exactly when a COMMIT or a ROLLBACK ran, and one of them is sent unless the
  baton is gone.
- The caps of the metric gate rest on distinct attribute keys and on separator-free names. Without
  either, one export takes an empty gate past any number of names or label values
  (`CollisionsEscapeTheNameCap`, `RepeatedKeyEscapesTheLabelCap`), and `AdmitKeepsCapsIff` says
  exactly when a step keeps the caps. In the other direction the gate refuses nothing that fits:
  `WhatFitsIsAccepted` holds for all points, over all sequences of calls and on any clock.
- Heading ids chosen for untitled headings are distinct from each other but not from explicit ids.
  They are a function of the events (`Choices`), and `AllIdsDistinctIff` says by that function
  exactly when all ids of a document are distinct.
- A paged read and a single-pass read differ only for limit 0, where the single pass yields one row
  (`PagingAgreesIff`).
- A remote call has the result of the direct call exactly when both frames are within the size
  limit or the call fails anyway (`RemoteIsDirect`).
- The body budget covers a limit unless the limit's permit count, cut to 32 bits, can be granted
  although the limit exceeds the budget (`BudgetHolds`, `UnaccountedLimitEscapes`). None of the
  configured limits is of that kind.

## Model

| member | source | states |
|---|---|---|
| DocTypes.ValidateTransactRequest | doc-db/src/transaction.rs:59-77 | accepts exactly the requests whose condition keys are pairwise distinct and whose mutation keys are pairwise distinct |
| MemoryStore.CheckIsLeast | doc-db/src/memory.rs:111-135 | the reported conflict is the least condition that fails, no conflict means all hold, and an error means that the first condition not to hold asks about a negative version |
| MemoryStore.ApplyIsPointwise | doc-db/src/memory.rs:141-164 | applying the mutations one after the other does to each key what its own mutation does to it, and fails exactly when some version would overflow |
| MemoryStore.MutationOrderIrrelevant | doc-db/src/memory.rs:108-166 | permuting the mutations of a validated request changes neither outcome nor store |
| MemoryStore.TransactOutcome | doc-db/src/memory.rs:108-166 | a commit happens exactly when all conditions hold and nothing overflows; index i is reported exactly when i is the least failing condition |
| MemoryStore.TransactEffect | doc-db/src/memory.rs:108-166 | anything but a commit leaves the store as it was; a commit has exactly the pointwise effect of the mutations |
| MemoryDatabases.MemoryDatabase.Get | doc-db/src/memory.rs:32-37 | returns the stored bytes exactly when the key is present |
| MemoryDatabases.MemoryDatabase.GetObserved | doc-db/src/memory.rs:39-48 | returns data and revision of a present key, missing without revision otherwise, an error for a negative version |
| MemoryDatabases.MemoryDatabase.Put | doc-db/src/memory.rs:50-53 | sets one key, incrementing its version with wrap-around or starting it at 0 |
| MemoryDatabases.MemoryDatabase.Delete | doc-db/src/memory.rs:55-61 | removes one key and touches no other |
| MemoryDatabases.MemoryDatabase.Transact | doc-db/src/memory.rs:108-166 | the staged loop over conditions and mutations computes the `transact` of the properties above |
| TrxState.BuildRequest | doc-db/src/trx.rs:597-615 | the loop over the tracked entries builds the request in entry order, or fails when a document does not serialize |
| TrxState.CreateLandsAtHomeIff | doc-db/src/trx.rs:424-461 | a created document lands in the entry of its own key exactly when the index slot of that key is settled |
| TrxState.Bookkeeping | doc-db/src/trx.rs:374-479 | after any sequence of gets, creates, writes and deletes, index and entries are mutually inverse exactly when no load failed to deserialize, and then every document sits at its own key |
| TrxState.RequestIsSound | doc-db/src/trx.rs:490-537 | a request built from tracked entries validates, and every mutated key is guarded by a condition on that same key |
| TrxState.EveryRequestIsSound | doc-db/src/trx.rs:597-615 | the same for the request after any sequence of operations |
| TrxState.SwallowedLoadErrorMisplaces | doc-db/src/trx.rs:386-399 | for any two keys: a failed load of the first, swallowed, then a load of the second makes a create of the first write to the second |
| TrxObject.Tracker.RegisterLoaded | doc-db/src/trx.rs:374-422 | the in-place update equals the modelled one and keeps the index inverse unless the load does not deserialize |
| TrxObject.Tracker.Create | doc-db/src/trx.rs:424-461 | the in-place update equals the modelled one and keeps the index inverse |
| TrxObject.Tracker.TakeEntries | doc-db/src/trx.rs:463-479 | empties the entries and fails exactly when a handle is still alive, which is when the modelled commit refuses |
| BufferedWrites.ReadSucceedsIff | doc-db/src/trx.rs:169-191 | a read is answered exactly when it asks for no key twice, every load succeeds and everything found deserializes, and then with what was found, key by key; asking for a tracked key changes nothing |
| BufferedWrites.CreateSucceedsIff | doc-db/src/trx.rs:424-461 | a create succeeds exactly when the transaction has no document of that key yet, and changes nothing otherwise |
| BufferedWrites.HandleIsTheLoad | doc-db/src/trx.rs:386-422 | the handle a read answers with shows the bytes that were loaded and stands for the key that was asked for |
| BufferedWrites.LoadedDocument | doc-db/src/trx.rs:522-540 | after any sequence of operations and a commit on either kind of backend, a loaded document is gone if its handle was deleted, unchanged if it was only read, and otherwise exactly what was last written through the handle |
| BufferedWrites.CreatedDocument | doc-db/src/trx.rs:424-461 | a created document is stored as last written, or as created, unless its handle was deleted, which leaves the key alone |
| BufferedWrites.UntouchedDocument | doc-db/src/trx.rs:592-625 | a commit changes no document that the closure neither created nor wrote or deleted through a handle |
| BufferedWrites.PlainContent | doc-db/src/memory.rs:39-61 | a put or delete outside any transaction sets or removes that one document, and a load reports what is stored |
| BufferedWrites.SoloIsAfter | doc-db/src/trx.rs:163-240 | the bookkeeping of a closure run alone is that of the sequence of its own operations |
| CommitDecision.CommitDecides | doc-db/src/trx.rs:463-653 | a commit succeeds exactly when no handle escapes, all bytes serialize, every loaded or created entry finds what it expects and no version is exhausted; a conflict names key and expected revision of the first entry that does not, and an escaping handle is an error |
| Backends.ConditionPins | doc-db/src/trx.rs:490-514 | when the condition made from a load holds and the key was not restarted, the backend again holds exactly what was loaded |
| Backends.TransactGrows | doc-db/src/dodb.rs:361-371 | no transaction makes an old revision current again within an incarnation |
| AttemptInvariant.NextKeeps | doc-db/src/trx.rs:163-240 | every step of every attempt and every plain write keeps the replay invariant: each attempt is where its closure alone would be on any backend that agrees with what it loaded |
| AttemptInvariant.RunKeeps | doc-db/src/trx.rs:309-345 | the replay invariant holds in every reachable world |
| AttemptInvariant.BatchIgnoresRest | doc-db/src/trx.rs:163-191 | a batched read that stops early depends only on the loads it registered |
| Serializability.CommittedIsAtomic | doc-db/src/trx.rs:309-345 | in every interleaving, an attempt that commits soundly gives the output and the backend of its closure run alone at the commit instant |
| Serializability.CommittedIsAtomicRevisioned | doc-db/src/dodb.rs:361-371 | on a backend whose revisions never repeat the incarnation proviso disappears |
| Serializability.FailedCommitChangesNothing | doc-db/src/trx.rs:592-653 | an attempt that does not commit leaves the backend unchanged |
| Serializability.RunIsSerial | doc-db/src/trx.rs:309-345 | every interleaving of sound commits and plain writes ends in the state of its serial execution |
| Serializability.SameIncarnationIff | doc-db/src/memory.rs:145-149 | the incarnation of a key is the same at two instants exactly when no step between removed it or wrapped its version |
| StaleCommits.ReincarnateReaches | doc-db/src/memory.rs:271-281 | one delete and enough puts bring any version back with any other contents |
| StaleCommits.StaleCommitAfterReincarnation | doc-db/src/memory.rs:145-149 | whatever attempt is about to commit in a reachable world and whatever document it read, that schedule makes the store disagree with what it read and the attempt still commits |
| StaleCommits.ReaderIsAtomicIff | doc-db/src/trx.rs:309-345 | a closure that reads one document commits exactly when the version is the one it read, and then gives the serial result exactly when the contents are |
| StaleCommits.StaleReaderIsNotSerial | doc-db/src/trx.rs:309-345 | serializability fails without the proviso: for every key, version and two contents a run commits with another result than the closure has alone at that instant |
| MarkedClosures.RunSwaps | doc-db/src/trx.rs:309-345 | a run is the same up to the commit of an attempt when its closure is replaced by one that differs only in what it returns |
| MarkedClosures.SoloShows | doc-db/src/trx.rs:163-191 | a closure run alone is shown only contents the store holds |
| MarkedClosures.StaleCommitIsNotSerial | doc-db/src/trx.rs:309-345 | the converse: whenever an attempt commits although the store no longer holds contents its closure was shown, a closure that acts alike commits in the same run with a result it never has alone |
| NeededProvisos.HealthIsNeeded | doc-db/src/trx.rs:386-399 | for every key and two contents, an attempt that swallowed a failed load commits with another result than alone, with no key restarted and all keys loadable |
| NeededProvisos.LoadabilityIsNeeded | doc-db/src/trx.rs:163-191 | for any two keys, wrapping the version of a key asked for in vain makes an attempt commit where its closure alone would not |
| SerialSchedule.SoloIsASchedule | doc-db/src/trx.rs:163-240 | the serial reference is a run of the step system in which nobody else moves |
| SerialSchedule.SoloCommitIsASchedule | doc-db/src/trx.rs:592-653 | so is the serial reference with its commit |
| SerialSchedule.LoadsHaveInstants | doc-db/src/trx.rs:212-240 | every load an attempt has is what its key held at one of the attempt's own arrival steps |
| SerialSchedule.CommittedIsAtomicUndisturbed | doc-db/src/trx.rs:309-345 | serializability on the memory store from a condition on the steps alone: no document the attempt read was deleted or wrapped between its load and the commit |
| LostUpdate.CommitIncrements | doc-db/src/memory.rs:108-166 | a commit that writes read value + 1 moves the stored counter by one, one that does not write leaves it |
| LostUpdate.NoLostUpdate | doc-db/src/trx.rs:275-345 | in every reachable state a counter whose committed mutations are all the loaded value plus one equals its initial value plus the number of commits that wrote it |
| CountingClosures.ActKeepsCounting | doc-db/src/trx.rs:142-161 | every action of a counting closure keeps that the buffered counter is one more than the loaded one exactly when the closure has set it |
| CountingClosures.EverySetCounts | doc-db/src/trx.rs:275-345 | over every interleaving, when each closure sets the counter only to what its handle showed plus one, the counter ends as its initial value plus the number of committed transactions whose closure set it |
| CountingClosures.IncrementCounts | doc-db/src/trx.rs:142-161 | the closure that loads the counter, sets it to its successor and finishes is of that kind |
| Backoffs.EveryDelayIsDrawn | doc-db/src/trx.rs:347-357 | every delay up to the ceiling is drawn, and the draws repeat with that period |
| Backoffs.Delay | doc-db/src/trx.rs:347-357 | a jittered delay never exceeds its exponential ceiling, whatever bytes were drawn |
| Retry.RunTrx | doc-db/src/trx.rs:275-307 | the loop computes the recursive description of the run, sleeping once as drawn before every further call and at most 750 ms in all |
| Retry.RunTrxReturns | doc-db/src/trx.rs:275-345 | the world left behind is the run of the whole trace, all attempts but the last conflicted and none began after it |
| Retry.ConflictMeansAllConflicted | doc-db/src/trx.rs:275-307 | at most five calls, and Conflict comes out exactly when all five attempts conflicted |
| Retry.ChangesAreCommits | doc-db/src/trx.rs:592-653 | each change an attempt makes to the backend is accounted for by an attempt that has committed |
| Retry.AtMostOneChange | doc-db/src/trx.rs:271-357 | all attempts of a run change the backend at most once, and only if the result is Committed |
| Turso.TursoTransaction.ExecuteInTx | doc-db/src/turso/transaction.rs:7-22 | one message needs the baton, loses it unless the reply carries one, and runs on the server unless it was lost on the way |
| Turso.TursoTransaction.ExecuteStatements | doc-db/src/turso/transaction.rs:278-298 | results come back only if no statement reported an error, and then those of the statements that answered, in order |
| Turso.TursoTransaction.ValidateConditions | doc-db/src/turso/transaction.rs:219-252 | changes nothing, and a verdict, given only if every statement answered, is the one the stored rows give |
| Turso.TursoTransaction.ApplyMutations | doc-db/src/turso/transaction.rs:254-276 | success, given only if every statement answered, means all statements ran in the open transaction; the committed store is untouched |
| Turso.TursoTransaction.Commit | doc-db/src/turso/transaction.rs:135-160 | the server state after success and after an error, exactly: success commits the working store unless the reply had no result because COMMIT did not run; an error leaves the server alone unless COMMIT ran unacknowledged, which is always reported as an error |
| Turso.TursoTransaction.Rollback | doc-db/src/turso/transaction.rs:162-191 | one request if there is a baton and none otherwise; discards the open transaction exactly when ROLLBACK runs, never changes the committed store, and succeeds exactly when the reply reports no error |
| Turso.TursoTransaction.Transact | doc-db/src/turso/transaction.rs:193-307 | under every fault: the outcome reported is that of the statements; the committed store is exactly theirs on success, unless COMMIT was skipped without an error, and exactly the old one on an error, unless COMMIT ran unacknowledged; both exceptions in both directions; lost requests and statement errors are reported as errors; the server-side transaction is closed exactly when COMMIT or ROLLBACK ran, one of which is sent unless no baton is left, and a conflict is reported only after a ROLLBACK without an error |
| Turso.CommitReportedWithoutResult | doc-db/src/turso/transaction.rs:152-160 | for every store and document, a reply without a result for a COMMIT that did not run makes the client report a commit that changed nothing |
| TursoRefinement.CheckAgrees | doc-db/src/turso/transaction.rs:309-352 | on every store of 64-bit versions the SQL validation stops at the memory backend's condition, reports it as the conflict also where memory fails on a negative version, and fails when it names an unrepresentable revision |
| TursoRefinement.ApplyAgrees | doc-db/src/turso/transaction.rs:354-390 | on every store, absent overflow, the SQL statements and the staged copy give the same store |
| TursoRefinement.BackendsAgreeIff | doc-db/src/turso/transaction.rs:193-298 | on every store of 64-bit versions the two backends give the same outcome and store exactly when no unrepresentable revision decides, no commit passes the largest version and no negative version decides |
| TursoRefinement.SqlOrderIrrelevant | doc-db/src/turso/transaction.rs:254-276 | permuting the mutations of a validated request changes neither outcome nor store of the SQL statements |
| BeginImmediate.BusyBackoff | doc-db/src/turso/database.rs:126-135 | each delay is the one drawn and fits the running bound of the waits so far |
| BeginImmediate.BeginImmediate | doc-db/src/turso/database.rs:774-835 | for every sequence of replies: at most 9 attempts and 515 ms, one drawn sleep before every retry but the one that created the table, success exactly when the last reply grants, only retryable replies before it, a busy reply ends it only when the attempts are used up, and the first report of a missing table is followed by another attempt exactly when the table was created |
| Paging.CursorAdvances | doc-db/src/dodb.rs:197-238 | taking the last key of a page as cursor leaves exactly the rows after that page |
| Paging.ReadPages | doc-db/src/dodb.rs:197-275 | for every ordered store, cursor and page size the paging loop ends with rows in key order that are exactly the stored rows of the partition, or of all, past the cursor with fewer than `limit` such rows before them |
| Paging.ReadOnce | doc-db/src/memory.rs:283-325 | the single pass returns exactly those rows too, and one row when the limit is 0 |
| Paging.TakesFirstWanted | doc-db/src/memory.rs:307-325 | taking from the filtered rows is choosing, in key order, each wanted row that fewer than `limit` wanted rows precede |
| Paging.QueryComparesSortKeys | doc-db/src/memory.rs:283-305 | within a partition the pair cursor compares sort keys only |
| Paging.PagingAgreesIff | doc-db/src/memory.rs:283-325 | the two reads agree exactly when the limit is at least 1 or nothing remains |
| Rpc.RequestSurvives | doc-db/src/remote.rs:150-192 | the host rebuilds from the wire exactly the transact request the client sent |
| Rpc.SemanticIsDirect | doc-db/src/lib.rs:267-410 | for every operation and every backend, executing the translated operation and reading its response back is the direct call, in state and result |
| Rpc.FrameArrives | fn0/fn0/src/doc_db_hijack.rs:43-76 | a frame that fits reaches the host once, and the client reads the host's own response, or an error when that does not fit |
| Rpc.RemoteIsDirect | doc-db/src/remote.rs:19-202 | for every call: same state as the direct call if the request fits, no effect and an error if it does not, and the same result exactly when both frames fit or the call fails anyway, conflicts on status 409 included |
| Rpc.PurgeIsRefused | doc-db/src/lib.rs:404-408 | a tenant purge sent to a host database fails and changes nothing |
| Rpc.StatusTells | fn0/fn0/src/doc_db_hijack.rs:63-76 | each status belongs to exactly one kind of response: 409 to a conflict, 400, 403, 500 and 505 to the four errors, 200 to everything else |
| TextOrder.LeqIsLexicographic | doc-db/src/memory.rs:294-316 | strings are ordered by their first difference, a prefix before the longer string |
| TextOrder.SortForgetsOrder | fn0/fn0/src/metric_gate.rs:190-197 | sorting label pairs gives the same list for every permutation |
| MetricKeys.BuildSeriesKey | fn0/fn0/src/metric_gate.rs:177-188 | the loop builds the separator-joined key of name and pairs |
| MetricKeys.SeriesKeyInjective | fn0/fn0/src/metric_gate.rs:177-188 | equal keys have equal names and equal pair lists when names and pairs are free of the separators |
| MetricKeys.SeriesKeyIgnoresOrder | fn0/fn0/src/metric_gate.rs:177-197 | the key does not depend on the order of the attributes |
| MetricKeys.SameSeriesIff | fn0/fn0/src/metric_gate.rs:177-197 | two points are the same series exactly when name and multiset of attributes are equal |
| MetricGate.EvictKeepsInv | fn0/fn0/src/metric_gate.rs:51-59 | eviction keeps every name and label-value time the maximum over the live series using it |
| MetricGate.EvictTwice | fn0/fn0/src/metric_gate.rs:51-59 | an earlier eviction is absorbed by a later one |
| MetricGate.AdmitKeepsInv | fn0/fn0/src/metric_gate.rs:61-83 | so does admitting a point |
| MetricGate.AdmitKeepsCaps | fn0/fn0/src/metric_gate.rs:61-83 | under that invariant the fast path for a known series never grows names or label values, so all caps survive |
| MetricGate.AdmitKeepsSupport | fn0/fn0/src/metric_gate.rs:61-83 | for every point, plain or not, admission keeps that no name or label value was seen after every series |
| MetricGate.NoSeriesMeansEmpty | fn0/fn0/src/metric_gate.rs:290-300 | under that weaker invariant alone, a project without live series tracks nothing, so forgetting it loses nothing |
| MetricCapBreaks.CollidingKey | fn0/fn0/src/metric_gate.rs:177-188 | separators inside names or values make any number of points with different names and attributes share one series key |
| MetricCapBreaks.CollisionsEscapeTheNameCap | fn0/fn0/src/metric_gate.rs:61-83 | from every name and for every n, one export of n single-attribute points with colliding keys makes an empty gate track n names in one series |
| MetricCapBreaks.RepeatedKeyEscapesTheLabelCap | fn0/fn0/src/metric_gate.rs:61-83 | one point that repeats an attribute key makes an empty gate track all its values, however many |
| MetricGate.AdmitKeepsCapsIff | fn0/fn0/src/metric_gate.rs:61-83 | an admitted point keeps the caps exactly when its name and its label values have room |
| MetricRuns.CapsAlwaysHold | fn0/fn0/src/metric_gate.rs:277-300 | over every sequence of enforce and snapshot calls with a non-decreasing clock, the caps and the maximum invariant hold in every project |
| MetricRuns.CapsHoldFromStart | fn0/fn0/src/metric_gate.rs:51-83 | the same from the empty gate |
| MetricRuns.KeepsExisting | fn0/fn0/src/metric_gate.rs:61-83 | a series admitted at t is admitted again up to t + 300 whatever came between |
| MetricRuns.ApplyKeepsSupport | fn0/fn0/src/metric_gate.rs:277-300 | every export and every snapshot keeps the weaker invariant in every project, whatever points it brings |
| MetricRuns.SnapshotsInvisible | fn0/fn0/src/metric_gate.rs:290-300 | dropping all snapshot calls from a sequence changes no admission decision, for any points |
| MetricRuns.SnapshotsNeverMatter | fn0/fn0/src/metric_gate.rs:277-300 | two sequences on a non-decreasing clock that differ only in snapshots decide alike, for any points |
| MetricRoom.RefusedIffCapBreaks | fn0/fn0/src/metric_gate.rs:61-83 | a point is admitted exactly when tracking it keeps the caps, and refused exactly when its series is new and 1000 series are live, or 100 names and its name is new, or 100 values of one of its label keys and its value is new |
| MetricRoom.WhatFitsIsAccepted | fn0/fn0/src/metric_gate.rs:277-288 | after any calls at any times, if the points of the project within the last 300 seconds and the present export stay within the caps, every point of the export is accepted |
| MetricFilter.KeptConcat | fn0/fn0/src/metric_gate.rs:114-175 | filtering a concatenation filters the second part with the state the first part left |
| MetricFilter.KeptIsSelected | fn0/fn0/src/metric_gate.rs:114-128 | the surviving points are exactly those the gate decided to admit, in order |
| MetricFilter.ProjectState.Evict | fn0/fn0/src/metric_gate.rs:51-59 | the in-place eviction computes the modelled one |
| MetricFilter.ProjectState.Admit | fn0/fn0/src/metric_gate.rs:61-83 | the in-place admission computes the modelled decision and state, and in a capped project under the invariant a plain point is admitted exactly when tracking it keeps the caps |
| MetricFilter.ProjectState.FilterPoints | fn0/fn0/src/metric_gate.rs:114-128 | keeps exactly the admitted points and counts the others: kept + dropped is the input |
| MetricFilter.ProjectState.FilterMetric | fn0/fn0/src/metric_gate.rs:130-151 | the same for any kind of data, leaving name and kind alone and a metadata-only metric as it is |
| MetricFilter.ProjectState.EnforceProject | fn0/fn0/src/metric_gate.rs:153-175 | over a whole export: survivors are the admitted points in order under their name and kind, kept + dropped is the input, metadata-only metrics all survive, no emptied metric, scope or resource remains |
| MetricFilter.MetricCardinalityGate.Enforce | fn0/fn0/src/metric_gate.rs:277-288 | one call is one enforce operation of the sequences above, on one project only; on a clock that does not go back, an export of plain points keeps the caps and the maximum invariant of the whole gate; an export that fits into the caps with the points of the last 300 seconds loses nothing |
| MetricFilter.MetricCardinalityGate.Snapshot | fn0/fn0/src/metric_gate.rs:290-300 | one call is one snapshot operation, reports the series count of exactly the remaining projects, and keeps the same invariant |
| Decimals.ParseDecimal | object-storage/src/http.rs:297-321 | reading a printed 64-bit number gives the number back |
| ListXml.ReplaceUndoesOne | object-storage/src/http.rs:347-353 | replacing one entity undoes the escaping of that character and no other, as long as the ampersand is still escaped |
| ListXml.UnescapeEscape | object-storage/src/http.rs:347-353 | the five replaces in sequence undo escaping for every string, including one that looks like an entity |
| ListXml.BlocksBetween | object-storage/src/http.rs:323-337 | the loop over the shrinking rest collects the blocks in order |
| ListXml.ParseListXml | object-storage/src/http.rs:297-321 | the loop over the blocks computes the parsed listing |
| ListXml.EntryRoundTrip | object-storage/src/http.rs:297-321 | an entry printed with escaped key and decimal size is read back as itself |
| ListXml.AllBlocksAreFound | object-storage/src/http.rs:323-345 | in a printed listing the reader finds exactly the printed entries, in order, among any other elements |
| ListXml.FlagRoundTrip | object-storage/src/http.rs:339-345 | the truncation flag is read back as printed |
| ListXml.ListingRoundTrip | object-storage/src/http.rs:297-353 | for every list of keys, sizes and flag, parsing the printed listing returns the same entries, with the last key as cursor exactly when truncated |
| HeadingIds.Slugify | fn0/control/rs/build.rs:485-501 | the loop computes the slug |
| HeadingIds.SlugShape | fn0/control/rs/build.rs:485-501 | a slug never starts or ends with a dash and never has two in a row |
| HeadingIds.SlugIsItsWords | fn0/control/rs/build.rs:485-501 | a slug is the words of the text, split at white space, dashes and underscores, in order with one dash between each two |
| HeadingIds.WordsKeepTheLetters | fn0/control/rs/build.rs:485-501 | the words together are the lower-cased alphanumeric characters of the text, none lost, added or moved |
| HeadingIds.TextIsWhatIsShown | fn0/control/rs/build.rs:451-460 | the text of a heading is the text and code between its start and its first end, in order |
| HeadingIds.BaseSlugIsItsWords | fn0/control/rs/build.rs:461-464 | a heading starts from its words, or from its position if it has none, and never from nothing |
| HeadingIds.CandidatesDiffer | fn0/control/rs/build.rs:466-470 | numbered candidates of one slug are pairwise different |
| HeadingIds.Pigeonhole | fn0/control/rs/build.rs:467-470 | no more candidates can be taken than there are used slugs |
| HeadingIds.UniqueSlug | fn0/control/rs/build.rs:465-470 | the search ends within one more step than there are used slugs, with the first free candidate |
| HeadingIds.EveryHeadingIsFound | fn0/control/rs/build.rs:448-476 | when headings do not nest, every heading without an id gets one |
| HeadingIds.HeadingText | fn0/control/rs/build.rs:451-460 | collects the text and code events up to the end of the heading |
| HeadingIds.ChooseIds | fn0/control/rs/build.rs:444-476 | for every event list the loop ends with pairwise distinct ids for exactly the untitled headings, in document order, each the first candidate that no earlier heading took |
| HeadingDocument.ChosenIsUnique | fn0/control/rs/build.rs:444-476 | that description leaves no choice: exactly one list meets it, and `Choices` computes it from the events |
| HeadingDocument.AllIdsDistinctIff | fn0/control/rs/build.rs:444-483 | all ids of the resulting document are pairwise distinct exactly when the explicit ones were and none of them is one that `Choices` computes from the document |
| HeadingDocument.EveryBaseSlugIsChosen | fn0/control/rs/build.rs:461-473 | whatever the other headings are called, the slug of each untitled heading ends up as some id |
| HeadingDocument.AllIdsDistinctForDifferentSlugs | fn0/control/rs/build.rs:444-483 | when the slugs of the untitled headings differ, all ids are distinct exactly when the explicit ones were and none is such a slug |
| HeadingDocument.ExplicitIdIsRepeated | fn0/control/rs/build.rs:444-483 | a document in which any untitled heading has an explicit id as its slug ends up with an id twice |
| HeadingDocument.AddHeadingIds | fn0/control/rs/build.rs:444-483 | writes exactly the computed ids into exactly those headings, changes no other event, and leaves all ids distinct under exactly the condition above |
| BodyBudget.CollectBodyLimited | fn0/fn0/src/body_limit.rs:38-71 | a body is accepted exactly when it is free of faults and its data is within the limit, giving the exact concatenation; otherwise the first frame that goes wrong decides between too large and broken |
| BodyBudget.NextKeeps | fn0/fn0/src/body_limit.rs:42-71 | every step of concurrent collections conserves the permits and keeps each buffer within its limit |
| BodyBudget.BudgetHolds | fn0/fn0/src/body_limit.rs:38-82 | in every interleaving of collections, frames and drops all buffers together stay within 32 MiB |
| BodyBudget.PermitsAreLeast | fn0/fn0/src/body_limit.rs:42-50 | the permits of a limit within the budget are the fewest chunks that cover it |
| BodyBudget.WhatFitsIsGranted | fn0/fn0/src/body_limit.rs:42-50 | bodies whose limits fit into chunks that together are within the budget are all granted at once |
| BodyBudget.UnaccountedLimitEscapes | fn0/fn0/src/body_limit.rs:42-50 | under any limit that can be granted but exceeds the budget, one body alone exceeds it |
| BodyBudget.CutLimitIsUnaccounted | fn0/fn0/src/body_limit.rs:42-50 | there are such limits: the cut to 32 bits can leave no permit at all |
| BodyBudget.EveryLimitIsGrantable | fn0/fn0/src/body_limit.rs:9-17 | from every reachable state, dropping the live bodies restores the whole budget, and then each configured limit is granted |
| MeteredBody.PollsKeep | fn0/fn0/src/egress.rs:89-121 | the history invariant holds after any number of polls, whatever the wrapped body and the budget answer |
| MeteredBody.AnswerIsHistory | fn0/fn0/src/egress.rs:89-121 | a poll answers with an item exactly when that item is added to what was handed out, and with nothing exactly when nothing is |
| MeteredBody.PaidBeforeReleased | fn0/fn0/src/egress.rs:89-121 | over the answers of any number of polls: every non-empty frame the wrapped body gave is charged once, in order and for its size, and the frames answered with are, size by size and as many as charges were granted, the charged ones but for at most the last |
| MeteredBody.ReleasedIsAPrefix | fn0/fn0/src/egress.rs:89-121 | the items answered with are a prefix of those the wrapped body gave, at most one behind, until a refusal of the budget puts one error in place of the refused frame and only the end follows |
| MeteredBody.EverythingArrives | fn0/fn0/src/egress.rs:89-121 | when the budget refuses nothing and grants a charge per non-empty frame, enough polls answer with everything the wrapped body gave |
| MeteredBody.RefusalIsFinal | fn0/fn0/src/egress.rs:94-96 | after a refusal every poll reports the end |
| MeteredBody.EgressMeteredBody.PollFrame | fn0/fn0/src/egress.rs:89-121 | the looping poll over the mutable fields is the single modelled step |
| LogLines.EmitsUpToLastKept | fn0/fn0/src/execute.rs:83-91 | a line is emitted exactly when its text has a character that is not stripped, and is the text up to the last such character |
| LogLines.LinesSplit | fn0/fn0/src/execute.rs:83-91 | the lines of a stream split at any newline are the lines before and the lines after |
| LogLines.CompleteThenRest | fn0/fn0/src/execute.rs:75-91 | emitting the complete lines and keeping the rest loses nothing, whatever comes next |
| LogLines.RestIsTheLastLine | fn0/fn0/src/execute.rs:83-91 | what is kept is a newline-free tail that starts the stream or follows a newline |
| LogLines.ChunkingIsInvisible | fn0/fn0/src/execute.rs:75-110 | however a stream is cut into writes, writes plus shutdown emit the non-empty trimmed lines of the whole stream |
| LogLines.TracingWriter.PollWrite | fn0/fn0/src/execute.rs:76-92 | accepts all bytes, emits the lines they complete and keeps exactly the rest |
| LogLines.TracingWriter.PollShutdown | fn0/fn0/src/execute.rs:98-109 | emits the rest as last line if anything of it is left, and clears it |

## Left out

- HTTP, QUIC, TLS and the serde and base64 codecs: document serialization is part of a document's value, and the frame codec of the document RPC is any pair of printers and parsers that undo each other.
- Error texts: an error is modelled as an error without its message.
- Closures that are not deterministic functions of their replies, and the unsafe cells, reference counts and futures behind document handles: a handle is a slot number, and the handles that outlive the closure are named by its last action.
- AttemptInvariant.NextKeeps: a closure has one read in flight at a time, though a read of several keys loads them at separate instants; `Trx::get` takes a shared reference, so the source also allows two reads to overlap.
- The re-read that fills in the actual revision of a reported conflict (doc-db/src/trx.rs:628-652): it changes no state and only enriches the message.
- The dodb server: a page is taken to be the next rows in key order, and its revisions are taken never to repeat.
- Explicit memory transactions: their commit overwrites the whole store with a snapshot, so nothing is claimed for them.
- The SQL text dispatcher of the memory backend and the mock builders: test conveniences.
- Batches of typed requests in doc-db/src/lib.rs, which prepare their operations in order and hand each one its own result.
- The tenant purge of the worker and tenant ids: outside the document protocol.
- A SQL server that rolls a transaction back by itself after a failed statement: a failed statement leaves the open transaction as it is, and the client's own rollback or the lost baton ends it.
- Network loss between guest and host: every posted frame of the document RPC arrives and is answered. The lost messages of the SQL backend are modelled.
- Clocks that step backwards in the metric gate: a non-decreasing clock is a hypothesis, except for `WhatFitsIsAccepted`.
- Rendering of attribute values to strings, and the metric that reports the dropped count: a data point carries its attributes as strings.
- Percent-encoding of object paths, and UTF-8 decoding of a listing body.
- `size_hint` and `is_end_stream` of the metered body: the former ignores a held frame.
- The order in which waiting collections are granted permits, and memory held by a frame before it is copied.
- wasmtime setup, provisioning, deployment, command line tools and experiments.
- Backends.TransactGrows: states what serializability needs of the abstract revisioned store, not what a dodb server does.
- ListXml.ListingRoundTrip: the printed document may hold any other text around and inside the entries, as long as that text does not contain the tags the reader searches for there.
- Rpc.RemoteIsDirect: the limit of a query or scan is one the host can represent, which is what a direct call requires too.
