# Arc node: traces, consensus store and schema migration

A Dafny model of three stateful parts of the Arc node, and proofs of what they promise over whole
runs.

**Event inspector and trace builder** (`crates/debank-rpc`). `ArcEventInspector` listens to EVM
callbacks and keeps a frame stack, a growing list of frames and events and a cursor into the
journal's log list. `build_debank_traces` walks the captured frames recursively into four lists;
`successful_logs` computes the surviving logs in one flat pass; `trace_block.rs` refuses a block
when these disagree with execution. The proofs say that the logs never disagree, and that clean
lists disagree with the receipt status only if a root frame could be a subcall, which the registry
of subcall precompiles excludes.

**Consensus store** (`crates/consensus-db/src/store.rs`). Seven ordered tables: batched rollback
with crash points, batched pruning, the bounded table of pending proposals, range reads.

**Migration coordinator** (`crates/consensus-db/src/migrations.rs`). A batched cursor scan per
table that rewrites records and writes the schema version last, with dry run, crash and resume.

`dafny verify dfyconfig.toml` checks the whole project.

## How the parts fit

| modules | content |
|---|---|
| `Basics`, `Text` | optional values, results, decimal rendering |
| `Capture`, `Callbacks`, `Inspector` | captured frames and events, callbacks as functions on values, the inspector object proved against them |
| `Execution` | the machine's steps and the runs they form |
| `Traversal`, `Shape`, `Books`, `Runs`, `RunTheorems` | the invariant every step keeps, and what complete runs guarantee |
| `TraceBuilder`, `TraceMethods` | the builder as functions, and its procedures proved against them |
| `Provenance`, `ListTheorems`, `Numbering`, `Storage` | where every list entry comes from, its bucket, index and storage flag |
| `Placement`, `Positions`, `PositionTree`, `Addresses`, `Ids` | positions, addresses and ids of a transaction's entries |
| `Buckets`, `BuildErrors`, `Classification`, `Completions` | the four lists, when building fails, the receipt check, restored nodes |
| `EndToEnd`, `RootCalls`, `ValidationHash` | machine steps to lists, runs whose root is no subcall, the validation hash |
| `Keys`, `Tables`, `Rollback`, `RollbackResume`, `Stranding` | key order, tables, rollback and reruns after a crash |
| `Prune`, `BlockRuns`, `Pending`, `PendingRuns`, `RangeRead` | pruning, the pending table, range reads |
| `Records`, `Migration`, `Coordinator` | rewriting records, a migration's steps, the coordinator |
| `MigrationResume`, `StartupResume`, `FirstVersion` | resuming a migration or a start, the version 1 migrators |

## What is assumed about the machine

`Execution` states the EVM as an environment, after `crates/evm/src/evm.rs` (frame entry and exit,
subcall completion). The theorems of `EndToEnd` and `RootCalls` also assume that the tracing
inspector recorded one node per frame with the frame's success flag (`TracedTogether`); those of
`RootCalls` that the root frame is no subcall (`RootIsNoSubcall`). Nothing else is assumed.

- A frame start hands over all journal logs and takes a checkpoint at the journal's length. One
  transaction has one root frame.
- Logs are appended to the journal while a frame without a completion is on top.
- Journal logs not yet seen are polled, or delivered one by one by the log callback with nothing
  in between.
- A frame that ends unsuccessfully has its journal logs cut back to its checkpoint before its end
  callback. A completed frame ends with the completion's final verdict.
- A completion adds no logs. Before the frame's end it cuts the journal back to the frame's
  checkpoint unless child and completion both succeeded; after the frame's end it does so when it
  rolls a successful child back. It reports the journal length that results. What the inspector has
  not been handed yet after an early completion follows at once through the log callback, and a late
  completion comes directly after the frame's end.

Hashing is a parameter: MD5 as a function to 32-character strings whose second character is
hexadecimal, without collisions among the texts that are actually hashed; SHA-1 as a function to
160-bit numbers.

## Where a promise does not hold

- *Receipt status.* In the environment above, the status a transaction ends with is the root frame's
  effective verdict except exactly when the root ran as a subcall whose child failed while the
  completion reported success (`CompleteRunResult`, `ReceiptCheckOnRuns`; `MaskedRun` is such a run).
  The node does not get there: the only registered subcall precompile answers two contracts
  (`crates/evm/src/evm.rs`, line 1776), and a root frame's caller is the signing account. For
  runs whose root is no subcall the promise holds without exception (`ReceiptCheckOnPlainRuns`,
  `PlainRunsPass`); a registry open to transaction senders would break it.
- *Rerunning a rollback.* The documentation of `rollback_to_height` says a crash leaves the database
  consistent at an intermediate height. A rerun takes the highest certificate left as its head, so
  rows between that certificate and the crash point stay behind. A rerun finishes the rollback
  exactly when there are none (`ResumeExact`), in particular whenever every height in between has a
  certificate (`CertifiedResumes`, `CrashesResume`). Certificates pruned above the target are the way
  to lose it (`PrunedCertificatesStrand`); `StrandedBlock` reaches such a store by ordinary writes and
  pruning.
- *Resuming a migration.* A stopped migration can be run again with the same outcome when rewritten
  records no longer need rewriting (`ResumeSame`, `CrashesResume`, `RestartsResume`). The version 1 migrators rewrite
  every record every time, so with them a rerun has the same outcome exactly when no record had been
  rewritten before the stop (`RerunExact`); `PrefixedTwice` is a certificate that ends up with two
  version bytes.

## Model

| member | source | states |
|---|---|---|
| `Capture.SuccessfulLogs` | crates/debank-rpc/src/event_inspector.rs:125-140 | the flat pass returns exactly the logs of events whose frame and all ancestors succeeded effectively, in emission order |
| `Capture.Validate` | crates/debank-rpc/src/event_inspector.rs:79-123 | accepts exactly captures that are valid, of the expected size, and in which each frame has at most one completion, one that rolls back exactly a successful child with a failing result and agrees with the flag of its phase; each error names what is wrong, a frame error the first such frame |
| `Capture.ConsistencyMeans` | crates/debank-rpc/src/event_inspector.rs:93-121 | the frame condition in terms of its members |
| `Capture.FirstCompletionAppend` | crates/debank-rpc/src/event_inspector.rs:144-149 | a completion already present hides every later one |
| `Inspector.ArcEventInspector.constructor` | crates/debank-rpc/src/event_inspector.rs:183-195 | a new inspector has no frames, no events and cursor zero |
| `Inspector.ArcEventInspector.IntoCaptured` | crates/debank-rpc/src/event_inspector.rs:198-203 | hands over frames and events; valid exactly when nothing went wrong and no frame is open |
| `Inspector.ArcEventInspector.PushFrame` | crates/debank-rpc/src/event_inspector.rs:205-220 | a new empty frame below the top one, listed last in it; invalid if the top one does not exist; all else the same |
| `Inspector.ArcEventInspector.FinishFrame` | crates/debank-rpc/src/event_inspector.rs:222-233 | the top frame gets its flag, is popped and remembered; invalid when no frame is open; all else the same |
| `Inspector.ArcEventInspector.RecordSubcallCompletion` | crates/debank-rpc/src/event_inspector.rs:235-261 | accepted exactly when the top, or last finished, frame exists and has no completion; then listed last in it with the cursor at the reported length, else invalid with frames and cursor the same |
| `Inspector.ArcEventInspector.PushEvent` | crates/debank-rpc/src/event_inspector.rs:263-278 | the event is recorded for the top frame and listed in it |
| `Inspector.ArcEventInspector.SyncJournal` | crates/debank-rpc/src/event_inspector.rs:280-291 | exactly the journal suffix from the cursor is captured for the top frame, in order; a shorter journal only moves the cursor |
| `Inspector.ArcEventInspector.CaptureCallbackLog` | crates/debank-rpc/src/event_inspector.rs:293-300 | the delivered log is captured and the cursor is the journal length |
| `Inspector.ArcEventInspector.FrameStart` | crates/debank-rpc/src/event_inspector.rs:326-341 | journal first, then the new frame |
| `Inspector.ArcEventInspector.FrameEnd` | crates/debank-rpc/src/event_inspector.rs:332-352 | journal first, then the frame is closed with its success |
| `Traversal.CallListedOnce` | crates/debank-rpc/src/event_inspector.rs:205-220 | in a well-formed capture every non-root frame is a Call member in exactly one place, in its parent, which comes earlier |
| `Traversal.EventListedOnce` | crates/debank-rpc/src/event_inspector.rs:263-278 | in a well-formed capture every event is a member in exactly one place, in its own frame |
| `Books.FailedFrameDropsLogs` | crates/debank-rpc/src/event_inspector.rs:125-140 | a failed frame with everything below it contributes no surviving log |
| `Runs.StartKeeps` | crates/debank-rpc/src/event_inspector.rs:326-341 | a frame start keeps the invariant: live captured logs are the journal up to the cursor, for every open checkpoint |
| `Runs.PollKeeps` | crates/debank-rpc/src/event_inspector.rs:314-320 | polling keeps the invariant |
| `Runs.DeliverKeeps` | crates/debank-rpc/src/event_inspector.rs:322-324 | a delivered log keeps the invariant |
| `Runs.EndKeeps` | crates/debank-rpc/src/event_inspector.rs:332-352 | a frame end, with or without a revert, keeps the invariant |
| `Runs.CompleteEarlyKeeps` | crates/debank-rpc/src/event_inspector.rs:235-261 | a completion before the frame's end keeps the invariant |
| `Runs.CompleteLateKeeps` | crates/debank-rpc/src/event_inspector.rs:235-261 | a completion after the frame's end, rolling back or not, keeps the invariant |
| `Runs.RunBalanced` | crates/debank-rpc/src/event_inspector.rs:205-352 | the invariant holds at every point of every run |
| `RunTheorems.RunWellFormed` | crates/debank-rpc/src/event_inspector.rs:205-278 | at every point of every run frames have earlier parents, members belong to their frame, and depth-first order is emission order |
| `RunTheorems.CompleteRunLogs` | crates/debank-rpc/src/trace_block.rs:368-380 | for every complete run the surviving logs are the journal's final logs, in order and with duplicates |
| `RunTheorems.CompleteRunValid` | crates/debank-rpc/src/event_inspector.rs:79-123 | every complete run's capture is valid |
| `RunTheorems.CompleteRunResult` | crates/debank-rpc/src/event_inspector.rs:151-173 | the transaction's status is the root's effective verdict if and only if the root did not mask a failed child |
| `RunTheorems.MaskedRun` | crates/evm/src/evm.rs:1110-1320 | the environment allows a run in which the root, as a subcall, masks a failed child; it takes a registry open to transaction senders |
| `TraceBuilder.ErrorMessage` | crates/debank-rpc/src/debank_trace.rs:310-333 | a status has an error text exactly when it is not a success |
| `TraceBuilder.MessageDescribes` | crates/debank-rpc/src/debank_trace.rs:310-333 | which text each status has |
| `TraceBuilder.FrameErrorTells` | crates/debank-rpc/src/debank_trace.rs:450-465 | a failed child gives its status text, a rolled back completion "parent call failed", another failing status its text, and otherwise the frame is "parent call failed" exactly when it or something above it did not succeed |
| `TraceBuilder.CallsTyped` | crates/debank-rpc/src/debank_trace.rs:369-378 | the two type texts of each call kind |
| `TraceBuilder.EventKeepsLog` | crates/debank-rpc/src/debank_trace.rs:380-400 | an event keeps its log's address and data, the first topic as selector and the others as topics |
| `TraceMethods.BuildTraceNode` | crates/debank-rpc/src/debank_trace.rs:425-534 | builds the node the specification gives, errors included |
| `TraceMethods.AppendCapturedMembers` | crates/debank-rpc/src/debank_trace.rs:537-628 | appends a frame's members, flattening hidden frames, as the specification says, stopping at the first error |
| `TraceMethods.FinishBuildTraces` | crates/debank-rpc/src/debank_trace.rs:630-657 | appends the node's entries, depth first, to the lists of their buckets |
| `TraceMethods.MarkVisible` | crates/debank-rpc/src/debank_trace.rs:680-688 | a frame is visible exactly when it is the root or some node's child |
| `TraceMethods.BuildDebankTraces` | crates/debank-rpc/src/debank_trace.rs:669-713 | refuses exactly the invalid captures, and otherwise returns the lists of the specification |
| `BuildErrors.BuildsExactly` | crates/debank-rpc/src/debank_trace.rs:425-628 | the builder succeeds exactly when every frame reached from the root was captured, has only its own events and, if shown, a node that agrees on its success; an error names something really missing or really different |
| `ListTheorems.Partition` | crates/debank-rpc/src/debank_trace.rs:554-657 | the builder never fails; its entries are every event in emission order, every visible frame in entry order and one more per visible self-destruct, each in the success bucket exactly when its frame and all ancestors succeeded |
| `Buckets.ListsPartition` | crates/debank-rpc/src/debank_trace.rs:630-713 | the same for the four lists: each holds, in order, exactly the entries of its kind and bucket, matched one by one with the frames, self-destructs and events they come from |
| `ListTheorems.EventsAreSurvivingLogs` | crates/debank-rpc/src/debank_trace.rs:537-713 | the logs behind `events` are the surviving logs in order, numbered consecutively from the incoming index; error events have index zero |
| `Numbering.BuildNumbers` | crates/debank-rpc/src/debank_trace.rs:599-620 | below every node successful events take the next indices one by one and failed ones index zero |
| `Provenance.BuildShows` | crates/debank-rpc/src/debank_trace.rs:425-628 | every entry of a node matches the frame, event or self-destruct it comes from, field by field: addresses, gas, data, types, error text, bucket and storage flag |
| `Storage.BuildStores` | crates/debank-rpc/src/debank_trace.rs:575-583 | a trace's storage flag is set exactly when some chain of shown frames, all successful below the trace, ends in an SSTORE |
| `Storage.NothingHidden` | crates/debank-rpc/src/debank_trace.rs:358-364 | without hidden frames the shown frames below a trace are the frames it called |
| `Placement.BuildPlaces` | crates/debank-rpc/src/debank_trace.rs:480-532 | positions, addresses, subtrace counts and ids of a node and everything below it follow from its own |
| `Addresses.AddressTree` | crates/debank-rpc/src/debank_trace.rs:480-623 | addresses differ; `a` followed by `i` is present exactly when `a` is present with more than `i` subtraces; the parent id is that of the trace one step up |
| `PositionTree.PositionsFormTree` | crates/debank-rpc/src/debank_trace.rs:558-623 | below every trace, children occupy positions 0 to k-1 exactly once, a self-destruct last |
| `Ids.IdsDistinct` | crates/debank-rpc/src/debank_trace.rs:255-286 | all trace and event ids of a transaction differ, though the hashed texts have no separators |
| `Classification.ReceiptCheckExact` | crates/debank-rpc/src/trace_block.rs:437-471 | the check accepts the lists if and only if no frame on a successful path reports a failing status, no self-destructing frame failed itself, and the receipt status is the root's effective verdict |
| `Classification.CheckAccepts` | crates/debank-rpc/src/trace_block.rs:437-471 | which lists the check accepts, for any lists |
| `Classification.MatchingStatusesPass` | crates/debank-rpc/src/trace_block.rs:437-471 | when statuses match success flags and self-destructing frames succeeded, the lists always pass with the root's effective verdict |
| `Completions.ApplySubcallCompletions` | crates/debank-rpc/src/event_inspector.rs:48-77 | succeeds exactly when the capture is valid and agrees with the nodes, and then has given every node the child's output and gas, the failing status first, and success exactly when child and completion succeeded; a disagreement names the first such frame, with the nodes before it done and the rest untouched |
| `Completions.RestoredVerdict` | crates/debank-rpc/src/event_inspector.rs:48-77 | a restored node succeeds exactly when its frame does effectively, in both completion phases |
| `EndToEnd.EventsAreTheJournal` | crates/debank-rpc/src/trace_block.rs:368-390 | for every complete run the builder succeeds and its events are the journal's logs, in order, numbered from the incoming index |
| `EndToEnd.ReceiptCheckOnRuns` | crates/debank-rpc/src/trace_block.rs:437-471 | for every complete run of the environment the receipt check accepts exactly when statuses and self-destructs are clean and the root masks no failure |
| `RootCalls.RootStaysUncompleted` | crates/evm/src/evm.rs:705-722 | if no step completes the root, frame 0 has no completion at any point of the run |
| `RootCalls.PlainRootResult` | crates/evm/src/evm.rs:1769-1783 | then a complete run ends with the root's own success flag, which is its effective verdict |
| `RootCalls.ReceiptCheckOnPlainRuns` | crates/debank-rpc/src/trace_block.rs:437-471 | then the receipt check accepts exactly when statuses and self-destructs are clean |
| `RootCalls.PlainRunsPass` | crates/debank-rpc/src/trace_block.rs:437-471 | then transactions with matching statuses and clean self-destructs always pass with the status they ended with |
| `ValidationHash.CalcValidationHash` | crates/debank-rpc/src/debank_trace.rs:288-304 | printing the 256-bit sum, cutting six characters and parsing gives the sum modulo a million |
| `ValidationHash.LastDigits` | crates/debank-rpc/src/debank_trace.rs:296-303 | cutting a decimal rendering to its last k characters is the remainder by ten to the k |
| `ValidationHash.NoOverflow` | crates/debank-rpc/src/debank_trace.rs:288-304 | below 2^96 ids the register does not wrap |
| `ValidationHash.HashAdditive` | crates/debank-rpc/src/debank_trace.rs:288-304 | the hash of a concatenation is the sum of the hashes modulo a million |
| `ValidationHash.HashOrderIrrelevant` | crates/debank-rpc/src/debank_trace.rs:288-304 | id lists with the same contents have the same hash, whatever their order |
| `Keys.CompositeRange` | crates/consensus-db/src/store.rs:186-191 | the range between the least keys of two heights holds exactly the keys whose height lies between them |
| `Keys.KeyOrderMeans` | crates/consensus-db/src/keys.rs:62-143 | heights decide first, then rounds, then the first differing byte of the hashes |
| `Keys.KeyOrderTotal` | crates/consensus-db/src/keys.rs:62-143 | of two different keys exactly one is less |
| `Keys.KeyOrderTransitive` | crates/consensus-db/src/keys.rs:62-143 | the key order is transitive |
| `Tables.RetainHeights` | crates/consensus-db/src/store.rs:201-205 | visits exactly the rows of the range, keeps them only on a dry run |
| `Tables.RetainKeys` | crates/consensus-db/src/store.rs:233-243 | the same for composite keys, selected by height |
| `Tables.InsideIsLoss` | crates/consensus-db/src/store.rs:201-205 | the rows counted in a range are the rows lost by removing it |
| `Rollback.ApplyBatch` | crates/consensus-db/src/store.rs:198-251 | one transaction removes the range from all seven tables; each counter is what its own table lost |
| `Rollback.Database.RollbackToHeight` | crates/consensus-db/src/store.rs:155-261 | a row goes exactly when its height is above the target and not above the highest certificate, in all seven tables, whatever the batch size; each counter is what its own table lost, or on a dry run would lose; each commit lacks exactly the heights from its low bound to the head; a dry run changes nothing |
| `Rollback.RolledBackRows` | crates/consensus-db/src/store.rs:165-258 | the rows of the result in terms of target and certificates |
| `Rollback.LowBoundMeans` | crates/consensus-db/src/store.rs:180-184 | batch number i reaches down i + 1 batch sizes from the top, but not below the stop |
| `RollbackResume.ResumeExact` | crates/consensus-db/src/store.rs:155-261 | a rerun after a crash equals the uninterrupted rollback if and only if no table has a row between the highest remaining certificate, or the target, and the crash point |
| `RollbackResume.CertifiedResumes` | crates/consensus-db/src/store.rs:155-261 | if every height above the target has a certificate, every rerun finishes the rollback |
| `RollbackResume.CrashesResume` | crates/consensus-db/src/store.rs:155-261 | the same for any number of crashes and reruns |
| `RollbackResume.PrunedCertificatesStrand` | crates/consensus-db/src/store.rs:165-176 | when a crash took every certificate, a rerun removes nothing, so the rollback is finished exactly when no row lies between target and crash point |
| `Stranding.StrandedBlock` | crates/consensus-db/src/store.rs:165-176 | storing three blocks, pruning certificates and a crash after the first rollback batch: the rerun leaves a decided block behind |
| `Prune.HeightsBelow` | crates/consensus-db/src/store.rs:1139-1154 | the lowest heights below a bound, at most the limit |
| `Prune.PruneBatch` | crates/consensus-db/src/store.rs:1390-1453 | the keys returned are the lowest below the bound, ascending, at most 300; exactly their rows go; with fewer than 300 nothing below the bound is left |
| `Prune.PruneDrains` | crates/consensus-db/src/store.rs:1390-1453 | after any number of calls the lists returned make up the lowest stale heights in ascending order and the rest is untouched |
| `Prune.PruneCompletes` | crates/consensus-db/src/store.rs:1390-1453 | ceil(n/300) calls remove exactly the n rows below the retain height, and a call returns something exactly when fewer were made |
| `BlockRuns.BlockStore.InsertDecidedBlock` | crates/consensus-db/src/store.rs:484-517 | afterwards the height holds the block and the certificate, and every other height what it held |
| `BlockRuns.BlockStore.PruneBlocks` | crates/consensus-db/src/store.rs:1463-1467 | removes the lowest blocks more than 10,000 below the highest certificate, at most 300; with fewer than 300 none of those is left |
| `BlockRuns.BlockStore.PruneHistoricalCerts` | crates/consensus-db/src/store.rs:1457-1459 | the lowest certificates below the retain height go, at most 300; blocks stay |
| `BlockRuns.RecentBlocksKept` | crates/consensus-db/src/store.rs:1463-1467 | over any run in which the head never falls, every height within the last 10,000 of the head has the block last stored there |
| `PendingRuns.ConsensusTables.InsertPendingProposalParts` | crates/consensus-db/src/store.rs:1239-1285 | inserts exactly when the height is in reach and the table has room; then the table holds the new row and the old ones under other keys, in order; else it is unchanged |
| `PendingRuns.ConsensusTables.RemovePendingProposalParts` | crates/consensus-db/src/store.rs:1120-1137 | a row stays exactly when its key differs; a sorted table stays sorted and loses one row if the key was there, else none |
| `Pending.RemovedMembers` | crates/consensus-db/src/store.rs:1120-1137 | removing a key takes out the rows under it and no others |
| `Pending.RemovedSize` | crates/consensus-db/src/store.rs:1120-1137 | in a sorted table that is one row if the key is there, else none |
| `PendingRuns.ConsensusTables.EnforcePendingProposalsLimit` | crates/consensus-db/src/store.rs:1290-1361 | kept rows have heights from the current one to current + limit - 1; an in-reach key goes only when the limit is full of lower keys; every row stays or its key is returned; rows in reach that fit the limit all stay; removed keys come as stale, far, excess, each in key order |
| `PendingRuns.EnforceByHeights` | crates/consensus-db/src/store.rs:1296-1345 | the same of the specification, by heights alone |
| `PendingRuns.ConsensusTables.CleanStaleConsensusData` | crates/consensus-db/src/store.rs:1365-1385 | keeps exactly the rows above the height, in both tables |
| `PendingRuns.EnforcePartition` | crates/consensus-db/src/store.rs:1290-1361 | every key is kept or dropped, none twice |
| `PendingRuns.EnforceKeepsLowest` | crates/consensus-db/src/store.rs:1328-1337 | every kept key comes before every in-range key that is dropped |
| `PendingRuns.EnforceIdempotent` | crates/consensus-db/src/store.rs:1290-1361 | enforcing again keeps everything and drops nothing |
| `PendingRuns.RunBounded` | crates/consensus-db/src/store.rs:1239-1385 | every run with a fixed limit and a non-decreasing height stays within the limit, with no height beyond current height + limit - 1 |
| `RangeRead.ReadHeightRange` | crates/consensus-db/src/store.rs:833-910 | refuses empty and overflowing ranges; returns for every height what its own row decodes to or what stands in for a missing row, in order, or the class of the lowest failing height with exactly the heights of that class, ascending |
| `RangeRead.AnsweredByRows` | crates/consensus-db/src/store.rs:867-906 | the answer in terms of the rows of the table |
| `RangeRead.CompleteExactly` | crates/consensus-db/src/store.rs:894-906 | an answer is complete exactly when no height fails |
| `RangeRead.PrunedIsPrefix` | crates/consensus-db/src/store.rs:870-873 | pruned heights are the part of the range below the first certificate |
| `RangeRead.AboveHeadIsSuffix` | crates/consensus-db/src/store.rs:874-877 | heights above the head are the end of the range, from the range's start or just above the last certificate |
| `Records.ScanRows` | crates/consensus-db/src/migrations.rs:332-354 | collects exactly the rewritten records of a batch, and fails exactly when some record cannot be rewritten |
| `Records.RowsFrom` | crates/consensus-db/src/migrations.rs:331-332 | the next thousand rows from the cursor's height |
| `Records.PutAllUpgrades` | crates/consensus-db/src/migrations.rs:356-361 | writing the collected records back by key rewrites exactly that slice of the table |
| `Records.PartlyRewrites` | crates/consensus-db/src/migrations.rs:338-350 | rewritten rows hold the migrator's results where it wants the record and are the same elsewhere, under the same keys |
| `Records.ReachMeans` | crates/consensus-db/src/migrations.rs:319-370 | a scan that fails has committed every thousand before the one with the first record that cannot be rewritten |
| `Records.NeedingCounts` | crates/consensus-db/src/migrations.rs:356 | the upgrade count is the number of records the migrator wants |
| `Coordinator.MigrationCoordinator.MigrateBatch` | crates/consensus-db/src/migrations.rs:319-370 | one transaction over the next thousand rows: rewritten and committed, or unchanged |
| `Coordinator.MigrationCoordinator.MigrateHeightTable` | crates/consensus-db/src/migrations.rs:297-475 | succeeds exactly when every wanted record can be rewritten, and then has rewritten them all, one commit per thousand, with the counts of records scanned, wanted and left; otherwise it stops before the thousand with the obstacle; a dry run changes nothing |
| `Coordinator.MigrationCoordinator.MigrateKeyTable` | crates/consensus-db/src/migrations.rs:482-605 | the same in one transaction: all or nothing |
| `Coordinator.MigrationCoordinator.MigrateTables` | crates/consensus-db/src/migrations.rs:186-193 | the four tables in turn; everything committed on the way is a legal stopping point |
| `Coordinator.MigrationCoordinator.MigrateStep` | crates/consensus-db/src/migrations.rs:183-196 | the four tables, then the version: takes a run midway one step further, or ends it where the specification says |
| `Coordinator.MigrationCoordinator.NeedsMigration` | crates/consensus-db/src/migrations.rs:125-157 | what each recorded version leads to; only a missing version is written |
| `Coordinator.MigrationCoordinator.BuildMigrationChain` | crates/consensus-db/src/migrations.rs:264-290 | every version after the first up to the last with its migrators, or the lowest one without |
| `Coordinator.MigrationCoordinator.Migrate` | crates/consensus-db/src/migrations.rs:162-202 | the whole chain's outcome and counters; every commit is a state the specification allows a stop in |
| `Coordinator.MigrationCoordinator.PreviewMigrate` | crates/consensus-db/src/migrations.rs:207-251 | changes and commits nothing; succeeds exactly when no step finds a record it cannot rewrite |
| `Coordinator.MigrationCoordinator.Startup` | crates/consensus-db/src/store.rs:353-366 | version check, then migration: the outcome, and every state made durable is one the specification allows a stop in |
| `MigrationResume.StepAgain` | crates/consensus-db/src/migrations.rs:186-193 | with settling migrators a step run again from any stopping point ends as the uninterrupted step, failures included |
| `MigrationResume.StepMeans` | crates/consensus-db/src/migrations.rs:186-193 | a step succeeds exactly when every wanted record of every table can be rewritten, and then each table is rewritten by its own migrator |
| `MigrationResume.ResumeSame` | crates/consensus-db/src/migrations.rs:162-202 | with settling migrators running again from any durable state gives the same tables, version and success as the uninterrupted run |
| `MigrationResume.CrashesResume` | crates/consensus-db/src/migrations.rs:162-202 | the same for any number of interruptions |
| `MigrationResume.FurtherStartup` | crates/consensus-db/src/migrations.rs:125-157 | a completed migration has written the target version and a further start changes nothing |
| `MigrationResume.PreviewExact` | crates/consensus-db/src/migrations.rs:207-251 | for a one-step chain the preview succeeds exactly when the run does, with the same counters |
| `MigrationResume.CountersSplit` | crates/consensus-db/src/migrations.rs:162-202 | a successful run of any length scans every record once per step, four tables per step, and each scanned record is upgraded or skipped |
| `MigrationResume.StepCounters` | crates/consensus-db/src/migrations.rs:52-57 | a step upgrades as many records as the four migrators want |
| `StartupResume.EmptySteps` | crates/consensus-db/src/migrations.rs:162-202 | migrating a database without records only moves its version |
| `StartupResume.StartupResumes` | crates/consensus-db/src/store.rs:325-366 | with settling migrators an interrupted start, repeated with the file in place, ends with the same tables, version and success, also for a new file left without its version |
| `StartupResume.RestartsResume` | crates/consensus-db/src/store.rs:325-366 | the same for any number of interrupted starts |
| `MigrationResume.VersionByteSettles` | crates/consensus-db/src/migrations.rs:75-80 | a migrator with the default test that writes another version byte settles |
| `FirstVersion.RerunExact` | crates/consensus-db/src/migrations/migrators.rs:48-195 | with the version 1 migrators a rerun ends as the uninterrupted step if and only if no record had been rewritten before the stop |
| `FirstVersion.FirstVersionMeans` | crates/consensus-db/src/migrations/migrators.rs:48-195 | the step succeeds exactly when no record is empty; then decided blocks have a 3 in front and the other records a 1 |
| `FirstVersion.PrefixedTwice` | crates/consensus-db/src/migrations/migrators.rs:48-90 | a stop after which a certificate gets two version bytes |

## Left out

- The EVM, the journal's own data structure and the subcall precompiles beyond the steps listed above.
- redb: a table is its rows in key order, a write transaction is one atomic change or none; the
  database file, savepoints, metrics, timing and logging are not modelled.
- SSZ, Protobuf and RLP codecs: decoding is a parameter, records are byte sequences.
- The byte encodings of keys: heights and rounds are compared as numbers, hashes as byte strings.
- Heights at the 64-bit maximum, where `Height::increment` panics, and counters that saturate; only
  the range read models the overflow check.
- A schema version of 255, where the next version panics.
- The option to open a store without upgrading it.
- State diffs, genesis traces, transaction conversion and the block loop around one transaction.
- Call steps are the list of opcodes a frame executed; of a call node only the fields the builder
  reads are modelled.
- The other readers and writers of the store, the RPC servers, the command line and the scripts.
- Pruning of proposal-monitor data, evidence and invalid payloads: the same batch on other tables.
- TraceMethods.BuildDebankTraces: requires that no captured frame calls itself, directly or through
  others, which every run guarantees; on a cycle the source recursion does not end.
- TraceMethods.BuildTraceNode: requires the same, of all captured frames.
- TraceMethods.AppendCapturedMembers: requires the same, of all captured frames.
- BuildErrors.BuildsExactly: requires the same, of all captured frames.
