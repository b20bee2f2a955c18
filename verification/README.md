# Tempo: storage, redaction and query-sharding protocols

A Dafny model of five parts of Grafana Tempo and proofs of what they promise.

* **Block builder** (`BuilderProtocol`, `BuilderInvariant`, `BuilderResults`, `BuilderOnce`, `BuilderExamples`,
  `BuilderTenants`, `BuilderIds`, `BlockBuilder`, `LiveTraces`). A section of a partition is read from the committed
  offset, one block per tenant is written under a deterministic ID with a nocompact flag, the offset is committed, the
  flags are removed; a crash is possible after any effect. `BuilderProtocol` is the state machine. `BlockBuilder` is the
  code, imperative, and each of its effects on the backend or the offset store is one step of that machine. `LiveTraces`
  is the iterator that feeds a block.
* **Redaction scheduler** (`SchedulerProtocol`, `SchedulerQuiescence`, `SchedulerHold`, `SchedulerBarrier`,
  `SchedulerShutdown`, `SchedulerExamples`, `Scheduler`, `Rescan`, `Submission`). Submission, dequeueing, provider
  channel, forwarder, `Next`, completion, rescans and quiescence as interleaved critical sections, the counters kept
  about them, and the methods themselves.
* **Redaction selection** (`RedactionWindow`, `RedactionQuery`). Which blocks a time window selects, which traces a
  bounded scan finds, and what the accepted query subset means.
* **Block lifecycle** (`BlockLifecycle`, `Backend`, `BlockSearch`). Compaction, redaction, retention and clearing
  against readers whose block lists are up to one poll old.
* **Query sharding and regrouping** (`SearchSharding`, `SearchBlocks`, `IngesterRanges`, `CacheKey`, `Regroup`,
  `RegroupMeaning`, `RegroupScopes`, `RegroupExact`).

## What the proofs assume

* Block ID hashes do not collide (the hashed bytes are proved distinct), each partition has one owner, a block write is
  atomic, the offset store returns the last commit, the log does not change, and no compacted block of an uncommitted
  section is cleared. A compaction is one step in the builder's model; the lifecycle model takes it apart.
* A submission's batch and pending jobs are added in one step. Registered jobs belong to other providers.
* Assigning and completing a job are one step each, where the code takes the job store's and the counters' locks in
  turn. A rescan reads its batch when it starts; the code walks a list of batches taken a little earlier. After a
  shutdown the forwarder may still forward a job instead of discarding it, as its select may; in the model it may do so
  even once it has begun to drain.
* Which operations on the backend and the offset store fail is arbitrary: in `BlockBuilder` a set of their numbers, in
  `Backend` any choice at all, counted.
* The encoder neither loses nor invents traces when it compacts. Retention acts on a compacted list that names marked
  blocks with a time no earlier than the mark. Polls are snapshots, and opening a block is one instant.
* Recorded block times are the data's range, exactly or truncated to seconds.
* Library sorts sort. Hash functions are parameters, and nothing is assumed of them except where a lemma says so.

## Where the code does less than it says

Each is a lemma, most with a concrete run or input and the exact condition.

* Quiescence judges a batch in one critical section and removes it by tenant in another. A finished dry run that is
  removed in between can make maintenance remove the redaction submitted after it (`DryRunRace`). Removals of a tenant's
  batch are safe in every interleaving exactly when dry runs of that tenant are not let in (`SafeExactlyWithoutDryRuns`).
* The hold before removal is measured from the quiescence entry that was read. A stalled completion can enter again
  just before the removal (`StaleReentry`); the hold since the last entry is kept exactly when no such entry is younger
  than the hold (`HoldSinceLastEntry`).
* The shutdown drain is meant not to leak in-flight counts. A forwarder that discards the job it holds returns without
  draining the channel, and a provider may hand over a job after the drain (`ShutdownStrandsAJob`); these are exactly
  the leaking schedules (`LeaksExactlyBySchedule`).
* A completion is recorded before the outputs it produced; a rescan in between misses them. Rescans cover what was
  really written exactly if outputs are recorded first (`CoversExactlyWithOutputsFirst`). A failed compaction is not
  complete, so it re-arms the rescan until it is pruned.
* A replay that reads less far than the attempt it replaces can leave a record in two live blocks. This happens to
  exactly the records a commit leaves behind (`OnceUnlessLeftBehind`), and can happen exactly over logs in which a
  partition carries two tenants (`OnceExactlyByTenants`).
* A start time of 0 is taken for "not set yet", so a span starting at 0 can be forgotten (`StartIsLeast`).
* Forcing a block's recorded range into its ingestion cycle can hide the block from a window its data lies in, for
  data before the cycle and after it (`ForcedForwardLosesData`, `ForcedBackLosesData`). It does so exactly for traces
  more than a second outside the cycle's limits (`ForcingHidesExactly`).
* A block at least as large as the job target but with fewer bytes than pages is never searched (`PagesFillTheTarget`).
* Sub-range arithmetic can wrap within a minute of 2^32 seconds; `TilesExactlyWhenFits` says exactly when it does harm.
* A decode error part-way through a chunk loses the chunk's finished traces: they are out of the map and never sent
  (`FinishedTraceIsLost`, `LossExactly`), as are those of a chunk that is not sent because the context is done.
* Spans of a batch whose scopes have one key share a group under the first of these scopes. Attributes are no part of
  the key, and an incremental hash takes name and version for one string (`OwnScopeExactly`, `AttributesAreMerged`,
  `RunTogether`).

## Model

| member | source | states |
|---|---|---|
| BuilderResults.CommittedRecordsSurvive | upstream/modules/blockbuilder/blockbuilder.go:334-507 | in every run, crashes included, each accepted record below the committed offset is in a live block |
| BuilderResults.CompactableIsCommitted | upstream/modules/blockbuilder/blockbuilder.go:484-506 | in every run, a block without its nocompact flag holds only records below the committed offset |
| BuilderResults.ReplayNeverMarksCompactable | upstream/modules/blockbuilder/tenant_store.go:126-148 | what a replay marks compacted is live, still flagged, and holds no committed record |
| BuilderResults.UsedIdsArePrefix | upstream/modules/blockbuilder/tenant_store.go:262-285 | the used IDs of a (tenant, partition, start offset) are a prefix of its sequence with at most one live block |
| BuilderResults.ClearedIdHidesLater | upstream/modules/blockbuilder/tenant_store.go:262-285 | a cleared ID is handed out again and live blocks after it go unseen: why nothing uncommitted may be cleared |
| BuilderOnce.OnceUnlessLeftBehind | upstream/modules/blockbuilder/blockbuilder.go:334-507 | in every run, a committed record is in exactly one live block if and only if no commit stopped short of it while a longer attempt's block held it |
| BuilderOnce.CommittedExactlyOnce | upstream/modules/blockbuilder/blockbuilder.go:334-507 | if every read goes at least as far as earlier attempts, a committed record is in exactly one live block |
| BuilderTenants.OnceExactlyByTenants | upstream/modules/blockbuilder/tenant_store.go:126-145 | every run over a log keeps each committed record in exactly one live block if and only if no partition of the log carries two tenants |
| BuilderInvariant.StepKeeps | upstream/modules/blockbuilder/tenant_store.go:115-225 | every step of reading, marking, writing, committing, releasing, crashing, merging and clearing keeps the invariant behind the results above |
| BuilderExamples.ShortReplayDuplicates | upstream/modules/blockbuilder/blockbuilder.go:379-467 | over any log whose partition has a second tenant, a run in which a replay reads less far than the crashed attempt and that tenant's first record ends in two live blocks |
| BuilderIds.HashInputInjective | upstream/modules/blockbuilder/util/id.go:31-60 | the bytes hashed into a block ID determine tenant, partition, start offset and sequence number |
| BlockBuilder.SectionIsMaximal | upstream/modules/blockbuilder/blockbuilder.go:379-467 | a section is cut exactly before the first record that is too late or after the one with which the bytes reach the budget |
| BlockBuilder.PolledIsEverything | upstream/modules/blockbuilder/blockbuilder.go:379-467 | what a cycle reads is all records of all polls before the first that brings none |
| BlockBuilder.DetermineBlockIDs | upstream/modules/blockbuilder/tenant_store.go:262-285 | returns the first unused ID and every live ID before it, unless an operation fails |
| BlockBuilder.SectionWriter.Push | upstream/modules/blockbuilder/partition_writer.go:63-83 | adds the record to its tenant, creating the tenant on first use, and changes nothing else |
| BlockBuilder.SectionWriter.FlushTenant | upstream/modules/blockbuilder/tenant_store.go:115-212 | marks every leftover, then writes; on success the written ID is remembered; whatever fails, the history stays a protocol run |
| BlockBuilder.SectionWriter.Flush | upstream/modules/blockbuilder/partition_writer.go:85-109 | on success every tenant of the section is written and the offset may be committed |
| BlockBuilder.SectionWriter.ReleaseTenant | upstream/modules/blockbuilder/tenant_store.go:215-225 | deletes the flag of the remembered block and forgets it, or changes nothing if that fails |
| BlockBuilder.SectionWriter.AllowCompaction | upstream/modules/blockbuilder/partition_writer.go:111-134 | after the commit every tenant's flag is tried once: as many tenants are left over as deletions failed, exactly these blocks keep their flag, and no other block changes |
| BlockBuilder.Collect | upstream/modules/blockbuilder/blockbuilder.go:379-467 | takes from the polled records exactly the section the cut rule prescribes, and the writer holds exactly those; fails exactly if the first poll without records fails and the section is still open |
| BlockBuilder.FinishSection | upstream/modules/blockbuilder/blockbuilder.go:484-506 | flush, then commit, then release: fails only if an operation failed; on success the offset has moved, each tenant has a live block with exactly its records, and one is withheld from compaction per failed release |
| BlockBuilder.ConsumePartition | upstream/modules/blockbuilder/blockbuilder.go:334-507 | gives up exactly if the poll that ends the reading fails while the section is open, or an operation before the release fails; otherwise, with data, commits just past the last record of the prescribed section, each tenant's records are in a live block of its own, and as many blocks keep their flag as releases failed; its effects form a protocol run wherever an operation fails |
| LiveTraces.FilterInPlace | upstream/modules/blockbuilder/live_traces_iter.go:123-144 | the in-place filter leaves exactly the kept spans in the first places, and kept plus dropped is the total |
| LiveTraces.TraceKeepsFirsts | upstream/modules/blockbuilder/live_traces_iter.go:122-144 | over all scopes of a trace, exactly the first span of each token is kept, in order |
| LiveTraces.OutputIsFirsts | upstream/modules/blockbuilder/live_traces_iter.go:104-161 | every item sent has its trace's ID and as many scopes as the trace, and the n-th scope is what the trace's n-th scope adds to its first spans; a failure is last and comes only with a trace that does not decode |
| LiveTraces.StopsExactly | upstream/modules/blockbuilder/live_traces_iter.go:101-161 | all is sent exactly if every trace decodes and ten times the sends are enough; the iterator fails at a trace exactly if it is the first undecodable one and its chunk is reached |
| LiveTraces.DecodingIsExact | upstream/modules/blockbuilder/live_traces_iter.go:109-118 | a trace decodes exactly if all its batches do, and then to all their scopes in a row |
| LiveTraces.StartIsLeast | upstream/modules/blockbuilder/live_traces_iter.go:134-139 | the reported start is the least kept start exactly if no kept span starts at 0 or the last one does; the end is always the greatest |
| LiveTraces.LiveTracesIter.Iter | upstream/modules/blockbuilder/live_traces_iter.go:81-164 | exhausted exactly if every trace decodes and every send succeeds; then each trace was sent once, in ascending ID order, in chunks of ten, with enclosing bounds and exact drop count; wherever it stops, the i-th item sent carries the i-th trace under its ID, each scope reduced to exactly the spans that come first of their token in the trace, in order; nothing is lost exactly if it was exhausted or met the undecodable trace at the start of a chunk |
| LiveTraces.LossExactly | upstream/modules/blockbuilder/live_traces_iter.go:104-161 | the same on values: every trace is in the map or was sent exactly if all were sent or the first undecodable trace is the first of a chunk |
| LiveTraces.FinishedTraceIsLost | upstream/modules/blockbuilder/live_traces_iter.go:111-117 | two traces, the second undecodable: the first has left the map and is never sent |
| LiveTraces.LiveTracesIter.Next | upstream/modules/blockbuilder/live_traces_iter.go:57-79 | hands out the pending items one at a time in order; after an exhausted iterator these are all traces |
| LiveTraces.LiveTracesIter.DedupedSpans | upstream/modules/blockbuilder/live_traces_iter.go:178-186 | refuses to report before exhaustion |
| SchedulerProtocol.MoveCounts | upstream/modules/backendscheduler/backendscheduler.go:153-208 | every hand-over, drop, assignment and completion in the pipeline keeps both per-tenant counters exact |
| SchedulerProtocol.InFlightIsExact | upstream/modules/backendscheduler/work/work.go:818-887 | in every run, drains included, the in-flight count is the number of dequeued redaction jobs not yet assigned or dropped |
| SchedulerProtocol.JudgedDoneMeansNoJobs | upstream/modules/backendscheduler/work/work.go:892-913 | HasJobsForTenant says no exactly when no redaction job of the tenant exists anywhere |
| SchedulerQuiescence.RemovalIsSafe | upstream/modules/backendscheduler/backendscheduler.go:703-808 | where each removal of a tenant's batch takes the batch it judged, whatever happens to other tenants', the removed batch has no job and no armed rescan, and an apply-mode one goes only by maintenance, a hold time after the quiescence entry that was read |
| SchedulerHold.HoldSinceLastEntry | upstream/modules/backendscheduler/backendscheduler.go:766-808 | measured from the last entry, the hold is kept exactly when every clean-up that entered quiescence since maintenance read the batch did so at least the hold time before the removal, so always when none did |
| SchedulerExamples.SafeExactlyWithoutDryRuns | upstream/modules/backendscheduler/backendscheduler.go:703-808 | every removal of a tenant's batch in every run of permitted submissions is safe if and only if dry runs of that tenant are not permitted |
| SchedulerQuiescence.StepKeeps | upstream/modules/backendscheduler/backendscheduler.go:703-988 | every interleaved step keeps the invariant that ties readings of a tenant's batch to that batch |
| SchedulerBarrier.BatchHoldsRetention | upstream/modules/backendscheduler/backendscheduler.go:335-347 | while an apply-mode batch stands, no retention job of its tenant gets past Next, copy for copy |
| SchedulerShutdown.StrandedForever | upstream/modules/backendscheduler/backendscheduler.go:170-190 | a job left in the provider channel once the forwarder is done stays there, so its tenant counts as busy for ever |
| SchedulerShutdown.LeaksExactly | upstream/modules/backendscheduler/backendscheduler.go:164-203 | in every reachable state, some continuation brings a tenant's in-flight count to 0 if and only if the forwarder still runs or no redaction job of the tenant is in the channel |
| SchedulerShutdown.LeaksExactlyBySchedule | upstream/modules/backendscheduler/backendscheduler.go:164-203 | on the schedule: the count can never fall to 0 again exactly when the forwarder stopped by discarding its own job while one of the tenant was in the channel, or was handed one after it had stopped |
| SchedulerExamples.DryRunRace | upstream/modules/backendscheduler/backendscheduler.go:745-793 | a run in which maintenance judges a finished dry run and removes the redaction submitted after it, real or dry, job still queued |
| SchedulerExamples.StaleReentry | upstream/modules/backendscheduler/backendscheduler.go:760-808 | a run in which a stalled completion re-enters quiescence and the batch is removed at that same instant |
| SchedulerExamples.ShutdownStrandsAJob | upstream/modules/backendscheduler/backendscheduler.go:170-203 | a run in which both goroutines stop at shutdown and a counted job stays in the channel |
| Scheduler.Work.AddPendingJobs | upstream/modules/backendscheduler/work/work.go:759-798 | each tenant's pending jobs are the old ones followed by the new ones not pending yet, once each, in order |
| Scheduler.Work.NextPendingJob | upstream/modules/backendscheduler/work/work.go:818-869 | takes the first live job of a tenant and counts it; stale entries are consumed and their counts undone; None means no tenant has one |
| Scheduler.Work.AddJob | upstream/modules/backendscheduler/work/work.go:132-177 | assigns a job unless its ID is known; its in-flight count is given back either way |
| Scheduler.Work.StartJob | upstream/modules/backendscheduler/work/work.go:237-248 | only a job not started yet changes, to running; the running count stays exact |
| Scheduler.Work.EndJob | upstream/modules/backendscheduler/work/work.go:385-443 | only a job that was still active lowers the running count, so the count stays exact when a job ends twice |
| Scheduler.Work.NotBusyMeansNone | upstream/modules/backendscheduler/work/work.go:892-913 | corollary of the definitions: a "no jobs" answer is never wrong, whatever stale entries the queue holds |
| Scheduler.BackendScheduler.Next | upstream/modules/backendscheduler/backendscheduler.go:277-409 | gives back the worker's job exactly if it has one that is still active; otherwise the first job of the channel that may still run (a redaction needs a batch, a retention needs none in apply mode, a job without a tenant nothing), which is then running and the worker's; every job taken is uncounted exactly once |
| Scheduler.BackendScheduler.UpdateJob | upstream/modules/backendscheduler/backendscheduler.go:413-480 | a finished redaction job removes its batch at once exactly if it is a dry run with nothing left and no armed rescan; a failed one leaves the batch to a sweep; either way the job is no longer its worker's |
| Scheduler.BackendScheduler.AdvanceQuiescence | upstream/modules/backendscheduler/backendscheduler.go:777-808 | run alone: a busy or armed batch loses its deadline; else a dry run, or a batch whose deadline has come, is removed, one without a deadline gets one and others wait; a change is reported exactly when there is one |
| Scheduler.BackendScheduler.CleanupOrphanedBatches | upstream/modules/backendscheduler/backendscheduler.go:703-717 | one tick sweeps every batch once, independently of order |
| Scheduler.CleanupUninterrupted | upstream/modules/backendscheduler/backendscheduler.go:745-764 | the protocol's three critical sections, uninterrupted, are the method |
| Scheduler.SweepUninterrupted | upstream/modules/backendscheduler/backendscheduler.go:777-808 | the protocol's sweep sections, uninterrupted, are the method |
| Rescan.PerformRescan | upstream/modules/backendscheduler/backendscheduler.go:840-965 | the loop computes the generations of the specification, at most one per allowed round; queued is exactly what some round reports free and that is unknown or reaches into the window |
| Rescan.CollectAsked | upstream/modules/backendscheduler/backendscheduler.go:868-892 | splits the asked jobs into not complete and complete, and what is left over was not listed |
| Rescan.FinishedOutputsAreCovered | upstream/modules/backendscheduler/backendscheduler.go:840-965 | every output of every finished compaction reached is queued, outside the window, or busy under a job re-armed or asked about next; only the last round of a rescan that gives up can leave one |
| Rescan.FindableTracesAreCovered | upstream/modules/backendscheduler/backendscheduler.go:894-958 | with recorded ranges and a validated window, the block of a trace that a scan would find, written by a finished job the rescan reached, is queued, or the job that holds it is followed, or the rescan has just given up |
| Rescan.UnfinishedAreRearmed | upstream/modules/backendscheduler/backendscheduler.go:934-940 | no asked job that is listed and not complete, failed ones included, is forgotten |
| Rescan.OnlyOutputsAreQueued | upstream/modules/backendscheduler/backendscheduler.go:894-926 | only free outputs of finished jobs the rescan followed are queued, and none whose recorded range misses the window |
| Rescan.QueuedExactly | upstream/modules/backendscheduler/backendscheduler.go:894-926 | a block is queued if and only if it is unknown or its recorded range reaches into the window, and some round finds it free among a finished asked job's outputs |
| Rescan.GivesUpOnlyAtTheLimit | upstream/modules/backendscheduler/backendscheduler.go:867-958 | the rescan gives up exactly when every round found all jobs finished and more to follow |
| Rescan.AttendedExactly | upstream/modules/backendscheduler/backendscheduler.go:840-965 | a rescan sees to a block exactly if it is outside the window, is recorded and free in some round, or is held by a job with a reason to be followed: still running, or holding a recorded output, in a round where the rescan does not give up |
| Rescan.NewOutputNeedsRecording | upstream/modules/backendscheduler/backendscheduler.go:426-437 | a block in the window that nothing holds yet is seen to if and only if some round finds it recorded as an output of a finished asked job |
| Rescan.CoversExactlyWithOutputsFirst | upstream/modules/backendscheduler/backendscheduler.go:418-430 | but for the last round of one that gives up, rescans cover everything that finished compactions really wrote if and only if outputs are recorded before completion is visible, the reverse of UpdateJob's order, or there are no outputs |
| Submission.Submitter.SubmitRedaction | upstream/modules/backendscheduler/backendscheduler.go:488-666 | the refusals in the code's order leave the work store unchanged; an accepted batch is stored with a pending job of its tenant for exactly the blocks that reach into the window and that no compaction holds, nothing is added to another tenant's queue, and the skip count is exact |
| Submission.Select | upstream/modules/backendscheduler/backendscheduler.go:545-571 | one pass splits the snapshot into queued blocks, holders of deferred ones and a count of the rest |
| Submission.SplitIsExact | upstream/modules/backendscheduler/backendscheduler.go:545-571 | the three parts are the snapshot exactly, so the subtracted skip count is exact and non-negative |
| Submission.PartsAreExact | upstream/modules/backendscheduler/backendscheduler.go:545-571 | queued are exactly the blocks that overlap the window and are not busy, deferred the busy ones of them, outside the rest, each as often as it is listed |
| Submission.LeftOutHoldsNothing | upstream/modules/backendscheduler/backendscheduler.go:545-559 | a block left out of an accepted submission holds no trace that a scan of its window would find |
| Submission.FindableTracesAreAttended | upstream/modules/backendscheduler/backendscheduler.go:545-656 | every trace such a scan would find is in a block that gets a job, or in one held by a compaction that an apply-mode batch remembers |
| Submission.OneJobPerQueuedBlock | upstream/modules/backendscheduler/backendscheduler.go:619-633 | each block that reaches into the window and that no compaction holds has exactly one job, and there is no other |
| Submission.DeferredBlocksAreFollowed | upstream/modules/backendscheduler/backendscheduler.go:645-656 | an apply-mode batch records exactly the compactions that hold an in-window block |
| Submission.StoredBatchScansSomething | upstream/modules/backendscheduler/backendscheduler.go:586-666 | a stored batch has a free block to scan, or it is an apply-mode batch with a rescan armed for now plus the delay; it arms one exactly if a compaction holds a block of the window; a dry run arms none |
| Submission.EmptySelectionIsRefused | upstream/modules/backendscheduler/backendscheduler.go:586-605 | a submission goes through if and only if it is valid, possible now, and some block of the window is free or, in apply mode, held; "nothing overlaps" is answered only if no block does, "all busy" only to a dry run whose blocks are held |
| Submission.SubmissionIsAStep | upstream/modules/backendscheduler/backendscheduler.go:635-666 | what an accepted submission makes of batches and pending queues is the protocol's Submit step, and that step is enabled |
| RedactionWindow.ValidatedWindowIsBounded | upstream/tempodb/redaction.go:35-87 | corollary of the definitions: a validated window installs a filter with 0 < lo < hi unless it is no window at all |
| RedactionWindow.ValidExactly | upstream/tempodb/redaction.go:35-51 | valid are exactly the windows without negative bounds whose resolved range holds more than one instant, or that are no window |
| RedactionWindow.ScanFindsTheWindow | upstream/tempodb/redaction.go:54-88 | a scan under a valid window finds exactly the traces of the representable range that reach into it, an unset bound excluding none |
| RedactionWindow.SelectionIsLossless | upstream/modules/backendscheduler/redaction_window.go:29-52 | selecting blocks by overlap and scanning only those drops exactly what scanning every block with the same bound would |
| RedactionWindow.PadIsTight | upstream/modules/backendscheduler/redaction_window.go:14-19 | selection never misses a scanned trace exactly if the padding is at least a second less a nanosecond |
| RedactionWindow.AdjustTimeRangeForSlack | upstream/modules/blockbuilder/tenant_store.go:229-260 | forces a range into the cycle's limits, and is the identity exactly inside them |
| RedactionWindow.ClampingIsHarmlessInside | upstream/modules/blockbuilder/tenant_store.go:229-260 | the recording hypothesis of SelectionIsLossless still holds of a forced range exactly when neither bound had to move inward |
| RedactionWindow.SelectedExactly | upstream/modules/backendscheduler/redaction_window.go:29-52 | no window's selection leaves a block out while its scan would find a given trace exactly if the recorded range, padded, reaches the earliest window end and the latest window start that reach the trace |
| RedactionWindow.ForcingHidesExactly | upstream/modules/blockbuilder/tenant_store.go:229-260 | forcing a recorded range into its cycle's limits hides nothing from any window exactly if every trace that some scan finds lies within these limits, up to a second |
| RedactionWindow.LosslessExactly | upstream/modules/backendscheduler/redaction_window.go:14-52 | selecting among blocks drops what scanning all of them would, for all windows and queries, exactly if no block hides a trace |
| RedactionWindow.ForcedForwardLosesData | upstream/modules/blockbuilder/tenant_store.go:229-240 | a block of old data whose range was forced forward is left out of the window its data lies in |
| RedactionWindow.ForcedBackLosesData | upstream/modules/blockbuilder/tenant_store.go:241-258 | so is a block of future data whose range was forced back |
| RedactionWindow.AcceptedIsHonoured | upstream/modules/backendscheduler/redaction_window.go:119-169 | an accepted request has one selector and a window no lower layer refuses |
| RedactionWindow.EdgeIsStricterByHalfWindows | upstream/tempodb/tempodb.go:691-704 | the API edge accepts exactly what RedactBlock accepts, with both bounds or none |
| RedactionWindow.DropUnusable | upstream/modules/backendscheduler/redaction_window.go:89-105 | of the batches read from disk exactly those with a usable window stay |
| RedactionWindow.CoveredRange | upstream/modules/backendscheduler/redaction_window.go:61-83 | the least start and the greatest end, each on its own, over the blocks whose range is not inverted |
| RedactionQuery.MeaningIsClauses | upstream/modules/backendscheduler/redaction_query.go:45-95 | an accepted query never fails and matches exactly when all comparisons of one of its clauses hold, wherever evaluation is cut short |
| RedactionQuery.AcceptedExactly | upstream/modules/backendscheduler/redaction_query.go:45-95 | accepted are exactly the conjunctions and disjunctions of equalities between a literal and a resource or span attribute of the span itself, either way round |
| RedactionQuery.AddingAttributesKeepsMatch | upstream/modules/backendscheduler/redaction_query.go:45-67 | adding attributes to a span never un-matches it |
| RedactionQuery.NoNamedAttributeNoMatch | upstream/modules/backendscheduler/redaction_query.go:45-67 | a span with none of the named attributes never matches |
| RedactionQuery.OnlyOwnNamedAttributesMatter | upstream/modules/backendscheduler/redaction_query.go:82-95 | the result depends only on the span's own values of the named attributes |
| RedactionQuery.SwappingIsHarmless | upstream/pkg/traceql/ast_execute.go:490-527 | exchanging operands, as the branch predictor does, changes neither acceptance nor meaning |
| RedactionQuery.NegationIsNotMonotone | upstream/modules/backendscheduler/redaction_query.go:46-49 | a rejected negation un-matches a span that gains an attribute |
| RedactionQuery.ParentScopeIsNotLocal | upstream/modules/backendscheduler/redaction_query.go:88-93 | a rejected parent-scoped attribute answers for another span |
| BlockLifecycle.TracesSurvive | upstream/tempodb/compactor.go:333-342 | in every run, every copy of every trace, followed from block to block through the processes that marked them, ends in a live block, in one retention marked, or with the redaction that read this copy and dropped it |
| BlockLifecycle.LostOnlyOnPurpose | upstream/tempodb/tempodb.go:780-809 | a trace held by no live block has a copy that retention marked or that the process marking its block dropped |
| BlockLifecycle.StatusOnlyAdvances | upstream/tempodb/retention.go:82-132 | corollary of the definitions: a block keeps its content and moves live, compacted, cleared, one stage at a time |
| BlockLifecycle.SafeExactlyWithTwoPolls | upstream/tempodb/tempodb.go:946-952 | no reachable state lets a reader open a cleared block exactly if compacted blocks are kept for two polls |
| BlockLifecycle.StepKeeps | upstream/tempodb/compactor.go:333-408 | every step keeps the invariant behind both results |
| Backend.Store.MarkCompacted | upstream/tempodb/compactor.go:379-408 | every block is tried whatever happens to the others, so no more are left live than operations failed; no errors exactly if none failed and all were live and distinct, and then all are marked |
| Backend.Store.CompactWithConfig | upstream/tempodb/compactor.go:247-342 | inputs are marked only after all outputs are written; it fails only if an input was not live, or an operation failed before any mark, and leaves every input as it was; done exactly if nothing failed and the inputs were live and distinct |
| Backend.Store.RedactBlock | upstream/tempodb/tempodb.go:690-810 | dry runs and empty selections change nothing; a rewrite leaves exactly the other traces in a new live block, or none if all were dropped; fails exactly if the block is gone or, where a rewrite is due, it was marked meanwhile, an operation failed, or several blocks came out |
| Backend.Store.RetainTenant | upstream/tempodb/retention.go:82-132 | marks only live, owned blocks whose data ends before the retention cutoff, clears only owned ones marked before the other cutoff, never both in one pass; each such block it leaves has cost a failure of its own |
| Backend.Store.KeepsTraces | upstream/tempodb/compactor.go:333-408 | whatever these methods did, every copy of a trace in the store survives in the same sense |
| BlockSearch.Gather | upstream/tempodb/tempodb.go:359-376 | collects the live blocks and the recently compacted ones the query asks for, in order |
| BlockSearch.FindOpensNothingCleared | upstream/tempodb/tempodb.go:359-376 | no block Find gathers from lists at most a poll old is cleared, if compacted blocks are kept for two polls |
| BlockSearch.FindMissesNothing | upstream/tempodb/tempodb.go:921-952 | Find gathers exactly the listed blocks with an ID in the shard and, if asked for, a range that runs into the query's, compacted ones for two polls |
| SearchSharding.Iterate | upstream/modules/frontend/search_sharder.go:424-485 | the counting pass and the emitting pass are the same walk |
| SearchSharding.PassesAgree | upstream/modules/frontend/search_sharder.go:424-485 | each shard's count is the number of jobs emitted for it, there are at most maxShards, and bytes are those of the searchable blocks |
| SearchSharding.ShardsAreEven | upstream/modules/frontend/search_sharder.go:424-483 | every shard but the last has at least an equal share of the blocks; unless it is the last one allowed, it has no more than that share of blocks ending before the query |
| SearchSharding.PagesAreTiled | upstream/modules/frontend/search_sharder.go:444-455 | a block's page ranges start inside it and each page is in exactly one |
| SearchSharding.PagesFillTheTarget | upstream/modules/frontend/search_sharder.go:381-401 | a request takes a small block whole, else as many pages as the target has room for at their average size, but at least one; nothing exactly if the block cannot be searched |
| SearchSharding.EveryPageOnce | upstream/modules/frontend/search_sharder.go:381-401 | every page of a block with data, and smaller than the target or with a byte per page, is read by exactly one job; of any other block none is read |
| SearchSharding.CompletedThroughIsTrue | upstream/modules/frontend/search_sharder.go:463-483 | a shard complete through a time leaves no block ending later to a later shard; times fall and stay below the query's end |
| SearchBlocks.BlockMetasForSearch | upstream/modules/frontend/frontend.go:376-397 | exactly the accepted blocks that neither start after the search ends nor end before it starts, newest first, and any correct sort gives this list |
| SearchBlocks.RelevantSharesAnInstant | upstream/modules/frontend/frontend.go:376-388 | these are exactly the accepted blocks whose range has an instant in common with the search's |
| SearchBlocks.SortIsUnique | upstream/modules/frontend/frontend.go:389-394 | newest first with ties by ID leaves one order |
| SearchBlocks.SearchMeetsTheClaims | upstream/modules/frontend/search_sharder.go:139-165 | a search from second 1 on meets the hypotheses of the completed-through claims |
| SearchBlocks.IterateTagJobs | upstream/modules/frontend/tag_sharder.go:379-397 | hands out the jobs in order until one is refused and returns how many were handed out |
| SearchBlocks.TagPagesOnce | upstream/modules/frontend/tag_sharder.go:379-397 | handed out in full, the jobs of a tag search read every page of every searchable block once and no page of another |
| IngesterRanges.IngesterRequests | upstream/modules/frontend/search_sharder.go:184-268 | whole, nothing, or the sub-ranges, in wrapping 32-bit arithmetic, whichever bound is larger |
| IngesterRanges.SubRangesTile | upstream/modules/frontend/search_sharder.go:223-252 | in a range that fits no sum wraps before its last shard, and from any shard on the sub-requests tile what is left, all but the last at least a minute long |
| IngesterRanges.TilesExactlyWhenFits | upstream/modules/frontend/search_sharder.go:223-252 | the sub-requests tile the range, and ask for each second of it once and no other, if and only if shards are a minute long, or no more than the minutes of the range, or its last minute begun ends before 2^32 |
| IngesterRanges.TilesExactly | upstream/modules/frontend/search_sharder.go:223-252 | a tiling covers each second of its range once and nothing else |
| IngesterRanges.IngestersGetTheRecentPart | upstream/modules/frontend/search_sharder.go:199-252 | the ingesters are asked for each second of the query since the first boundary once and for no other exactly when that part is empty or fits |
| IngesterRanges.BackendGetsTheOldPart | upstream/modules/frontend/search_sharder.go:283-297 | the backend is asked for exactly the seconds of the query before its boundary |
| IngesterRanges.CoveredUnlessClockFellBack | upstream/modules/frontend/search_sharder.go:283-297 | ingesters and backend together cover the query exactly when the second boundary, within the query, is not before the first |
| CacheKey.BuildKey | upstream/modules/frontend/cache_keys.go:28-64 | empty exactly if the query's hash is 0 or the search does not enclose the block |
| CacheKey.KeysAreInjective | upstream/modules/frontend/cache_keys.go:28-64 | equal keys are about the same prefix, tenant, hash, block, page and page count, colons in tenants included |
| CacheKey.SharedKeyMeansSameJob | upstream/modules/frontend/cache_keys.go:11-41 | two jobs share a cache entry only if they are the same job, its query has a hash, and both searches enclose the block |
| Regroup.RequestsByTraceId | upstream/modules/distributor/distributor.go:711-843 | succeeds exactly if every span has a 128-bit trace ID and a 64-bit span ID that is not zero, and otherwise names the first span that has not; tokens line up with traces, and each trace of the final state is returned once |
| Regroup.InputIsEverything | upstream/modules/distributor/distributor.go:729-757 | what is placed are all spans of all scopes of all batches, in order |
| Regroup.SecIsTheSecond | upstream/modules/distributor/distributor.go:975-977 | a span's second is the whole second it lies in exactly until seconds outgrow 32 bits |
| RegroupMeaning.SpansAreConserved | upstream/modules/distributor/distributor.go:735-830 | whatever the hashes do, the traces together list each span as often as it came |
| RegroupExact.ExactIffKeysSuffice | upstream/modules/distributor/distributor.go:735-822 | the result is exact if and only if trace keys tell the request's trace IDs apart and, batch by batch, scope keys determine trace keys |
| RegroupExact.TracesAreExact | upstream/modules/distributor/distributor.go:771-822 | then each trace lists exactly its own spans, with the right count and first and last second, every span's trace is there, and none is there twice |
| RegroupExact.TimesAreExtreme | upstream/modules/distributor/distributor.go:975-977 | first and last are the least start and the greatest end in seconds, and are attained |
| RegroupExact.CollidingTracesMerge | upstream/modules/distributor/distributor.go:771-808 | for instance, two traces whose keys collide come out as one, under the first one's ID |
| RegroupScopes.OwnScopeExactly | upstream/modules/distributor/distributor.go:771-788 | a span comes out under the scope it came in with exactly if that is the first scope of its key in the batch |
| RegroupScopes.SpanIsInItsGroup | upstream/modules/distributor/distributor.go:771-788 | a span ends in its batch's group for its key, which has the batch's resource and that first scope |
| RegroupScopes.AttributesAreMerged | upstream/modules/distributor/distributor.go:773-776 | for instance, of two scopes that differ in an attribute only, the second's span comes out under the first |
| RegroupScopes.RunTogether | upstream/modules/distributor/distributor.go:773-776 | under an incremental hash, scopes whose name and version run together alike have one key |

## Left out

- BuilderOnce.CommittedExactlyOnce: the condition on reads is sufficient only; the exact conditions are in OnceUnlessLeftBehind and OnceExactlyByTenants.
- Submission.Submitter.SubmitRedaction: AddPendingJobs' failure is a parameter, and batch manifest and shard flushes to disk are not modelled.
- Scheduler.Work.AddPendingJobs: only redaction jobs are queued here, and job IDs are required to be new or still pending, as fresh UUIDs are.
- SchedulerProtocol.InFlightIsExact: the protocol refuses a promotion when an active job has the ID; the store also refuses while a finished one is not yet pruned, which unique IDs make the same.
- LiveTraces.LiveTracesIter.Iter: the entries are given sorted, the channel holds all chunks, and the drop counter does not wrap at 2^32.
- LiveTraces.LiveTracesIter.Next: the consumer runs after the producer; its own context is not modelled.
- Regroup.RequestsByTraceId: pointers shared between a batch's scopes and a trace are indices into one list of groups; attribute truncation and the span-age metrics are left out.
- Backend.Store.CompactWithConfig: one caller at a time; the interleaving of several is in BlockLifecycle.
- IngesterRanges.IngesterRequests: requires at least one shard; the code divides by the configured number.
- IngesterRanges.CoveredUnlessClockFellBack: the condition on the clock readings is exact for recent parts that fit; what other ones miss is not spelled out.
- SearchSharding.Iterate: sizes are unbounded naturals and the target is non-negative; 64-bit conversions are not modelled.
- RedactionQuery.MeaningIsClauses: float literals are reals, so rounding and NaN are not modelled; parsing and the single-filter check of a query are left out.
- `BlockBuilder.consume`'s choice of the laggiest partition, offset fetching, retries with back-off, and the write-ahead log.
- Trace-size limits, dedicated columns, in-memory block list updates between polls, cache eviction on clearing.
- Persisting and reloading the work cache, job pruning other than as a completion, and other job providers.
- HTTP and gRPC handlers, logging, metrics, tracing, configuration, rate limits and ring lifecycles.
- Exemplar splitting, instant-query clamping, query hashing and the command-line tools.
