# Relayward protocols in Dafny

Relayward is a control plane for proxy nodes. This project models the parts of it that have to survive crashes,
retransmissions and concurrency, and proves what they keep. Every file is plain Dafny 4.11;
`dafny verify dfyconfig.toml` checks all of them.

## What is modelled

One SQL transaction, or one statement outside a transaction, is one atomic step. A crash is the end of a run after any
step. Goroutines interleave at step boundaries. Classes carry the stores, processors and supervisors of the source; their
methods are proved against functions on the state, and the theorems are about those functions, over every run.

* **Events** (`EventStore`, `EventStreams`, `EventReplays`). Agents send numbered batches that may overlap and repeat;
  plugins publish events of their own; pruning removes rows. The live rows and the rows ever stored are kept side by side.
* **Consumers** (`EventPipeline`, `EventProcessor`). Consumers read the event log with cursors of their own, apply effects
  to a second database and acknowledge afterwards, with crashes in between. The pruner reads the cursors one by one
  outside its delete transaction while consumers advance.
* **Folds** (`Traffic`, `PolicyStatuses`). The tables the effects go to, and exactly when the order of arrival matters.
* **Archive** (`AccessTables`, `AccessArchiver`). Access records are archived by day into a file that replaces its
  predecessor through a backup. Before every operation new records may be stored, every operation, the listings and the
  reads of cursors included, may fail, and the process may die before every operation.
* **Commands** (`CommandTable`, `ControlPlane`, `CommandDelivery`, `CommandOrder`, `CommandEffects`, `PolicyGenerations`,
  `PolicyReissue`, `PolicyCommands`, `PluginGenerations`, `PluginReconciliation`, `PluginEffects`, `ControlCenter`).
  Desired generations become commands; selecting, marking as sent, completing, expiring, staging and status events
  interleave freely. `CommandEffects`, `PluginEffects` and `PolicyCommands` say field by field what each call leaves.
* **Supervisor** (`PluginSupervisor`). The critical sections of one actor, the version each process was started with, the
  exits of processes, watchers and retries.
* **Versions** (`Texts`, `SemVer`). Comparison on digit strings against section 11 of Semantic Versioning 2.0.0 on
  numbers, and that order against each rule of the section.
* **Subscriptions** (`SubscriptionRendering`, `SubscriptionCache`). Grouping, canonical aggregation and the cache.
* **Limiter** (`AttemptLimiter`). The sliding window of attempts.

## Assumptions

* SHA-256 is injective: a digest is represented by what it digests (the records of an archive file, a command request,
  the input of a subscription). JSON, compression and base64 are taken to be bijections and left out.
* A row ID is larger than every row ID before it; the command table keeps its rows, so its order is the order of the IDs.
* A failed SQL statement, remove or rename has changed nothing, and a successful one lasts.
* The validators of the SDK, which is not part of this model, appear as types, as preconditions, or, for version texts
  and command results, as the predicates `SemVer.Valid` and `CommandTable.Answers`. Its limits, such as the largest event
  sequence and the number of services of a subscription, are parameters.
* Times are integers. Where a property needs clocks not to go back, the hypothesis is named (`CommandOrder.TimelyRun`,
  `AttemptLimiter.Limiter.timely`) and a counterexample or a conditional contract shows what happens otherwise.

## Where the obvious statement is false

* An event that was pruned and is sent again is stored again: the replay check comes after an insert conflict
  (internal/eventstore/store.go:294-318), as in the run of `EventStreams.PrunedReplayIsStoredAgain`.
  `EventReplays.ReplayIsStoredAgainExactlyWhen` gives the condition a sender could look up, no live row with the event's ID
  or place, and `EventReplays.NothingIsStoredTwiceExactlyWhen` gives it for whole runs.
* Snapshots that commute in pairs need not commute: `Traffic.RisingTimesAreNeeded`.
  `Traffic.OrderDoesNotMatterExactlyWhen` says which sets of snapshots of a period can arrive in any order.
* Expiry removes an archive file before its metadata (internal/eventprocessor/archive.go:331-342). If the process dies in
  between and a record of that day arrives late, the day cannot be written, and since the cycle stops at the first error
  no later day is archived either: `AccessArchiver.HalfExpiredDayBlocks` is such a run. `Archiver.WriteClosedDays` says
  exactly when an undisturbed pass succeeds.
* A cycle of the archiver that succeeds may have deleted nothing: a standard consumer without a cursor row ends the
  pruning without an error (internal/eventstore/consumers.go:424-432). `Archiver.PruneHotData` and `Archiver.RunOnce`
  distinguish the two cases by the cursors that are present.
* A policy command that was never sent and is due or expired is not always issued again
  (internal/store/policies.go:283-319). `PolicyReissue.UnsentIsReissuedExactlyWhen` gives the condition, which depends on
  whether an expiry ran before (`PolicyReissue.ExpiryDecides`); `PolicyReissue.LapsedCommandIsNotReissued` is a run after
  which the same snapshot never gets a command, however often it is staged.
* A policy command that failed is not always tried again: after a failure that cannot be retried the row stays as it is for
  good, whatever sessions come, until another snapshot is staged (internal/store/policies.go:311-318):
  `PolicyCommands.FinalFailureIsForEver`. After one that can, `PolicyCommands.RetryableFailureIsRetriedAfterDelay` says when.
* Results and statuses of a plugin do not commute (internal/store/agent_commands.go:619-627):
  `PluginGenerations.ResultAndStatusCommuteExactlyWhen`.
* Delivery is in order of creation only while the clock does not go back: `CommandOrder.ClockMustNotGoBack` is a run with
  a backdated command, and `CommandOrder.SecondGoesAheadExactlyWhenBackdated` is the condition on one step.
* A plugin whose process had to be killed loses its supervision: `PluginSupervisor.SupervisionIsLostExactlyWhenAStopFails`,
  reached in `PluginSupervisor.SupervisionCanBeLost`. The recovery at start does not look whether the actor already holds
  a process: `PluginSupervisor.RecoveryIsExclusiveExactlyWhenIdle`, reached in `PluginSupervisor.RecoveryCanDoubleAProcess`.

## Model

| member | source | states |
|---|---|---|
| EventStore.Store.Ingest | internal/eventstore/store.go:93-136 | one batch is taken as a whole or not at all: gap, conflict and malformed batches change nothing |
| EventStore.Store.PublishPluginEvents | internal/eventstore/store.go:138-205 | publishing numbers new events after the stream's cursor, accepts repeats under their ID, and is all or nothing |
| EventStreams.AcceptedEventsAreStored | internal/eventstore/store.go:106-124 | every event of an accepted batch above the cursor gets exactly one new row, in order |
| EventStreams.BatchAddsItsEvents | internal/eventstore/store.go:93-136 | the rows an accepted batch adds hold its events, stream and time of reception, and no other stream moves; a refused batch changes nothing |
| EventStreams.PublishedPlaceIsFree | internal/eventstore/store.go:175-195 | in a reachable database the next place of a plugin's stream is never occupied |
| EventStreams.PublishedRowHoldsTheSource | internal/eventstore/store.go:174-199 | a new event is stored as the next one of the plugin's stream for its node, with the kind, time and payload that were sent |
| EventStreams.PublishedRowsHoldTheRequest | internal/eventstore/store.go:138-205 | every row a request adds holds one of its events |
| EventStreams.IngestingKeepsTraced | internal/eventstore/store.go:93-136 | a batch, accepted or not, leaves every stream's sequences, live and pruned, exactly 1 up to its cursor |
| EventStreams.PublishingKeepsTraced | internal/eventstore/store.go:138-205 | so does publishing, and it never hits a uniqueness constraint |
| EventStreams.PruningKeepsTraced | internal/eventstore/consumers.go:452-453 | so does pruning |
| EventStreams.EveryRunIsTraced | internal/eventstore/store.go:93-205 | so does every run |
| EventStreams.UnprunedLogIsTheTable | internal/eventstore/store.go:287-327 | without pruning nothing is ever stored twice |
| EventStreams.PrunedReplayIsStoredAgain | internal/eventstore/store.go:294-318 | a run with a pruning in it after which a replay is stored again under a new row ID |
| EventReplays.StoredExactlyWhenFresh | internal/eventstore/store.go:287-327 | an event of an accepted batch gets a row exactly when no live row has its ID or place and no earlier event of the batch with its ID got one |
| EventReplays.ReplayIsStoredAgainExactlyWhen | internal/eventstore/store.go:294-318 | an event at or below the cursor is stored a second time exactly when no live row has its ID or its place |
| EventReplays.StepStoresAgainExactlyWhen | internal/eventstore/store.go:93-205 | in a run a step fills a place of a stream a second time exactly when it is an accepted batch with such a replay; publishing and pruning never do |
| EventReplays.NothingIsStoredTwiceExactlyWhen | internal/eventstore/store.go:93-205 | over any run each place is stored at most once exactly when no batch replayed an event without a live row of its ID or place |
| EventStreams.ResendingIsANoOp | internal/eventstore/store.go:287-327 | sending an accepted batch again changes no row and returns the same cursor |
| EventStreams.WindowIsMirrored | internal/eventstore/store.go:93-136 | a window of a feed is accepted exactly when it starts no later than the next event, and leaves the longer prefix |
| EventStreams.ForeignBatchIsHarmless | internal/eventstore/store.go:287-327 | a batch of another stream that shares no event ID leaves a stream's rows as they are |
| EventStreams.BatchingDoesNotMatter | internal/eventstore/store.go:93-205 | any overlapping and repeated windows, with other agents sending and plugins publishing in between, leave exactly the first events of the feed, one row each, in order |
| EventPipeline.ArrivalKeepsInvariant | internal/eventstore/store.go:93-205 | arriving events are unread for every consumer and disturb no cursor, effect or pruning under way |
| EventPipeline.ReadKeepsInvariant | internal/eventstore/consumers.go:82-120 | a batch that was read is the beginning of what the consumer has not acknowledged |
| EventPipeline.HandleKeepsInvariant | internal/eventprocessor/processor.go:107-128 | applying an effect or recording its failure keeps the traffic table one fold over the log |
| EventPipeline.AdvanceKeepsInvariant | internal/eventstore/consumers.go:122-142 | a cursor moves past a row only after the row was processed |
| EventPipeline.ReadCursorIsSafe | internal/eventstore/consumers.go:424-437 | the least cursor read so far bounds every listed consumer's cursor from below, now and later |
| EventPipeline.DeleteKeepsInvariant | internal/eventstore/consumers.go:438-463 | deleting below a stale minimum removes no row a listed consumer has not processed |
| EventPipeline.StepKeepsInvariant | internal/eventprocessor/processor.go:92-134 | no step of any goroutine, and no crash, breaks the invariant |
| EventPipeline.EveryRunKeepsInvariant | internal/eventprocessor/processor.go:92-134 | the invariant holds in every reachable state |
| EventPipeline.PrunedRowsWereProcessed | internal/eventstore/consumers.go:420-463 | a row that is gone was processed by all four standard consumers |
| EventPipeline.TrafficIsOneFold | internal/eventprocessor/processor.go:107-128 | the traffic table is one fold over the log up to the cursor or one event past it |
| EventPipeline.EffectIsIdempotent | internal/store/policies.go:517-556 | applying the effect of an event again after a crash changes nothing |
| EventPipeline.EffectAppliesTheEvent | internal/eventprocessor/processor.go:227-238 | the effect of a traffic event is its payload with the node, stream, sequence and times of its row; others have none, undecodable ones fail |
| EventPipeline.RunsStoreTheSameCounters | internal/store/policies.go:509-557 | two runs whose logs carry the same orderly snapshots, received at whatever times, store the same counters |
| EventProcessor.Processor.RunConsumer | internal/eventprocessor/processor.go:92-134 | a pass waits exactly when the cursor has a retry time in the future; it ends early only where the last moment it used crashed, was not answered, or the effect failed; one that drains has processed and acknowledged everything logged before it began; undisturbed it drains exactly when fewer rows are left than its batches can hold |
| EventProcessor.Processor.ReadRetryTime | internal/eventprocessor/processor.go:96-103 | the retry time read is that of the cursor, whatever other goroutines did meanwhile |
| EventProcessor.Processor.RunBatches | internal/eventprocessor/processor.go:105-133 | batches follow each other until one drains the log, a row ends the pass, or the limit is reached with as many rows acknowledged as the batches hold |
| EventProcessor.Processor.RunBatch | internal/eventprocessor/processor.go:105-131 | a batch drains the log exactly when fewer rows are left than its limit; each row is acknowledged before the next is processed |
| EventProcessor.Processor.RunRow | internal/eventprocessor/processor.go:110-128 | how a row ends is exactly what its two operations and its effect say: acknowledged with the failures cleared, or its failure counted and recorded with the retry time, or, when recording or acknowledging fails, the next one again |
| EventProcessor.Processor.PruneHotData | internal/eventstore/consumers.go:420-463 | while other goroutines act between its reads, pruning deletes only rows received before the cutoff, at or under the least cursor, that every consumer listed has processed |
| Traffic.TrafficStore.ApplyTrafficSnapshot | internal/store/policies.go:482-557 | the row of the period is merged with the snapshot; unknown and foreign authorizations, sources without a name, sequence or time, and sequences over the maximum change nothing |
| Traffic.SnapshotNeedsItsOwner | internal/store/policies.go:482-508 | an incomplete source is invalid, an unknown authorization is passed over, a foreign one is a conflict |
| Traffic.SnapshotIsStoredExactlyWhenLater | internal/store/policies.go:509-557 | the row holds the snapshot exactly if there was none or it is later in its stream or observed later in another; a different one at the same place or instant is a conflict |
| Traffic.ApplyIsIdempotent | internal/store/policies.go:517-556 | a snapshot that was accepted is accepted again without effect |
| Traffic.LatestObservationWins | internal/store/policies.go:517-556 | under rising times per stream a period ends with the snapshot observed last and no conflict is reported |
| Traffic.TrafficIsConfluent | internal/store/policies.go:517-556 | any order and repetition of coherent snapshots of a period, received at whatever times, stores the same counters |
| Traffic.TwoSnapshotsCommute | internal/store/policies.go:517-556 | two snapshots commute exactly when they do not disagree at one place or one instant |
| Traffic.RisingTimesAreNeeded | internal/store/policies.go:517-556 | without rising times three snapshots that commute in pairs do not commute |
| Traffic.OrderDoesNotMatterExactlyWhen | internal/store/policies.go:517-556 | all orders of the snapshots of a period are accepted and leave the same row exactly when no two disagree and one beats every snapshot that would leave another row |
| Traffic.PeriodsAreIndependent | internal/store/policies.go:509-516 | a period depends on its own snapshots only |
| Traffic.OrderlyLogsAreAccepted | internal/store/policies.go:482-557 | no snapshot of an orderly log is refused |
| Traffic.LogsAreConfluent | internal/store/policies.go:509-557 | two orderly logs with the same snapshots, received at whatever times, store the same counters for every period |
| PolicyStatuses.StatusStore.RecordAuthorizationPolicyStatus | internal/store/policies.go:672-710 | the row of the authorization takes a status that supersedes it; unknown authorizations are dropped, foreign ones conflict |
| PolicyStatuses.LatestStatusWins | internal/store/policies.go:698-700 | the row ends with a status that supersedes all others |
| PolicyStatuses.StatusesAreConfluent | internal/store/policies.go:686-700 | any order and repetition of coherent statuses leaves the same row |
| PolicyStatuses.TwoStatusesCommute | internal/store/policies.go:698-700 | two statuses commute exactly when they differ in rank or are equal |
| PolicyStatuses.RedeliveryIsANoOp | internal/store/policies.go:698-700 | a status delivered again right away changes nothing |
| AccessTables.EverythingIsAscending | internal/eventstore/consumers.go:280-312 | archived records followed by waiting ones rise strictly in ID |
| AccessTables.EveryRecordIsKeptOnce | internal/eventstore/consumers.go:280-312 | for an unexpired day the archived records followed by the waiting ones are exactly those ever stored, each once, strictly ascending |
| AccessTables.StoringKeepsInvariant | internal/eventstore/consumers.go:193-239 | a stored access event joins the waiting records of its day and disturbs no other day |
| AccessTables.StoringAddsTheAccess | internal/eventstore/consumers.go:193-239 | an access under a new identity is stored as it is under the next ID; under a known one it must have the known payload |
| AccessTables.RecordingKeepsInvariant | internal/eventstore/consumers.go:362-381 | recording what was visited conserves every day although records arrived since |
| AccessTables.RecordingConserves | internal/eventprocessor/archive.go:189-206 | once everything visited is archived only the arrivals wait, so nothing is lost or archived twice |
| AccessTables.PruningKeepsInvariant | internal/eventstore/consumers.go:442-449 | pruning hot records loses none |
| AccessTables.KeptExactly | internal/eventstore/consumers.go:442-449 | a record is deleted exactly when it is old and its day's archive reaches its ID |
| AccessTables.DeletedRecordsAreArchived | internal/eventstore/consumers.go:442-449 | a deleted record of an unexpired day is in the archive of its day |
| AccessTables.ExpiringKeepsInvariant | internal/eventprocessor/archive.go:331-342 | an expiring day leaves the invariant without touching other days |
| AccessArchiver.CopyArchive | internal/eventprocessor/archive.go:293-323 | a copy is accepted exactly when IDs rise strictly from 1, and then it is complete |
| AccessArchiver.VisitDay | internal/eventstore/consumers.go:327-360 | exactly the records of the day above the cursor are visited, with their count and last ID |
| AccessArchiver.Archiver.StoreAccessEvent | internal/eventstore/consumers.go:193-239 | a known identity is accepted with the same payload only; a new one gets the next ID |
| AccessArchiver.Archiver.RestoreMatching | internal/eventprocessor/archive.go:252-278 | it succeeds only if a file had the recorded digest, which then is at the destination; it refuses only if none had |
| AccessArchiver.Archiver.PutBack | internal/eventprocessor/archive.go:264-275 | a matching backup takes the place of an incomplete archive; dying in between loses neither |
| AccessArchiver.Archiver.CopyExisting | internal/eventprocessor/archive.go:158-180 | the existing archive is restored, checked against its metadata and copied |
| AccessArchiver.Archiver.VisitWaiting | internal/eventprocessor/archive.go:181-202 | the temporary file holds everything of the day at one moment, or the change since the announcement is noticed |
| AccessArchiver.Archiver.SetAside | internal/eventprocessor/archive.go:209-217 | the previous archive is at the destination or at the backup throughout |
| AccessArchiver.Archiver.Replace | internal/eventprocessor/archive.go:209-227 | the temporary file is published, or the previous archive can still be restored |
| AccessArchiver.Archiver.TakeBack | internal/eventprocessor/archive.go:233-239 | taking back a published file keeps the previous archive restorable even if its own steps fail |
| AccessArchiver.Archiver.Commit | internal/eventprocessor/archive.go:228-240 | the day's metadata and file change together, or the day is as it was |
| AccessArchiver.Archiver.WriteDay | internal/eventprocessor/archive.go:115-250 | every outcome keeps conservation and restorability; success archives all that was stored before; undisturbed it succeeds exactly when the day has no archive or a file with its digest |
| AccessArchiver.Archiver.PendingDays | internal/eventstore/consumers.go:280-312 | one candidate for exactly the closed days with waiting records, in order, with the count and last ID of all records |
| AccessArchiver.Archiver.WriteClosedDays | internal/eventprocessor/archive.go:101-113 | a pass that succeeds leaves every closed day archived and touches no day that is not over; an undisturbed one succeeds exactly when every pending day can be written, and archives nothing behind the first that cannot |
| AccessArchiver.Archiver.WriteListed | internal/eventprocessor/archive.go:101-113 | the same for the days already listed, whatever is stored between the listing and the writing |
| AccessArchiver.HalfExpiredDayBlocks | internal/eventprocessor/archive.go:331-342 | a run of calls: after an expiry that died halfway and a late record the pass fails, and a later day stays unarchived |
| AccessArchiver.Archiver.PruneHotData | internal/eventstore/consumers.go:420-463 | the archived old records are deleted exactly when all cursors are read and present and the delete succeeds; a missing cursor is a success that deletes nothing; the invariant is kept |
| AccessArchiver.Archiver.ExpireArchives | internal/eventprocessor/archive.go:325-344 | only days before the limit change, whatever fails or is stored meanwhile; success leaves no archive of theirs, and an undisturbed expiry succeeds |
| AccessArchiver.Archiver.RunOnce | internal/eventprocessor/archive.go:84-93 | a cycle that succeeds has archived every closed unexpired day and left no archive of an expired one; if all standard consumers have a cursor no archived record of the days kept is due for deletion, otherwise no record was deleted |
| AccessArchiver.Archiver.Live | internal/eventprocessor/archive.go:70-93 | any number of cycles, each failing or dying anywhere, keeps the invariant; after a successful one with all cursors present nothing archived is due for deletion |
| AccessArchiver.Archiver.WriteAgain | internal/eventprocessor/archive.go:115-278 | after any crash or failure an undisturbed rerun leaves exactly the records ever stored for the day in its file |
| CommandTable.SelectNext | internal/store/agent_commands.go:285-293 | the loop finds what the dispatch query orders first |
| CommandTable.NextOfIsNext | internal/store/agent_commands.go:285-293 | that is the pending command that precedes all others: policies, then age, then row |
| CommandDelivery.StepEvolves | internal/store/agent_commands.go:262-519 | no step changes a finished command, expires a sent policy command, or breaks a unique index |
| CommandDelivery.RunEvolves | internal/store/migrations.go:255-282 | in every reachable database IDs are unique and no two pending commands violate a unique index |
| CommandDelivery.TerminalStatusesAreAbsorbing | internal/store/agent_commands.go:364-372 | over any run a finished command stays as it is |
| CommandDelivery.RepeatedResultIsANoOp | internal/store/agent_commands.go:364-372 | a result that was taken is accepted again without any effect, at any later time |
| CommandDelivery.RepeatedResultStaysANoOp | internal/store/agent_commands.go:344-372 | so it is after any further run, as long as it comes with the credential the node has by then |
| CommandDelivery.DeliveredPolicyCommandsAreStable | internal/store/policies.go:294-306 | over any run a policy command that was sent never expires and is never replaced |
| CommandOrder.NextIsFirst | internal/store/agent_commands.go:285-293 | dispatch selects the oldest waiting command of the node, policies aside |
| CommandOrder.MarkingKeepsFifo | internal/store/agent_commands.go:308-316 | marking a command that was selected earlier keeps the sent command the oldest, whatever happened in between |
| CommandOrder.DeliveryIsFifo | internal/server/agent_control.go:207-221 | while the clock does not go back a node has at most one sent command that waits, and it is the oldest |
| CommandOrder.ClockMustNotGoBack | internal/store/agent_commands.go:285-293 | with a backdated command a node has two sent commands waiting |
| CommandOrder.OrderIsKeptExactlyWhenTimely | internal/store/agent_commands.go:285-293 | a step that inserts a command keeps rows in the order of their creation exactly when its time is not behind that of any command of the node |
| CommandOrder.SecondGoesAheadExactlyWhenBackdated | internal/store/agent_commands.go:285-293 | with a sent command waiting, a new one is dispatched before it exactly when it is dated before it and no policy command waits |
| CommandEffects.DispatchExpiresExactlyTheDue | internal/store/agent_commands.go:262-284 | a dispatch expires exactly the waiting commands of the node that are due, policy and reconcile commands only if they were not sent |
| CommandEffects.DispatchSelectsTheFirst | internal/store/agent_commands.go:285-306 | it gives out a command that waits and is not given up, policies first, then the oldest, then the first inserted, to a disabled node policies only; none exactly when there is none |
| CommandEffects.MarkingCountsOneAttempt | internal/store/agent_commands.go:308-316 | one attempt of the command is counted and nothing else changes |
| CommandEffects.CreatedExactlyWhenFreeOrKnown | internal/store/agent_commands.go:46-208 | a request without secrets for a known node becomes the last command exactly when no command has its ID or excludes it, and is accepted again exactly under its ID |
| CommandEffects.CreatingExpiresDueUpdatesOnly | internal/store/agent_commands.go:46-208 | creating changes no other command, but due updates give way to an update |
| CommandEffects.ResultIsTakenExactlyWhen | internal/store/agent_commands.go:328-519 | a first result is taken exactly when the node sends it, it answers the request that waits, says what was asked and finds its row |
| CommandEffects.AcceptedSuccessMatchesRequest | internal/store/agent_commands.go:344-398 | a success that is taken reports the version, generation, number of authorizations, state and configuration of its request |
| CommandEffects.ResultSettlesItsCommand | internal/store/agent_commands.go:399-442 | a result that is taken is recorded with its command and touches no other; a refused one changes nothing |
| PolicyGenerations.StagingKeepsPolicies | internal/store/policies.go:255-394 | staging keeps at most one pending policy command, the current one, and moves the generation with the digest |
| PolicyGenerations.StepKeepsPolicies | internal/store/policies.go:255-411 | so does every other step |
| PolicyGenerations.GenerationsFollowDigests | internal/store/policies.go:270-378 | a step raises a generation by exactly one exactly when the digest changes |
| PolicyGenerations.GenerationsNeverFall | internal/store/policies.go:322-378 | over any run desired and applied generations never fall and equal generations mean equal digests |
| PolicyGenerations.ReachableRowsAreSound | internal/store/policies.go:277-378 | in every reachable state applied generations do not exceed desired ones, a row said to be applied has applied what is desired, and a digest comes with a generation |
| PolicyGenerations.PendingPolicyIsCurrent | internal/store/policies.go:277-378 | a pending policy command is the only one of its node, the last one, and carries the desired generation |
| PolicyGenerations.ValidResultsAreTaken | internal/store/agent_commands.go:528-559 | a valid result of a pending policy command always updates exactly the row of its node |
| PolicyGenerations.StagingWaitsForDelivered | internal/store/policies.go:283-299 | while a sent policy command is pending, staging creates nothing and changes no generation |
| PolicyReissue.RunsKeepTelling | internal/store/policies.go:255-411 | in every reachable state a row says of its last command what became of it |
| PolicyReissue.UnsentIsReissuedExactlyWhen | internal/store/policies.go:277-378 | in every reachable state, after a policy command that was never sent and is due or expired, staging issues a command exactly when one can be issued and the payload changed, or the session changed after an expiry, or policies were unsupported (and, before an expiry, the session is the same); otherwise at most the session is noted |
| PolicyReissue.ExpiryDecides | internal/store/policies.go:283-319 | with only the session changed nothing is issued while the due command is pending, and a command is issued once an expiry ran |
| PolicyReissue.WaitingIsForEver | internal/store/policies.go:296-319 | a row that waits for an expired command gets no other one over any run that stages the same snapshot and delivers or expires in between |
| PolicyReissue.LapsedCommandIsNotReissued | internal/store/policies.go:255-411 | a run from the start that ends in such a row |
| PolicyCommands.StagingIssuesTheSnapshot | internal/store/policies.go:300-378 | staging that issues a command sends the authorizations of the snapshot under the desired generation from now until its lifetime ends, and the row waits for it with the digest and session |
| PolicyCommands.PendingPolicyCarriesItsDigest | internal/store/policies.go:322-378 | where a digest always comes with one list of authorizations, a pending command carries the list of the digest its row desires, in every reachable state |
| PolicyCommands.IssuedExactlyWhenNeeded | internal/store/policies.go:311-345 | with none pending a command is issued exactly when the digest, the session, a retry that is due or earlier missing support calls for one and one can be issued; otherwise nothing changes |
| PolicyCommands.TakenResultSettlesRow | internal/store/agent_commands.go:528-559 | a result that is taken sets what is applied, or the failure with a retry time 30 seconds on exactly if it can be retried, and keeps generation, digest, command and session |
| PolicyCommands.RetryableFailureIsRetriedAfterDelay | internal/store/policies.go:311-318 | after a failure that can be retried the same snapshot and session get a command exactly from 30 seconds later on |
| PolicyCommands.FinalFailureIsForEver | internal/store/policies.go:311-318 | after one that cannot, no run without another snapshot changes the row or issues a command, for whatever session |
| PolicyCommands.FinalFailureIsRecorded | internal/store/agent_commands.go:540-549 | a failure leaves such a row exactly if it cannot be retried |
| PolicyCommands.UnsupportedKeepsGenerations | internal/store/policies.go:396-411 | missing support drops the retry and keeps what is desired and applied |
| PluginGenerations.ApplyingKeepsLast | internal/store/plugins.go:422-467 | applying a desired state leaves one pending reconcile command, with the new generation |
| PluginGenerations.StepKeepsPlugins | internal/store/plugins.go:351-568 | no step lets a node get ahead of its generation or loses the pending command's generation |
| PluginGenerations.KnowledgeNeverGoesBack | internal/store/plugins.go:534-560 | over any run generation and observation time of what is known of a node never go back, though statuses read generations outside their update |
| PluginGenerations.ReachableInstancesAreSound | internal/store/plugins.go:422-467 | a pending reconcile command is the only one of its instance and carries its generation |
| PluginGenerations.ValidReconcileResultsAreTaken | internal/store/agent_commands.go:561-642 | a valid result of a pending reconcile command always updates its instance alone, and never overwrites a newer status |
| PluginGenerations.ApplyingWaitsForDelivered | internal/store/plugins.go:434-447 | a sent reconcile command keeps its instance from being changed |
| PluginGenerations.ResultAndStatusCommuteExactlyWhen | internal/store/agent_commands.go:605-630 | the exact condition under which a result of either verdict and a status of the desired or the actual generation commute |
| PluginEffects.DesiredIsTakenExactlyWhen | internal/store/plugins.go:351-447 | a desired state is taken exactly for an enabled and enrolled node and an installed plugin in its active version, as the next generation, with no command in the way |
| PluginEffects.TakenDesiredIsIssued | internal/store/plugins.go:422-512 | it becomes the last command and what the instance is to be; what is known of the node stays |
| PluginEffects.TakenDesiredLeavesOthers | internal/store/plugins.go:610-627 | other instances keep everything but a status that waited for an expired command |
| PluginEffects.TakenResultSettlesInstance | internal/store/agent_commands.go:561-642 | a failure leaves what is known of the node, a success records the state, version, configuration and health that were asked for unless a status knows better |
| PluginEffects.StatusIsHeldExactlyWhenCurrent | internal/store/plugins.go:534-547 | a status goes on to be written exactly when it is of the desired or of the actual generation |
| PluginEffects.HeldStatusIsWritten | internal/store/plugins.go:548-567 | what passed that check is what is written, once |
| PluginEffects.StatusIsRecordedExactlyWhenNewer | internal/store/plugins.go:548-560 | it replaces what is known exactly when it is of a later generation, or of the same and not observed earlier |
| PluginEffects.RecoveryGivesUpSecrets | internal/store/secrets.go:135-146 | recovery without the key expires exactly the waiting commands with secrets and clears exactly the affected instances |
| PluginEffects.ExpiryMarksWaitingInstances | internal/store/plugins.go:570-627 | an expiry gives up exactly the due and unsent reconcile commands and marks exactly the instances that waited for an expired one |
| PluginReconciliation.CleaningKeepsReconciled | internal/store/plugins.go:610-627 | cleaning up touches no instance whose command is pending and leaves none waiting for an expired one |
| PluginReconciliation.CompletingKeepsReconciled | internal/store/agent_commands.go:399-442 | a command and its instance are settled together |
| PluginReconciliation.RecoveringKeepsReconciled | internal/store/secrets.go:135-146 | recovery without the key expires encrypted commands and keeps instances and commands in agreement |
| PluginReconciliation.StepKeepsReconciled | internal/store/plugins.go:351-627 | every step keeps instances and their commands in agreement |
| PluginReconciliation.WaitingIsForACommand | internal/store/plugins.go:449-470 | in every reachable state an instance that waits has a command of its own that is pending or has expired |
| PluginReconciliation.DispatchCleansUp | internal/store/agent_commands.go:275-284 | after a dispatch an instance waits exactly if a reconcile command of it is pending |
| ControlCenter.Center.StagePolicyReconcile | internal/store/policies.go:255-394 | the call is one staging step of the run |
| ControlCenter.Center.Stage | internal/store/policies.go:270-392 | the early exits leave the database as staging says, and rejected staging leaves it unchanged |
| ControlCenter.Center.NextAgentCommand | internal/store/agent_commands.go:262-306 | the call is one dispatch step |
| ControlCenter.Center.MarkAgentCommandSent | internal/store/agent_commands.go:308-316 | the call is one marking step; a command that no longer waits is not found |
| ControlCenter.Center.CompleteAgentCommand | internal/store/agent_commands.go:328-519 | the call is one completion step |
| ControlCenter.Center.TakeResult | internal/store/agent_commands.go:344-505 | refused results change nothing, a repeated result is accepted without effect |
| ControlCenter.Center.UpdatePolicy | internal/store/agent_commands.go:528-559 | the row is updated exactly when it awaits this command's result |
| ControlCenter.Center.UpdateInstance | internal/store/agent_commands.go:561-642 | the instance is updated exactly when it has the result's generation |
| ControlCenter.Center.ApplyNodePluginDesired | internal/store/plugins.go:351-524 | the call is one applying step |
| ControlCenter.Center.Apply | internal/store/plugins.go:396-512 | errors roll the expiry back with the rest |
| ControlCenter.Center.ReadPluginStatus | internal/store/plugins.go:534-547 | the first half of recording a status |
| ControlCenter.Center.WritePluginStatus | internal/store/plugins.go:548-567 | the second half, guarded by what is known by then |
| ControlCenter.Center.CreateAgentCommand | internal/store/agent_commands.go:46-208 | a request repeated under its ID is accepted once; anything else under that ID is a conflict |
| ControlCenter.Center.ExpireNodePluginCommands | internal/store/plugins.go:570-627 | the call is one expiry step |
| PluginSupervisor.StepKeepsExclusivity | internal/pluginruntime/supervisor.go:152-395 | every critical section leaves each live process held by the actor |
| PluginSupervisor.AtMostOneProcess | internal/pluginruntime/supervisor.go:152-395 | after any interleaving a plugin has at most one live process, the one its actor holds |
| PluginSupervisor.LiveProcessRunsTheVersion | internal/pluginruntime/supervisor.go:152-395 | after any orderly interleaving whatever is alive was started with the version the actor has |
| PluginSupervisor.RecoveryTakesOver | internal/pluginruntime/supervisor.go:126-147 | recovery takes over version and restarts on record; a failed start begins a streak and is retried |
| PluginSupervisor.RecoveryIsExclusiveExactlyWhenIdle | internal/pluginruntime/supervisor.go:126-147 | recovery at start keeps that exactly when nothing the actor held is alive |
| PluginSupervisor.RecoveryCanDoubleAProcess | internal/pluginruntime/supervisor.go:126-180 | a switch followed by the recovery leaves two live processes |
| PluginSupervisor.ReplacedProcessIsIgnored | internal/pluginruntime/supervisor.go:341-345 | the watcher of a replaced process changes nothing, counts nothing and starts no retry |
| PluginSupervisor.SupervisionIsLostExactlyWhenAStopFails | internal/pluginruntime/supervisor.go:298-311 | a running supervisor loses a plugin exactly when a stop reports an error and no retry is under way |
| PluginSupervisor.SupervisionCanBeLost | internal/pluginruntime/supervisor.go:152-180 | a switch whose stop reports an error leaves a version that nothing runs, watches or retries |
| PluginSupervisor.UndisturbedRunsKeepSupervision | internal/pluginruntime/supervisor.go:278-395 | without such errors every plugin with a version is watched or being retried |
| PluginSupervisor.StoppedStaysStopped | internal/pluginruntime/supervisor.go:192-203 | a stopped plugin stays stopped whatever watchers and retries remain |
| PluginSupervisor.ClosedStaysClosed | internal/pluginruntime/supervisor.go:254-276 | once the supervisor is closed nothing is started again |
| PluginSupervisor.PluginActor.SwitchTo | internal/pluginruntime/supervisor.go:152-180 | the new version runs in a new watched process, or the version is the old one: restored exactly if only the new one failed to start, else retried, or stopped by a failing stop |
| PluginSupervisor.PluginActor.RollBack | internal/pluginruntime/supervisor.go:182-190 | unless the stop fails the version is the previous one, in a new watched process if there is one, and in a retry if it does not start |
| PluginSupervisor.PluginActor.Stop | internal/pluginruntime/supervisor.go:192-203 | the version is dropped unless stopping reports an error |
| PluginSupervisor.PluginActor.RestoreLocked | internal/pluginruntime/supervisor.go:278-296 | the version is the one given in any case; it runs, or there is none, or one more retry is under way |
| PluginSupervisor.PluginActor.DetachAndStop | internal/pluginruntime/supervisor.go:298-311 | the process has ended in any case and is not attached again |
| PluginSupervisor.PluginActor.ProcessFailed | internal/pluginruntime/supervisor.go:341-357 | a failed process is detached, counted as a restart and in the streak of crashes, which a stable run ends, and retried |
| PluginSupervisor.PluginActor.Retry | internal/pluginruntime/supervisor.go:361-395 | a retry starts the version of the actor exactly if it has one and no process, and goes on exactly if that fails |
| Texts.OrderTextIsTotal | internal/agentrelease/service.go:113-116 | string order is total and antisymmetric |
| SemVer.LengthThenTextIsNumeric | internal/agentrelease/service.go:160-173 | length, then characters, is the numeric order of digit strings of any length without leading zeros |
| SemVer.Numeric | internal/agentrelease/service.go:151-158 | recognizes exactly the digit strings |
| SemVer.ComparePre | internal/agentrelease/service.go:97-129 | the loop over identifiers computes the precedence of pre-releases |
| SemVer.Compare | internal/agentrelease/service.go:83-130 | an error exactly for texts that are no versions, else the precedence of section 11 of Semantic Versioning 2.0.0 |
| SemVer.ParsingReadsTheText | internal/agentrelease/service.go:137-149 | the parsed parts, joined by their separators, are the text, and contain no separator that comes before |
| SemVer.CoreDecides | internal/agentrelease/service.go:92-96 | the first difference in major, minor and patch decides, numerically |
| SemVer.PreReleaseIsLower | internal/agentrelease/service.go:97-104 | a pre-release is lower than its version |
| SemVer.FirstDifferenceDecides | internal/agentrelease/service.go:105-121 | the first identifier that differs decides: numbers by value, words by their characters, numbers below words |
| SemVer.LargerSetIsHigher | internal/agentrelease/service.go:122-129 | with all identifiers equal the larger set is higher |
| SemVer.OrderIsTotal | internal/agentrelease/service.go:83-130 | precedence is total and antisymmetric |
| SemVer.OrderIsTransitive | internal/agentrelease/service.go:83-130 | precedence is transitive |
| SemVer.EqualUpToBuild | internal/agentrelease/service.go:137-149 | two versions compare as equal exactly when they differ in build metadata at most |
| SubscriptionRendering.AggregateSubscription | internal/management/subscriptions.go:232-288 | it succeeds exactly when all fragments together are within the limit and all are objects, and gives the canonical document |
| SubscriptionRendering.AddUris | internal/management/subscriptions.go:238-244 | the running limit rejects exactly what exceeds the limit in total |
| SubscriptionRendering.AddObjects | internal/management/subscriptions.go:245-260 | so it does for objects, which must have a canonical form |
| SubscriptionRendering.SortTexts | internal/management/subscriptions.go:311-322 | the keys of a set in strictly rising order |
| SubscriptionRendering.DocumentIsSortedAndComplete | internal/management/subscriptions.go:262-288 | each format lists each line or object once, in order, and nothing else |
| SubscriptionRendering.DocumentHoldsTheContributions | internal/management/subscriptions.go:232-288 | each format holds exactly what some service contributes to it, objects in canonical form |
| SubscriptionRendering.TotalCountsEverything | internal/management/subscriptions.go:236-260 | the limit is on the bytes of all lines and objects of all formats together |
| SubscriptionRendering.OnlySetsMatter | internal/management/subscriptions.go:232-288 | two documents are equal exactly when the sets of lines and canonical objects are |
| SubscriptionRendering.OrderDoesNotMatter | internal/management/subscriptions.go:232-288 | reordering contributions changes neither success nor the document |
| SubscriptionCache.NoPluginIsCalledTwice | internal/management/subscriptions.go:124-129 | no plugin is called twice exactly when the services are grouped by plugin |
| SubscriptionCache.EachCallCarriesItsServices | internal/management/subscriptions.go:124-145 | then each call carries exactly the services of its plugin, in order |
| SubscriptionCache.RequestAsks | internal/management/subscriptions.go:130-157 | a request names the authorization and node, the ID and display name of each service of the group, and each endpoint with exactly the ports it overrides for them |
| SubscriptionCache.AskedOnce | internal/management/subscriptions.go:130-157 | that determines the request |
| SubscriptionCache.InputsAgreeExactlyWhen | internal/management/subscriptions.go:177-225 | two snapshots share a cached render exactly when authorization, its time of change, node, endpoints and services agree, whether or not the services are up |
| SubscriptionCache.InUseExactlyWhenActive | internal/management/subscriptions.go:47-60 | a subscription is served exactly when node and authorization are enabled and neither time nor quota has run out |
| SubscriptionCache.CallPlugins | internal/management/subscriptions.go:123-167 | it succeeds exactly when every service is up and every plugin answers; call g then asked the plugin of group g for its services, and the contributions are the answers to these calls |
| SubscriptionCache.RenderSnapshot | internal/management/subscriptions.go:114-175 | a render is what the plugins answered to calls for exactly the services of the snapshot; it fails exactly with too many services, without a runtime to reach their plugins, with a service down, or when the contributions cannot be aggregated |
| SubscriptionCache.Cache.Save | internal/store/subscriptions.go:249-276 | the three formats of one render are stored together |
| SubscriptionCache.Cache.Load | internal/store/subscriptions.go:278-323 | what is loaded is one render of exactly this input |
| SubscriptionCache.Cache.RenderSubscription | internal/management/subscriptions.go:63-112 | what is returned equals a render of the current snapshot and is at most 24 hours old; a new one is what was answered to calls for its services; exactly when it comes from the cache, is unavailable, or fails because the cache cannot be read or written |
| AttemptLimiter.Limiter.Prune | internal/server/limiter.go:48-60 | every key is trimmed, keys without an attempt in the window are forgotten |
| AttemptLimiter.PruningKeepsTheWindow | internal/server/limiter.go:48-60 | pruning forgets no attempt in the window |
| AttemptLimiter.Limiter.Allow | internal/server/limiter.go:22-46 | at most 4096 keys; an attempt is allowed exactly when fewer than the limit were accepted in its window and the key has a place |
| AttemptLimiter.Limiter.Reset | internal/server/limiter.go:62-66 | a key is forgotten, the others are not touched |
| AttemptLimiter.Limiter.WindowIsBounded | internal/server/limiter.go:22-46 | no closed interval as long as the window holds more than the limit of accepted attempts |
| AttemptLimiter.AnyWindowIsBounded | internal/server/limiter.go:22-46 | a history in which any limit-plus-one attempts span more than the window has that bound for every interval |

## Left out

- HTTP handlers, WebSocket and gRPC framing, codecs, SQL text, audit entries, secrets and encryption, the web interface, the GitHub, Cloudflare and network clients, and the plain tables of users, nodes, bindings and settings.
- Node deletion and plugin uninstall, which remove commands and instances with them (internal/store/plugin_releases.go:266-293).
- Loss of power: a rename or statement that was reported successful lasts, so the syncing of files and directories only matters as a step that can fail.
- A metadata statement that reports an error after it took effect: writeDay would then remove the file the metadata names.
- Liveness of delivery and of reconciliation, which the source does not promise.
- The loop that delivers event batches to feature plugins and its byte limit (internal/eventprocessor/processor.go:136-188); pruning does not wait for those consumers, and what they do to their own state is not visible here.
- The tables behind the access and network consumers in `EventPipeline`, where their effects only succeed or fail; access records are followed in the archive modules.
- The heartbeat handler and the session hub as code: a session's selecting and marking are two steps of a run, and any session may stop between them.
- Health checks, delays and the record of a plugin's runtime status: a watcher may fire at any time, a retry may run at any time.
- A retry that passes its check for shutdown and then takes the lock after the shutdown: in the model a retry acts only while the supervisor runs.
- Staleness of `RenderSubscription` against changes that the digest does not cover: a cached document is returned even when a plugin has gone down since, as in the source.
- Which of two errors an aggregation reports, size or syntax; that depends on the order of the fragments.
- PluginSupervisor.PluginActor.DetachAndStop: does not model that a process which did not exit is attached again, because a stop waits for the process to exit before it reports an error (internal/pluginruntime/process.go:246-285).
- AttemptLimiter.Limiter.WindowIsBounded: needs times that do not go back; without them only the bound on the number of keys is kept.
- EventProcessor.Processor.RunConsumer: the number of batches per pass is a parameter, and a pass that reaches it reports so.
