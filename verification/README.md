# Talus protocols in Dafny

Talus is a hub that manages and monitors servers. This project models the parts
of it whose guarantees hold only over whole runs and across several components,
and proves those guarantees for every run or every input:

- **Sample delivery.** An agent keeps captured samples in a crash-persistent,
  byte- and age-bounded outbox and removes them on an acknowledgement or a
  rejection; the hub stores each sample with a deduplication receipt in one
  transaction and later purges old receipts (`Wire`, `Outbox`, `HubStore`,
  `Delivery`).
- **Metrics.** Counter rates split over a bucket grid, the long-range query that
  stitches six-hour rollups with raw edges, the query budget, the checkpointed
  rollup refresh and the guarded prune (`Rates`, `Stitch`, `StitchQuery`,
  `StitchMeaning`, `Budget`, `Rollup`, `RollupCounts`, `RollupServes`, `RollupStore`).
- **Admission.** The per-user gate with its uncertain-commit fence, the terminal
  registry, password changes, and API-key validation against rotation, edits and
  deletion (`Commits`, `Admission`, `AdmissionService`, `ApiKeys`).
- **Schedulers and ownership.** The monitor scheduler, installation jobs against
  server removals, and the SSH lease (`MonitorNode`, `MonitorScheduler`,
  `MonitorDeferrals`, `InstallFence`, `InstallMonitor`, `Lease`).
- **Usage log.** Lease-owned records with ordered upserts, reconciliation,
  retention, and keyset pagination (`UsageRecords`, `UsageRepo`, `Paging`).

Each protocol is a state with a step function, an invariant, and theorems about
every run; where the program updates objects in place there is a class whose
methods equal those steps, keep the invariant, and state what it gives their
caller. A database transaction is one step unless its commit is left unresolved;
crashes, lost replies, faults, clocks and random draws are parameters of the steps,
so every theorem covers every choice of them. What became of a transaction is its
own parameter, bound to the answer to COMMIT only as the database binds it (`Commits`).
Hub time does not decrease, times are nonnegative unless a lemma says otherwise, sample
IDs are unique, and real numbers stand for floating-point values.

## Findings

- Exactly-once storage depends on how stale a clock reading may be when its
  transaction commits. `ExactlyOnceIffRetentionCovers` gives the exact condition,
  and `DeployedExactlyOnce` shows that the deployed constants tolerate 22 h 55 min.
- The bucket count divides toward zero, so a range with exactly one end at a
  negative, unaligned time is counted one off; `BucketCountExactIff` is exact.
- `recommendedInterval` is documented as returning the coarsest interval that
  fits; it returns the finest. The model follows the code.
- The prune's guard compares a sample with its server's checkpoint, which does
  not mean that the sample was aggregated. `AggregatedIff` gives the exact
  condition, `LateSampleLost` a run in which a late sample is pruned uncounted, and
  `TimelyRefreshCovers` shows that refreshing within 23 h of acceptance avoids it.
- A refresh selects every server with retained samples and no checkpoint, but gives it
  one only if its window reaches below the open bucket. `CheckpointFollows` is exact,
  and `ShortWindowStalls` shows a one-minute window; six hours or more always suffice.
- A record whose finalization is unavailable can run again if a writer first
  submits the lease-expired recovery reason itself. `ReopenedIff` states exactly
  which write does it, `ReopenedExample` shows one, and `UnfinalizedNeverRuns`
  covers every run without such a submission; the recorder never sends one.

## Model

| member | source | states |
|---|---|---|
| HubStore.ExactlyOnceIffRetentionCovers | backend/internal/repository/agent_node.go:127-158 | over every legal run of ingests and purges each sample ID has at most one row if and only if receipts are kept at least as long as the acceptance window plus the clock lag |
| HubStore.DeployedExactlyOnce | backend/internal/repository/agent_node.go:245-248 | with the 25 h / 5 min window and 48 h receipts this holds if and only if the lag is at most 22 h 55 min |
| HubStore.RunKeepsInv | backend/internal/repository/agent_node.go:127-158 | every row is protected by a live receipt or is already outside the window, after every run |
| HubStore.ShortRetentionDuplicates | backend/internal/agentwire/wire.go:116-118 | a shorter retention has a legal run that stores one ID twice |
| HubStore.PurgeKeepsInv | backend/internal/repository/agent_node.go:245-248 | a purge removes only receipts whose samples can no longer be accepted |
| HubStore.IngestAllKeepsInv | backend/internal/repository/agent_node.go:135-151 | a batch of accepted samples keeps that protection, replays included |
| HubStore.IngestStoresAll | backend/internal/repository/agent_node.go:135-153 | after a committed ingest every sample of the batch has its row, so acknowledging it is sound |
| HubStore.Transact | backend/internal/repository/agent_node.go:127-158 | the transaction succeeds exactly when the credential is active and every sample validates, and then yields the specified tables and the IDs in order |
| HubStore.Store.IngestBatch | backend/internal/repository/agent_node.go:127-158 | all or nothing for each commit outcome, an acknowledgement only when the commit was seen, and the tables stay the run of the committed transactions |
| HubStore.Store.Cleanup | backend/internal/repository/agent_node.go:245-248 | exactly the receipts older than 48 h go; rows stay; the transaction joins the history |
| HubStore.Store.Receive | backend/internal/service/resident_monitor.go:215-304 | the reply acknowledges exactly the kept samples of a batch that the hub saw commit, rejects exactly the samples outside the window, and asks for a retry exactly when it is closed, busy or the storing failed; nothing is stored on any refused path |
| HubStore.SplitIsPartition | backend/internal/service/resident_monitor.go:252-259 | splitting a request neither loses nor duplicates a sample |
| HubStore.SplitByWindow | backend/internal/service/resident_monitor.go:252-259 | the split is exactly by the capture-time verdict |
| HubStore.SplitIds | backend/internal/service/resident_monitor.go:252-259 | the IDs are split as well, and distinct ones stay distinct on each side |
| Wire.AcceptedIff | backend/internal/agentwire/wire.go:80-120 | exactly which samples are malformed, accepted, or refused for their capture time alone |
| Delivery.Simulate | backend/internal/agentclient/client.go:142-237 | in every run with any faults, crashes, lost replies, replays and purges, the accepted samples that are neither on disk nor stored number at most the persisted drop counter; with unique IDs and clock readings at most 22 h 55 min old each of them has at most one row |
| Delivery.World.NoSilentLoss | backend/internal/agentclient/spool.go:137-190 | the uncounted loss is empty at every moment, and the in-memory counter never exceeds the persisted one |
| Delivery.World.Capture | backend/internal/agentclient/spool.go:137-169 | a sample counts as taken exactly when the outbox reported success, and it was then durably accepted |
| Delivery.World.Send | backend/internal/agentclient/client.go:212-221 | a request never loses rows and causes at most one hub transaction, whose samples are genuine; without disk faults the queue is pruned, the batch is the stated one and the reply answers it |
| Delivery.World.SendBatch | backend/internal/service/resident_monitor.go:252-303 | every acknowledged ID in the reply is stored, and the reply acknowledges exactly what was seen to commit |
| Delivery.StoredOnce | backend/internal/repository/agent_node.go:127-158 | the history of a timely run stores each ID once |
| Delivery.World.Deliver | backend/internal/agentclient/client.go:212-229 | acknowledgements are applied before rejections and the invariant survives a crash in between; without disk faults exactly the acknowledged and rejected entries leave, the latter counted |
| Delivery.World.Exchange | backend/internal/agentclient/client.go:212-229 | one round trip without disk faults: exactly the entries that the reply settles leave, and when the hub stored the batch all of it leaves, it is stored or counted, and the backlog that did not fit remains in order |
| Delivery.World.Restart | backend/internal/agentclient/spool.go:37-100 | reopening after a crash or power loss keeps the invariant |
| Outbox.Disk.WriteSample | backend/internal/agentclient/spool.go:111-135 | an atomic write is either absent or whole, and durable once it reports success |
| Outbox.Disk.Restart | backend/internal/agentclient/spool.go:111-135 | after a power loss every surely accepted sample is still on disk, acknowledged or counted lost |
| Outbox.Spool.Add | backend/internal/agentclient/spool.go:137-169 | refused exactly for an invalid, oversized or known sample; otherwise inserted by time, persisted before success, and pruned to the limits |
| Outbox.Spool.PruneLocked | backend/internal/agentclient/spool.go:171-192 | removes the oldest entries until nothing is over age or size, counting each before its file goes |
| Outbox.PrunableIff | backend/internal/agentclient/spool.go:171-192 | the queue is pruned exactly while its bytes exceed the limit or any entry is too old |
| Outbox.Spool.DropOldest | backend/internal/agentclient/spool.go:171-192 | one prune step: the counter is persisted first, and a failure leaves the queue as it was |
| Outbox.Spool.Batch | backend/internal/agentclient/spool.go:194-209 | the newest sample first, then the oldest backlog in order, at most 32 in all |
| Outbox.BatchGone | backend/internal/agentclient/spool.go:194-209 | once a whole batch is gone exactly the middle of the queue remains |
| Outbox.Spool.Ack | backend/internal/agentclient/spool.go:211-217 | exactly the listed entries go; the others stay in order, and an unremovable file stays queued |
| Outbox.Spool.Reject | backend/internal/agentclient/spool.go:219-241 | the same, with every rejected queued entry counted as dropped first |
| Outbox.Spool.Settle | backend/internal/agentclient/client.go:221-229 | a reply is settled: the acknowledged entries go, then the rejected ones, each counted once |
| Outbox.Spool.RemoveLocked | backend/internal/agentclient/spool.go:243-269 | exactly the listed entries whose files went leave the queue, under failing removes and crashes |
| Outbox.Spool.RemoveFiles | backend/internal/agentclient/spool.go:250-263 | the removal loop splits the queue into kept and gone entries, with the byte count of the kept ones |
| Outbox.OpenSpool | backend/internal/agentclient/spool.go:37-100 | the reopened queue holds exactly the files on disk, within the limits, and its counter is the persisted one plus what was pruned; an unreadable file is an error and nothing changes |
| Outbox.LoadEntries | backend/internal/agentclient/spool.go:65-95 | loading succeeds exactly when every file is readable under its name, in time order |
| Outbox.InsertKeepsQueue | backend/internal/agentclient/spool.go:163-165 | inserting by time keeps the queue ordered with distinct IDs |
| Outbox.WithoutKeepsQueue | backend/internal/agentclient/spool.go:243-269 | removing entries keeps order and distinctness, and exactly the other IDs remain |
| Rates.WeightsConserved | backend/internal/repository/metric_delta.go:76-87 | a valid pair's weights over all grid buckets sum to its overlap with the window |
| Rates.CoverageFits | backend/internal/repository/metric_delta.go:194-197 | the coverage of a bucket never exceeds its part of the window, hence its width |
| Rates.RateConserved | backend/internal/repository/metric_delta.go:166-197 | average times coverage summed over the grid equals rate times time inside the window summed over the pairs of the scan |
| Rates.ReportTelescopes | backend/internal/repository/metric_delta.go:54-160 | for a chain of valid pairs inside the window that sum is last minus first counter |
| Rates.AverageBelowPeak | backend/internal/repository/metric_delta.go:183-192 | a reported average lies between zero and the reported peak |
| Rates.PeakIsGreatest | backend/internal/repository/metric_delta.go:183-197 | the peak is the rate of a pair that touches the bucket inside the window, and no such pair has a higher one |
| Rates.RateIff | backend/internal/repository/metric_delta.go:57-66 | a pair has a rate exactly without reset, reboot, missing counter, zero time or long gap, and it is the increase over the time between |
| Rates.GridCovers | backend/internal/repository/metric_delta.go:129-135 | the generated grid covers the window, and its first and last bucket meet it |
| Rates.ScanIsSorted | backend/internal/repository/metric_delta.go:89-117 | the scan is the rows of the range in order behind at most one predecessor, the latest row before the range |
| Stitch.PlanPartitions | backend/internal/repository/metric_budget_query.go:137-164 | every instant of the range is in one raw span or in one used rollup bucket and never both, nothing outside is, and spans are merged and disjoint |
| Stitch.PlanHoldsPieces | backend/internal/repository/metric_budget_query.go:137-197 | rollup points and raw points together are exactly one piece per bucket |
| Stitch.PiecesAscend | backend/internal/repository/metric_budget_query.go:166-200 | no bucket appears in two points |
| Stitch.SortedIsAscending | backend/internal/repository/metric_budget_query.go:295-301 | the sorted arrangement of such points is unique |
| Stitch.StitchRefinesRaw | backend/internal/repository/metric_budget_query.go:111-201 | when used rollup rows match their buckets, every bucket's gauge sum, count and maximum equal the direct raw aggregation |
| Stitch.RawIsPieces | backend/internal/repository/metric_budget_query.go:91-104 | the direct raw query is the reference without rollups |
| StitchMeaning.AggregateSummarizes | backend/internal/repository/metric_delta.go:203-224 | the reported count, sum and maximum are the number, the total and the greatest of the values measured in the range, whatever their order |
| StitchMeaning.PiecesAreMeaningful | backend/internal/repository/metric_budget_query.go:106-201 | a point is the stored row exactly for a bucket complete in range, over, confirmed and materialized, and otherwise describes the samples of its clipped bucket; there is a point for every bucket with a stored sample or rate data in range, and for no other |
| StitchMeaning.MatchedPoint | backend/internal/repository/metric_budget_query.go:106-201 | where the rows match their buckets, every point describes the stored samples |
| StitchQuery.Query | backend/internal/repository/metric_budget_query.go:111-201 | the answer is the reference in bucket order, its points mean what they should and miss no stored sample, and it is refused exactly when all raw spans together plan more than 12,000 rows |
| StitchQuery.Plan | backend/internal/repository/metric_budget_query.go:137-164 | the planning loop computes the specified rollup buckets and merged spans |
| StitchQuery.PlaceBucket | backend/internal/repository/metric_budget_query.go:140-163 | one bucket is served from the rollup or clipped and merged |
| StitchQuery.ConfirmedBuckets | backend/internal/repository/metric_budget_query.go:205-222 | exactly the buckets that end by the checkpoint are confirmed |
| StitchQuery.ReadSpans | backend/internal/repository/metric_budget_query.go:178-197 | the spans are read if and only if their uncapped planned rows fit the budget |
| StitchQuery.PlannedAre | backend/internal/repository/metric_budget.go:260-286 | the planned rows of a span are its stored samples and one before it, if there is any |
| StitchQuery.TotalIsSum | backend/internal/repository/metric_budget_query.go:176-190 | the planned rows of several spans are those of each added up |
| StitchQuery.SortPoints | backend/internal/repository/metric_budget_query.go:295-301 | sorts in place: ordered, and a permutation |
| StitchQuery.SiftDown | backend/internal/repository/metric_budget_query.go:297-299 | the inner loop extends the sorted part by one element |
| Budget.BucketCountExactIff | backend/internal/repository/metric_budget.go:105-120 | the count is the number of aligned buckets that meet the range if and only if both ends round the same way |
| Budget.BucketCountExact | backend/internal/repository/metric_budget.go:105-120 | it is always exact from the epoch on |
| Budget.BucketCountShort | backend/internal/repository/metric_budget.go:114-119 | a range across the epoch that is counted one short |
| Budget.CountFalls | backend/internal/repository/metric_budget.go:105-131 | a coarser interval never needs more buckets |
| Budget.SixHoursFit | backend/internal/repository/metric_budget.go:124-131 | thirty days need at most 121 six-hour buckets |
| Budget.RecommendedInterval | backend/internal/repository/metric_budget.go:124-131 | the intervals that fit are exactly the recommended one and everything coarser, and one exists for thirty days |
| Budget.DefaultIsModest | backend/internal/repository/metric_budget.go:135-148 | the automatic interval is one minute up to an hour, and needs 13 to 97 buckets up to a day |
| Budget.ChooseInterval | backend/internal/repository/metric_budget.go:177-208 | a strict request is refused exactly when it does not fit; otherwise the wanted interval is used if it fits, and the finest that does if not |
| Budget.QueryWithBudget | backend/internal/repository/metric_budget.go:155-256 | every answer has at most 600 buckets and 12,000 planned raw rows and is not coarsened without leave, its points are the raw grid or the stitched reference, and each refusal happens exactly under its stated condition |
| Budget.GridIsRaw | backend/internal/repository/metric_budget_query.go:91-104 | at six hours the raw grid is the direct raw query of the stitched plan |
| Budget.GridIsMeaningful | backend/internal/repository/metric_budget_query.go:91-104 | every point of a raw grid describes the samples of its clipped bucket, and every stored sample of the range is in the bucket of a point |
| Budget.BucketsAreCounted | backend/internal/repository/metric_budget_query.go:140-140 | the planning loop visits exactly the counted six-hour buckets |
| Rollup.RefreshCounts | backend/internal/repository/metric_rollup.go:67-150 | a sample accepted at most 23 h ago is in its row after any refresh once its bucket is closed |
| Rollup.AcceptIff | backend/internal/agentwire/wire.go:116-118 | a sample is stored exactly when its ID is new and its time is in the window |
| Rollup.RowsAreContiguous | backend/internal/repository/metric_rollup.go:121-196 | in every reachable state each bucket from the later of the first start and 35 days ago up to the checkpoint has a row |
| Rollup.PruneIsSafe | backend/internal/repository/metric_rollup.go:268-351 | whatever an applied plan removes was before its server's checkpoint and of no pending server, whatever happened since the plan |
| Rollup.RemovedIff | backend/internal/repository/metric_rollup.go:314-461 | dropping whole chunks is only a shortcut: an applied plan removes exactly the samples below its cutoff of servers that are not pending |
| RollupCounts.AggregatedIff | backend/internal/repository/metric_rollup.go:67-196 | a stored sample has been in its row if and only if a refresh of its server after its acceptance started at or before its bucket and closed it |
| RollupCounts.PrunedWasAggregatedIff | backend/internal/repository/metric_rollup.go:314-351 | so a pruned sample had been aggregated exactly under that condition |
| RollupCounts.LateSampleLost | backend/internal/repository/metric_rollup.go:124-150 | the run in which retention removes a sample that no row ever counted |
| RollupCounts.TimelyRefreshCovers | backend/internal/repository/metric_rollup.go:124-150 | a refresh within 23 h of the acceptance meets the condition |
| RollupCounts.RowEqualsBucketIff | backend/internal/repository/metric_rollup.go:155-196 | a row equals the stored samples of its bucket if and only if since its last refresh none arrived and none of its own was pruned |
| RollupCounts.KnownStays | backend/internal/repository/metric_rollup.go:314-351 | a removed sample is never stored again |
| RollupCounts.RunKeepsKnown | backend/internal/repository/metric_delta.go:203-224 | a row aggregates only accepted samples of its own server and bucket, over every run |
| RollupServes.ServedIsRaw | backend/internal/repository/metric_budget_query.go:111-201 | in every reachable state, a stitched query over rows undisturbed since their refresh reports the gauges of the raw samples, and every point describes them |
| RollupServes.UndisturbedRowMatches | backend/internal/repository/metric_budget_query.go:124-136 | such a row equals the direct aggregate of its bucket |
| Rollup.PopulatedStays | backend/internal/repository/metric_rollup.go:196-196 | no step turns a populated row into an empty one; only retention removes it |
| Rollup.NeverEmptied | backend/internal/repository/metric_rollup.go:183-196 | materializing never empties a populated row |
| Rollup.MaterializeRows | backend/internal/repository/metric_rollup.go:155-196 | every bucket of the range gets its recomputed row and all others stay |
| Rollup.StartReaches | backend/internal/repository/metric_rollup.go:124-150 | a refresh starts no later than its window and at or before its checkpoint unless at the retention floor |
| Rollup.DroppedArePrefix | backend/internal/repository/metric_rollup.go:422-440 | the chunks that end by the boundary are exactly the counted prefix |
| Rollup.DroppedHoldNone | backend/internal/repository/metric_rollup.go:395-461 | no dropped chunk holds data of a pending server |
| Rollup.RunKeepsInv | backend/internal/repository/metric_rollup.go:67-351 | stored samples, contiguity and plan safety over every run of accepts, refreshes, plans and prunes |
| RollupStore.MetricRepo.RefreshRollups | backend/internal/repository/metric_rollup.go:67-119 | exactly the servers that need it are refreshed, each contiguous afterwards, and no sample is touched; afterwards a server has the checkpoint of the open bucket exactly when it had one or holds a sample of the last 35 days and the window reaches below the open bucket |
| RollupStore.CheckpointFollows | backend/internal/repository/metric_rollup.go:67-150 | that checkpoint, for every server and window, said without the selection |
| RollupStore.RefreshedOnce | backend/internal/repository/metric_rollup.go:83-116 | a selected server is refreshed once, from the samples before the cycle |
| RollupStore.ShortWindowStalls | backend/internal/repository/metric_rollup.go:83-90 | with a window shorter than the open bucket's age a new server is selected but gets no checkpoint |
| RollupStore.ServersNeedingRollup | backend/internal/repository/metric_rollup.go:223-236 | selects exactly the servers that need a refresh, each once |
| RollupStore.NeedsIff | backend/internal/repository/metric_rollup.go:217-236 | the three reasons to serve a server: recent samples, a late checkpoint, or retained samples and no checkpoint |
| RollupStore.MetricRepo.PlanRetention | backend/internal/repository/metric_rollup.go:268-309 | pending are exactly the servers with a stored sample older than 35 days that no checkpoint confirms, so whatever the plan would delete is before its checkpoint |
| RollupStore.MetricRepo.PruneMetrics | backend/internal/repository/metric_rollup.go:314-351 | chunk drop and row deletes together remove exactly the samples and rollup rows below the cutoff of servers that are not pending; every such sample was before its server's checkpoint |
| RollupStore.DroppableChunks | backend/internal/repository/metric_rollup.go:422-443 | the loop finds the longest prefix of chunks without a pending server's sample, and its boundary |
| Admission.NoAdmissionWhileUnresolved | backend/internal/gate/gate.go:62-109 | in every run with lost commits, recoveries and restarts, a callback that receives a version runs while nothing on that user is unresolved and receives the committed version |
| Admission.RevokedForever | backend/internal/gate/registry.go:93-107 | a session registered when a committed or uncertain change runs is never again granted readiness or input, in its process or after any restart |
| Admission.GrantsAreCurrent | backend/internal/service/terminal.go:455-465 | whatever is granted carries the user's current, final version |
| Admission.CondemnedStays | backend/internal/gate/registry.go:161-186 | a revocation lasts as long as the session's process |
| Admission.DeadlinesFrozen | backend/internal/gate/registry.go:122-133 | over a session's whole life a cleanup deadline never moves once set, and its user, version and revocation stay |
| Admission.RunKeepsInv | backend/internal/gate/gate.go:48-134 | fence, session and revocation invariants over every run |
| Admission.ChangeKeepsInv | backend/internal/service/auth.go:209-218 | a password change keeps them for each of its four outcomes |
| Admission.GateAnswersIff | backend/internal/gate/gate.go:62-92 | the gate answers exactly when it is in time, the user exists and nothing is unresolved, and then with the committed version |
| Admission.GrantedIff | backend/internal/gate/registry.go:93-158 | a session is granted readiness or input exactly when its gate is in time and it is preparing or ready, so never after a revocation |
| Commits.RolledBackIff | backend/internal/repository/user.go:97-109 | a failed COMMIT is called a rollback exactly when its answer leaves no room for an effect, and it is uncertain exactly otherwise |
| AdmissionService.UserRepo.TokenVersion | backend/internal/repository/user.go:66-75 | an ordinary read returns the committed version |
| AdmissionService.UserRepo.LockedTokenVersion | backend/internal/repository/user.go:77-90 | a locking read answers only when nothing is unresolved |
| AdmissionService.UserRepo.ChangePassword | backend/internal/repository/user.go:97-139 | the row follows what became of the transaction; a change that took or may still take effect is never reported as failed, and it is reported unknown exactly when the answer to COMMIT leaves both open |
| AdmissionService.Gate.WithUser | backend/internal/gate/gate.go:62-92 | the version handed to the callback and the new fence |
| AdmissionService.Registry.Register | backend/internal/gate/registry.go:82-91 | a new session under an ID that no earlier one had |
| AdmissionService.Registry.Admit | backend/internal/gate/registry.go:93-107 | readiness exactly for a session still in preparation |
| AdmissionService.Registry.InputPermit | backend/internal/gate/registry.go:146-158 | input exactly for a ready session |
| AdmissionService.Registry.BeginCleanup | backend/internal/gate/registry.go:122-133 | the deadlines are two and three seconds from the first call |
| AdmissionService.Registry.MarkRevoked | backend/internal/gate/registry.go:161-184 | every session of the user is revoked with one cleanup budget, and no other changes |
| AdmissionService.Registry.Done | backend/internal/gate/registry.go:110-120 | the session is gone and nothing else |
| AdmissionService.Service.ChangePassword | backend/internal/service/auth.go:197-218 | keeps the admission invariant; whenever the row changes, acknowledged or not, every session of the user is revoked, an unacknowledged change leaves the user fenced, and a wrong password changes nothing |
| AdmissionService.Service.RegisterTerminal | backend/internal/service/terminal.go:245-251 | keeps the invariant; registers exactly when the token carries the current, final version |
| AdmissionService.Service.AdmitTerminal | backend/internal/service/terminal.go:455-466 | keeps the invariant; grants exactly a preparing session, which is then ready, not condemned, and of the current, final version |
| AdmissionService.Service.PermitInput | backend/internal/service/terminal.go:537-549 | keeps the invariant; permits exactly a ready session, which is of the current, final version |
| AdmissionService.Service.Recover | backend/internal/gate/gate.go:132-134 | keeps the invariant; it lifts the fence exactly when nothing is unresolved |
| ApiKeys.ValidatedKeyIsCurrent | backend/internal/service/apikey.go:203-237 | across every interleaving, a key that validation returns is the one committed at its admission, with nothing unresolved and the presented hash |
| ApiKeys.RevisionDeterminesPolicy | backend/internal/repository/apikey_permissions.go:137-189 | over every run a revision determines hash, scopes and servers |
| ApiKeys.CurrentKeyIsValidated | backend/internal/service/apikey.go:203-237 | conversely, a current key with the presented hash is returned whenever its gate answers |
| ApiKeys.ValidatedIff | backend/internal/service/apikey.go:203-237 | a validation returns a key exactly when the key found still has the presented hash and nothing on it is unresolved |
| ApiKeys.GateAnswersIff | backend/internal/repository/apikey_permissions.go:107-135 | the gate answers exactly when it is in time and nothing is unresolved, with the committed revision or zero |
| ApiKeys.HistoryGrows | backend/internal/repository/apikey_rotation.go:14-49 | committed policies are only ever appended |
| ApiKeys.TargetMeans | backend/internal/repository/apikey_rotation.go:14-49 | an edit applies exactly to the revision it expects; a rotation replaces the hash and nothing else, a permission edit the given lists and nothing else, both as the next revision |
| ApiKeys.MutateEffect | backend/internal/service/apikey_permissions.go:88-180 | the rows follow what became of the transaction, a stale revision changes nothing, and an uncertain answer raises the fence |
| ApiKeys.RunKeepsInv | backend/internal/service/apikey.go:149-164 | revisions, fences and pending lookups stay consistent over every run |
| ApiKeys.KeyService.Enter | backend/internal/repository/apikey_permissions.go:107-135 | the gate's revision read, zero for a missing key |
| ApiKeys.KeyService.Mutate | backend/internal/service/apikey_permissions.go:73-182 | keeps the invariant; no other key changes, nothing committed is rewritten, an acknowledged edit is exactly the stated row, and an edit that took or may still take effect is never reported as failed |
| ApiKeys.KeyService.FindByHash | backend/internal/repository/apikey.go:99-106 | finds a key with the presented hash, or reports that none has it |
| ApiKeys.SearchHash | backend/internal/repository/apikey.go:99-106 | the index search, both ways |
| ApiKeys.KeyService.Validate | backend/internal/service/apikey.go:214-229 | keeps the invariant; returns a key exactly when the stored one has the presented hash and nothing on it is unresolved, and then that one |
| InstallFence.OneOwner | backend/internal/service/resident_deploy.go:454-491 | at most one removal owns a server in every reachable state |
| InstallFence.AdmittedUnfenced | backend/internal/service/resident_scheduler.go:28-47 | a job appears only by scheduling, on a listed server without job and without fence |
| InstallFence.PreparedExcludesJobs | backend/internal/service/resident_deploy.go:515-543 | after an error-free preparation no job exists on the server until that removal closes |
| InstallFence.AdmittedAfterCloseIsFresh | backend/internal/service/resident_deploy.go:48-67 | a job admitted after a release comes from a server list read after it |
| InstallFence.CapacityHolds | backend/internal/service/resident_scheduler.go:98-139 | at most 16 jobs, four of each slot, and none holds both |
| InstallFence.RunKeepsInv | backend/internal/service/resident_deploy.go:443-564 | ownership, exclusion, freshness and slot accounting over every run |
| InstallFence.JoinedIsGone | backend/internal/service/resident_deploy.go:523-530 | when the joined job is done, the fenced server has none |
| InstallFence.RetryWaits | backend/internal/service/resident_scheduler.go:53-89 | every retry waits between 30 s and 15 min, a failure at least a minute, under its own key |
| InstallFence.FailureWait | backend/internal/service/resident_scheduler.go:86-89 | a repeated failure waits a minute doubled for each one before it, ten at most, and up to half of that more |
| InstallFence.NextRetryMeans | backend/internal/service/resident_scheduler.go:53-77 | a retry keeps its key and counts failures and busy answers; progress and short busy streaks wait 30 s, the rest back off |
| InstallFence.EndPassForgets | backend/internal/service/resident_deploy.go:145-149 | the end of a pass forgets exactly the retries of servers it did not list |
| InstallMonitor.ResidentMonitor.BeginPass | backend/internal/service/resident_deploy.go:62-64 | keeps the protocol invariant; the pass holds the current epoch and every release so far lies before it |
| InstallMonitor.ResidentMonitor.ReadServers | backend/internal/service/resident_deploy.go:65-66 | keeps the invariant; the list is read after the epoch was captured and, while that is current, after every release |
| InstallMonitor.ResidentMonitor.ChangeSettings | backend/internal/service/resident_deploy.go:50-60 | keeps the invariant; the pass in progress can admit nothing more and every job is canceled |
| InstallMonitor.ResidentMonitor.ScheduleInstall | backend/internal/service/resident_scheduler.go:28-47 | keeps the invariant: at most 16 jobs; admits exactly an idle, unfenced, rested server of a current pass below the limit, from a list read after its last release |
| InstallMonitor.ResidentMonitor.CompleteJob | backend/internal/service/resident_scheduler.go:48-83 | keeps the invariant; the place is free, and a retry is kept exactly after a failure in the current epoch on an unfenced server, under its key with its count raised, due in 30 s to 15 min |
| InstallMonitor.AfterFailure | backend/internal/service/resident_scheduler.go:55-75 | counts the failure under its key and draws the due time |
| InstallMonitor.CancelJobs | backend/internal/service/resident_deploy.go:55-57 | every job is canceled and nothing else changes |
| InstallMonitor.ResidentMonitor.BeginInstall | backend/internal/service/resident_scheduler.go:98-106 | keeps the invariant; the slot count is the number of holders, at most four, and the job holds one kind at most |
| InstallMonitor.ResidentMonitor.LeaveTransfer | backend/internal/service/resident_scheduler.go:128-131 | keeps the invariant; the job holds no slot while it waits for activation, and the count is the holders' |
| InstallMonitor.ResidentMonitor.BeginActivation | backend/internal/service/resident_scheduler.go:132-139 | keeps the invariant; at most four activations, never beside a transfer slot |
| InstallMonitor.ResidentMonitor.Finish | backend/internal/service/resident_scheduler.go:108-121 | keeps the invariant; the job holds nothing and both counts are the holders' |
| InstallMonitor.NextStage | backend/internal/service/resident_scheduler.go:98-139 | the branches of the stage calls compute the specified stage and slot counts |
| InstallMonitor.ResidentMonitor.FenceRemoval | backend/internal/service/resident_deploy.go:454-491 | keeps the invariant; an owner is the only one of its server, the pass in progress can admit nothing more, and a job found there is canceled |
| InstallMonitor.ResidentMonitor.Join | backend/internal/service/resident_deploy.go:515-543 | keeps the invariant; the fence stays, and the removal is prepared exactly when the wait succeeds, the job is gone and the node was loaded |
| InstallMonitor.ResidentMonitor.Close | backend/internal/service/resident_deploy.go:555-564 | keeps the invariant; the request owns nothing, a released server is free, and the pass in progress can admit nothing more |
| MonitorScheduler.RunKeepsInv | backend/internal/service/monitor_schedule.go:140-301 | in every run `outstanding` is the admitted workers not yet completed and at most 16, in-flight nodes are among them, the order is sorted with exactly the node keys, no node is queued and in flight, and due times stay within the horizon |
| MonitorScheduler.PlanLeavesNothing | backend/internal/service/monitor_schedule.go:182-226 | after a plan nothing is admissible |
| MonitorScheduler.PlanOutcome | backend/internal/service/monitor_schedule.go:182-245 | what one pass does to each node: running ones keep running, waiting ones stay, a due or queued one is admitted unless every worker is taken, and only running and queued ones miss slots |
| MonitorScheduler.WarnsAtThirdMiss | backend/internal/service/monitor_schedule.go:232-245 | a deferral streak warns exactly in the pass of its third miss, and admission ends it |
| MonitorScheduler.PlansAreBursts | backend/internal/service/monitor_schedule.go:182-245 | any burst of passes visits each node once per pass |
| MonitorDeferrals.DeferralsAreSlots | backend/internal/service/monitor_schedule.go:182-245 | the deferrals that any burst of passes reports are at most the slots that came due, all nodes together |
| MonitorDeferrals.NodeShift | backend/internal/service/monitor_schedule.go:232-245 | a node's due time moves at most once for each of its slots that came due |
| MonitorDeferrals.PlansShift | backend/internal/service/monitor_schedule.go:182-245 | the due times move by exactly one interval for every reported deferral |
| MonitorScheduler.PlanKeepsInv | backend/internal/service/monitor_schedule.go:182-226 | one plan keeps the invariant |
| MonitorScheduler.SyncKeepsInv | backend/internal/service/monitor_schedule.go:151-179 | so does a sync that deletes nodes mid-task |
| MonitorScheduler.SyncMeans | backend/internal/service/monitor_schedule.go:151-179 | exactly the listed nodes remain, known ones as they were and new ones due at once |
| MonitorScheduler.CompleteKeepsInv | backend/internal/service/monitor_schedule.go:256-301 | and a completion, of a deleted node too |
| MonitorScheduler.PassEach | backend/internal/service/monitor_schedule.go:182-226 | a pass changes each node as exactly one visit |
| MonitorScheduler.PassCounts | backend/internal/service/monitor_schedule.go:182-226 | admissions account for the worker count and stay within capacity |
| MonitorScheduler.RunPass | backend/internal/service/monitor_schedule.go:188-224 | the rotating loop is the specified pass and ends at its cursor |
| MonitorScheduler.SortIds | backend/internal/service/monitor_schedule.go:151-179 | strictly sorted with the same IDs |
| MonitorScheduler.VisitNode | backend/internal/service/monitor_schedule.go:191-223 | the branches of a visit |
| MonitorScheduler.FinishNode | backend/internal/service/monitor_schedule.go:256-301 | the branches of a completion, warning exactly at the third failure and recovering exactly after one |
| MonitorScheduler.NextAlignedLoop | backend/internal/service/monitor_schedule.go:306-322 | the skipping loop finds the first slot after now |
| MonitorScheduler.Scheduler.SyncLive | backend/internal/service/monitor_schedule.go:151-179 | the sync is its step |
| MonitorScheduler.Scheduler.PlanNow | backend/internal/service/monitor_schedule.go:182-226 | the plan is its step |
| MonitorScheduler.Scheduler.CompleteTask | backend/internal/service/monitor_schedule.go:256-301 | the completion is its step: one worker less, and only the node whose task was running changes |
| MonitorScheduler.Scheduler.CanAdmit | backend/internal/service/monitor_schedule.go:374-392 | reports exactly whether a node is admissible |
| MonitorScheduler.Scheduler.EarliestDue | backend/internal/service/monitor_schedule.go:394-426 | none exactly when work could be admitted now or no later slot exists, otherwise the least due time after now |
| MonitorNode.MissesAreSlots | backend/internal/service/monitor_schedule.go:232-245 | over any burst the misses since a due time was set are at most (now - due) / interval + 1, and the due time moved by exactly that many slots |
| MonitorNode.CompleteKeepsPhase | backend/internal/service/monitor_schedule.go:256-322 | a non-failure completion keeps the phase, picks the first slot after now when overdue, and resets the failures exactly on success |
| MonitorNode.CompleteKeepsNode | backend/internal/service/monitor_schedule.go:256-301 | the due time after a completion is within the horizon and warnings match their counters |
| MonitorNode.VisitKeepsNode | backend/internal/service/monitor_schedule.go:182-245 | so after a visit |
| MonitorNode.BackoffBaseLoop | backend/internal/service/monitor_schedule.go:331-346 | the saturating loop computes exactly min(I * 2^(k-1), cap) |
| MonitorNode.Backoff | backend/internal/service/monitor_schedule.go:331-356 | the jittered delay lies in [I, cap] |
| MonitorNode.BackoffDelay | backend/internal/service/monitor_schedule.go:331-356 | the loop, the jitter and the clamps compute it |
| MonitorNode.BackoffNear | backend/internal/service/monitor_schedule.go:331-356 | it is min(I * 2^(k-1), cap) within a tenth, and exactly that without jitter |
| MonitorNode.FailureBacksOff | backend/internal/service/monitor_schedule.go:284-291 | after a failure the count is one higher and the node is due that long from now |
| MonitorNode.AlignedKeepsPhase | backend/internal/service/monitor_schedule.go:306-322 | skipping slots keeps the phase modulo the interval |
| Lease.SettledOnce | backend/internal/service/lease.go:58-93 | in every interleaving the pool sees one settlement, after the primitive joined, and it is a discard exactly when something spoiled the lease before it |
| Lease.RunKeepsInv | backend/internal/service/lease.go:51-93 | closing with nothing active means settled, and the unhealthy flag is exactly an earlier fault |
| Lease.StepKeepsInv | backend/internal/service/lease.go:137-180 | a settled lease never changes, and only an end or a joined cleanup deactivates it |
| Lease.SshLease.SettleLocked | backend/internal/service/lease.go:73-93 | settles exactly when closing, idle and unsettled |
| Lease.SshLease.BeginPrimitive | backend/internal/service/lease.go:137-165 | keeps the lease invariant; begins exactly on an open, healthy, idle lease of the current generation, and a stale generation spoils an open one |
| Lease.SshLease.EndPrimitive | backend/internal/service/lease.go:167-180 | keeps the invariant; a pending cleanup keeps the lease active, otherwise a closing lease is settled once, by its health |
| Lease.SshLease.CleanupJoined | backend/internal/service/lease.go:169-171 | keeps the invariant; a closing lease is discarded, once |
| Lease.SshLease.Finish | backend/internal/service/lease.go:58-71 | keeps the invariant; settled at once when idle, later when active, never a second time |
| UsageRecords.DecidedIsFinal | backend/internal/repository/usage_log.go:257-268 | over every interleaving a decided record never changes while it exists |
| UsageRecords.RecordEvolves | backend/internal/repository/usage_log.go:183-277 | a record seen twice existed in between, kept its identity, and its sequence number never decreased |
| UsageRecords.UpsertEffect | backend/internal/repository/usage_log.go:183-277 | a submission is accepted exactly when it is complete, its owner is live and the identity is unchanged; a newer one replaces a running record and a recovery with what was submitted, but does not restart one without a finalizer, and any other is left as it is |
| UsageRecords.UnfinalizedNeverRuns | backend/internal/repository/usage_log.go:266-268 | without a submitted lease-expired reason, a record whose finalization is unavailable never returns to running |
| UsageRecords.ReopenedIff | backend/internal/repository/usage_log.go:260-268 | exactly which write makes it possible to run again |
| UsageRecords.ReopenedExample | backend/internal/repository/usage_log.go:260-274 | the run from the empty database that reopens an unfinalized record |
| UsageRecords.RunningIsKept | backend/internal/repository/usage_log.go:589-591 | a running record is never deleted |
| UsageRecords.StepEvolves | backend/internal/repository/usage_log.go:538-621 | a deleted lease-expired record leaves its owner retired, so nobody can write it again |
| UsageRecords.OwnersExist | backend/internal/repository/usage_log.go:117-173 | every record with an owner has an owner row, so reconciliation never reports a missing owner |
| UsageRecords.ReconcileInventsNothing | backend/internal/repository/usage_log.go:347-452 | reconciliation changes only undecided records of its owner, to unknown at the same sequence number |
| UsageRecords.ReconcileEffect | backend/internal/repository/usage_log.go:375-444 | exactly the selected running records of a dead owner, and the untracked old ones of its own live owner, become unknown for the stated reason |
| UsageRecords.ReconcileSpares | backend/internal/repository/usage_log.go:396-425 | records of a live owner are left alone by others, and by itself while tracked or recent |
| UsageRecords.CleanEffect | backend/internal/repository/usage_log.go:552-614 | exactly a finished record past its retention that no live owner may still write is deleted |
| UsageRecords.StepKeepsInv | backend/internal/repository/usage_log.go:623-658 | each transaction keeps owners referenced by records |
| UsageRepo.UsageLogRepo.LockOwner | backend/internal/repository/usage_log.go:117-136 | missing, retired or expired, in that order |
| UsageRepo.UsageLogRepo.RegisterInstance | backend/internal/repository/usage_log.go:138-162 | keeps the invariant; succeeds exactly for a new or a live instance, adds exactly a new unreferenced one, and touches no record |
| UsageRepo.UsageLogRepo.Beat | backend/internal/repository/usage_log.go:164-173 | keeps the invariant; renews any lease that is not retired, and reports the stated error otherwise |
| UsageRepo.UsageLogRepo.Put | backend/internal/repository/usage_log.go:183-277 | keeps the invariant; accepts exactly the acceptable submissions, stores what was submitted exactly when it replaces the record, and changes nothing else |
| UsageRepo.UsageLogRepo.Write | backend/internal/repository/usage_log.go:235-274 | insert, refuse, ignore or replace |
| UsageRepo.UsageLogRepo.ReconcileOwner | backend/internal/repository/usage_log.go:375-444 | keeps the invariant; exactly the records taken over change, to the stated recovery |
| UsageRepo.RecoverAll | backend/internal/repository/usage_log.go:422-442 | the loop rewrites exactly the eligible selected records |
| UsageRepo.UsageLogRepo.CleanRecord | backend/internal/repository/usage_log.go:552-614 | keeps the invariant; deletes exactly the removable record, never a running one, and retires an owner that could still write it |
| UsageRepo.UsageLogRepo.CleanInstance | backend/internal/repository/usage_log.go:631-651 | keeps the invariant; exactly a dead instance that no record names goes |
| UsageRepo.FindReference | backend/internal/repository/usage_log.go:141-141 | finds whether any record names the owner |
| Paging.CrawlIsComplete | backend/internal/handler/usage_log.go:86-151 | following cursors to the end returns exactly the matching rows of the first page's log, each once, newest first |
| Paging.CrawledPrefix | backend/internal/repository/usage_log.go:294-305 | after every page the client holds a prefix of the answer and the cursor stands at its last row |
| Paging.InsertIsInvisible | backend/internal/repository/usage_log.go:322-335 | rows inserted with larger IDs do not change what a crawl sees |
| Paging.CrawlDespiteInserts | backend/internal/handler/usage_log.go:86-151 | the crawl is complete whatever rows with new IDs are inserted between its requests |
| Paging.InsertsAreStable | backend/internal/repository/usage_log.go:322-335 | any sequence of such inserts leaves the visible rows as they were |
| Paging.IssuedCursorAccepted | backend/internal/handler/usage_log.go:284-323 | an issued cursor is accepted if and only if the clock is within its 1,800 s and the skew, and it is then served |
| Paging.ServedIff | backend/internal/handler/usage_log.go:86-151 | a page is served exactly for a valid query, and with a cursor only to the subject and for the query it was issued for, in its half hour |
| Paging.AfterRow | backend/internal/repository/usage_log.go:298-303 | the keyset condition at a row selects exactly the rows behind it |
| Paging.List | backend/internal/handler/usage_log.go:86-151 | the handler's reply is the specified page or error |

## Left out

- Outbox.Spool.Add: the encoded size of a sample is a parameter, and the range checks of the readings are one flag, because neither depends on the clock or the queue.
- Outbox.InsertKeepsQueue: the order of samples with equal capture time is not fixed, because the source's sort does not fix it when reopening.
- Rates.RateConserved: states nothing about a pair that crosses the end of a raw span, because the scan stops there and the code does not charge it.
- Stitch.StitchRefinesRaw: covers gauges only; rollup and raw rates differ at span edges by design.
- Rollup.RowsAreContiguous: a refresh's checkpoint read and its transaction are one step, as one maintenance loop runs them; several hubs refreshing at once are not modelled.
- MonitorScheduler.RunKeepsInv: "one worker per node" across a removed and re-listed ID is not claimed, nor fairness between nodes.
- UsageRecords.DecidedIsFinal: payload fields that a write replaces together with the outcome are represented by the outcome, sequence, reason and times only; the legacy import is not modelled.
- HubStore.Store.Receive: the runtime record that a request updates (last contact, latest sample, pending counts) and heartbeats are not modelled; they do not influence what is stored.
- Outbox.OpenSpool: an I/O error while reading a file is not distinguished from an unreadable one.
- Budget.QueryWithBudget: the two-second deadline, the choice of statistic, and the coverage and downsampling fields of the answer are not modelled.
- ApiKeys.KeyService.Mutate: audit events, scope and server validation, the sorting of the lists, and the revocation of the key's terminals are not modelled; the terminals use the registry of `AdmissionService`.
- HTTP and WebSocket transport, authentication middleware, administrator checks and error envelopes.
- SSH, SFTP, service managers and artifact transfer: a primitive succeeds, fails or stays pending.
- Cryptography and encodings: a cursor, hash or token stands for the value it protects.
- PostgreSQL, TimescaleDB and GORM mechanics, schema migrations and storage reports.
- Closing terminal transports and waiting for their cleanup.
- Validation of a whole request (protocol number, version text, kind); only its samples matter to delivery.
- Metric collection on the agent, 64-bit overflow of nanosecond times, and floating-point rounding.
