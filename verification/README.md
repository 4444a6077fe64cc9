# A verified model of the NFTLox indexer

The indexer replays the operations of the Hive chain into a database. Every node that replays the same
irreversible blocks has to arrive at the same rows, the same confirmed and invalid records, the same cursor
and the same 32-byte state root, whatever happens on the way: handlers that fail after half their work,
transactions that are rolled back, batches cut differently, crashes, endpoints that lie or time out, and
other indexers on the same database. This project models that engine in Dafny and proves that it does, and
says exactly where it does not.

`dafny verify dfyconfig.toml` verifies everything.

## How the model is laid out

| file | part of the system |
|---|---|
| `StateRootHash`, `StateRootText`, `OrderedMap`, `StateRootBuffer`, `StateRootFlush` | the rolling XOR root, its text form, the per-transaction buffer with its undo log, and the flush |
| `PaymentSplit`, `TransferMatching`, `SaleTransfers` | the integer split of a sale, the matching of its legs in a shared transfer pool, and which transfers pay a sale |
| `Ledger`, `Router`, `Routes` | one operation as an atomic step, the savepoint-and-rollback code that must amount to it, and which route an operation takes |
| `Replay`, `ReplayFacts`, `Expiry`, `SyncEngine` | plain block-by-block replay, batches of ranges, how long a reservation lasts, and the sync loop that must follow the replay |
| `SyncLock`, `StaleBatch`, `Fleet` | the session lock of one process, when a batch may be written, and several indexers interleaved |
| `EndpointHealth`, `Digits`, `OperationIds`, `HiveClient`, `Reading`, `Failover`, `HeadConsensus` | circuit breaker, paged reading, failover, and the choice of the chain head |
| `DropTable`, `PackPlan` | weighted drops, reserved supply, and the plan of a pack opening |
| `JsonText`, `JsonReader`, `CanonicalJson` | canonical JSON, and a reader of JSON that it is checked against |
| `Calendar`, `HiveTimestamp`, `AccountValidation`, `AccountReplay` | timestamps, decisions that depend on when an account was created, and what they mean for the replay |

A handler is an arbitrary function from an operation and what it can read to a list of effects and a
verdict: it may put or remove asset rows, change sale columns and other tables, verify transfers, and
succeed, be rejected or fail. Every result about operations therefore holds for all handlers. SHA-256 is an
arbitrary function to 32 bytes. Whatever the environment decides - which fetches fail, where the database
fails, when a connection closes, how endpoints answer, what time it is - is a parameter, and every result
holds for all its values.

What the engine computes is fixed twice. Each method is proved against a function that says what it
computes, and about each of these functions a lemma says, in terms of rows, transfers, positions, characters
or numbers and without the function's own steps, what that is: `Routes`, `SaleTransfers`, `Expiry`,
`Reading` and `JsonReader` are there for nothing else.

## What the proofs brought out

* The continuity check reads the cursor before the write fence is taken, and nothing compares them again
  inside it. `StaleBatches.SafeExactlyBehindCursor` shows that a batch is safe for every protocol and chain
  if and only if it starts right behind the cursor when it is written. `Fleets.StaleWriterGetsIn` gives an
  interleaving of two indexers in which the fence opens to a batch that does not, and in
  `Fleets.StaleWriterCorrupts` that batch commits: an operation that was rejected in its time is then
  recorded as applied as well, and the database is no longer what replay leaves. As long as no indexer is
  without the session lock between its check and the end of its transaction, this cannot happen
  (`Fleets.UnlostLockIsEnough`).
* The check loop of the opening planner does not count repeats inside one pack. A capped or reserved seed
  can be planned beyond its limit by up to one less than the pack size, and
  `PackPlans.SupplyRespectedIffSingleItems` shows that only single-item packs exclude it, for supply and for
  reservations.
* A failed attempt to take the session lock gives up whatever the process holds. If two attempts overlap,
  that can be a lock which the other attempt has obtained meanwhile; `SyncLocks.LockIsLostIffAttemptsOverlap`
  shows that it takes two outstanding attempts, no more and no less. The only caller in the repository,
  `waitForLock`, waits for each attempt before it makes the next one, so a single sync loop never loses a
  lock in this way (`SyncLocks.WaitingLoopIsSequential`).
* An operation id of 0 that begins a later page reads as the end of the range, and the rest is silently left
  out. `HiveClient.WholeListIffNoPageBeginsAtZero` shows, for every page size, that nothing else can cut a
  paged list short.
* Keys that look like array indices are printed in numeric order before all others. Canonical JSON is
  canonical all the same (`CanonicalJson.SameTextIffAlike`), but it keeps to the key order of RFC 8785 only
  as long as those keys sort as text where they sort as numbers: `CanonicalJson.RfcOrderIffKeysSortAsText`
  says exactly when. The keys 9 and 10 are an example where they do not.
* Whether an account is accepted does not depend on when it is looked up, so neither does the replay
  (`AccountReplay.LookupTimesDoNotMatter`). The recorded reason of a rejection does:
  `AccountValidation.ReasonDependsOnLookupTime` says exactly when, and `AccountValidation.ReasonCanDiffer`
  gives an example.

## Model

| member | source | states |
|---|---|---|
| `StateRootHash.XorInto` | packages/indexer/src/utils/state-root-hash.ts:61-70 | fails exactly on a wrong length, and otherwise gives the bytewise XOR in a fresh buffer |
| `StateRootHash.XorCancel` | packages/indexer/src/utils/state-root-hash.ts:103-106 | XORing a hash out that was XORed in restores the root, so an update needs only the old and the new row |
| `StateRootHash.ComputeStateRootFullScan` | packages/indexer/src/utils/state-root-hash.ts:116-125 | the loop computes the XOR of all row hashes in iteration order |
| `StateRootHash.ScanIsOrderIndependent` | packages/indexer/src/utils/state-root-hash.ts:8-11 | every order of listing the rows of a table gives the same root, the root of the table |
| `StateRootHash.TableRootPut` | packages/indexer/src/utils/state-root-hash.ts:90-109 | inserting or replacing a row moves the table's root by exactly the old and the new row hash |
| `StateRootHash.TableRootRemove` | packages/indexer/src/utils/state-root-hash.ts:90-109 | deleting a row moves the table's root by exactly its hash |
| `StateRootText.FormatStateRoot` | packages/indexer/src/utils/state-root-hash.ts:129-134 | prints exactly the 32-byte roots, two lower-case digits a byte behind the prefix |
| `StateRootText.ParseStateRoot` | packages/indexer/src/utils/state-root-hash.ts:136-149 | accepts exactly the texts that some root prints as, and gives that root back |
| `StateRootText.PrintedTextIdentifiesRoot` | packages/indexer/src/utils/state-root-hash.ts:129-149 | two roots print alike only when they are equal |
| `StateRootText.PrintedInBase16` | packages/indexer/src/utils/state-root-hash.ts:129-134 | behind sha256: every byte stands as two digits in base 16, by their character codes, the higher one first |
| `OrderedMaps.DeleteUndoesSet` | packages/indexer/src/utils/state-root-buffer.ts:109-113 | adding a new key and deleting it again leaves contents and insertion order as they were |
| `StateRootBuffers.StateRootBuffer.Queue` | packages/indexer/src/utils/state-root-buffer.ts:62-79 | the first old row is kept, the last new row wins, and the change is logged with the entry it replaced |
| `StateRootBuffers.EntriesSummarise` | packages/indexer/src/utils/state-root-buffer.ts:10-79 | exactly the changed assets have an entry, with the first old row, the last new row and the greatest block of what was queued for them |
| `StateRootBuffers.StateRootBuffer.MaxBlockNum` | packages/indexer/src/utils/state-root-buffer.ts:93-99 | the greatest block among the entries, zero when there are none |
| `StateRootBuffers.StateRootBuffer.RollbackTo` | packages/indexer/src/utils/state-root-buffer.ts:105-115 | refuses exactly the checkpoints outside the log, and otherwise undoes the changes above it, last first |
| `StateRootBuffers.UndoQueued` | packages/indexer/src/utils/state-root-buffer.ts:62-115 | undoing one queued mutation restores entries, insertion order and log |
| `StateRootBuffers.RollbackRestoresCheckpoint` | packages/indexer/src/utils/state-root-buffer.ts:101-115 | whatever is queued, checkpointed and rolled back above a checkpoint, rolling back to it restores the buffer it was taken from, and earlier checkpoints stay valid |
| `StateRootBuffers.CheckpointBelowFloorIsLost` | packages/indexer/src/utils/state-root-buffer.ts:101-115 | a checkpoint does not survive a rollback below it: the condition of the previous row is needed |
| `StateRootFlush.QueueAllKeepsTracking` | packages/indexer/src/utils/state-root-buffer.ts:10-16 | after any exact mutations the entries are the net difference between the table at the start and now |
| `StateRootFlush.FlushAgreesWithFullScan` | packages/indexer/src/db/queries/state-root.ts:389-433 | flushing the entries in any order turns the root and count of the table at the start into those of the table now |
| `StateRootFlush.FlushStateRootBuffer` | packages/indexer/src/db/queries/state-root.ts:389-433 | a summary that agreed with the full scan agrees with it again after the flush; the buffer is empty then, and the block number is the greatest seen |
| `StateRootFlush.FlushBeforeCommit` | packages/indexer/src/db/client.ts:134-151 | the automatic flush before COMMIT finds the buffer empty and changes nothing |
| `PaymentSplits.RoundedShare` | packages/protocol/src/payment.ts:55-64 | a basis-point share is within half a unit of the exact share |
| `PaymentSplits.SplitConserves` | packages/protocol/src/payment.ts:136-181 | the split exists exactly for in-range listings; seller, royalty and fee add up to the price, the seller always gets something, the fee is within half a unit of 1% and at least one unit when charged |
| `PaymentSplits.SharesAreNearest` | packages/protocol/src/payment.ts:55-175 | to the last unit: the royalty is the price times the percentage in whole basis points, the fee 1% of the price, both rounded to the nearest unit with halves up, and nothing where the recipient is the seller |
| `TransferMatching.FindUniqueTransferIndex` | packages/indexer/src/utils/validation.ts:93-128 | finds an unclaimed transfer that matches the leg exactly when there is one and only one |
| `TransferMatching.TransferPool.VerifyTransfers` | packages/indexer/src/utils/validation.ts:130-213 | agrees with matching the legs one after the other, and claims the indices only when every leg is found |
| `TransferMatching.MatchPaysExactlyThePrice` | packages/indexer/src/utils/validation.ts:130-202 | a match consists of distinct unclaimed transfers from one buyer that carry exactly the price, and nothing in any other currency |
| `SaleTransfers.VerifiedIffPaid` | packages/indexer/src/utils/validation.ts:130-202 | a sale is verified if and only if its price splits and exactly one free transfer pays the seller, and then, from whoever made it, exactly one the royalty and one the fee where they are due, each with its own recipient, amount, currency and memo; it claims these |
| `SaleTransfers.RefusedIffUnpaid` | packages/indexer/src/utils/validation.ts:93-202 | it is refused if and only if there are no transfers, or the price splits and a share is missing or ambiguous; the first such share, seller before royalty before fee, gives the reason |
| `SaleTransfers.FaultIffUnsplittable` | packages/indexer/src/utils/validation.ts:130-137 | it is an internal error if and only if there are transfers and the price cannot be split |
| `SaleTransfers.EverybodyReceivesHisShare` | packages/indexer/src/utils/validation.ts:130-202 | from the claimed transfers every account receives exactly the shares that are its own, as seller, royalty recipient and fee account |
| `TransferMatching.MatchIgnoresTransferOrder` | packages/indexer/src/utils/validation.ts:93-202 | rearranging the transfers rearranges the match and never decides whether there is one |
| `TransferMatching.ValidateFixedFee` | packages/indexer/src/utils/fee-validator.ts:52-102 | the scan and checks of the source compute `FixedFee` |
| `TransferMatching.FixedFee` | packages/indexer/src/utils/fee-validator.ts:52-102 | accepts exactly when one unclaimed transfer has recipient and memo, and that one pays the required HBD; otherwise it rejects and is never fatal |
| `Ledger.MutationsMatchRows` | packages/indexer/src/processor/action-router.ts:256-332 | whatever a handler does, the mutations an operation leaves queued are exactly the difference of the asset rows |
| `Ledger.OperationSettles` | packages/indexer/src/processor/action-router.ts:264-332 | an operation only adds claims, and what it claims carries exactly what it owed, in every currency; a rejected or fatal one claims and owes nothing |
| `Ledger.StepIsAllOrNothing` | packages/indexer/src/processor/action-router.ts:230-386 | a rejected operation leaves its record and nothing else, a fatal or already confirmed one nothing at all; only an applied one is confirmed |
| `Routes.RouteIsDecided` | packages/indexer/src/processor/action-router.ts:231-375 | a new operation is applied if and only if authority, node gate and fee are in order, every effect of its handler can be carried out and the handler succeeds; otherwise the first check it fails, in this order, makes it rejected or fatal and gives the reason |
| `Routes.AppliedLeaves` | packages/indexer/src/processor/action-router.ts:296-334 | an applied operation leaves the last state its handler led to, effect by effect, with the fee taken and owed and its confirmation recorded |
| `Routes.EffectDone` | packages/indexer/src/processor/action-router.ts:296-303 | what one effect changes in the tables, the claims and the queued mutations, and that only a claim can fail |
| `Routes.OrphanedIffPaidPurchase` | packages/indexer/src/processor/action-router.ts:363-386 | a rejection is flagged as an orphaned purchase if and only if it is a purchase rejected behind the authority check whose transaction carries transfers |
| `Router.BatchTransaction.RouteOperationDetailed` | packages/indexer/src/processor/action-router.ts:225-406 | with savepoint, buffer rollback and consumed-set restore, rows, buffer and pool end up exactly where the atomic step puts them whenever the result is not fatal; on a healthy database it never fails otherwise |
| `Router.BatchTransaction.RunHandlerEffects` | packages/indexer/src/processor/action-router.ts:296-314 | when a handler stops half-way, rows, buffer and pool hold exactly what had been carried out by then |
| `Replay.SweepsCompose` | packages/indexer/src/db/queries/asset-mutations.ts:217-227 | two expiry sweeps amount to one up to the later block |
| `Replay.SweepBeforeFirstOp` | packages/indexer/src/scanner/sync-engine.ts:464-467 | sweeping only when a block's first operation is met is the same as sweeping before the block |
| `Expiry.OperationSees` | packages/indexer/src/scanner/sync-engine.ts:436-467 | the first operation of a block is carried out on tables from which exactly the reservations that expired before the block have been released, later ones on what the earlier ones left |
| `Expiry.ReservationIsSeen` | packages/indexer/src/scanner/sync-engine.ts:436-439 | a reservation that does not expire before the operation's block is there when the operation is carried out |
| `Expiry.ReplayLeavesNoneOverdue` | packages/indexer/src/scanner/sync-engine.ts:513-519 | after a block no reservation is left that expired with it or before, whatever the operations did |
| `Expiry.BatchLeavesNoneOverdue` | packages/indexer/src/scanner/sync-engine.ts:513-519 | the same after a batch, up to its last block |
| `Expiry.QuietBlock` | packages/indexer/src/db/queries/asset-mutations.ts:217-227 | a block without operations releases what expires with it, records what the parser refused, and leaves all else as it was |
| `Expiry.ReservationLasts` | packages/indexer/src/db/queries/asset-mutations.ts:217-227 | a reservation that no operation touches stays as it is through the block it names, and from the end of that block on is the same asset back on the listing |
| `Replay.BatchIsReplay` | packages/indexer/src/scanner/sync-engine.ts:445-518 | a batch cut in any way into consecutive ranges leaves the tables and records of block-by-block replay, and gets stuck exactly when that does |
| `ReplayFacts.CutsAgree` | packages/indexer/src/scanner/sync-engine.ts:366-407 | any two ways of cutting the same blocks into ranges leave the same state |
| `ReplayFacts.IndexersAgree` | packages/indexer/src/scanner/sync-engine.ts:529-536 | two indexers record the same root at every checkpoint they share, and at equal cursors hold the same rows, records and root |
| `ReplayFacts.EveryOperationDecidedOnce` | packages/indexer/src/scanner/sync-engine.ts:445-511 | after any replay exactly the operations of the blocks so far are decided, each confirmed or invalid and never both |
| `ReplayFacts.NoTransferPaysTwice` | packages/indexer/src/processor/action-router.ts:264-321 | over all operations of one Hive transaction no transfer is claimed twice, and what they owed together is what the claimed transfers carry, at most what was transferred |
| `SyncEngines.RecordedCheckpointAgrees` | packages/indexer/src/db/queries/state-root.ts:253-270 | recording at a boundary keeps every checkpoint equal to the replay's root at its block |
| `SyncEngines.CommitKeepsConsistency` | packages/indexer/src/scanner/sync-engine.ts:513-537 | rows, root, count, checkpoints and cursor a batch commits are those of the replay up to its last block |
| `SyncEngines.SyncEngine.FetchBatch` | packages/indexer/src/scanner/sync-engine.ts:71-111 | one fresh pool for every transaction with a paid operation, shared by its operations and by no other |
| `SyncEngines.SyncEngine.ProcessRange` | packages/indexer/src/scanner/sync-engine.ts:448-511 | rejections, sweeps, account decisions and routed operations leave the transaction where the pass over the range is, and a healthy database lets it through whenever every operation is decided |
| `SyncEngines.SyncEngine.WriteBatch` | packages/indexer/src/scanner/sync-engine.ts:445-537 | takes effect as a whole, with the cursor at the last block and a checkpoint there exactly on a positive multiple of 1000, or leaves the database as it was; commits whenever nothing goes wrong |
| `SyncEngines.SyncEngine.AdvanceTo` | packages/indexer/src/scanner/sync-engine.ts:330-591 | however turns fail and whatever consistent database is put back, the database stays what replay leaves; without failures the loop reaches the head |
| `SyncEngines.SyncEngine.SyncCycle` | packages/indexer/src/scanner/sync-engine.ts:249-608 | the same for a whole cycle, with the initial cursor, the regression tolerance and the idle case; a head that has regressed too far is refused |
| `SyncEngines.SyncEngine.SyncLoop` | packages/indexer/src/scanner/sync-engine.ts:203-247 | the same for any number of cycles and process restarts; the cursor moves back only when an older database is put back |
| `SyncLocks.LockManager.BeginAcquire` | packages/indexer/src/scanner/sync-lock.ts:147-154 | reuses a live connection or creates one, and is idempotent when the lock is held |
| `SyncLocks.LockManager.FinishAcquire` | packages/indexer/src/scanner/sync-lock.ts:155-178 | reports the lock exactly when it was granted on the connection still waited for |
| `SyncLocks.LockManager.BeginRelease` | packages/indexer/src/scanner/sync-lock.ts:184-199 | leaves no connection in use and no timer running |
| `SyncLocks.LockManager.OnClose` | packages/indexer/src/scanner/sync-lock.ts:103-113 | drops state and timer only for the connection in use |
| `SyncLocks.EveryRunIsSound` | packages/indexer/src/scanner/sync-lock.ts:90-208 | in every order of answers, releases and closes, the connection in use has not closed, a held one was granted the lock, and exactly one timer runs if and only if the lock is held |
| `SyncLocks.StaleClosesChangeNothing` | packages/indexer/src/scanner/sync-lock.ts:104-105 | close events of other connections change neither state nor timers |
| `SyncLocks.ClosedForGood` | packages/indexer/src/scanner/sync-lock.ts:162-167 | no later state ever names a closed connection |
| `SyncLocks.StateFollowsHistory` | packages/indexer/src/scanner/sync-lock.ts:90-208 | in every run the lock is held on a connection if and only if it was granted there while that connection was waited for and has not been given up since; and a connection is waited for if and only if an attempt made it and it has been neither granted nor given up since |
| `SyncLocks.ConcurrentAttemptsHoldOnce` | packages/indexer/src/scanner/sync-lock.ts:147-173 | however many attempts share a connection and however many of them are granted, one connection is made and one timer started |
| `SyncLocks.LockIsLostIffAttemptsOverlap` | packages/indexer/src/scanner/sync-lock.ts:147-178 | a process that keeps at most k attempts outstanding can lose a held lock to a failed one if and only if k is at least 2 |
| `SyncLocks.SequentialAttemptsKeepTheLock` | packages/indexer/src/scanner/sync-lock.ts:173-178 | in every run whose attempts do not overlap, no answer, failed or not, arrives while the lock is held |
| `SyncLocks.OutstandingAttemptCanCostALock` | packages/indexer/src/scanner/sync-lock.ts:173-178 | wherever an attempt is outstanding and another may start, the run can go on to a lock held on a new connection that the failure of the first attempt gives up |
| `SyncLocks.WaitingLoopIsSequential` | packages/indexer/src/scanner/sync-engine.ts:184-199 | the waiting loop never has two attempts outstanding, whatever else happens to the connections meanwhile |
| `StaleBatches.SafeExactlyBehindCursor` | packages/indexer/src/scanner/sync-engine.ts:333-347 | writing a range leaves what replay leaves, for every protocol and chain, if and only if it starts right behind the cursor at that moment |
| `StaleBatches.RewrittenBlocksDiverge` | packages/indexer/src/scanner/sync-engine.ts:333-347 | blocks written a second time can apply an operation that was rejected in its time |
| `StaleBatches.SkippedBlocksDiverge` | packages/indexer/src/scanner/sync-engine.ts:333-347 | blocks written beyond a gap lose the operations in the gap |
| `Fleets.OneWriterInEveryRun` | packages/indexer/src/scanner/sync-lock.ts:251-263 | in every interleaving of any number of indexers at most one batch transaction is open, and nothing it started on changes under it |
| `Fleets.CursorNeverMovesBack` | packages/indexer/src/db/queries/sync.ts:53-59 | whatever the indexers do, stale batches included, the cursor only moves forward |
| `Fleets.FleetFollowsReplay` | packages/indexer/src/scanner/sync-engine.ts:429-537 | if every fenced transaction starts right behind the cursor, the database is at all times what replay leaves |
| `Fleets.UnlostLockIsEnough` | packages/indexer/src/scanner/sync-engine.ts:429-537 | if every indexer owns the session lock from its continuity check to the end of its transaction, the database is at all times what replay leaves |
| `Fleets.WritersHaveVerified` | packages/indexer/src/scanner/sync-engine.ts:421-431 | whoever is about to write has verified, while holding the lock, exactly the ranges it writes |
| `Fleets.StaleWriterGetsIn` | packages/indexer/src/scanner/sync-lock.ts:21-24 | there is a run in which two indexers have both verified the session lock and the fence opens to a batch the cursor has passed |
| `Fleets.StaleWriterCorrupts` | packages/indexer/src/scanner/sync-engine.ts:333-347 | when that batch commits, a consistent database can become one that is not, with one operation recorded both as rejected and as applied |
| `EndpointHealth.CircuitInvariant` | packages/indexer/src/scanner/endpoint-health.ts:167-214 | in every life of an endpoint, closed means fewer than eight failures in a row and base cooldown, and the cooldown is the base doubled once per probe failed since the last that succeeded, up to the cap |
| `EndpointHealth.OpensOnlyWhenDue` | packages/indexer/src/scanner/endpoint-health.ts:199-214 | a circuit opens only on the eighth failure in a row or a failed probe, and stays open for its cooldown |
| `EndpointHealth.RateLimitingNeverOpens` | packages/indexer/src/scanner/endpoint-health.ts:193-198 | throttling changes nothing but the time until which the endpoint is throttled |
| `EndpointHealth.ThrottledByTheLast` | packages/indexer/src/scanner/endpoint-health.ts:193-198 | an endpoint is throttled until the time its last 429 asked for, or 30 seconds after it |
| `EndpointHealth.CircuitMoves` | packages/indexer/src/scanner/endpoint-health.ts:130-214 | exactly which incidents open, close and half-open a circuit, and until when an open one stays so |
| `EndpointHealth.KeepsLastLatencies` | packages/indexer/src/scanner/endpoint-health.ts:180-184 | the latencies of the last twenty successes are kept, in order |
| `EndpointHealth.HealthPool.SelectEndpoint` | packages/indexer/src/scanner/endpoint-health.ts:120-165 | fails only without endpoints; otherwise picks the closed candidate whose turn it is, else the first half-open one, else the one to recover soonest, and never leaves the choice open |
| `EndpointHealth.HealthPool.RecordSuccess` | packages/indexer/src/scanner/endpoint-health.ts:167-185 | exactly the first endpoint of that name has a success added to its life |
| `EndpointHealth.HealthPool.RecordFailure` | packages/indexer/src/scanner/endpoint-health.ts:187-214 | exactly the first endpoint of that name has a failure added to its life |
| `EndpointHealth.HealthyEndpointPreferred` | packages/indexer/src/scanner/endpoint-health.ts:126-152 | a closed endpoint that is not throttled is chosen whenever the pool holds one |
| `EndpointHealth.RoundRobinIsFair` | packages/indexer/src/scanner/endpoint-health.ts:83-87 | two choices made at different turns of one round differ, whatever else has happened to the pool, as long as the closed candidates are the same |
| `EndpointHealth.HealthPool.SelectRound` | packages/indexer/src/scanner/endpoint-health.ts:120-152 | as many selections in a row as there are closed candidates, with no outcome recorded in between, pick each of them exactly once |
| `HiveOperationIds.SameKeyIffSameNumber` | packages/indexer/src/scanner/hive-client.ts:412-414 | two operation ids, text or number, have the same key exactly when they are the same number |
| `HiveClient.ValidateHafAHPage` | packages/indexer/src/scanner/hive-client.ts:416-438 | accepts a page exactly when its operations are in range and no id, numerically, has occurred on it or before |
| `HiveClient.EndingTrailHasDistinctCursors` | packages/indexer/src/scanner/hive-client.ts:459-485 | a sequence of pages that ends visits pairwise distinct cursors |
| `HiveClient.FetchRangeFromEndpoint` | packages/indexer/src/scanner/hive-client.ts:441-497 | succeeds exactly when the pages from the initial cursor end within 100, in range and with distinct ids, and returns what stands at exactly the positions of the protocol's operations on them, in order |
| `HiveReading.ReadableIffTrail` | packages/indexer/src/scanner/hive-client.ts:459-488 | a range is read over n pages if and only if n is at most 100 and that many pages lead from one to the next, from cursor -1 to a page with no cursor or cursor 0, all operations in range and with different numbers; what is read stands on these pages |
| `HiveClient.PagedListIsFiltered` | packages/indexer/src/scanner/hive-client.ts:441-497 | against an endpoint that pages a fixed list, none of the pages in reach beginning with an end marker, the range is readable exactly when the list fits, and what is picked is what stands at the positions of the protocol's operations in the list |
| `HiveClient.WholeListIffNoPageBeginsAtZero` | packages/indexer/src/scanner/hive-client.ts:476-480 | with a given page size, what is read from a paged list is the whole list if and only if none of the first 100 pages after the initial one begins with id 0; it can be read in full if and only if it also fits into 100 pages |
| `HiveClient.WholeListIffNoEndMarker` | packages/indexer/src/scanner/hive-client.ts:476-480 | for all page sizes at once: if and only if no operation behind the first has id 0, which as a cursor reads as the end |
| `HiveFailover.FetchRangeWithFailover` | packages/indexer/src/scanner/hive-client.ts:500-553 | a result is one endpoint's whole reading; when everything fails, each of the distinct endpoints has been tried exactly once in each of two rounds |
| `HiveFailover.TryEndpoint` | packages/indexer/src/scanner/hive-client.ts:500-553 | one attempt selects an endpoint, reads the range from it, and records a success for it if the reading succeeded and a failure if not |
| `HeadConsensus.LiarsCannotMoveTheMedian` | packages/indexer/src/scanner/head-consensus.ts:12-22 | with at most (n - 1) / 2 arbitrary answers the selected head, and its irreversible block, lies between two honest ones |
| `HeadConsensus.MoreLiarsMoveTheMedian` | packages/indexer/src/scanner/head-consensus.ts:12-22 | the bound is sharp: more of them, answering low, pull the head below every honest one |
| `HeadConsensus.SelectedIsLowerMedian` | packages/indexer/src/scanner/head-consensus.ts:12-22 | the selected head is a sample's; at most (n - 1) / 2 samples have a lower irreversible block, or the same with a lower head block, and more than that many have no higher one; the same for the irreversible blocks alone |
| `HeadConsensus.HeadIgnoresSampleOrder` | packages/indexer/src/scanner/hive-client.ts:589-625 | the selected head does not depend on the order of the answers |
| `DropTables.AssertValidPackDefinition` | packages/packs-engine/src/pack-definition.ts:27-63 | accepts exactly the definitions within all limits with distinct seeds; the total-weight test can no longer fail |
| `DropTables.ResolveDropTable` | packages/packs-engine/src/rng.ts:82-118 | for each roll the first entry whose cumulative weight exceeds it, the last one when there is none |
| `DropTables.RollLandsInOneInterval` | packages/packs-engine/src/rng.ts:98-114 | with positive weights every roll lands in exactly one interval and selects it; the fallback is never needed |
| `DropTables.DropsAreProportional` | packages/packs-engine/src/rng.ts:49-55 | the number of 53-bit rolls that select an entry differs from its exact share by less than one |
| `DropTables.ComputeReservedSupply` | packages/packs-engine/src/pack-definition.ts:74-90 | each seed of a capped definition gets its share of the demand rounded up, an uncapped one reserves nothing |
| `DropTables.ShareIsProportional` | packages/packs-engine/src/pack-definition.ts:81-87 | a share is the least whole number that is no less than the demand times the entry's part of the weight |
| `DropTables.ReservationCoversDemand` | packages/packs-engine/src/pack-definition.ts:81-87 | the shares cover the demand and exceed it by at most one unit less than there are entries |
| `DropTables.ValidateReservationDemand` | packages/packs-engine/src/pack-definition.ts:101-127 | succeeds exactly when every seed has a snapshot and its remaining supply covers its share |
| `DropTables.AffordableIffItFits` | packages/packs-engine/src/pack-definition.ts:92-118 | a share is affordable if and only if in the first snapshot of its seed the supply is unlimited or the share fits beside what is distributed and reserved |
| `DropTables.DemandShowsWhatIsLeft` | packages/packs-engine/src/pack-definition.ts:109-112 | the demand shown for a limited seed is what is left of it, never less than nothing, before and after the share |
| `PackPlans.BuildPackOpenPlan` | packages/packs-engine/src/open-plan.ts:43-151 | succeeds exactly for valid definitions and 1 to 50 packs, and delivers or skips pack after pack as what is left allows |
| `PackPlans.SelectionFollowsTheRolls` | packages/packs-engine/src/open-plan.ts:25-44 | item k of pack p is the seed of the one entry in whose interval the roll for that pack and that item falls |
| `PackPlans.DeliveredIffAllCanBeHad` | packages/packs-engine/src/open-plan.ts:66-109 | a pack is delivered if and only if every seed it names is known, has supply left after the packs delivered before it and, if there are reservations, one left; otherwise the first seed that fails gives the reason |
| `PackPlans.LastSnapshotCounts` | packages/packs-engine/src/open-plan.ts:60 | of several snapshots of one seed the last one counts |
| `PackPlans.PlanConserves` | packages/packs-engine/src/open-plan.ts:111-137 | each seed is planned as often as delivered packs contain it, and all quantities are delivered packs times items per pack |
| `PackPlans.PlanHandsOutWhatItDelivers` | packages/packs-engine/src/open-plan.ts:139-150 | items and reservation consumption of a returned plan agree seed by seed and add up to what it delivers |
| `PackPlans.SupplyBound` | packages/packs-engine/src/open-plan.ts:69-102 | a capped or reserved seed stays below its limit plus one pack, and within the limit when no delivered pack repeats it |
| `PackPlans.SupplyRespectedIffSingleItems` | packages/packs-engine/src/open-plan.ts:82-102 | capped supply is respected in every plan of a definition if and only if its packs hold a single item; the same for reservations, also of unlimited seeds, and for every limit at once |
| `JsonReader.QuoteIsReadable` | packages/protocol/src/schema.ts:30-32 | a quoted string, escapes and lone surrogates included, can be read back in one way only |
| `JsonReader.EscapedExactly` | packages/protocol/src/schema.ts:30-32 | exactly control characters, quotes, backslashes and unpaired surrogates are escaped, seven of them by one letter and the others by four lower-case digits |
| `JsonReader.TextIsReadable` | packages/protocol/src/schema.ts:30-32 | the printed text of a value determines the value and where it ends |
| `JsonReader.PrintedIsReadBack` | packages/protocol/src/schema.ts:30-32 | a reader written from the grammar of RFC 8259, sections 3 to 7, reads every printed value back as what it was |
| `CanonicalJson.SortKeysDeep` | packages/protocol/src/schema.ts:16-28 | the recursive sort that fills fresh objects gives the fields of every object in enumeration order, without the dropped names |
| `CanonicalJson.SameTextIffAlike` | packages/protocol/src/schema.ts:16-32 | two values have the same canonical text exactly when they are equal up to key order, the dropped names and what JSON cannot show |
| `CanonicalJson.TreeShowsValue` | packages/protocol/src/schema.ts:16-32 | the tree that is printed shows the value: what JSON cannot show as null, other leaves as they are, arrays item by item, and of an object exactly the fields that are not dropped or undefined, in enumeration order |
| `CanonicalJson.CanonicalIsReadBack` | packages/protocol/src/schema.ts:30-32 | read as JSON, the canonical text is that tree |
| `CanonicalJson.DroppedNames` | packages/protocol/src/schema.ts:16-28 | the names left out are __proto__, constructor and prototype |
| `CanonicalJson.IndexIffNumber` | packages/protocol/src/schema.ts:16-28 | the keys that come first are exactly the decimal texts of 0 to 2^32 - 2, in the order of the numbers |
| `CanonicalJson.TextLessIffFirstDifference` | packages/protocol/src/schema.ts:16-28 | the other keys are in the order of their first different unit, a shorter key before its extensions |
| `CanonicalJson.SortingIsIdempotent` | packages/protocol/src/schema.ts:16-28 | sorting a sorted value changes nothing |
| `CanonicalJson.RfcOrderIffKeysSortAsText` | packages/protocol/src/schema.ts:16-32 | all objects of the canonical text are in the key order of section 3.2.3 of RFC 8785 if and only if in each of them every index-like key is before, as text, the keys that an object enumerates after it for being an index |
| `CanonicalJson.MembersInRfcOrderIff` | packages/protocol/src/schema.ts:16-32 | the same for the members of a single object |
| `CanonicalJson.PlainKeysFollowTheRfc` | packages/protocol/src/schema.ts:16-32 | in particular without index-like keys |
| `CanonicalJson.IndexKeysDoNot` | packages/protocol/src/schema.ts:16-32 | an object with the keys 9 and 10 is not in that order: 9 is printed before 10 |
| `Calendar.CivilOfDayNumber` | packages/indexer/src/utils/hive-timestamp.ts:25-37 | the closed day formula and the calendar counted day by day are inverse to each other |
| `Calendar.FieldsRoundTrip` | packages/indexer/src/utils/hive-timestamp.ts:25-39 | reading a built date back gives the same fields exactly when they name a real date and time |
| `Calendar.GregorianCycle` | packages/indexer/src/utils/hive-timestamp.ts:25-37 | four hundred years are 146,097 days |
| `HiveTimestamps.AcceptsRealTimes` | packages/indexer/src/utils/hive-timestamp.ts:9-42 | accepted are exactly the well-shaped texts that name a real time in the years 100 to 9999 |
| `HiveTimestamps.AcceptedIsSpelled` | packages/indexer/src/utils/hive-timestamp.ts:9-42 | character by character: a time is accepted if and only if the text spells a real one from year 100 on, with at most three digits of fraction worth tenths, hundredths and thousandths; the result spells the same time with three digits and a Z |
| `HiveTimestamps.TextOrderIsTimeOrder` | packages/indexer/src/utils/hive-timestamp.ts:41-50 | normalised timestamps compare as text exactly as they compare in time (section 5.1 of RFC 3339), and are equal exactly at the same moment |
| `HiveTimestamps.ZoneLetterIsOptional` | packages/indexer/src/utils/hive-timestamp.ts:4-8 | a missing zone letter means UTC all the same |
| `HiveTimestamps.NormalFormIsStable` | packages/indexer/src/utils/hive-timestamp.ts:9-42 | normalising what has been normalised changes nothing |
| `AccountValidation.BuildAccountValidationPlan` | packages/indexer/src/processor/account-validation.ts:119-140 | one target per operation and exactly the accounts to look up; a repeated operation id is an error |
| `AccountValidation.LookedUpExactly` | packages/indexer/src/processor/account-validation.ts:52-116 | looked up is the account of every operation that names one with a proper name, unless it is the signer's own, against the operation's own time |
| `AccountValidation.ExemptExactly` | packages/indexer/src/processor/account-validation.ts:52-116 | exempt are operations that name none, those to the burn recipient unless delegated, and those to the signer unless transfers |
| `AccountValidation.RefusedExactly` | packages/indexer/src/processor/account-validation.ts:52-116 | what is refused without a lookup, and with which reason |
| `AccountValidation.PrepareAccountValidation` | packages/indexer/src/processor/account-validation.ts:160-189 | every operation of the batch is decided as if it had been looked up alone |
| `AccountValidation.AcceptedIffCreatedBefore` | packages/indexer/src/processor/account-validation.ts:140-159 | a looked-up account is accepted exactly when it was created before the operation's own time |
| `AccountValidation.OutcomeIgnoresLookupTime` | packages/indexer/src/processor/account-validation.ts:140-189 | looked up at any two times after the operation, it is accepted both times or neither |
| `AccountValidation.ReasonDependsOnLookupTime` | packages/indexer/src/processor/account-validation.ts:140-159 | the recorded reason is the same at both times exactly when both lookups agree on whether the account exists |
| `AccountValidation.ReasonCanDiffer` | packages/indexer/src/processor/account-validation.ts:140-159 | an account history, a transfer and two lookup times at which it is refused for different reasons |
| `AccountReplay.LookupTimesDoNotMatter` | packages/indexer/src/scanner/sync-engine.ts:419-488 | with account decisions taken from one history at any times that are not before the operations, replay, every batch and what counts as a consistent database are the same |
| `AccountReplay.LateIndexersAgree` | packages/indexer/src/scanner/sync-engine.ts:419-488 | two indexers that looked the accounts up at different times hold the same rows, records and root at equal cursors |

## Left out

- The bodies of the action handlers and the SQL behind them: a handler is an arbitrary list of effects with a verdict. Only the handler of a split action verifies transfers, as in the repository.
- The buffer and savepoint registries of `packages/indexer/src/db/client.ts` (which handle finds which buffer): a batch transaction holds its buffer directly.
- Retention clean-up of invalid and orphaned rows, and what those rows hold besides the operation id; in particular the recorded reasons, which may differ between indexers.
- Collision resistance of SHA-256, the generation of pack ids and seed texts, and the row text that enters the hash.
- Floating point: amounts are integers in thousandths, so the tolerance of 0.0005 is equality; weights, percentages and rolls are exact numbers.
- HTTP, JSON-RPC, the PostgreSQL driver (reconnection included), retries with back-off, clocks, logging, metrics and the API flags set along the way.
- Whether the lock is ever obtained and a head ever found; the sync loop is shown to catch up only when nothing fails.
- Endpoint records are values at a position of the pool, not objects of their own; the times of last success and failure, which nothing reads, are not kept.
- ValidateReservationDemand: which of several offending seeds is named, and the order of the result, are not modelled.
- Values that are not plain data in canonical JSON: functions, symbols, big integers, dates and `toJSON` methods.
- Account lookups that fail abort the batch; a lookup that succeeds is taken to answer truthfully about the accounts existing at its time.
