# CanopyX indexer: a verified model

CanopyX indexes blocks of many chains with durable workflows. A block's twenty
entities are written to staging tables, promoted one table at a time, and the
height is recorded in a progress log; most entities store a row only when
something changed since the block before. Schedulers hand out the heights, an
RPC client fetches the data behind a token bucket and a circuit breaker, and a
controller scales the workers. This project models that logic in Dafny and
proves what it guarantees, under which conditions, and where it falls short of
what the comments say.

`dafny verify dfyconfig.toml` checks everything.

## How it is organised

| file | what it holds |
|---|---|
| `CommitProtocol.dfy`, `CommitTraces.dfy` | the per-block commit protocol as a step system: any number of executions, activities repeated at any time, the cleanup beside them; safety over all runs, the runs that break it when an assumption is dropped, and so the exact environments in which it holds |
| `Atomicity.dfy` | when production holds part of a block |
| `Cleanup.dfy` | what the cleanup may delete: exactly when a deleted staged slot was still needed |
| `StagedEvents.dfy` | when activities that read the staged events of their height find them, and when a cleanup has taken them |
| `ChainStore.dfy` | the same workflow executed alone, as methods over the staging and production tables |
| `Snapshots.dfy` | what the deduplicating tables show of everything promoted, newest-row readers, the compaction lemma every entity uses, and independence from the order of indexing, which rests on commit safety |
| `Accounts.dfy`, `Orders.dfy`, `Pools.dfy`, `DexPrices.dfy`, `Signers.dfy`, `Validators.dfy`, `DexBatch.dfy` | one entity family each: the indexing method, its rows, and what a reader recovers; `Deltas.dfy` holds the wrapping H-1 deltas |
| `Scheduler.dfy`, `Dispatch.dfy`, `Progress.dfy`, `Coverage.dfy` | batches and continuation, queues and the live boundary, gaps of the progress log, and coverage over all runs of scans, schedulers, dispatch and recording |
| `TokenBucket.dfy`, `HttpClient.dfy` | the RPC client, for one caller and under interleaving |
| `Autoscaler.dfy`, `LpShares.dfy` | replica targets, cooldown and the reconcile tick; pool shares |
| `Integers.dfy`, `Lists.dfy` | machine integers; lookup maps and filtered lists |

RPC data is a function of the height, so a chain's history is a value and
`Previous` is RPC(H-1). Activities are methods proved against a specification
function; the refinement theorems are about that function.

A table maps an entity and a height to everything inserted there, in order, and
shows per row key the row inserted last. What an activity inserts is *sighted*
or *blind*: accounts, orders, validators and DEX rows depend on the events of
the height, which their activities read from the staging table, and an attempt
that finds them gone writes the rows of a height without events. The refinement
theorems say what readers see for every mixture of the two.

## Assumptions the theorems name

- Commit safety: at most one execution is live per height, and none is
  terminated midway (`WELL_BEHAVED`). Temporal alone gives one live execution
  per workflow id, and a reindex has its own id. The theorem holds exactly under
  these two (`CommitSafetyExactly`).
- Cleanup and staged events: in addition no attempt writes after its workflow
  has moved on (`PROMPT`). `LateRepetitionIsDeleted` and
  `LateRepetitionGoesBlind` are the runs without that.
- Coverage: no start fails, nothing is terminated, and no batch is lost at the
  live boundary below one that was sent. `CoverageExactly` says for which batch
  sizes and thresholds losses matter. Head readings are arbitrary: they are the
  largest of the endpoints that answer (app/indexer/activity/ops.go:63-213), so
  one may be lower than the one before.
- RPC lists do not repeat a key within one height. For validators also:
  no committee list names a committee twice. For DEX items: an id is in at
  most one batch per height, and a completion event fires only at the height
  the id leaves the current batch.

## Where the code and its documentation differ

- README.md:59 promises all-or-nothing per block. Promotion is one insert per
  table, so readers of production can see part of a block (`HalfPromoted`, for
  every height): exactly while the height is unrecorded and an execution is
  midway through promoting it (`PartialExactly`). It is all or nothing for the
  heights in the progress log (`CommitSafety`) and for any height without a live
  execution (`AllOrNothingAtRest`).
- app/indexer/activity/ops.go:332 says a batch across the live boundary is
  split. A batch of two or more heights that ends exactly on the boundary is
  not sent at all (`BatchSplitExact`), and a scheduler meets that case exactly
  as `SchedulerLosesBatch` says.
- app/indexer/activity/ops.go:235 and 369 call head 0 the historical default;
  it makes every height live (`UnknownHeadGoesLive`).
- app/indexer/workflow/ops.go:340-345 names windows of 24, 48 and 72 hours; whole
  hours are rounded down first, so each window is an hour wider (`PriorityWindows`).
- pkg/rpc/httpclient.go:142-145: a call also answers nil, with nothing decoded,
  when every breaker is open (`NilExactly`); a listing is then empty without an error.
- app/controller/app.go:868-882: the cooldown works on one `Chain` value, but
  every tick builds new ones, so it never holds between ticks
  (`CooldownIsForgotten`, `ReconcileTwice`).
- An order that is filled and leaves the book in one block gets no row there
  (`FilledAndRemovedGetsNoRow`), or a canceled one if a cleanup took the staged
  events under a reindex (`FilledOrderReadsCanceled`).
- app/indexer/workflow/ops.go:213-214 says the gap scan schedules the indexing
  of missing heights; it leaves a gap alone while a scheduler of that very gap
  runs, even if that scheduler has lost some of it (`RunningSchedulerHidesLoss`).
- app/indexer/activity/lp_snapshot.go:113 announces 128-bit arithmetic; the
  product is 64 bits wide (`ShareExactIff`).
- app/indexer/workflow/index_block.go:385-388 says the cleanup covers heights
  indexed more than an hour ago; it covers those of the last hours
  (`CleanupStaging`).

## Model

| member | source | states |
|---|---|---|
| CommitProtocol.SkipIsSafe | app/indexer/activity/ops.go:41-55 | a block row in production, when no other execution of the height is live, means all twenty entities are in production: the skip test is sound only for that reason |
| CommitProtocol.NobodyWroteBefore | app/indexer/activity/ops.go:41-55 | while a run prepares and finds no block row, no execution has ever written data of its height |
| CommitProtocol.TablesKept | pkg/db/chain/db.go:216-239 | no step removes a production slot, and no step, cleanup included, makes a slot unknown to both tables |
| CommitProtocol.ContentsStep | pkg/db/chain/db.go:216-239 | content new in production comes from staging; content new in staging is written by an execution of that height, and sighted exactly when it is events or finds that height's events staged |
| CommitProtocol.ContentsMove | pkg/db/chain/db.go:216-239 | the exact contents of every slot after every step: a promotion appends all that is staged to what production has, an attempt appends one content to staging, the cleanup empties its entity at its heights, and nothing else changes |
| CommitProtocol.ProductionGrows | pkg/db/chain/db.go:216-239 | over every run of every environment the contents of a production slot only grow, by appending |
| CommitProtocol.ProductionIsPromoted | pkg/db/chain/db.go:216-239 | they are, in order, what was staged at each promotion of the slot |
| CommitProtocol.PhasesSoundStep | app/indexer/workflow/index_block.go:112-380 | every step keeps what each execution has achieved by its phase: staged, promoted, or the whole height in production |
| CommitProtocol.InvariantStep | app/indexer/workflow/index_block.go:46-413 | every step of every execution and of the cleanup keeps the protocol invariant |
| CommitProtocol.SoleOwnerStep | app/indexer/workflow/index_block.go:79-89 | for a height never reindexed, only one execution ever writes data |
| CommitProtocol.OwnersContentStep | app/indexer/workflow/index_block.go:112-380 | for such a height both tables hold what that execution wrote, in any of its attempts, and nothing else |
| CommitProtocol.InvariantAlways | app/indexer/workflow/index_block.go:46-413 | the invariant, the sole writer and its content hold at every reachable state |
| CommitProtocol.SerialIsWellBehaved | app/indexer/workflow/index_block.go:46-413 | a run of any environment with one live execution per height and no termination is a well-behaved run |
| CommitProtocol.CommitSafety | app/indexer/workflow/index_block.go:358-413 | over all well-behaved runs a height in the progress log has all twenty entities in production |
| CommitProtocol.FirstTimeCleanup | app/indexer/workflow/cleanup_staging.go:47-75 | late repetitions included: a staged slot the cleanup deletes, of a height never reindexed, is in production, and everything in either table was written by one execution |
| Atomicity.PartialExactly | README.md:59 | over all well-behaved runs, production holds some but not all twenty entities of a height if and only if the height is unrecorded and an execution of it has promoted some entities and not all |
| Atomicity.AllOrNothingAtRest | README.md:59 | a height without a live execution is in production with all twenty entities or with none |
| Cleanup.AccountedStep | app/indexer/workflow/cleanup_staging.go:47-75 | every step keeps this: each staged slot is still to be promoted by a live execution that staged it, or production shows exactly it |
| Cleanup.CleanupExact | app/indexer/workflow/cleanup_staging.go:47-75 | a slot the cleanup deletes is what production shows if and only if no live reindex of its height has staged it and has yet to promote it |
| Cleanup.CleanupSafety | app/indexer/workflow/cleanup_staging.go:47-75 | at a height without a live reindex, however often it was reindexed before, the cleanup deletes nothing that production does not already show |
| CommitTraces.HalfPromoted | app/indexer/workflow/index_block.go:358-380 | for every height, every environment, and first-time and reindex executions alike, a run after which production holds part of the block |
| CommitTraces.KillBreaksCommit | app/indexer/workflow/index_block.go:79-89 | for every height a run of every environment with terminations: with one midway the recorded height lacks its transactions |
| CommitTraces.OverlapBreaksCommit | app/indexer/activity/chain.go:24-37 | for every height a run of every environment without the per-height limit: with a reindex and a first-time execution overlapping, the recorded height lacks its transactions |
| CommitTraces.CommitSafetyExactly | app/indexer/workflow/index_block.go:46-413 | in every environment, recorded heights have all twenty entities in production over all runs if and only if one execution at most is live per height and none is terminated |
| CommitTraces.CleanupLosesReindex | pkg/db/chain/db.go:338-394 | for every height a run, in the best environment: a cleanup under a live reindex makes it finish while production keeps showing the old transactions |
| CommitTraces.ReindexGoesBlind | pkg/db/chain/event.go:287-299 | for every height a run, in the best environment: a cleanup between a reindex's events and its other activities makes production show every other entity computed without events |
| CommitTraces.LateRepetitionGoesBlind | pkg/db/chain/event.go:287-299 | with one first-time execution only, a late repetition after the cleanup hides the rows of a recorded height behind blind ones |
| CommitTraces.LateRepetitionIsDeleted | app/indexer/workflow/cleanup_staging.go:47-75 | with no execution live at all, the cleanup can delete a slot that a late repetition staged and production does not show |
| StagedEvents.BlindStage | pkg/db/chain/event.go:287-299 | what an activity stages is blind exactly when the events are not in staging, and that happens to live reindexes alone |
| StagedEvents.KeptEventsAreSeen | app/indexer/activity/orders.go:116-120 | if along a run no cleanup takes the events of a height while an execution of it needs them, nothing of that height is ever blind |
| StagedEvents.FirstTimeIsSighted | app/indexer/workflow/index_block.go:112-140 | at a height that was only indexed first-time nothing is ever blind |
| StagedEvents.KeptEventsOrderFree | README.md:57 | readers see the full history, in whatever order heights were indexed and however often reindexed, when no cleanup took events that were needed |
| ChainStore.EveryEntityListed | app/indexer/workflow/index_block.go:21-42 | the promotion list names every entity |
| ChainStore.Store.constructor | pkg/db/chain/db.go:216-239 | an empty store satisfies the store invariant: a block row vouches for its height, a progress row for its block, and nothing is blind |
| ChainStore.Store.PrepareIndexBlock | app/indexer/activity/ops.go:33-57 | skip exactly when this is no reindex and the block row is in production |
| ChainStore.Store.StageAll | app/indexer/workflow/index_block.go:112-347 | after the indexing barrier all twenty slots of the height show what this execution computed with the events at hand, and no other height changed |
| ChainStore.Store.PromoteEntity | pkg/db/chain/db.go:216-239 | the production slot keeps what it has and gains everything staged, in order, and no other slot changes |
| ChainStore.Store.PromoteAll | app/indexer/workflow/index_block.go:358-380 | after the promotion barrier production shows that execution's data in all twenty slots and no other height changed |
| ChainStore.Store.CleanStagingBatch | pkg/db/chain/db.go:338-394 | exactly the given heights disappear from staging, for every entity, with the rest unchanged |
| ChainStore.Store.RecordIndexed | app/indexer/activity/chain.go:17-37 | progress grows by the height exactly when the block row is in production |
| ChainStore.Store.IndexBlock | app/indexer/workflow/index_block.go:46-413 | the workflow alone keeps the store invariant, always records, and either changes no table (skip) or renews exactly the twenty slots of its height |
| ChainStore.Store.CleanupStaging | app/indexer/workflow/cleanup_staging.go:47-75 | a staged slot disappears exactly if some progress row of its height is at most the given number of hours old, 2 by default; every slot deleted is in production, and the rest is unchanged |
| Snapshots.Compaction | README.md:55 | if every written row is right and stays right at each height that writes none, the newest row is right at every height |
| Snapshots.NewestMeans | README.md:55 | a reader finds the row of the last height up to its own that wrote one, and none if none did |
| Snapshots.MergedShows | pkg/db/chain/db.go:216-239 | of everything promoted into a slot, repeated as it may be, a reader's row depends only on whether sighted and blind data are among it and which came last |
| Snapshots.ShownRight | pkg/db/chain/event.go:287-299 | at a recorded height the row shown is the one of the full history if and only if events make no difference to it, or nothing blind was promoted, or sighted data has the row and blind data either has none or came before |
| Snapshots.OrderFree | README.md:57 | once 1..H are recorded, in whatever order they were indexed, retried, promoted and cleaned, the newest stored row at H is that of the full history, if at each height nothing blind was promoted or the events make no difference to the row |
| Accounts.IndexAccounts | app/indexer/activity/accounts.go:164-207 | the rows of a height are those of the change test over the current accounts |
| Accounts.AtListed | app/indexer/activity/accounts.go:121-160 | the account at a height is the one its list has under the address |
| Accounts.ReceivedMeans | app/indexer/activity/accounts.go:114-160 | what an address received is the amount of the last event of that kind and address, and nothing without one |
| Accounts.RowWritten | app/indexer/activity/accounts.go:164-207 | an address gets a row exactly when present with a balance other than before (0 if absent) or a reward or slash, and the row has its balance and the amounts of its last reward and slash events |
| Accounts.StoredFollows | app/indexer/activity/accounts.go:114-207 | in every run, the row shown at a recorded height is there exactly when the balance changed or some promoted attempt saw a reward or slash, and has the balance |
| Accounts.AccountRefinement | app/indexer/activity/accounts.go:164-207 | in every run the newest row is the balance if and only if there is no height at which the account left with a positive balance and since which it stayed absent, or back at zero without a reward or slash that was seen |
| Accounts.PresentBalanceIsRead | app/indexer/activity/accounts.go:164-207 | an account present with a nonzero balance is always read correctly |
| Orders.OrderStateChanged | app/indexer/activity/orders.go:255-283 | true exactly when one of the eight compared fields differs |
| Orders.IndexOrders | app/indexer/activity/orders.go:137-224 | changed rows are those of the change test; the canceled rows are one for each order that left without a swap, in any iteration order of the Go map |
| Orders.AtListed | app/indexer/activity/orders.go:137-160 | the order at a height is the one its book lists under the id |
| Orders.SwappedMeans | app/indexer/activity/orders.go:113-136 | an order is swapped exactly if its id is not empty and a swap event of the height names it |
| Orders.CollectCancellations | app/indexer/activity/orders.go:190-224 | the loop over the previous map yields exactly the orders that are gone and not swapped, once each |
| Orders.RowWritten | app/indexer/activity/orders.go:137-224 | which row one order gets at one height, field by field, from the book and the swap events: complete on a swap, open when new or changed, canceled when gone unfilled, none otherwise |
| Orders.StoredShows | app/indexer/activity/orders.go:113-224 | in every run, which row is shown at a recorded height, from the book before and after and whether the attempts promoted saw the swap |
| Orders.StoredStatus | app/indexer/activity/orders.go:137-188 | in every run the row shown for an order in the book is complete exactly if its swap was seen and no later blind attempt put an open row over it, and open if the order is new or changed otherwise |
| Orders.OrderBookRefinement | app/indexer/activity/orders.go:137-224 | in every run an order in the book reads back with all compared terms and not canceled; and it reads canceled if and only if it left at some height without a swap, or with one some promoted attempt did not see, and stayed away since |
| Orders.FilledAndRemovedGetsNoRow | app/indexer/activity/orders.go:190-224 | an order that leaves with a swap gets no row there, so readers keep the row from before, if and only if no promoted attempt was blind; otherwise it reads canceled |
| Orders.FilledOrderReadsCanceled | app/indexer/activity/orders.go:113-224 | for every such order a run, in the best environment, after which the filled order reads canceled |
| Orders.NewestOrder | app/indexer/activity/orders.go:137-188 | the newest row of an order in the book is the whole order as of the last height it was new, changed its terms or had a swap that was seen |
| Orders.CommitteeRecoveredIff | app/indexer/activity/orders.go:255-283 | the committee read is right if and only if, in 16 bits, it is the one of that last height |
| Orders.CommitteeNotRecovered | app/indexer/activity/orders.go:255-283 | a book on which every run leaves readers with a committee the order no longer has |
| Deltas.DeltaIsDifference | app/indexer/activity/dexprices.go:85-130 | int64(current) - int64(previous) is the difference modulo 2^64, and exactly below 2^63 |
| Deltas.DeltasTelescope | app/indexer/activity/dexprices.go:85-130 | stored deltas add up to the total change modulo 2^64 although unchanged heights store none, and exactly below 2^63 |
| Pools.IndexPools | app/indexer/activity/pools.go:114-219 | pool rows carry H-1 deltas of amount, points and holder count; holder rows are those of the change test |
| Pools.AtListed | app/indexer/activity/pools.go:155-190 | the entry of a holder has its points and the id, total and amount of the pool that lists it |
| Pools.PoolListed | app/indexer/activity/pools.go:114-146 | the pool at a height is the one the list has under the id |
| Pools.RowWritten | app/indexer/activity/pools.go:155-219 | a holder without a row at a height has the points and the pool total it had before |
| Pools.PoolRowWritten | app/indexer/activity/pools.go:114-146 | every pool gets a row at every height with its values and deltas, which are zero when it is new; the holder count and its delta in 16 bits |
| Pools.HolderRefinement | app/indexer/activity/pools.go:155-219 | for every holder present the newest row has its points and the pool total, since a total change re-snapshots all holders |
| Pools.DepartedHolderKeepsPoints | app/indexer/activity/pools.go:155-219 | no row marks a departure: the newest row keeps the last points |
| Pools.NewestHolderRow | app/indexer/activity/pools.go:155-219 | the newest row of a present holder is its whole entry as of the last height its points or pool total moved |
| Pools.PoolAmountRecoveredIff | app/indexer/activity/pools.go:204-215 | the pool amount read is right if and only if it is the one of that last height |
| Pools.PoolAmountNotRecovered | app/indexer/activity/pools.go:204-215 | a pool on which every run leaves readers with half the amount |
| Pools.PoolDeltasTelescope | app/indexer/activity/pools.go:128-141 | in every run, the amount and total-points deltas in production of a pool that exists throughout add up to its change, modulo 2^64 and exactly below 2^63 |
| DexPrices.IndexDexPrices | app/indexer/activity/dexprices.go:85-130 | the rows are those of the price change filter, with deltas |
| DexPrices.AtListed | app/indexer/activity/dexprices.go:60-100 | the quote of a pair is that of the listed price whose two chain ids, in 16 bits, make up the pair |
| DexPrices.RowWritten | app/indexer/activity/dexprices.go:85-130 | which row a pair gets at one height: none while its quote stands, else the quote with the deltas of price and both pool sides |
| DexPrices.PriceRefinement | app/indexer/activity/dexprices.go:85-130 | for a quoted pair the newest row has its price and both pool sides |
| DexPrices.PriceDeltasTelescope | app/indexer/activity/dexprices.go:85-130 | in every run, while a pair is quoted without a break the deltas in production of its price and both pool sides add up to the change, modulo 2^64 and exactly below 2^63 |
| Signers.IndexNonSigners | app/indexer/activity/validators.go:349-396 | rows for changed counters, then resets for addresses that left the list |
| Signers.NonSignerListed | app/indexer/activity/validators.go:349-396 | the missed-block counter of an address is that of its entry in the list, and 0 without one |
| Signers.IndexDoubleSigners | app/indexer/activity/validators.go:416-459 | rows for changed evidence counts, then resets for addresses that left the list |
| Signers.ListedMeans | app/indexer/activity/validators.go:416-459 | the evidence of an address is its entry in the list |
| Signers.NonSigningRowWritten | app/indexer/activity/validators.go:349-396 | a row is there exactly when the address is new in the list or has left it or its counter moved, with the current counter, 0 on a reset; without a row the counter has not moved |
| Signers.DoubleSigningRowWritten | app/indexer/activity/validators.go:416-459 | a row is there exactly when the count moved or the address left the list, and has the current evidence count with the first and last evidence height, all 0 on a reset |
| Signers.NonSignerRefinement | app/indexer/activity/validators.go:349-396 | for every address, listed or not, the newest row (0 if none) is the missed-block counter |
| Signers.DoubleSignerRefinement | app/indexer/activity/validators.go:416-459 | for every address, listed or not, the newest row (0 if none) is the number of evidence heights |
| Signers.NewestEvidence | app/indexer/activity/validators.go:416-459 | the newest row, first and last evidence height included, describes the list as of the last height its count moved or the address left it |
| Signers.BoundsRecoveredIff | app/indexer/activity/validators.go:416-459 | the first and last evidence height read are right if and only if they are those of the list at that height |
| Signers.BoundsNotRecovered | app/indexer/activity/validators.go:416-459 | a list on which every run leaves readers with an evidence height that is no longer there |
| Validators.CompareCommittees | app/indexer/activity/validators.go:593-609 | same length, and every member of the second list is in the first |
| Validators.EqualCommitteesIsSetEquality | app/indexer/activity/validators.go:593-609 | on lists without duplicates the test is set equality |
| Validators.AcceptedPairsAgreeWhen | app/indexer/activity/validators.go:593-609 | an accepted pair has equal sets exactly when both lists repeat equally many entries |
| Validators.DuplicatesFoolTheTest | app/indexer/activity/validators.go:593-609 | [1,2] against [1,1] is accepted although the sets differ |
| Validators.ValidatorChanged | app/indexer/activity/validators.go:263-331 | a validator is stored exactly when new, flagged by an event, or different in profile or committees |
| Validators.IndexValidators | app/indexer/activity/validators.go:263-482 | validator rows of the change test and one junction row per committee of each |
| Validators.AtListed | app/indexer/activity/validators.go:232-262 | the validator at a height is the one its list has under the address |
| Validators.FlaggedMeans | app/indexer/activity/validators.go:222-262 | a validator is flagged exactly by a pause, begin-unstaking, slash or reward event of its address |
| Validators.RowWritten | app/indexer/activity/validators.go:263-331 | a present validator gets its row exactly if it is new, disagrees with the height before up to committee order, or one of the four kinds of event names it; its status is unstaking, else paused, else active, by its two heights |
| Validators.StoredFollows | app/indexer/activity/validators.go:222-331 | in every run, the row shown at a recorded height is missing only if the validator agrees with the height before and no promoted attempt saw an event that names it |
| Validators.ValidatorRefinement | app/indexer/activity/validators.go:263-331 | in every run, for every validator present the newest row has its profile, its committees as a set, and the status its unstaking and pause heights call for |
| Validators.JunctionsByKey | app/indexer/activity/validators.go:463-482 | the junction row found for a membership is that of the validator's row, for exactly its committees |
| Validators.JunctionWritten | app/indexer/activity/validators.go:463-482 | junction rows exist for exactly the committees of the validators that got a row, with stake, status, flags and the committee's own two flags of that height |
| Validators.JunctionRefinement | app/indexer/activity/validators.go:463-482 | in every run, for every committee a present validator is in, the newest junction row has its stake, status and flags, and the committee's own two flags of the height that wrote it |
| Validators.NewestJunction | app/indexer/activity/validators.go:463-482 | in every run the newest junction row of any membership, ended or not, is that of the last height at which the validator was in the committee and new, changed, or named by an event that was seen |
| Validators.EndedMembershipStays | app/indexer/activity/validators.go:463-482 | a membership that ends keeps its newest junction row, with the stake and status of its last height |
| Validators.CommitteeFlagsRecoveredIff | app/indexer/activity/validators.go:463-482 | the committee's own flags read for a present membership are right if and only if they are as at the height that wrote the row |
| Validators.CommitteeFlagsNotRecovered | app/indexer/activity/validators.go:463-482 | a chain on which every run leaves readers with a retired committee that does not look retired |
| DexBatch.IndexItems | app/indexer/activity/dex_batch.go:302-342 | the nested loops build the H-1 lookup by order id |
| DexBatch.AtListed | app/indexer/activity/dex_batch.go:302-342 | an id is locked or pending exactly as an item of the current or the next batches, with the committee and locked height of its batch |
| DexBatch.IndexKind | app/indexer/activity/dex_batch.go:302-666 | for one of the three kinds: rows are complete, then locked, then pending ones, each counted |
| DexBatch.CountSuccesses | app/indexer/activity/dex_batch.go:348-448 | the number of complete order rows whose swap succeeded |
| DexBatch.EveryKind | app/indexer/activity/dex_batch.go:260-412 | in terms of the full batches: an order, deposit or withdrawal locked one height earlier is completed exactly if an event with its non-empty id and of its own kind is there, with the outcome of the last one; every row copies an item of its own list of a batch, with that batch's committee in 16 bits, and the locked height for orders alone |
| DexBatch.IndexDexBatch | app/indexer/activity/dex_batch.go:50-137 | the rows of the three kinds are those `EveryKind` describes, each kind with its own three counters; success and failed, for orders alone, count the complete order rows by outcome |
| DexBatch.OneRowPerId | app/indexer/activity/dex_batch.go:348-666 | no height writes two rows for one id |
| DexBatch.RowWritten | app/indexer/activity/dex_batch.go:348-666 | which row one id gets at one height, from where it was and where it is, with its committee in 16 bits and, for orders, its locked height |
| DexBatch.StoredFollows | app/indexer/activity/dex_batch.go:260-666 | in every run, the row shown at a recorded height is the one due, with a completion only if some promoted attempt saw its event |
| DexBatch.DexRefinement | app/indexer/activity/dex_batch.go:452-666 | in every run, for every id in a batch the newest row has the right stage, address and amounts |
| DexBatch.NewestPlaced | app/indexer/activity/dex_batch.go:452-666 | the newest row of a placed id is its whole placement, committee and locked height included, as of the last height it moved or changed |
| DexBatch.PlacementRecoveredIff | app/indexer/activity/dex_batch.go:452-666 | the committee and the locked height read are each right if and only if they are, as stored, those of that height |
| DexBatch.PlacementNotRecovered | app/indexer/activity/dex_batch.go:452-666 | a batch on which every run leaves readers with the old committee and locked height |
| DexBatch.DepartedItem | app/indexer/activity/dex_batch.go:348-448 | until an id that left the batches shows up again its newest row is the complete one if it was locked and some promoted attempt saw its event, and otherwise the pending or locked row from before |
| DexBatch.CompletionIsNewest | app/indexer/activity/dex_batch.go:348-448 | until a completed id shows up again its newest row is the complete one, with the event's outcome, if some promoted attempt saw the event, and otherwise still the locked one |
| Scheduler.RunBatches | app/indexer/workflow/ops.go:405-480 | one run issues a prefix of the batches of its range and hands over exactly the rest, once at least threshold heights are out and not a batch later |
| Scheduler.SchedulerWorkflow | app/indexer/workflow/ops.go:375-480 | that, with batch limit 0 meaning 1, each batch at the priority of its newest height, a run from zero issuing at most ceil(threshold/limit) batches and exactly that many when it continues |
| Scheduler.SchedulerChain | app/indexer/workflow/ops.go:375-480 | the chain of continuations ends and issues exactly the batches of the whole range |
| Scheduler.ReindexSchedulerChain | app/indexer/workflow/reindex.go:41-127 | the same for reindexing, with batch limit 0 meaning 5000 |
| Scheduler.RunLength | app/indexer/workflow/ops.go:448-474 | the number of batches of one run started at zero, from the heights it issued |
| Scheduler.BatchPosition | app/indexer/workflow/ops.go:412-426 | batch i ends i limits below the end; all but the last have the configured size |
| Scheduler.BatchesPartition | app/indexer/workflow/ops.go:405-480 | each height of start..end is in exactly one batch and no other height is in any, for every start, end and limit of 64 bits |
| Scheduler.PriorityWindows | app/indexer/workflow/ops.go:346-368 | the four priorities cover ages below 25 hours, below 49, below 73, and the rest |
| Scheduler.PriorityAtHead | app/indexer/workflow/ops.go:346-368 | live blocks have priority 5, and a block at or above the head that is not live has 4 |
| Scheduler.NewerFirstIffNoOverflow | app/indexer/workflow/ops.go:346-368 | for block times below 25 hours, no newer block ranks below an older one if and only if the oldest age product fits in 64 bits |
| Scheduler.BatchPriorities | app/indexer/workflow/ops.go:405-440 | batch priorities never rise, and no height is issued below its own priority, when the age product fits |
| Dispatch.LiveMonotone | app/indexer/utils/live.go:15-20 | a higher block is never less live |
| Dispatch.LiveExactly | app/indexer/utils/live.go:15-20 | exactly the blocks at most 200 below the head, and those above it, go to the live queue |
| Dispatch.ScheduleBatchToQueue | app/indexer/activity/ops.go:490-560 | every height of the batch goes to the queue once, in order, or none if the signed length overflows |
| Dispatch.StartIndexWorkflowBatch | app/indexer/activity/ops.go:333-486 | what a batch sends, and to which queue, through the split |
| Dispatch.BatchSplitExact | app/indexer/activity/ops.go:375-468 | each height is sent exactly once and no other is, unless the batch ends on the boundary or is 2^63 long; queues agree with the live test except for the boundary height of a split batch |
| Dispatch.UnknownHeadGoesLive | app/indexer/activity/ops.go:363-370 | with the fallback head 0 every height goes to the live queue |
| Dispatch.SchedulerLosesBatch | app/indexer/workflow/ops.go:405-480 | with the head standing still, a scheduler range has a batch that is never sent if and only if batches hold two or more heights and the boundary, above start, lies a whole number of batches below the end |
| Dispatch.ScheduleDirectly | app/indexer/workflow/ops.go:519-584 | chunks send every height of the range once, in order, each to its own queue, whatever the configured chunk size |
| Dispatch.DirectAgreesWithBatch | app/indexer/workflow/ops.go:493-584 | direct and batched scheduling of a range that is not lost differ in the queue of at most the boundary height |
| Progress.LastIsMax | pkg/db/admin/index_progress.go:108-135 | the last indexed height is the largest in the log |
| Progress.OrderedSorts | pkg/db/admin/index_progress.go:137-162 | the ordered rows are ascending and have the members of the log |
| Progress.GapExactness | pkg/db/admin/index_progress.go:137-162 | on any log the gaps are sorted, disjoint, maximal and exactly the unrecorded heights between recorded ones, if and only if 2^64-1 is recorded at most once |
| Progress.GapsAndHeadPartition | app/indexer/workflow/ops.go:81-105 | gaps, the head range and the log partition everything from the lowest recorded height to the head, and nothing below is proposed |
| Coverage.StepCovers | app/indexer/workflow/ops.go:405-584 | a step covers new heights only by a scan or a gap start, and without faults uncovers none |
| Coverage.ChunkTakes | app/indexer/workflow/ops.go:519-584 | a chunk of a direct scan sends the lowest heights that are left, as many as configured but 50 at least, except those whose start fails |
| Coverage.ClosedStep | app/indexer/workflow/ops.go:81-196 | every step keeps the covered heights closed downwards to 1, although scans act on what they read earlier |
| Coverage.InvariantAlways | app/indexer/workflow/ops.go:81-327 | that holds at every reachable state; what scans have read stays vouched for by the log in every environment |
| Coverage.SolidClosedStep | app/indexer/workflow/ops.go:81-480 | where a catch-up only ever sends its last batch, or never starts, every step keeps what is covered without schedulers closed downwards, losses included |
| Coverage.CoverageAlways | app/indexer/workflow/ops.go:81-327 | in every safe environment, every height from 1 to the largest recorded one is recorded, being indexed, or in the remaining range of a live task |
| Coverage.QuiescentHasNoGaps | app/indexer/workflow/ops.go:215-327 | when that work is finished, 1..max is recorded and there is no gap |
| Coverage.QuiescentInProduction | app/indexer/workflow/index_block.go:46-413 | over one progress log and with commit safety: when that work is finished, all twenty entities of every height 1..max are in production |
| Coverage.HeadScanCovers | app/indexer/workflow/ops.go:81-196 | a head scan that is not skipped covers everything up to the head it saw |
| Coverage.StartAllStarts | app/indexer/workflow/ops.go:264-320 | starting the schedulers of all gaps starts one for each gap without one and leaves running ones as they are |
| Coverage.GapScanHeals | app/indexer/workflow/ops.go:215-327 | in every environment, an unrecorded height between recorded ones is in a live gap scheduler after a full gap scan if and only if it was before or no scheduler of its gap was running; the same for being covered at all |
| Coverage.RunningSchedulerHidesLoss | app/indexer/workflow/ops.go:264-320 | a run with boundary losses alone after which a full gap scan leaves a height between recorded ones to nobody |
| Coverage.LossBreaksCoverage | app/indexer/activity/ops.go:375-468 | a run with no failure and no termination, at one batch limit: the lost boundary batch alone leaves a height below the largest recorded one to nobody |
| Coverage.FailureLeavesOut | app/indexer/activity/ops.go:215-262 | in every environment with failing starts, one failed start leaves a height out |
| Coverage.TerminationLeavesOut | app/indexer/workflow/ops.go:405-480 | in every environment with terminations, one terminated execution leaves a height out |
| Coverage.LossLeavesOut | app/indexer/workflow/ops.go:405-480 | with one configured batch size from 2 to 2^63-1 for the whole run and any threshold a catch-up can reach, one lost batch leaves a height out |
| Coverage.CoverageExactly | app/indexer/workflow/ops.go:81-480 | for every threshold and batch size, coverage holds over all runs if and only if nothing is terminated, no start fails, and losses are ruled out or cannot matter: batches of one height, batches of 2^63 or more, or a catch-up that never starts |
| TokenBucket.Bucket.constructor | pkg/rpc/httpclient.go:46-90 | a full bucket, with the defaults for rates and bursts that are not positive |
| TokenBucket.Bucket.Refill | pkg/rpc/httpclient.go:93-102 | at most one token per full interval, never above the burst |
| TokenBucket.Bucket.Acquire | pkg/rpc/httpclient.go:105-114 | succeeds within its clock readings exactly when a token was left or some reading is an interval past the last refill; grants never exceed the burst plus elapsed intervals |
| TokenBucket.TokensStayInRange | pkg/rpc/httpclient.go:93-114 | under every interleaving of n callers the counter stays between 1-n and maxTokens+n-1 |
| TokenBucket.AloneIsRefill | pkg/rpc/httpclient.go:93-114 | the steps of a caller that is not interrupted do what the bucket's refill does, to the counter and to the time of the last refill |
| TokenBucket.StampMoves | pkg/rpc/httpclient.go:93-114 | under every interleaving the time of the last refill becomes the stored reading at a store and changes at no other step |
| TokenBucket.BoundsAttained | pkg/rpc/httpclient.go:93-114 | both ends of that range are reached, for every n |
| HttpClient.DedupDistinct | pkg/utils/transform.go:14-25 | deduplication keeps each string once, after trimming the slashes at its end, and loses none |
| HttpClient.Client.constructor | pkg/rpc/httpclient.go:46-90 | the configured endpoints trimmed and deduplicated, closed breakers, threshold 3 unless configured |
| HttpClient.Client.IsOpen | pkg/rpc/httpclient.go:117-130 | open exactly until the cooldown passed; then the breaker closes and the count restarts; other endpoints are untouched |
| HttpClient.Client.NoteFailure | pkg/rpc/httpclient.go:133-140 | counts one failure and opens the breaker exactly at the threshold; an endpoint has a breaker entry if and only if its count is at the threshold, before and after every call |
| HttpClient.Client.Visit | pkg/rpc/httpclient.go:154-194 | one endpoint's turn among other callers' accesses: it is skipped exactly if its breaker is open by then, and a failure is noted exactly on a missing response or a server error |
| HttpClient.Client.DoJSON | pkg/rpc/httpclient.go:146-224 | with arbitrary accesses of other callers between its own: endpoints in order, each at most once, each seen as all accesses so far left it; how the call answers; and every breaker is what the interleaved accesses make of it |
| HttpClient.Client.AloneVisits | pkg/rpc/httpclient.go:146-224 | without other callers the call changes only breakers it looked at, each by at most one failure |
| HttpClient.NilExactly | pkg/rpc/httpclient.go:142-224 | for every answer of `DoJSON`, nil if and only if the last attempt got a response below 300 that decoded, where wanted, and closed, or there are endpoints and all were skipped |
| HttpClient.EndsExactly | pkg/rpc/httpclient.go:154-224 | a call goes on past an attempt exactly on a missing response, a status of 300 or more, or a wanted body that does not decode, and answers with the error its last attempt calls for |
| HttpClient.ListPaged | pkg/rpc/httpclient.go:240-286 | an error if and only if some page failed; otherwise the items of all pages, each once, for every order of arrival |
| HttpClient.ListedExactly | pkg/rpc/httpclient.go:240-286 | the list has exactly the items of page 1 and of the pages 2 to the total of page 1 |
| HttpClient.GatheredAnyOrder | pkg/rpc/httpclient.go:279-285 | the collected items do not depend on the order of arrival |
| Autoscaler.NormalizationsAgree | app/controller/app.go:352-361 | the repairs on loading and inside the decision give the same limits, and repairing twice changes nothing |
| Autoscaler.Normalized | app/controller/app.go:804-816 | 1 <= min <= max, keeping limits that were already sound |
| Autoscaler.TargetMonotone | app/controller/app.go:840-866 | the target is within the limits and grows with the backlog |
| Autoscaler.TargetIsLeast | app/controller/app.go:840-858 | min up to a backlog of 10, max from 1000, and between them the least count whose share of the span covers the backlog's |
| Autoscaler.Chain.DesiredReplicas | app/controller/app.go:804-899 | the new hysteresis state and the result, from the target and the old state |
| Autoscaler.StateInRange | app/controller/app.go:804-899 | with fixed limits the accepted count is always within them |
| Autoscaler.CooldownOverRuns | app/controller/app.go:868-882 | on one chain value with fixed limits, any two accepted changes are at least 60 seconds apart, whatever the clock and the backlog do |
| Autoscaler.LagsOnlyInCooldown | app/controller/app.go:868-882 | the accepted count differs from the target only while the cooldown of an earlier change runs |
| Autoscaler.MemorylessMeans | app/controller/app.go:537-584 | a deleted row has no deployment, a paused one 0 replicas, one without statistics its minimum, and any other the target of both backlogs together |
| Autoscaler.Controller.PopulateChain | app/controller/app.go:537-584 | the replicas of a tick are the memoryless target: fresh state decides without history |
| Autoscaler.Controller.Reconcile | app/controller/app.go:222-339 | after a tick every row's deployment is the memoryless target, zero or gone; chains that disappeared are removed; the tick fails exactly when a provider call for a row fails |
| Autoscaler.Controller.ReconcileTwice | app/controller/app.go:222-339 | over two ticks the deployed replicas of an active row with readable statistics differ if and only if its two targets do, whatever the time between |
| Autoscaler.CooldownIsForgotten | app/controller/app.go:537-584 | the second tick deploys what a chain value kept between ticks would, if and only if the targets are the same or the ticks are 60 seconds apart |
| Autoscaler.TenTimesInOneSecond | app/controller/app.go:868-882 | a row that goes from 1 to 10 replicas within one second, where a kept chain value would wait for the minute |
| LpShares.DedupNewest | app/indexer/activity/lp_snapshot.go:183-212 | the loop keeps the first row of every position |
| LpShares.OnlyNewestIsKept | app/indexer/activity/lp_snapshot.go:183-212 | on rows ordered newest first, a row is kept if and only if it is its position's newest |
| LpShares.ComputeSnapshots | app/indexer/activity/lp_snapshot.go:103-155 | one snapshot per kept row: share 0 for a missing or empty pool, the known creation date or else the target date, and closed at the target date exactly without points |
| LpShares.ShareInMeans | app/indexer/activity/lp_snapshot.go:108-120 | the total behind a share is the last row of its pool; without one, or with total 0, the share is 0 |
| LpShares.ShareExactIff | app/indexer/activity/lp_snapshot.go:108-120 | the stored share is the exact floor if and only if points * 10^8 fits in 64 bits |
| LpShares.SharesSum | app/indexer/activity/lp_snapshot.go:108-120 | the n shares of a pool whose points add up to its total are at most 10^8 together, and more than 10^8 - n |

## Left out

- CleanupExact: attempts are not repeated late (`PROMPT`); `LateRepetitionIsDeleted` shows that this is needed.
- CleanupSafety: the same.
- KeptEventsAreSeen: the same; `LateRepetitionGoesBlind` is the run.
- FirstTimeIsSighted: the same.
- ScheduleBatchToQueue: the end height is below 2^64-1, because the 64-bit loop counter of the source does not stop there; StartIndexWorkflowBatch inherits this. Whether a single start fails is not part of it; Coverage has failing starts.
- ScheduleDirectly: the end plus the chunk size stays below 2^64, because the chunk end would wrap.
- GapExactness: the final ORDER BY of the query is the identity here except when 2^64-1 repeats, where the order of the wrapped gap is not modelled.
- DexRefinement: Committee and LockedHeight are not recovered, because the change test does not compare them; `PlacementRecoveredIff` says when they are right. The theorems are about one kind at a time.
- OrderBookRefinement: Committee is not recovered; `CommitteeRecoveredIff` says when it is.
- JunctionRefinement: present memberships; `EndedMembershipStays` says what is read of others, and `CommitteeFlagsRecoveredIff` when the committee's own flags are right.
- AccountRefinement: the balance; the reward and slash amounts of a row are those of the attempt it came from, zero in a blind one.
- DoubleSignerRefinement: the count only; `BoundsRecoveredIff` says when the first and last evidence heights are right.
- IndexAccounts: heights start at 1, the first height a head scan schedules; so do the other indexing methods.
- IndexValidators: the count of new and per-status validators is not modelled; nor are the other activities' counters, except those of the DEX batch.
- TargetIsLeast: about the exact ratio, as `DesiredReplicas`.
- DesiredReplicas: the backlog ratio is an exact rational; the source computes it in floating point, where the ceiling can be one higher at exact multiples.
- DoJSON: a partly filled result of a failed decode is not modelled.
- BoundsAttained: refill intervals of at least a nanosecond; the interval is 0 only for configured rates above 10^9 per second.
- ComputeSnapshots: the pool total is the last row the query returned for the pool, in no order the source fixes, so it need not be the newest; how creation dates are looked up is not modelled.
- PromoteEntity: an insert is atomic, and among rows of one key the last insert decides.
- BlindStage: of the entities only accounts, orders, validators, committee validators and DEX rows differ when blind; the counts the block summary derives from their activities are not modelled.
- HeadScan's ResumeFrom and TargetLatest inputs, which nothing in the repository sets; with the first a caller could start above the last indexed height.
- Transform functions, hex encoding and narrowing of ids on the modelled fields, except uint16 committees of orders and DEX rows.
- Transactions, events, blocks, parameters, supply, committees, payments, polls, proposals: no change detection, or field copies.
- Temporal, ClickHouse and Kubernetes themselves, replication, timers, jitter, logging, health reports and metrics.
- HTTP handlers, sessions, websockets, Redis, the web UI.
