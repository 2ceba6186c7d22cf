# A verified model of btcq-indexer

The indexer is a pipeline: blocks are fetched from a node or from local chunk files, their events are recorded, rows are
committed to the database in batches, aggregates are moved forward incrementally, and queries are answered from all of it.
Nearly every step is an incremental, batched, sparse or cached form of something simple. This project models those steps
in Dafny, with their loops, counters and watermarks as they are in the code, and proves that they agree with the simple
form, over every input, every run and every crash.

`dafny verify dfyconfig.toml` checks the whole project. Postgres tables are sequences or bags of rows, files are sequences
of lines, SQL text is replaced by what the query means, and what the node, the database or the calendar answers comes in
as parameters. Code that changes things in place is modelled by classes and loops, each proved against a function of the
old state about which the lemmas speak.

| file | models |
|---|---|
| `Recovery.dfy`, `BlockWriter.dfy`, `RecordedRows.dfy` | crash-safe block writing: commit points, flush, crash, restart; the rows it leaves, counted from the events |
| `Tables.dfy`, `Inserter.dfy` | rows, batched and immediate inserts, the foreign key, savepoints |
| `Depths.dfy`, `Record.dfy`, `ImmediateRecording.dfy` | sparse pool depths, running totals behind pointers, reward events with either inserter |
| `Balances.dfy` | incremental balances by watermark slices, balance queries |
| `Aggregates.dfy`, `AggregateQueries.dfy`, `IntervalViews.dfy` | what an aggregate means; union queries; week to year views and bucketed queries |
| `Refresh.dfy` | the refresh job: coalesced requests, watermarked views, capped catch-up |
| `Fetching.dfy`, `FetchPath.dfy` | batches and parallel parts, source switching, retries; reading through a block store |
| `ChunkNames.dfy`, `BlockStorage.dfy`, `StoredBlocks.dfy` | chunk files: names, writing, binary search, reading; stored block results |
| `History.dfy`, `Buckets.dfy` | the row/bucket merge and units history; bucket boundaries |
| `Corrections.dfy`, `ChainAncestry.dfy`, `EventIds.dfy` | balance corrections, fork ancestry, event ids |
| `Options.dfy`, `Multiples.dfy` | helpers |

Where a property does not hold of the code for all inputs, the code is kept as it is and the exact condition is proved:

- A union query overruns its window when timeLow and timeHigh lie in one day and timeLow is not a whole day
  (`AggregateQueries.UnionQueryMeaning`).
- After a restart the sparse depths stay complete only as long as no pool vanishes from the maps
  (`Depths.UpdateIsLosslessIff`); recording never lets one vanish (`Record.PoolsAreKept`).
- The week, month, quarter and year views select a truncated time under the name of a column of their input, and Postgres
  groups by that column: they have a row for each key and day. Such a view is the aggregate of its periods exactly when no
  key has rows on two days of one period (`IntervalViews.HigherViewMeaningIff`, `IntervalViews.TwoDaysInOnePeriod`), and
  queries that read it as it is answer the same rows (`IntervalViews.HigherQueryMeaningIff`). Grouping it once more repairs
  sums, minima and maxima, but not firsts and lasts (`IntervalViews.RegroupingIsExactIff`).
- A transfer older than the watermark makes the balance tables wrong at once, unless it moves nothing between accounts that
  have a delta at its time already (`Balances.RecordIsExactIff`).
- With the immediate inserter, an entry that is refused after others of its event were accepted leaves those in the database
  and out of the depths, unless they cancel out for each pool (`ImmediateRecording.RefusalBreaksStepIff`); a pool name with
  a zero character does it (`ImmediateRecording.ZeroCharacterBreaksStep`).
- A refused depth row is lost: the new depths become the snapshot all the same, and the error is overwritten by that of the
  price row (`Depths.DepthManager.Update`, `Depths.RefusalLosesDepthsIff`).
- The bucket merge starts its cursor at 0, so buckets that start at or before 0 are wrong (`History.MergeIsExactIff`).
  Histories of units miss the changes of buckets that start before 0 (`History.UnitsAreExactIff`).
- A window that runs backwards panics when all calendar instants read for it are up to its start: the second trimming loop
  then indexes past the last one (`Buckets.PanicsIff`). For fixed intervals that is a start one to three periods behind the
  end (`Buckets.ExactVerdict`), as for five-minute buckets from 1000 to 300 (`Buckets.BackwardWindowPanics`). A request
  without a count reaches this when `from` is after `to`.
- The block store loses attributes with an empty name, because its encoding does not tell an empty key from none
  (`StoredBlocks.RecorderSeesTheSameIff`).
- The documented maxima of events and transactions are one too large, because both are counted from 1: event 10,000 of a
  transaction parses as one of the next transaction, and transaction 800,000 as a legacy end-block event
  (`EventIds.AllParseBackIff`). Ids still increase at those sizes.
- The walk to a root ends exactly when no chain on it is its own ancestor (`ChainAncestry.WalkEndsIff`,
  `ChainAncestry.AllWalksEndIff`), which shows within one step more than there are chains (`ChainAncestry.EndsSoonIff`). It
  is endless with a chain without a name, which every root then gives as its parent (`ChainAncestry.EmptyNameNeverEnds`),
  and when a redefinition moves a fork and names a descendant as parent, which the checks let pass
  (`ChainAncestry.CycleNeverEnds`). A redefinition breaks the continuity that was checked exactly when it moves a fork that a
  child continues (`ChainAncestry.AcceptedIsLinkedIff`).
- An iterator over an empty block store answers an error, not the end of data (`BlockStorage.Iterator.Next`).
- `KeepInSync` gives up when the failed calls that ended at a height come to 21, where its message says 20, and does not
  count the call that got to the height: from the start, or after a call that delivers blocks and then fails, it takes 22.
  Calls that succeed without delivering a block do not reset the count (`Fetching.Sync.KeepInSync`).
- Chunk names sort as numbers only below 10^12 (`ChunkNames.NamesSortIff`).

## Model

| member | source | states |
|---|---|---|
| `Recovery.RunsAreSafe` | internal/timeseries/timeseries.go:45-204 | In every run of writes, crashes and restarts from an empty database, where each restart may change the batch size or switch to writing block by block, the durable blocks are heights 1 to n without a gap, the last `block_log` row holds the depths after block n, every table holds what n blocks record, and memory agrees with both |
| `Recovery.WriteKeepsInv` | internal/timeseries/timeseries.go:118-204 | One block written, flushed or only buffered, keeps that invariant |
| `Recovery.FlushingKeepsInv` | internal/timeseries/timeseries.go:185-203 | After a flush the database is durable up to this very block and nothing is pending |
| `Recovery.BatchingKeepsInv` | internal/timeseries/timeseries.go:146-184 | Between commits the database is untouched and the buffered rows continue it exactly |
| `Recovery.RestartRestores` | internal/timeseries/timeseries.go:45-79 | From any durable database a restart succeeds and rebuilds exactly the depths after its last block |
| `Recovery.RestartKeepsInv` | internal/timeseries/timeseries.go:45-101 | A restarted process, whatever its settings, continues as if the old one had never died |
| `Recovery.FewUnflushed` | cmd/btcq-indexer/blockwriter.go:74-76 | Fewer than `CommitBatchSize` blocks are ever in memory only |
| `Recovery.ForkIsTheEnd` | cmd/btcq-indexer/blockwriter.go:54-66 | Nothing beyond the hard fork is ever durable, and once the fork block is processed it is durable with nothing pending |
| `Recovery.FlushesNeverFail` | internal/timeseries/timeseries.go:185-193 | In every state of a run, if the schema accepts the rows of the chain, the batch that ends with the next block can be flushed: no height or block time is given twice, and each `blocks` row has its `block_log` row in the database or in the batch |
| `Recovery.HeldKeysAreNew` | internal/db/ddl.sql:30-44 | The buffered rows of `block_log` and `blocks` repeat no height and no time, neither of the database nor of each other |
| `Recovery.CrashesLeaveNoTrace` | internal/timeseries/timeseries.go:118-204 | Two databases of one height, however their runs crashed and batched, hold the same event, `blocks` and (but for the aggregation state) `block_log` rows, and the same depths at every time |
| `Recovery.FlushAppends` | internal/db/inserter.go:141-196 | A flush appends to every table the batch's rows for it, in recorded order |
| `Recovery.HistoryMatchesEntries` | internal/fetch/record/record.go:45-62 | The true qbtc depth of a pool at any time is the sum of the `rewards_event_entries` recorded by then |
| `Recovery.DepthsAreRewards` | internal/timeseries/depthrecorder.go:99-146 | What is read back from the sparse depth rows of a durable database at any time is that sum, with no asset or synth depth |
| `RecordedRows.DurableEvents` | internal/timeseries/timeseries.go:118-204 | A durable database holds, for each kind of event in the blocks up to its height, exactly one row per event in the table of that kind, in order, with its content, id and time; one `rewards_events` row per rewards event and one entry per pool of it; and no other event rows |
| `RecordedRows.DurableBlocks` | internal/timeseries/timeseries.go:156-171 | Its `block_log` and `blocks` rows are those of blocks 1 to n, with their heights, times, hashes and contents |
| `RecordedRows.TotalsAreRewards` | internal/fetch/record/record.go:60-62 | The qbtc depth of a pool after a block is the sum of the amounts for it in all rewards events up to the block; there are no asset and synth depths |
| `BlockWriter.Indexer.Setup` | internal/timeseries/timeseries.go:45-79 | Restores memory from the last row; refuses, changing nothing durable, when that row has no aggregation state |
| `BlockWriter.Indexer.RecordBlock` | internal/timeseries/timeseries.go:119-183 | Appends to the pending rows exactly the rows of the block, in the order of the code, with the aggregation state on flush blocks only |
| `BlockWriter.Indexer.Commit` | internal/timeseries/timeseries.go:185-203 | On success the whole batch is in the database and nothing pending; on failure the database is untouched; with an unbroken connection it succeeds exactly when the rows fit, their keys are new and every `blocks` row has its `block_log` row |
| `BlockWriter.Indexer.ProcessBlock` | internal/timeseries/timeseries.go:118-205 | The imperative `ProcessBlock` performs a processing step of the state machine, or dies leaving the database as it was, and only because the connection broke or the batch is refused |
| `BlockWriter.Indexer.Decide` | cmd/btcq-indexer/blockwriter.go:54-75 | Stops exactly for blocks beyond the fork; commits exactly when immediate, synced, at a batch boundary or at the fork |
| `BlockWriter.Indexer.Take` | cmd/btcq-indexer/blockwriter.go:48-91 | One round of the loop is one writing step of the state machine, or an end that leaves the database alone. A block is committed with all before it, and nothing stays pending, when the node has no block after the next, writing is immediate, a batch is full, the fork is reached or the block is the first; otherwise the database stays as it is. A write fails only for a broken connection or a refused batch |
| `BlockWriter.Indexer.Loop` | cmd/btcq-indexer/blockwriter.go:29-94 | The loop waits first exactly when the last committed block is at the fork, and then writes nothing; all it writes is a run of writing steps, of which each that finds no block after the next at the node leaves everything committed; it ends when cancelled, at the fork, or in a failed write, for a broken connection or a refused batch only |
| `BlockWriter.WritingNeverFails` | internal/timeseries/timeseries.go:185-193 | From a state of a run the loop never comes to a refused batch, if the schema accepts the rows of the chain |
| `BlockWriter.TipIsDurable` | cmd/btcq-indexer/blockwriter.go:74-76 | At the tip of the chain every block processed is durable, with its row in `block_log` |
| `Depths.MapDiff.DiffAtKey` | internal/timeseries/depthrecorder.go:30-38 | Says whether a pool appeared, changed or vanished since the snapshot, and its new value (0 when gone) |
| `Depths.MapDiff.Save` | internal/timeseries/depthrecorder.go:22-27 | The snapshot becomes a copy of the map |
| `Depths.DepthManager.PoolChange` | internal/timeseries/depthrecorder.go:127-135 | One row with all three depths exactly when any of them changed |
| `Depths.DepthManager.InsertChanges` | internal/timeseries/depthrecorder.go:109-143 | Whatever order pools are visited in, one row for each changed pool visited before the inserter refuses one, and none for the others; without a refusal one for each changed pool |
| `Depths.DepthManager.Update` | internal/timeseries/depthrecorder.go:103-168 | Writes the whole change set exactly when the inserter takes the rows of all changed pools; the new depths become the snapshot in any case, and the error reported is that of the price row alone |
| `Depths.UpdateIsLosslessIff` | internal/timeseries/depthrecorder.go:99-146 | All depths at all times can still be read back after an update if and only if the snapshot was that of the last block or, after a restart, no pool with depths vanished from the maps |
| `Depths.RefusalLosesDepthsIff` | internal/timeseries/depthrecorder.go:117-147 | Where rows were refused, all depths can still be read back if and only if every pool with other depths than before has a row |
| `Record.PoolsAreKept` | internal/fetch/record/aggregate.go:33-58 | Recording events never drops a pool, so the condition above holds in every run |
| `Record.PointerMap.Add` | internal/fetch/record/aggregate.go:42-49 | Adds through the pointer, or creates one; no other pool changes |
| `Record.PointerMap.Copy` | internal/fetch/record/aggregate.go:75-82 | A snapshot copy equals the map, and shares nothing with it |
| `Record.RunningTotals.Snapshots` | internal/fetch/record/aggregate.go:75-100 | The three snapshot maps of `aggTrack` |
| `Record.RunningTotals.Restore` | internal/timeseries/timeseries.go:70-79 | Setting every depth found restores the totals |
| `Record.EventRecorder.OnRewards` | internal/fetch/record/record.go:37-63 | With the batch inserter, which refuses nothing: one row for the event, one per pool in order, then every amount is added to its pool's qbtc depth |
| `ImmediateRecording.ImmediateRecorder.OnRewards` | internal/fetch/record/record.go:37-63 | With the immediate inserter: rows are tried up to the first refused one, and the depths grow only if all are accepted |
| `ImmediateRecording.KeptRows` | internal/db/inserter.go:76-104 | Of such a series just the rows before the refused one stay in the transaction |
| `ImmediateRecording.RefusalBreaksStepIff` | internal/fetch/record/record.go:49-62 | Entries in the transaction and depths in memory grow alike if and only if all rows of the event are accepted or, for each pool, the rewards of the accepted entries cancel out |
| `ImmediateRecording.PositiveRewardsIff` | internal/fetch/record/record.go:49-62 | With positive rewards: if and only if all rows are accepted or no entry is |
| `ImmediateRecording.ZeroCharacterBreaksStep` | internal/fetch/record/event.go:184-191 | A pool name with a zero character, which a TEXT column refuses, after a good one: the first entry is kept and no depth moves |
| `Record.EventRecorder.RecordEvents` | internal/fetch/record/mux.go:64-89 | All events of a block are recorded in order: what that leaves, `RecordedRows.EventsAreRecorded` says |
| `RecordedRows.EventsAreRecorded` | internal/fetch/record/mux.go:121-160 | Table by table, counted from the events: one row per transfer, instantiate and contract event in its own table, in order, one per rewards event, one per pool of a rewards event, and none besides |
| `Record.DepthsMatchEntries` | internal/fetch/record/record.go:49-62 | A block moves a pool's qbtc depth by exactly the sum of the entry rows it inserts for that pool |
| `Record.EventsMoveQbtcOnly` | internal/fetch/record/record.go:60-62 | Recording never touches asset or synth depths |
| `Inserter.BatchRefinesImmediate` | internal/db/inserter.go:130-196 | If inserting one by one succeeds, copying key by key in any order allowed by the ranks succeeds as well and leaves every table with the same bag of rows |
| `Inserter.InsertAllIff` | internal/db/ddl.sql:30-44 | A series of inserts succeeds exactly when every row meets the schema, has height and time, or height, that are neither in the database nor earlier in the series, and every `blocks` row finds its `block_log` row there |
| `Inserter.InsertsKeepConsistent` | internal/db/ddl.sql:30-44 | Whatever is inserted, and whether rows that fail end the series or are skipped, no height and no time comes twice in `block_log`, no height twice in `blocks`, and every `blocks` row has its `block_log` row |
| `Inserter.FlushIff` | internal/db/inserter.go:157-191 | A flush in any allowed order succeeds exactly when every row fits, keys are new and not given twice, and every `blocks` row has its `block_log` row in the database or anywhere in the batch; the recorded order does not matter |
| `Inserter.FlushCannotFail` | internal/db/inserter.go:157-191 | Under that condition no copy of the flush is refused, since `block_log` ranks first |
| `Inserter.BatchInserter.Insert` | internal/db/inserter.go:130-139 | Never fails; the row goes to the end of its (table, columns) batch |
| `Inserter.BatchInserter.Flush` | internal/db/inserter.go:141-204 | All or nothing: the batch reaches the database in a flush order, or a copy or the COMMIT failed and the database is untouched; with an unbroken connection it succeeds exactly under that condition; in all cases nothing stays pending |
| `Inserter.ImmediateInserter.Insert` | internal/db/inserter.go:76-104 | A refused row is rolled back to the savepoint; the transaction holds the successful rows so far |
| `Inserter.ImmediateInserter.EndBlock` | internal/db/inserter.go:57-67 | Committing leaves the rows of the successful inserts; a failed COMMIT leaves the database as it was, and the transaction is over either way |
| `Inserter.ImmediateKeepsSuccesses` | internal/db/inserter.go:31-34 | A block under savepoints ends as if the failing inserts had never been tried |
| `Inserter.AllSurvive` | internal/db/inserter.go:31-34 | When none fails, all rows survive and the all-or-nothing and the one-by-one form agree |
| `Balances.RunsStayExact` | internal/db/balances.sql:30-118 | In every run of transfers at or after the watermark and of updates in any order, repeated, failing or going backwards, both balance tables equal a computation from scratch |
| `Balances.UpdateKeepsInv` | internal/db/balances.sql:104-118 | One `update_balances` keeps the tables exact and moves the watermark only up |
| `Balances.NewRowsAreExact` | internal/db/balances.sql:43-96 | The window query over a slice, started from the current balances, yields one row per touched (account, time), holding the sum of all deltas up to it |
| `Balances.NewCurrentIsExact` | internal/db/balances.sql:30-41 | The upsert of a slice's sums makes every current balance the sum of all deltas below the new watermark |
| `Balances.RecordIsExactIff` | internal/db/balances.sql:104-118 | A transfer keeps the tables exact if and only if it is not older than the watermark or moves nothing (amount zero, or to oneself) between accounts that have a delta at its very time already |
| `Balances.SlicingDoesNotMatter` | internal/db/balances.sql:98-118 | Two histories of updates over the same transfers and watermark leave the same rows |
| `Balances.LookupIsPrefixSum` | internal/timeseries/balance.go:87-94 | The latest row at or before a time holds the sum of all deltas up to it, and there is one exactly when the account was touched |
| `Balances.GetBalancesIsExact` | internal/timeseries/balance.go:81-123 | `GetBalances` answers each asset in which the address took part in a transfer by then, once, with the amounts it received less those it sent, and no other |
| `Balances.BalanceIsReceivedLessSent` | internal/db/balances.sql:5-9 | The balance read at a time is the sum of the amounts of transfers to the address by then, less that of those from it, over the transfers that mean the asset; there is one exactly when it took part in such a transfer |
| `Balances.CurrentIsReceivedLessSent` | internal/db/balances.sql:5-9 | So is the current balance, over the transfers before the watermark |
| `Balances.AssetNameMeans` | internal/db/balances.sql:5-9 | A transfer means the asset that is left without the blanks around it, or QBTC.QBTC when no asset or only blanks are given |
| `Balances.BalancesConserve` | internal/db/balances.sql:5-9 | The balances of each asset over all addresses sum to zero, now and as of every past time |
| `Balances.BalanceTables.UpdateRunningBalancesInterval` | internal/db/balances.sql:43-96 | From tables exact up to t1 it never meets a primary-key violation and leaves one running row per account and time touched before t2, holding the sum of all deltas up to then |
| `Balances.BalanceTables.UpdateCurrentBalancesInterval` | internal/db/balances.sql:30-41 | From current balances exact up to t1 it makes every current balance the sum of all deltas before t2 |
| `Balances.BalanceTables.UpdateBalances` | internal/db/balances.sql:104-118 | On exact tables the procedure never meets a primary-key violation and leaves them exact |
| `Aggregates.GroupingsCompose` | internal/db/aggregates.go:204-238 | Aggregating an aggregation (sum, min, max, first, last) is aggregating the raw rows in the coarser buckets, whenever the coarser ones respect the finer |
| `Aggregates.ValueOfValues` | internal/db/aggregates.go:213-226 | Column by column: the sum of sums, the first of firsts and so on are those of the raw rows |
| `AggregateQueries.UnionQueryMeaning` | internal/db/aggregates.go:291-367 | For every table, filter and columns the re-aggregated union equals the direct aggregate of [timeLow, timeHigh) if and only if timeLow <= 0, or its ceiling is not after the floor of timeHigh, or timeLow is a whole day and timeHigh not after its own floor |
| `AggregateQueries.UnionPartitions` | internal/db/aggregates.go:308-354 | Then low edge, days and high edge cover exactly the window, disjointly and in time order |
| `AggregateQueries.PieceMeaning` | internal/db/aggregates.go:317-362 | A piece of the union, from raw rows or day buckets, is the aggregate of the rows in its range, stamped with its least time |
| `IntervalViews.HigherViewMeaningIff` | internal/db/aggregates.go:262-269 | A week to year view, which groups by the day column of its input and stamps afterwards, is the aggregate of its periods if and only if no key has rows on two days of one period |
| `IntervalViews.TwoDaysInOnePeriod` | internal/db/aggregates.go:204-269 | Two rows of one key on two days of one period make a view that is not |
| `IntervalViews.HigherQueryMeaningIff` | internal/db/aggregates.go:390-397 | Selecting whole periods from such a view is right if and only if no key has two selected days in one of them |
| `IntervalViews.RegroupingRestores` | internal/db/aggregates.go:204-238 | Grouping the view once more, over its periods or anything coarser, restores the aggregate of the raw rows for sums, minima and maxima |
| `IntervalViews.RegroupingIsExactIff` | internal/db/aggregates.go:204-238 | It does so for all tables if and only if no column is a first or a last one |
| `IntervalViews.PeriodicQueryMeaning` | internal/db/aggregates.go:390-397 | Selecting whole periods from a view that is grouped by period aggregates exactly their rows |
| `IntervalViews.PeriodicAnswerMeaningIff` | internal/db/aggregates.go:386-402 | The periodic branch answers the aggregate of its periods if and only if the interval is exact or no key has two selected days in one period |
| `IntervalViews.BucketedQueryMeaning` | internal/db/aggregates.go:375-402 | Under the exact conditions on either branch the answer is what aggregating the raw rows of the window directly gives |
| `Refresh.RunsKeepInv` | internal/db/aggregates.go:531-692 | In every interleaving of commits, requests, receives and the single statements of a pass, with failures, restarts and refreshes into the past, the combined view shows the rows of its query, the balances are exact, and no request is lost |
| `Refresh.QuietMeansRead` | internal/db/aggregates.go:638-691 | With no token pending and the refresher idle, everything that was requested has been read |
| `Refresh.QuietMeansRefreshed` | internal/db/aggregates.go:602-692 | If that reading pass was not capped and no statement in it failed, both watermarks are beyond the last commit it read, and only rows newer than what was requested are not materialized |
| `Refresh.CleanPassIsDone` | internal/db/aggregates.go:546-621 | A pass to the end whose statements succeed finishes in that state |
| `Refresh.CombinedIsTheQuery` | internal/db/aggregates.go:482-487 | Wherever the watermark is, the combined view has the rows of the defining query |
| `Refresh.RefreshKeepsView` | internal/db/aggregates.sql:17-35 | `refresh_watermarked_view` materializes exactly the rows below the new watermark |
| `Refresh.PassBounds` | internal/db/aggregates.go:546-565 | A pass starts at the first block or, if later, where the last one stopped, and goes up to the last commit + 1 or for 20 days, whichever is less |
| `Refresh.BeginsAfterFirstBlock` | internal/db/aggregates.go:541-565 | That is how the refresher begins a pass in the state machine |
| `Refresh.CatchUpTakesExactly` | internal/db/aggregates.go:546-565 | From behind, the last commit is first covered by exactly the pass that counts the 20-day steps, rounded up, from where the refresh stands or from the first block if that is later |
| `Refresh.CatchUpFromFirstBlock` | internal/db/aggregates.go:541-565 | A process that has aggregated nothing up to the first block needs as many passes as there are 20-day steps, rounded up, from the first block to the last commit + 1 |
| `Refresh.FailuresAreMadeUpFor` | internal/db/aggregates.go:607-616 | A refresh of the view that failed or was cancelled is made up for by the next one: watermark and rows are the same |
| `Refresh.AggregatesJob.Request` | internal/db/aggregates.go:638-651 | A request never blocks: afterwards a token is in the channel, and skipped ones are counted |
| `Refresh.AggregatesJob.PlanPass` | internal/db/aggregates.go:541-580 | Raises the mark to the first block, then plans a pass to the last commit + 1, or for 20 days from the mark if that is less; it is caught up exactly in the first case |
| `Refresh.AggregatesJob.RefreshWatermarkedView` | internal/db/aggregates.sql:17-35 | Afterwards what is materialized is again just the rows below the watermark, and the combined view shows the same rows as before; the watermark never falls |
| `Refresh.AggregatesJob.RefreshAggregates` | internal/db/aggregates.go:531-624 | One pass, cancelled after any number of statements or with failing ones: it leaves the mark at the first block or later, unless the last commit is earlier; from a mark up to the first block it ends at the smaller of the last commit + 1 and the first block + 20 days; what it remembers, and what it moves |
| `Fetching.FetchBlocks` | internal/fetch/sync/chain/chain.go:216-284 | Succeeds exactly when the node sent every block and result with its own height, and then its stretch of the batch holds just these blocks with these results, in order; the rest is untouched |
| `Fetching.FetchBlocksParallel` | internal/fetch/sync/chain/chain.go:286-321 | In whatever order the parts run, it succeeds exactly when every part does and the batch divides evenly, and then the batch is in order and each part of it holds the blocks of the reply to that part |
| `Fetching.ChainIterator.NextBatch` | internal/fetch/sync/chain/chain.go:162-182 | The next batch starts where the last one ended and never goes beyond the final height |
| `Fetching.ChainIterator.Next` | internal/fetch/sync/chain/chain.go:150-160 | Blocks come with consecutive heights up to the final one, each whole as the node gave it, until a fetch fails |
| `Fetching.Iterator.constructor` | internal/fetch/sync/iterator.go:19-42 | Reads the store first exactly when it has the start height |
| `Fetching.Iterator.Next` | internal/fetch/sync/iterator.go:44-89 | The next block has the next height and is the store's while the store is read, then the node's; both "Programming error" branches are unreachable; only a failed fetch or a store answering a wrong height ends the iteration early |
| `Fetching.Sync.CatchUp` | internal/fetch/sync/sync.go:171-249 | Sends consecutive heights from the start, each block whole as the store or the node gave it for the height, returns last sent + 1, and after a failure remembers the target it was heading for |
| `Fetching.Sync.KeepInSync` | internal/fetch/sync/sync.go:251-309 | Over all calls the channel gets consecutive heights without gap or repeat, each block whole as the store or the node gave it, the target stays fixed after a failure, and it quits exactly when a failed call brings the failures of calls that ended at one height to 21, not counting the call that got there |
| `FetchPath.BlockSource.Next` | internal/fetch/sync/iterator.go:44-89 | On a sound block store the next block has the next height, is the dumped one while the store has it and the one the node gave otherwise, and only a failed fetch is an error |
| `FetchPath.ReadThrough` | internal/fetch/sync/iterator.go:19-89 | Reading through a sound store and on from the node skips no height, returns the dumped blocks unchanged and then the blocks the node gave, and never reports a height mismatch |
| `ChunkNames.NamesSortIff` | internal/fetch/sync/blockstore/chunk.go:18-48 | Names padded to a width sort as the heights they stand for exactly below ten to that width (12 for chunks) |
| `ChunkNames.NameRoundTrip` | internal/fetch/sync/blockstore/chunk.go:22-48 | A chunk name parses back to its height |
| `ChunkNames.NamesAreDistinct` | internal/fetch/sync/blockstore/chunk.go:46-48 | Different heights have different names |
| `ChunkNames.TemporaryNamesAreNoChunks` | internal/fetch/sync/blockstore/chunk.go:17-44 | No temporary name parses as a chunk |
| `ChunkNames.ClosedNamesAreTemporary` | internal/fetch/sync/blockstore/blockstore.go:123-128 | A closed but unfinished chunk has a temporary name |
| `BlockStorage.RunsKeepInv` | internal/fetch/sync/blockstore/blockstore.go:39-128 | In every run of dumps of consecutive blocks, forced or periodic finalizations, closes, crashes and restarts, the chunk files hold each block up to the last chunk end exactly once, and the temporary file the rest |
| `BlockStorage.DumpKeepsInv` | internal/fetch/sync/blockstore/blockstore.go:92-121 | Dumping the next block extends the store by just that block |
| `BlockStorage.ReopeningKeepsInv` | internal/fetch/sync/blockstore/blockstore.go:134-146 | Whatever was left behind, opening finds all finished chunks, drops only unfinished blocks, and continues after the last chunk |
| `BlockStorage.FewBlocksAreLost` | internal/fetch/sync/blockstore/blockstore.go:112-120 | In every run fewer blocks than a chunk holds are dumped beyond the last chunk end, so no ending of the program loses more |
| `BlockStorage.FinishedDump` | internal/fetch/sync/blockstore/blockstore.go:112-120 | After a forced dump, or one at a multiple, nothing is pending: the block and all before it are in the chunks |
| `BlockStorage.EmptyFolderIsSound` | internal/fetch/sync/blockstore/blockstore.go:134-146 | A folder without chunks opens as the store of nothing |
| `BlockStorage.MatchIsByHeight` | internal/fetch/sync/blockstore/gobtext.go:53-57 | Comparing line prefixes compares heights, below twelve digits |
| `BlockStorage.ReadDir` | internal/fetch/sync/blockstore/blockstore.go:148-155 | The listing names every file once, sorted by name |
| `BlockStorage.LocalChunks` | internal/fetch/sync/blockstore/blockstore.go:157-171 | Exactly the files whose names parse, in name order |
| `BlockStorage.SearchChunks` | internal/fetch/sync/blockstore/blockstore.go:230-241 | The binary search returns a chunk that reaches the height after one that does not: the first that does, when heights increase |
| `BlockStorage.FindChunkForHeight` | internal/fetch/sync/blockstore/blockstore.go:225-243 | In any folder: no chunk, past the end of the greatest name, or a chunk that reaches the height and whose neighbour before it in name order does not; with names that sort as heights, the chunk with the least height that is enough |
| `BlockStorage.FoundChunkHoldsHeight` | internal/fetch/sync/blockstore/blockstore.go:225-243 | In a sound store that chunk is the unique one whose range contains the height |
| `BlockStorage.BlockStore.constructor` | internal/fetch/sync/blockstore/blockstore.go:39-52 | Opening removes temporary files only and takes up after the last chunk |
| `BlockStorage.BlockStore.CleanUp` | internal/fetch/sync/blockstore/blockstore.go:245-262 | Deletes exactly the files with temporary names |
| `BlockStorage.BlockStore.FindLastFetchedHeight` | internal/fetch/sync/blockstore/blockstore.go:134-146 | The height of the last chunk in name order, or the base without chunks |
| `BlockStorage.BlockStore.FinalizeChunk` | internal/fetch/sync/blockstore/blockstore.go:198-223 | Renames the temporary file over a chunk of that name; nothing happens without an open file |
| `BlockStorage.BlockStore.DumpBlock` | internal/fetch/sync/blockstore/blockstore.go:92-121 | Appends the line to the open file or a new one; at multiples of the chunk size, or when forced, that file becomes the chunk named after the height, and otherwise stays open |
| `BlockStorage.BlockStore.Close` | internal/fetch/sync/blockstore/blockstore.go:123-128 | Parks the unfinished file under a temporary name |
| `BlockStorage.Iterator.Next` | internal/fetch/sync/blockstore/iterator.go:24-40 | Answers the stored block of the next height and advances, ends after the last chunk, and reports an error on an empty store or below its first block |
| `BlockStorage.Iterator.OpenNextChunk` | internal/fetch/sync/blockstore/iterator.go:69-86 | Opens the chunk that contains the next height |
| `BlockStorage.Iterator.UnmarshalNextBlock` | internal/fetch/sync/blockstore/iterator.go:90-115 | Skips lines up to the one with the height; without it all lines are consumed and the iterator stays |
| `BlockStorage.ReadFrom` | cmd/blockstore/fragment/fragment.go:48-73 | From any stored height, reading yields exactly the dumped blocks from there to the last finalized one, and then the end |
| `StoredBlocks.RoundTripNormalizes` | internal/fetch/sync/blockstore/storedblock.go:192-324 | Storing, encoding and loading leaves every event's kind and named non-mode attributes in order, non-EndBlock before EndBlock finalize events, each with one trailing mode attribute |
| `StoredBlocks.LoadedEvent` | internal/fetch/sync/blockstore/storedblock.go:227-315 | A loaded event has its kind, exactly the attributes with a key other than mode and the empty one, each in its place, and one mode attribute if it is a finalize event |
| `StoredBlocks.TransactionsAreKept` | internal/fetch/sync/blockstore/storedblock.go:192-296 | Transactions keep their place, the fields both conversions copy, and the number of their events |
| `StoredBlocks.RoundTripTwice` | internal/fetch/sync/blockstore/storedblock.go:192-324 | Doing it twice is doing it once |
| `StoredBlocks.RecorderSeesTheSameIff` | internal/fetch/record/mux.go:105-120 | The recorder's filtered events are the same, up to the stable partition, if and only if no attribute has a value but an empty name |
| `StoredBlocks.PartitionedIff` | internal/fetch/sync/blockstore/storedblock.go:279-290 | The partition leaves the order unchanged exactly when no EndBlock event stands before another kind |
| `StoredBlocks.StoreEvent` | internal/fetch/sync/blockstore/storedblock.go:298-315 | Mode attributes become holes, all others are kept in place |
| `StoredBlocks.GetEventMode` | internal/fetch/sync/blockstore/storedblock.go:317-324 | The value of the first mode attribute, or empty |
| `StoredBlocks.StoreByMode` | internal/fetch/sync/blockstore/storedblock.go:276-293 | Splits finalize events stably by mode; those without one count as begin events |
| `StoredBlocks.StoreResults` | internal/fetch/sync/blockstore/storedblock.go:251-296 | The stored form of a block's results |
| `StoredBlocks.LoadEvent` | internal/fetch/sync/blockstore/storedblock.go:227-249 | Drops holes and appends the mode when there is one |
| `StoredBlocks.LoadResults` | internal/fetch/sync/blockstore/storedblock.go:192-225 | The loaded form of stored results |
| `StoredBlocks.FilterAttributes` | internal/fetch/record/mux.go:104-120 | Keeps, in order, exactly the attributes with a value whose key is neither mode nor msg_index |
| `History.QueryBucketed` | internal/timeseries/stat/depth.go:31-71 | For any rows sorted by time and any apply function, bucket i saves the fold of all rows whose time is a non-negative bucket start up to its own; the loops end |
| `History.SavedIsWanted` | internal/timeseries/stat/depth.go:43-68 | From positive starts that is the fold over all rows of bucket starts |
| `History.MergeIsExactIff` | internal/timeseries/stat/depth.go:43-68 | Summing is exact for all rows if and only if the first start is positive, or zero with a zero unset value |
| `History.UnitsAtEnd` | internal/timeseries/stat/poolunits.go:55-98 | On the grouping query's rows, a bucket's units are the sum of all changes before the bucket ends, less those in buckets that start before time 0 |
| `History.UnitsAreExactIff` | internal/timeseries/stat/poolunits.go:55-98 | So they are right for all changes if and only if no bucket starts before time 0 |
| `History.BucketedUnitChanges` | internal/timeseries/stat/poolunits.go:55-98 | The imperative form of that |
| `History.PoolLiquidityUnitsHistory` | internal/timeseries/stat/poolunits.go:123-140 | Units are deposits minus withdrawals before the start, and before the end of every bucket, with the same exception |
| `History.PoolsLiquidityUnitsBefore` | internal/timeseries/stat/poolunits.go:101-115 | Per pool deposits minus withdrawals, over the pools of either map, a missing entry counting as 0 |
| `Buckets.Trim` | internal/db/buckets.go:188-202 | For any increasing instants it succeeds, refuses or panics as `TrimVerdict` says by counting instants before Until and up to From; on success over instants on either side, first <= From < second and second last < Until <= last |
| `Buckets.TrimIsUnique` | internal/db/buckets.go:188-195 | Those inequalities leave one contiguous run only |
| `Buckets.PanicsIff` | internal/db/buckets.go:168-202 | On what the query reads, the program panics if and only if there are instants and the last of them is not after From |
| `Buckets.SliceNeverPanics` | internal/db/buckets.go:188-202 | It is then always the index of the second loop that is out of range, never the slice |
| `Buckets.ExactVerdict` | internal/db/buckets.go:168-202 | For intervals of fixed length by the window alone: a start before the end's period succeeds, one to three periods behind panics, and otherwise the request is refused |
| `Buckets.BackwardWindowPanics` | internal/db/buckets.go:168-202 | Five-minute buckets from 1000 to 300 read [300, 600] and index past them |
| `Buckets.ForwardWindowsSucceed` | internal/db/buckets.go:188-202 | A window with From <= Until never panics, and fails only when empty and at an instant |
| `Buckets.GenerateTimestamps` | internal/db/buckets.go:139-203 | The same, after windows wider than 800 longest intervals are refused |
| `Buckets.BucketsFromWindow` | internal/db/buckets.go:206-217 | For every window: when it panics, never more than 400 buckets, and refused for that only when there would be more |
| `Buckets.RestrictBuckets` | internal/db/buckets.go:240-254 | Leaves a run with at most one instant before the first block and one after the last, drops none between, and drops others only where such a one is left |
| `Buckets.WindowHoldsCount` | internal/db/buckets.go:293-309 | With gaps of at most the longest interval, a window of `count` of them holds at least `count` buckets |
| `Buckets.GenerateBucketsWithInterval` | internal/db/buckets.go:256-320 | Which requests fail and panic; never more than 400 buckets. Without a count they reach from the start asked for or the first block to the end asked for or now, or there are more than 400; with a count they are that many up to the end or now, or from the start, or all there are for `count` longest intervals: exactly that many inside the recorded range |
| `Corrections.GetCorrections` | cmd/checks/balance/balancecorrection.go:45-80 | In whatever order the maps are visited, one correction for each key that differs, and the visited keys are deleted from the second map |
| `Corrections.CorrectionsReconcile` | cmd/checks/balance/balancecorrection.go:16-36 | Applied as transfers in any order they make every key but the correction address's match the node, a missing entry counting as 0 |
| `Corrections.CorrectionsConserve` | cmd/checks/balance/balancecorrection.go:16-36 | They never change the total of an asset |
| `Corrections.KeysAreDistinct` | cmd/checks/balance/balancecheck.go:20-22 | Accounts share a key only when they differ in case alone, unless an address contains an underscore |
| `ChainAncestry.CombinedForkInfoMap` | internal/db/chainancestry.go:50-95 | The checked merge of all definitions, or the error at which the program ends |
| `ChainAncestry.AcceptedIff` | internal/db/chainancestry.go:60-91 | A list is accepted if and only if each definition goes with those before it: a parent named has a hard fork, a first height given is the one after it, and the own hard fork is not before the first height |
| `ChainAncestry.FirstRefusal` | internal/db/chainancestry.go:60-91 | The first definition that does not says which error ends the program |
| `ChainAncestry.MapHasLastDefinition` | internal/db/chainancestry.go:71-91 | Of a chain the map holds the last definition, with a first height of 0 replaced by the one after the parent's fork, or 1 |
| `ChainAncestry.AcceptedIsLinkedIff` | internal/db/chainancestry.go:61-91 | An accepted list leaves every child starting right after its parent's hard fork if and only if no redefinition of a chain moves the fork that a child, as last defined, continues |
| `ChainAncestry.AcceptedIsLinked` | internal/db/chainancestry.go:61-91 | With distinct ids every accepted child starts right after its parent's hard fork, and the map has just the listed chains |
| `ChainAncestry.RedefinitionBreaksLinks` | internal/db/chainancestry.go:61-91 | A list that defines a chain twice can be accepted although a child no longer continues its parent |
| `ChainAncestry.RecursiveFindRoot` | internal/db/chainancestry.go:109-119 | Wherever the walk ends, the result is the end of the lineage of parents from the chain, whose own parent is not in the map |
| `ChainAncestry.WalkEndsIff` | internal/db/chainancestry.go:109-119 | In any map the walk from a chain ends if and only if neither the chain nor any ancestor is its own ancestor |
| `ChainAncestry.EndsSoonIff` | internal/db/chainancestry.go:109-119 | It ends if and only if it does within one step more than there are chains |
| `ChainAncestry.AllWalksEndIff` | internal/db/chainancestry.go:109-119 | All walks end if and only if no chain of the map is its own ancestor |
| `ChainAncestry.UnmovedWalksEndIff` | internal/db/chainancestry.go:50-119 | In an accepted list whose redefinitions keep forks or keep parents, a walk ends if and only if no chain has the empty name |
| `ChainAncestry.RootsNameNoParent` | internal/db/chainancestry.go:109-119 | In an accepted list without an empty name, the chain where a walk ends names no parent |
| `ChainAncestry.EmptyNameNeverEnds` | internal/db/chainancestry.go:109-119 | With a chain of the empty name no walk over the map ends |
| `ChainAncestry.CycleNeverEnds` | internal/db/chainancestry.go:50-119 | An accepted list without an empty name whose redefinition makes two chains each other's parent: the walk never ends |
| `ChainAncestry.HeightsArePartitioned` | internal/db/chainancestry.go:72-79 | Along a lineage every height from the root's first to the chain's last belongs to exactly one chain |
| `ChainAncestry.EnrichAndGetRoot` | internal/db/chainancestry.go:121-152 | Field by field, what the definition gives wins over what the node reported, which stays where nothing is given; when it refuses; and the root: the chain itself exactly when it has no parent |
| `EventIds.EncodeParsedIff` | internal/db/eventid.go:38-72 | Parsing then encoding is the identity exactly on non-negative integers and on those negative ones whose truncated remainder exceeds -1e9 |
| `EventIds.ParseEncodedIff` | internal/db/eventid.go:38-76 | Encoding then parsing is the identity exactly on the valid ids |
| `EventIds.OrderIff` | internal/db/eventid.go:17-29 | Encoded ids compare as (height, part, transaction, event) |
| `EventIds.ProcessBlock` | internal/fetch/record/mux.go:50-92 | The counters assign to each event the id that `EventIds.IdsAre` and `EventIds.BlockIdsIncrease` describe |
| `EventIds.Metadata.ProcessTx` | internal/fetch/record/mux.go:182-189 | Events of a transaction are numbered consecutively, whether or not they fail |
| `EventIds.IdsAre` | internal/fetch/record/mux.go:64-92 | The ids are exactly those of the finalize events counted from 1 and, for each transaction counted from 1, of its events counted from 1 |
| `EventIds.BlockIdsIncrease` | internal/fetch/record/mux.go:64-89 | Within the documented sizes, a block's ids increase strictly and stay within its range |
| `EventIds.IdsIncrease` | internal/fetch/record/mux.go:50-92 | So do the ids of any blocks of increasing heights |
| `EventIds.AllParseBackIff` | internal/db/eventid.go:26-29 | All ids of a block parse back if and only if its counts stay one below the documented maxima |

## Left out

- Network, RPC, HTTP, JSON, gob, zstd, base64, hashing and SQL text: opaque. A stored line is its clear-text prefix and the
  block it encodes; gob appears only where it merges empty and nil byte slices.
- int64 overflow, except for chunk names: numbers are mathematical integers.
- Floating-point columns and rows (`qbtc_price`, TOR anchor price, USD prices): rounding, and no invariant depends on them.
- Genesis loading, database trimming, `members.sql`, the checked debug iterator and `AddMissingEvents`: one-off,
  disabled or developer-only paths.
- Pool statuses and mimir values that `Setup` also restores: plain reads that feed the price code only.
- NULL values, and the join of `pool_depths` with `qbtc_price`: the rows that an aggregate reads are taken as already joined.
- AggregateQueries.PieceMeaning: a SELECT without GROUP BY answers one row of NULLs when it selects nothing. That happens in a
  piece of an aggregate without group columns, as of `rewards_events`; the model answers no row.
- Remote chunks and their hashes, and chunk files whose names do not have twelve digits but still parse: a sound store has
  none of them.
- The header, commit and transaction fields that `blockToStored` copies, and the index flag of attributes, which it drops.
- Calendar computation in the database: what it answers is an increasing sequence of instants that reaches from before to
  after the window (`Buckets.IsRead`), two periods of which are no shorter than the widening (`Buckets.HasLongPairs`); for
  fixed intervals both are proved of the multiples. That the query itself might fail on an inverted range is left out.
- Interleavings finer than the statements of a refresh pass and the parts of a parallel fetch, and the ping to websockets.
- `history` queries other than those of liquidity units: they reuse the same merge with other apply functions.
- BlockWriter.Indexer.Commit: a failed flush ends the process, as `log.Fatal` does; the switch to writing block by block
  is a restart of the state machine that sets `immediate`.
- Recovery.RunsAreSafe: rows that the immediate inserter refuses are not part of its runs. What a refusal does to an event and
  to the depths is in `ImmediateRecording` and `Depths.RefusalLosesDepthsIff`.
- Record.EventRecorder.RecordEvents: takes decoded events; transfers come to it only when the configuration enables them. `bond`
  stands for the bond and the validator of a rewards event, `content` for the columns of the other events.
- Record.EventRecorder.OnRewards: the early returns on a refused insert cannot happen with the batch inserter; they are in
  `ImmediateRecording.ImmediateRecorder.OnRewards`.
- Refresh.AggregatesJob.RefreshAggregates: one watermarked view stands for all of them. The refresh of everything for tests
  is left out.
- Depths.DepthManager.Update: the price row is a parameter that says whether it is accepted; its median is left out.
- Fetching.Sync.KeepInSync: runs for a given number of rounds instead of until the program ends; sleeping and logging are
  left out.
- BlockStorage.BlockStore.constructor: opens the local folder only and does not fetch missing chunks from a remote store.
- BlockStorage.RunsKeepInv: heights have at most twelve digits, the bound of `ChunkNames.NamesSortIff`; the file system does
  not fail, since the code ends the program when it does.
- ChainAncestry.CombinedForkInfoMap: builds the map anew each time instead of caching it.
- History.QueryBucketed: rows that fail to scan are left out; they end the query with their error. Rows have times in the
  unit of the buckets.
- Corrections.CorrectionsReconcile: says nothing about the correction address, which takes the other side of every transfer.
