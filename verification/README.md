# Verified model of the crypto streaming lakehouse

A Dafny model of the pipeline's stateful components, with proofs of what they guarantee together. Messages flow from
the producer through RabbitMQ into the consumer's batch buffer, from there into `bronze.raw_trades`, through dbt into
silver and gold, and by the export into Parquet.

| file | models |
|---|---|
| `Bronze.dfy` | the table, one multi-row `ON CONFLICT DO NOTHING` insert, and the repository object |
| `Buffer.dfy` | the batch buffer: its critical sections, the object, and runs without faults |
| `WritePath.dfy` | the write path as a step system for any number of threads and timers, and its invariant |
| `WriteGuarantees.dfy` | what every run of the write path guarantees, and where it stops short of its documentation |
| `LockRefinement.dfy` | statement-by-statement execution under the lock refines the step system |
| `Consumer.dfy` | `on_message`, the wiring of the buffer, shutdown |
| `Silver.dfy`, `Gold.dfy`, `Sets.dfy` | the dbt models: incremental runs against full rebuilds, aggregates |
| `Pipeline.dfy` | write path and dbt runs interleaved, end to end |
| `Export.dfy`, `Lakehouse.dfy` | the export protocol over run histories, and its objects |
| `Migrate.dfy` | the migration runner |
| `Producer.dfy`, `Backoff.dfy` | publisher, stream loop, backoff |

The step system (`WritePath`) has threads with program counters, the shared buffer memory, the bronze table and the
clock. An insert commits, fails before the commit, or commits and then raises. The history fields of a state (`added`,
`flushed`, `stored`, `repeated`, `returned`, `crashes`) are read by no step. The process can die at any moment and start
again on the table it left. A critical section is one step there; `LockRefinement` shows that a machine that executes the
sections statement by statement, with the lock as the only protection, locals of its own, and timers and crashes at any
moment, does nothing that the step system does not do.

Clock readings, insert outcomes, publish outcomes, crashes and query results are parameters of the operations.

## Main results

- In every interleaving and over any number of crashes: written batches, the batch in flight and the buffer together are
  the messages added, in order; one flush at a time; bronze rows with an id are exactly the first message of each id of
  the committed stream, and a message is in bronze exactly when that stream covers it.
- Over any interleaving of flushes, crashes and dbt runs on a strictly advancing clock, incremental silver is the full
  rebuild.
- Incremental gold equals the full re-aggregation exactly when the trades are on time, for one run and for histories.
- Over any orderly history of export runs each exported window is in the tree exactly once; with failures anywhere, the
  first full export is exact and windows are duplicated exactly when an incremental run failed after writing a row.
- The producer's counters count exactly the trades it looked at; received = valid + invalid exactly when none of them
  made the validation raise something else than ValidationError.

## Where the code and its documentation differ

The model follows the code; each item is a proved lemma unless it says otherwise.

- `consumer/consumer.py:8` promises an ack after the insert. With the buffer wired in, the ack follows `add`
  (`AckBeforeInsert`). It holds for a call exactly when the trade was stored before, or the call reaches the batch size
  with no flush under way and its insert commits (`AddLandsIff`); over runs, exactly when the committed stream covers the
  message (`StoredIffCommitted`). What a crash then loses is in `CrashLoses` and `LostStaysLost`.
- `consumer/batch_buffer.py:47` promises a flush when the timeout elapses. A timer that fires on an empty buffer is not
  re-armed when its flush finds nothing to take, so that a message can wait with no timer left (`TimerStarves`);
  `TimerGoneIff` says exactly when timed flushing has stopped. A timer that fires during another flush is replaced by
  that flush.
- `consumer/batch_buffer.py:123` has `stop` called after a final flush to cancel the pending timer. When another flush is
  under way, its `finally` starts a timer after that (`StopThenRearm`).
- `consumer/repository.py:7-8` calls every insert safe to retry. A message without `trade_id` is stored again when an
  insert commits and then raises (`IdlessStoredTwice`); `IdlessOnceIff` gives the exact condition, over crashes too.
- `dbt/models/gold/gold_vwap_1min.sql:21-22` says late trades of a computed window are captured. Only those are that fall
  in the last window, after its start, while no trade stands exactly at that start (`IncrementalIffOnTime`); and a run
  over unchanged data damages a last window that holds a trade exactly at its start and a later one (`RerunKeepsIff`,
  `RerunDamagesWindow`).
- `lakehouse/exporter.py:74-75` takes the mark to be the largest exported window. It is the clock, and a window that
  reaches gold late is never exported (`LateNeverExported`, `LateWindowLost`, `CompleteIff`). A window recomputed after its
  export stays as it was (`StaleRowKept`, `ExactIff`).
- `lakehouse/export.py:17-19` promises no corruption after a crash. A retried incremental export can duplicate windows
  (`RetryDuplicates`, `RetryDuplicatesIff`, `DuplicatesIff`), and a file whose write died stays in the tree
  (`ReadableIff`).
- `producer/publisher.py:5-6` promises no silent loss. An exception that is not an AMQP error leaves `publish` and the
  message is neither confirmed nor queued; `StreamCounts` counts these messages separately.
- `producer/schemas.py:9` promises a ValidationError for invalid input. A `side` that is not a string, a time that UTC
  cannot represent and an entry that is not an object raise something else: the trade is counted as received only and
  the connection is dropped (`NullSideUncounted`, `StreamCounts`).
- `consumer/main.py:14-18` says a signal stops consuming. The handlers at lines 40-43 set a flag that nothing reads
  (not modelled; the shutdown theorems start at the final flush).

## Model

| member | source | states |
|---|---|---|
| Bronze.BatchRefinesInsertEach | consumer/repository.py:41-109 | a batch insert stores the same messages in the same order and counts the same duplicates as inserting one by one, with repeats inside the batch and null ids |
| Bronze.InsertOneRowAdded | consumer/repository.py:48-67 | an insert adds one row, with the message and the clock reading of the call, or nothing but a count when the id is stored |
| Bronze.PagesCompose | consumer/repository.py:85-99 | a statement split into pages of one transaction adds the same rows |
| Bronze.KeptUnique | migrations/002_bronze_trade_id_index.sql:29-30 | an insert keeps the unique index on trade_id valid |
| Bronze.RetriedBatchExtendsFirsts | consumer/repository.py:87-99 | retrying a batch whose beginning is stored extends bronze to the first messages of the longer stream |
| Bronze.TradeRepository.InsertOneRow | consumer/repository.py:41-67 | the new table and counter for each fate of the statement, also when the exception follows the commit or the counting |
| Bronze.TradeRepository.InsertBatch | consumer/repository.py:69-109 | the new table and counter for each fate; after a commit the messages are those of inserting the trades one by one, and so is the counter once counted |
| Buffer.BatchBuffer.constructor | consumer/batch_buffer.py:53-66 | starts empty with one armed timer |
| Buffer.BatchBuffer.Add | consumer/batch_buffer.py:70-83 | appends under the lock and flushes when the size read there reaches batch_size |
| Buffer.BatchBuffer.Flush | consumer/batch_buffer.py:85-119 | early return, success or batch put back in front; the new buffer, flag, timer and table |
| Buffer.BatchBuffer.ResetOneTimer | consumer/batch_buffer.py:142-147 | cancels the current timer and starts a new one |
| Buffer.BatchBuffer.StopTimer | consumer/batch_buffer.py:121-128 | cancels the timer and clears the field |
| Buffer.TimerFlushRearms | consumer/batch_buffer.py:95-119 | a timer flush that nothing interrupts re-arms the timer exactly when it takes a batch |
| Buffer.FaultFreeRun | consumer/batch_buffer.py:70-102 | after k adds without faults exactly k / batch_size full batches are written and the remainder waits in order |
| WritePath.SingleFlusherStep | consumer/batch_buffer.py:95-118 | every step keeps: the flag is set exactly while one thread holds a batch or has yet to clear it |
| WritePath.ConservedStep | consumer/batch_buffer.py:77-119 | every step keeps flushed ++ in flight ++ buffer equal to the messages added |
| WritePath.BronzeStep | consumer/repository.py:87-99 | every step keeps the rows with an id the firsts of the committed stream and those without the id-less messages of it plus the repeated ones |
| WritePath.RestartInv | consumer/consumer.py:86-88 | a crash at any moment and a restart keep all of these: the committed stream carries over into the next life |
| WritePath.LandedIffCovered | consumer/repository.py:87-99 | a message is in bronze exactly when the committed stream carries its id, or itself when it has none |
| WritePath.TimeStep | consumer/repository.py:80-99 | every step keeps received_at ordered, strictly on a strictly advancing clock |
| WritePath.TimerOverloadStep | consumer/batch_buffer.py:77-147 | every step keeps the timer field naming the only live timer and the overload flag exact up to a returned batch |
| WritePath.DeliveryStep | consumer/consumer.py:80-91 | every step keeps each delivery acknowledged or handled by exactly one thread |
| WritePath.RunInv | consumer/batch_buffer.py:70-147 | all of these hold in every state of every run, over any number of crashes |
| WritePath.NeverBlocked | consumer/batch_buffer.py:87-93 | in every state a busy thread can take its next step, with any clock reading not behind and any fate, and moves on; an idle one can deliver any message, also during an insert, flush, stop, or run any armed timer |
| WriteGuarantees.NothingLostOrReordered | consumer/batch_buffer.py:77-119 | in every interleaving, written batches ++ in flight ++ buffer is the sequence of messages added since the process started; what was added in an earlier life is what it had committed ++ what its crash lost |
| WriteGuarantees.OneFlushAtATime | consumer/batch_buffer.py:95-118 | the flag is set exactly when one thread is in a flush, no two inserts overlap, received_at is non-decreasing in commit order |
| WriteGuarantees.BronzeIsFirstOfEachId | consumer/batch_buffer.py:104-118 | over all lives, bronze rows with an id are the first message of each id of the committed stream, which covers everything flushed; at most one row per id; every message of the stream is stored |
| WriteGuarantees.StoredIffCommitted | consumer/consumer.py:86-88 | in every run, any message is in bronze exactly when the committed stream carries its id, or itself when it has none |
| WriteGuarantees.QuiescentBronze | consumer/repository.py:87-99 | at rest the stored ids are exactly those added or committed in an earlier life, with first payloads; the id-less rows are these id-less messages plus the repeated ones, and in order exactly these messages iff none was repeated |
| WriteGuarantees.IdlessOnceIff | consumer/repository.py:7-8 | over any number of crashes, at rest: the id-less rows are the id-less messages added or committed earlier, in order, iff no insert wrote while the writing insert before it, in the same life, had committed id-less messages and raised |
| WriteGuarantees.PendingMeaning | consumer/batch_buffer.py:104-115 | in every state, something was written again exactly when such an insert happened, and a retry would write something again exactly when the last writing insert of this life was such a raise |
| WriteGuarantees.IdlessOnceInOneLife | consumer/repository.py:7-8 | without a crash, at rest: the same iff no insert that carried an id-less message committed and then raised |
| WriteGuarantees.IdlessStoredTwice | consumer/repository.py:7-8 | a run that adds one id-less message and stores it twice |
| WriteGuarantees.CrashLoses | consumer/main.py:65-67 | of the messages added when the process dies exactly those the committed stream covers are in bronze; what lies beyond the committed prefix is lost, and was in the batch in flight or the buffer |
| WriteGuarantees.LostStaysLost | consumer/consumer.py:86-88 | what a crash lost stays out of bronze until the same id, or the same id-less message, is delivered again |
| WriteGuarantees.RowsStay | consumer/repository.py:87-99 | committed rows keep place and payload through every run |
| WriteGuarantees.TimerAndOverload | consumer/batch_buffer.py:77-147 | at most one live timer; overloaded implies more than 2 * batch_size, and iff when no failed batch came back since the last add |
| WriteGuarantees.AckedOnce | consumer/consumer.py:80-91 | a delivery is acknowledged once, by the thread that handled it, and stays acknowledged while the process lives |
| WriteGuarantees.AddedIsSomewhere | consumer/batch_buffer.py:70-119 | the k-th message of the current life is stored if it is among those flushed, and otherwise waits at its place in the batch in flight or the buffer |
| WriteGuarantees.AckedAreAdded | consumer/main.py:65-67 | only messages of the stream are acknowledged, and when all threads are idle all of them are |
| WriteGuarantees.AckBeforeInsert | consumer/main.py:65-67 | a run that acknowledges a message while bronze is empty |
| WriteGuarantees.TimerStarves | consumer/batch_buffer.py:97-98 | a run that ends with an acknowledged message waiting, all threads idle and no timer |
| WriteGuarantees.TimerGoneIff | consumer/batch_buffer.py:95-147 | in every state of every run: no timer can fire and no flush is under way exactly when the last timer fired or was stopped while no flush was under way, and since then no flush took a batch and the process did not restart |
| WriteGuarantees.StopThenRearm | consumer/main.py:76-77 | a run in which flush and stop come during another flush, whose finally starts a timer that is left when all is idle |
| WriteGuarantees.FinalFlushIff | consumer/main.py:75-77 | an uninterrupted final flush whose insert commits drains everything exactly when no other flush is under way, or the other is past its insert and the buffer is empty |
| WriteGuarantees.ShutdownDrains | consumer/main.py:75-80 | in any interleaving, a final flush that took its batch and commits leaves every message stored |
| WriteGuarantees.FlushStepsAreFlushCall | consumer/batch_buffer.py:95-119 | the steps of one flush taken alone have the effect of the object's call |
| WriteGuarantees.AddStepsAreAddCall | consumer/batch_buffer.py:70-83 | the steps of one add taken alone go on to a flush exactly when the object's call does, with the same memory |
| LockRefinement.SectionIsAtomic | consumer/batch_buffer.py:77-102 | the statements of a critical section, with the size, the guard and the batch copy read into locals, add up to its atomic step: memory and where the thread goes on |
| LockRefinement.FireCommutes | consumer/batch_buffer.py:136-147 | a timer firing inside a section could have fired before it |
| LockRefinement.FineRunRefines | consumer/batch_buffer.py:59-147 | every statement-level run under the lock, crashes inside sections included, is a run of atomic steps, with the same memory whenever the lock is free |
| LockRefinement.LiveNothingLost | consumer/batch_buffer.py:11-23 | after every single statement, conservation and the meaning of the flag hold on the live memory and the locals of the running section |
| LockRefinement.LockNeverWedges | consumer/batch_buffer.py:87-93 | the holder of the lock can always go on; every other thread can act outside it or take a free lock |
| Consumer.TradeConsumer.OnMessage | consumer/consumer.py:61-120 | each delivery is settled exactly once; directly wired, an ack means the trade is in bronze and the table is that of the history theorem; with the buffer, the trade is in bronze iff it was before, or this add reached the batch size with no flush under way and the insert committed |
| Consumer.AddLandsIff | consumer/main.py:65-67 | the exact condition, checkable before the call, under which an add leaves its message in bronze |
| Consumer.AckedIsStored | consumer/consumer.py:80-91 | from any table with unique ids and over any history of deliveries to the direct repository, every acked trade is stored, ids stay unique and rows stay |
| Consumer.Shutdown | consumer/main.py:75-80 | when flush and stop return the timer field is empty and no timer is armed, and a committing flush leaves its messages in bronze; during another flush nothing is drained |
| Silver.CastIsNearest | dbt/models/silver/stg_trades.sql:54-55 | the numeric cast is nearest, exact on the grid, away from zero half way, and keeps signs |
| Pipeline.ParseKeepsFields | dbt/models/silver/stg_trades.sql:50-62 | the parsed trade carries every field of its bronze row, price and size rounded to 10^-8, half way away from zero |
| Silver.SilverRunExists | dbt/models/silver/stg_trades.sql:68-97 | on every bronze and target, repeated ids included, a run has a result |
| Silver.LatestRowWins | dbt/models/silver/stg_trades.sql:68-97 | of several bronze rows with one id a full build keeps one that was received last, and one for every id |
| Silver.EmptySilverTakesAll | dbt/models/silver/stg_trades.sql:37-42 | over an empty table an incremental run deduplicates every row received after 1900 |
| Silver.IncrementalIsRebuild | dbt/models/silver/stg_trades.sql:27-97 | even with repeated ids, an incremental run over later rows yields a full rebuild |
| Silver.RebuildIsParsed | dbt/models/silver/stg_trades.sql:68-97 | under the unique index the rebuild is unique: the parsed table |
| Silver.IncrementalIffOnTime | dbt/models/silver/stg_trades.sql:37-42 | under the unique index an incremental run equals the rebuild exactly when no new row is at or below the watermark |
| Silver.EqualClocksLoseRows | dbt/models/silver/stg_trades.sql:37-42 | two batches with one clock reading and a run between them lose the second batch |
| Pipeline.StampAfterWatermark | consumer/repository.py:80-99 | serialized flushes stamp every insert later than anything silver has seen |
| Pipeline.SilverIsRebuild | dbt/models/silver/stg_trades.sql:27-97 | over any interleaving and any crashes with a strictly advancing clock, silver after a run is the one full rebuild over bronze |
| Pipeline.DbtAlwaysRuns | dbt/models/silver/stg_trades.sql:27-97 | a dbt run, incremental or not, is possible at any moment of a pipeline run |
| Pipeline.SilverRightIff | dbt/models/silver/stg_trades.sql:37-42 | on a clock that merely does not go back, silver is the rebuild after every dbt run exactly when no incremental run has an unseen row at or below its watermark |
| Pipeline.SilverOnlyGrows | dbt/models/silver/stg_trades.sql:37-42 | silver tables of one pipeline run grow |
| Pipeline.GoldOverPipeline | dbt/models/gold/gold_vwap_1min.sql:28-58 | gold runs anywhere in a pipeline run are all right exactly when the trades were on time at each |
| Pipeline.GoldWindowsGrow | dbt/models/gold/gold_vwap_1min.sql:37-58 | along a pipeline run, full refreshes included, gold only gains windows |
| Pipeline.GoldExportsSteady | lakehouse/exporter.py:69-85 | exports of the gold tables of a pipeline run, in clock order, meet the conditions of the theorem on duplicated windows |
| Pipeline.EndToEnd | dbt/models/silver/stg_trades.sql:88-97 | at rest, a dbt run makes silver exactly the first message of every id added in this life or committed in an earlier one |
| Pipeline.StoredVwapWithinBounds | dbt/macros/vwap_bounds.sql:20-22 | every vwap over stored trades with non-negative sizes, exact or rounded to any grid that contains the prices, lies between low and high, the least and greatest prices of its minute |
| Gold.IncrementalIffOnTime | dbt/models/gold/gold_vwap_1min.sql:28-58 | an incremental run equals the full re-aggregation exactly when all new trades are after the mark and the last window is not split by it |
| Gold.HistoryIffOnTime | dbt/models/gold/gold_vwap_1min.sql:37-42 | the same over every history of runs |
| Gold.RerunKeepsIff | dbt/models/gold/gold_vwap_1min.sql:21-22 | a run with nothing new leaves gold alone exactly when the last window does not hold both a trade at its start and a later one |
| Gold.RerunDamagesWindow | dbt/models/gold/gold_vwap_1min.sql:37-42 | a silver of two such trades that a rerun damages |
| Gold.MinuteIsTruncation | dbt/models/gold/gold_vwap_1min.sql:48 | the window start is the last multiple of 60 seconds at or before the trade |
| Gold.HighAndLow | dbt/models/gold/gold_vwap_1min.sql:53-54 | high_price is the price of a trade of the window and no trade is dearer; low_price likewise |
| Gold.RowsOfRebuild | dbt/models/gold/gold_vwap_1min.sql:46-58 | gold has a row for exactly the minutes with trades, holding the volume, number, extreme prices and volume-weighted price of exactly the trades of its minute |
| Gold.EmptyGoldTakesAll | dbt/models/gold/gold_vwap_1min.sql:37-42 | over an empty gold table an incremental run takes every trade after 1900 |
| Gold.VwapWithinBounds | dbt/models/gold/gold_vwap_1min.sql:48-54 | with non-negative sizes and some volume, low_price <= vwap <= high_price, both prices of trades of the window |
| Gold.RoundedIsNearest | dbt/models/gold/gold_vwap_1min.sql:50 | the rounded quotient is the nearest multiple of the grid, half way the one away from zero |
| Gold.RoundedVwapWithinBounds | dbt/models/gold/gold_vwap_1min.sql:50 | the same bounds when the quotient is rounded to any grid that contains the prices |
| Gold.EveryWindowTrades | dbt/models/gold/gold_vwap_1min.sql:50-51 | with positive sizes the vwap of every window is defined |
| Gold.VwapCombines | dbt/models/gold/gold_vwap_1min.sql:50-51 | the vwap of trades in two parts is the volume-weighted mean of the vwaps of the parts |
| Gold.TotalsConserved | dbt/models/gold/gold_vwap_1min.sql:48-58 | trade counts and volumes over the windows sum to silver's totals |
| Gold.NotionalConserved | dbt/models/gold/gold_vwap_1min.sql:48-58 | the money traded over the windows sums to silver's total |
| Gold.RowsOfStats | dbt/models/gold/gold_trade_stats_1min.sql:33-52 | a row for exactly the minutes with trades, counting the trades whose side reads buy or sell, with the size of the buys times 100 over the size of all |
| Gold.StatsAgreeWithVwap | dbt/models/gold/gold_trade_stats_1min.sql:33-52 | both gold tables have the same windows and buys plus sells are the trade count |
| Gold.BuyPctInRange | dbt/models/gold/gold_trade_stats_1min.sql:47-48 | buy_volume_pct is defined iff there is volume, and lies in [0, 100] |
| Gold.BuyPctTimesVolume | dbt/models/gold/gold_trade_stats_1min.sql:47-48 | the percentage of the total volume is the volume of the buys |
| Gold.CountsBoundPct | dbt/models/gold/gold_trade_stats_1min.sql:41-48 | counts and percentage agree: without buys it is 0, without sells 100 |
| Export.PartitionIsPermutation | lakehouse/exporter.py:106-123 | one file per UTC date of 86400 seconds, ascending, each row in its date's file as often as the query returned it |
| Export.FileKeepsOrder | lakehouse/exporter.py:106-123 | a file holds the rows of its UTC date in the order of the query |
| Export.QueryKeepsOrder | lakehouse/exporter.py:80-84 | an incremental query returns the rows newer than the mark in the order of the table |
| Export.ExactlyOnce | lakehouse/export.py:96-136 | over any orderly history a window is in the tree iff a successful run saw it above its mark or in a full export, and then exactly once |
| Export.TreeRowsWereExported | lakehouse/export.py:96-136 | over any orderly history every row in the tree, all columns included, is one that a successful run saw in gold |
| Export.MarkIffSucceeded | lakehouse/export.py:56-65 | there is a mark exactly after some run succeeded |
| Export.MarkIsLastSuccess | lakehouse/export.py:116-119 | the mark is the clock reading of the last successful run |
| Export.FailureLeaves | lakehouse/export.py:131-136 | a failed run leaves the mark as it was, and what it kept followed by exactly the files written before the failure |
| Export.FirstFullExport | lakehouse/exporter.py:61-67 | whatever failed runs left, torn files included, the first success leaves exactly one copy of the gold snapshot, in whole files |
| Export.IncrementalAtLeastOnce | lakehouse/exporter.py:69-85 | an incremental run only adds files, and a success brings in every window above the mark |
| Export.CompleteIff | lakehouse/export.py:116-119 | a success leaves gold complete in the tree exactly when no missing window is at or below the mark |
| Export.ExactIff | lakehouse/exporter.py:69-85 | a successful incremental run leaves exactly the rows of gold, all columns included, iff the tree already held exactly the rows gold now has up to the mark |
| Export.StaleRowKept | lakehouse/exporter.py:69-85 | a history in which a window exported while partial and recomputed later stays stale |
| Export.ReadableIff | lakehouse/exporter.py:106-123 | over any history with a success, every file of the tree can be read exactly when no incremental run died inside a file |
| Export.LateNeverExported | lakehouse/export.py:117 | once the mark has passed a window, no later run, failing or not, ever writes a copy of it |
| Export.LateWindowLost | lakehouse/export.py:117 | a history in which a successful run sees such a window in gold and leaves it out |
| Export.RetryDuplicatesIff | lakehouse/export.py:104-119 | a failed incremental run and its retry, over a gold that has only gained windows, hold a window twice exactly when the failed run got as far as writing a row |
| Export.DuplicatesIff | lakehouse/export.py:96-136 | over any steady history that ends with a success, failures anywhere: a window is held twice exactly when an incremental run failed after writing a row |
| Export.RetryDuplicates | lakehouse/export.py:17-19 | such a history: a run fails before the mark is stored and its retry writes the window again |
| Lakehouse.GoldExporter.WritePartitions | lakehouse/exporter.py:106-123 | the loop writes the partitions in order up to the failure, which may leave half a file, and touches no other table |
| Lakehouse.GoldExporter.FullExport | lakehouse/exporter.py:61-67 | the tree after a full export for every fault |
| Lakehouse.GoldExporter.IncrementalExport | lakehouse/exporter.py:69-85 | the tree after an incremental export for every fault |
| Lakehouse.ExportState.Upsert | lakehouse/schema.py:48-73 | one mark per table, replaced on conflict |
| Lakehouse.ExportTable | lakehouse/export.py:96-136 | one run of the protocol: new tree and mark, result false exactly on a fault, other tables untouched |
| Lakehouse.RunExport | lakehouse/export.py:141-172 | every table is exported whatever happens to the others; raises exactly when one failed; when the process dies the later tables stay as they are |
| Lakehouse.TablesAreIndependent | lakehouse/export.py:156-158 | over any runs and crashes each table is what its own history of runs makes it |
| Migrate.PrefixIsDecimal | infra/migrate.py:72-78 | the sort key of a file name is the decimal value of its leading digits |
| Migrate.PrefixDigitByDigit | infra/migrate.py:72-78 | one digit counts its value, each further one multiplies by ten; a name without digits gets -1 |
| Migrate.FilesStartWithDigit | infra/migrate.py:83-86 | the files that run are exactly those whose name starts with a digit |
| Migrate.DirectoryOrderIrrelevant | infra/migrate.py:81-90 | with distinct prefixes the file list does not depend on directory order and is sorted |
| Migrate.SortStable | infra/migrate.py:87 | files with one prefix keep their listed order |
| Migrate.OrderFixedIff | infra/migrate.py:81-90 | the files of a directory are applied in one order for every listing exactly when no two share a prefix |
| Migrate.PendingMeaning | infra/migrate.py:106-117 | pending is every listed file that is not recorded, as often as listed and in order |
| Migrate.Database.RunMigrations | infra/migrate.py:95-135 | commits the pending migrations in order, all those before the failure and none after, each script with its record; counts add up on success |
| Migrate.AttemptKeeps | infra/migrate.py:122-132 | a run that fails at the k-th pending migration keeps exactly the k before it |
| Migrate.ResumesWhereItStopped | infra/migrate.py:101-117 | a later run over the same files that finishes executes exactly the migrations that the failed one did not get to |
| Migrate.NeverExecutedTwice | infra/migrate.py:101-127 | over any runs, on files that may change between them, no script is executed twice and exactly the executed ones are recorded |
| Migrate.CommittedIsPrefix | infra/migrate.py:72-135 | over any sequence of failing and crashing runs the committed migrations are a prefix of the sorted list, recorded exactly, each once |
| Producer.ResultMeaning | producer/publisher.py:84-119 | held iff all attempts fail with a retried error; delivered iff a confirm follows only such errors |
| Producer.ThreeAttempts | producer/publisher.py:84-119 | a message is held when all three attempts fail with a retried error, delivered when a confirm comes first |
| Producer.PushKeepsLast | producer/publisher.py:67 | appending to the bounded deque keeps the last n messages in order |
| Producer.RabbitMQPublisher.Publish | producer/publisher.py:77-119 | files the message in exactly one place and keeps the queue at the last 1000 failed messages |
| Producer.Stream | producer/main.py:104-161 | counters, queue, attempt count and sleep after any sessions, also when validation raises something other than ValidationError |
| Producer.VerdictMeaning | producer/schemas.py:18-56 | the exact inputs that are accepted, rejected and malformed; a side is accepted when it spells buy or sell in any mix of cases |
| Producer.ValidTradeIsDelivered | producer/main.py:128-135 | a valid buy or sell trade confirmed at once is received, valid and delivered |
| Producer.StreamKeeps | producer/main.py:111-161 | over any sessions the counters count the trades looked at and every accepted one is in the place its publish says; attempts in [0, 10]; a streak sleeps at most 303 s |
| Producer.StreamCounts | producer/main.py:125-142 | received = valid + invalid + malformed; valid = confirmed + failed + escaped; the first without malformed iff no trade looked at was malformed, the second without escaped iff no publish of one let an exception through |
| Producer.FramesDoNotMatter | producer/main.py:117-124 | a session handles its trades as one sequence, however they are spread over frames and events |
| Producer.TradesOfFrames | producer/main.py:119-121 | the trades of a session are those of its market_trades frames, in order |
| Producer.SeenIsInput | producer/main.py:111-144 | the trades looked at are those of the sessions up to the give-up, each session up to its first trade that raises |
| Producer.UpToThrowMeaning | producer/main.py:125-144 | that part of a session is a prefix in which only the last trade can raise, and the whole when none does |
| Producer.NullSideUncounted | producer/schemas.py:53-56 | a trade whose side is null is received, neither valid nor invalid, and costs the connection |
| Producer.StreakGivesUp | producer/main.py:144-161 | a streak of failed connections is given up exactly at ten attempts |
| Producer.SessionLink | producer/main.py:111-161 | a failed connection counts one more failure and sleeps its delay; a subscribe starts the count again, so that a dropped session counts as the first failure and sleeps one second |
| Producer.GivesUpIff | producer/main.py:111-161 | over any sessions the producer gives up exactly when ten failures have followed one another since the last subscribe, the drop after it counted |
| Producer.SleepIsExact | producer/main.py:144-153 | attempt count and total sleep are those of the sessions run: delays 1, 2, 4, 8, 16, 32, 60, 60, 60, 60 in each streak |
| Producer.QueueIsLastFailed | producer/publisher.py:112-119 | after any failures the queue is exactly the last min(n, f) of the f failed messages, in order |
| Producer.ThousandAreKept | producer/publisher.py:67 | up to 1000 failed messages nothing is evicted; beyond that the last 1000 are left |
| Backoff.BelowCapIsPrefix | producer/utils.py:33-37 | delays below the cap come first |
| Backoff.DelayDoubles | producer/utils.py:33-37 | a negative attempt is refused; the first delay is the base, each next one doubles it up to the cap |
| Backoff.TotalDelayClosedForm | producer/utils.py:33-37 | closed form of the sum of capped delays |
| Backoff.StreakDelay | producer/main.py:148-156 | at most ten attempts sleep at most 303 s, ten exactly 303 s |

## Left out

- Drivers and services (RabbitMQ, Postgres, websockets, DuckDB, Parquet encoding): steps that succeed or fail with the effect the code relies on.
- The S3 upload, catalog views, row counts in export_state, logging and metrics servers, Airflow, Metabase: plumbing around the state modelled here.
- JSON decoding, and the validators of trade_id, price and size: a message decodes or not, the three fields are accepted or not.
- numeric(18, 8) overflow and text that does not cast: the dbt run fails as a whole and leaves the table as it was.
- `stddev` in the statistics table.
- Timer delays: an armed timer may fire at any moment.
- Which unacknowledged deliveries the broker sends again after a crash: any message may be delivered at any time.
- FinalFlushIff: speaks of a final flush that nothing interrupts and whose insert commits; in other interleavings a batch that was put back can be drained by any later flush, and `ShutdownDrains` covers the flush that takes its batch.
- Channel calls that raise in `on_message`: the settlement itself is taken to reach the broker.
- Interrupts that are not exceptions while an insert runs; the signal handlers installed by the entry point prevent them.
- A shutdown request in the middle of a producer session: sessions run to their end and the request is seen between them.
- The drain loop of the producer: nothing resends the retry queue, so it only waits.
- The Airflow database step of the migration runner, and two runners at once.
- Unicode digits in migration names: prefixes are ASCII digits.
