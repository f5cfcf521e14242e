# SQL observability: a verified model of collection, retention and reporting

The platform collects performance data from monitored SQL Server instances into a repository database and reports
through `rpt.*` views. This project models the parts whose correctness depends on several pieces together.

**Collection.** A collector run reads a watermark (the latest start of a successful run), fetches events, keeps
those above the watermark, aggregates them, inserts a `running` row, MERGEs the rows one by one, commits, and marks
the run. It can fail at every driver call. `Repository.dfy` models the database, a connection without autocommit and
how each call may end: an error or a kill, before or after taking effect, or with a rollback. `Collector.dfy` is the
lifecycle of `base.py`; `WorkloadCollector.dfy` and `Deadlocks.dfy` are two collectors on it; `Fleet.dfy` is the loop
of `run.py`. `History.dfy` follows each event through whole histories of such runs, with purges and other instances'
runs in between; `Erasure.dfy` says what failed attempts leave, `Provenance.dfy` which events every stored row counts,
`Ingestion.dfy` what the table adds up to against what was ingested.

**Aggregation and report.** `Workload.dfy` specifies the transform, `Merge.dfy` the MERGE statement and its loop,
`Attribution.dfy` the hashed key, `Classification.dfy` and `Rollup.dfy` the category view, `Patterns.dfy` T-SQL LIKE,
`TuningJoin.dfy` the join of index findings to tables by name.

**Counters and retention.** `Deltas.dfy` and `LagScan.dfy` model the LAG views over cumulative counters, `Purge.dfy`
the batched DELETE loops, and `PurgedDeltas.dfy` what a purge in progress does to the views.

**Also.** `QueryPerf.dfy` (de-duplication before MERGE), `Quoting.dfy` (names printed into SQL text and the
per-database loop), `Counterexamples.dfy` (histories in which the stated exceptions occur), `Metrics.dfy` and
`Common.dfy` (sums and shared vocabulary).

## Reading the main results

- *Time* is an integer on one clock. A run fetches strictly before the repository stamps its start; runs of one
  collector on one instance do not overlap. An event has a timestamp and a later or equal time from which a read of
  the event files returns it; files are appended in the order of that visibility. The model keeps all events;
  a roll-over that drops only events at or under the watermark changes no run.
- *The ledger.* `History.Ledger` balances, for every event and every serial history, how often it was ingested, lost
  and reopened against whether the watermark has passed it. The other statements about single events follow from it.
- *Loss.* An event first visible after a fetch whose timestamp is at or before the start that becomes the watermark
  is never aggregated (`TimesLost`); `History.ExactAccounting` says this is the only way to lose one.
- *What the table holds.* The unit of `Provenance.dfy` is an event stored under a key: some run admitted it and
  committed a row under its attribution. At every moment of every serial history from a clean start, with any failures,
  any purges of runs and any purges of rows, each row counts exactly the events stored under its key, unless two groups
  met under it (`EveryRowAccounts`, `TableAccounts`, `WindowAccounts`). A window may be written again, and then every
  row it holds is renewed; an event is counted once for every window that holds it.
- *Duplication.* The operator's manual (`README.md:130-131` of the repository) says that a failure does not duplicate
  data. A success counts a stored event once more exactly when it meets *a row ahead*: a row in a window after the one
  it writes, or in any other window when it finds no watermark (`Ingestion.DoublesIffAhead`). This happens in two ways:
  a failed attempt before the first success committed rows and an older event appeared afterwards
  (`Counterexamples.AnExecutionIsCountedTwice`); or a purge deleted the newest successes, since `fact_workload` outlives
  `collection_run`, and later windows are in the table (`AnEventIsDoubled`). A purge alone is not enough: a window that
  is opened a second time takes its events in again without counting them twice (`AnEventIsIngestedTwice`), so that
  `TimesIngested` counts aggregations, not stored executions. `Ingestion.ExactIffNeverAhead` has the sums.
- *A clean start* is a history that begins without a success on record and without rows of the instance, over a log
  in which no event is visible before it happens. `KeepsNewest` says that no purge has deleted the newest success;
  a purge whose cutoff has not passed it never does (`History.WatermarkMoves`). `KeepsRows` says that `fact_workload`
  has not been purged itself.
- *Failed runs.* The manual says a failure writes a `failed` row (`README.md:97-98`); a failing connection, watermark
  query, fetch or transform writes none.
- *Resets.* The comment at `sql/rpt_views.sql:38` says that a reset delta is discarded; the view reports the new
  cumulative value (line 42), and the model follows the view.
- *Names as patterns.* The comment at `sql/rpt_views.sql:216-217` takes the join pattern for exact; among dot-free
  names it is, for a table, if and only if neither its name nor its schema's holds '%', '_', '[' or a dot
  (`TuningJoin.JoinIsExact`). Wildcards and dots let strangers in. A bracket reads as a set: it can lose the table's own
  unused indexes (`OwnFindingsJoin` says exactly when), let strangers in, or both.
- *Spikes.* While a purge runs, totals per partition only shrink, but a single row can report more than before;
  `PurgedDeltas.MidPurgeSpike` says exactly which rows can, and `BatchSpike` what one DELETE of the loop can do.
- *Late deadlocks.* A report at or under the watermark that nothing has stored is missed; `Deadlocks.FateOfKey` and
  `HistoryIsFullReread` compare with full re-reads of the ring buffer, reports with equal timestamps included.
  `ReportLedger` and `ReportAccounting` say when a report is lost: a success passed it that did not find it in the
  buffer, before it had appeared or after it was evicted.
- A table column with a counter is one series per partition; the views apply the same rule to each of their columns,
  and all columns of a row share one predecessor because they share partition and order.
- Table keys hold the concatenated attribution string; `Attribution.DigestSeparates` covers an injective SHA2_256.

## Model

| member | source | states |
|---|---|---|
| `History.Ledger` | src/collectors/workload.py:92-113 | The ledger of one event over every serial history, whatever watermark it begins with and whatever its purges delete: times ingested + times lost + (passed at the beginning) = times reopened + (passed now). Passed means that the watermark has reached the event's timestamp; a success that passes it unseen loses it; a purge that takes the watermark back before it reopens it. |
| `History.ExactAccounting` | src/collectors/workload.py:92-113 | Over every serial history, an event that no purge has reopened is in exactly one successful window if the watermark had not reached it at the beginning, some success fetched after it became visible, and no success before that fetched earlier yet started at or after its timestamp; in none otherwise. The watermark has reached it exactly when it began so, was seen, or was lost. |
| `History.AtMostOnce` | src/collectors/workload.py:92-113 | An event that the watermark had not reached at the beginning is ingested at most once more often than purges reopen it; it is settled exactly once when passed, and never before, if and only if no purge reopens it. |
| `History.ReopensIff` | sql/retention.sql:128-133 | A purge reopens an event exactly when it deletes every success that had reached it. |
| `Erasure.FailureErasure` | src/collectors/base.py:55-71 | In every serial history, from any table and watermark and with any purges: after any number of failed, crashed or dry attempts, whatever prefixes they committed, a success leaves the instance's rows of fact_workload equal to that success alone on what the previous success left, less what has been purged since, if each attempt that committed rows had read the success's watermark or, where there was none, an oldest event as old as the success's. |
| `Erasure.ErasureExact` | src/collectors/base.py:55-71 | From a clean start, with the newest success and the rows kept, the leftovers of failed attempts are gone after a success if and only if every attempt that committed rows had read a watermark or the same oldest event as the success. |
| `Ingestion.ErasedIffInWindow` | src/collectors/base.py:55-71 | Over any purges: a success whose groups are separable leaves no trace of the attempts before it if and only if every row they have changed lies in the window that it writes. |
| `Erasure.WatermarkedAttemptsAgree` | src/collectors/workload.py:107-113 | Once there is a watermark that purges keep, attempts always agree, so from then on failures leave no trace. |
| `Erasure.AttemptsAbsorbed` | src/collectors/base.py:65-71 | At every moment of a serial history, any batch absorbs the leftovers of the unsuccessful attempts that agree with it in watermark or oldest event. |
| `Erasure.FirstWindowErasure` | src/collectors/workload.py:107-113 | After the first success, whatever attempts and purges of runs went before, the instance's rows are its batch and nothing else if and only if every attempt that committed rows had read the same oldest event as it did. |
| `Erasure.OldestFirstSuffices` | src/collectors/workload.py:113-113 | When the log's first event is its oldest, the attempts agree with every success in every history whose purges keep the newest success. |
| `Erasure.RowsLead` | src/collectors/workload.py:106-146 | The rows of an earlier attempt name the same keys, attributions and window, in the same order, as the first rows of a later one under the same watermark if and only if there is a watermark, the earlier read was empty, or both reads have the same oldest event. |
| `Erasure.WindowsBehindWatermark` | src/collectors/workload.py:113-113 | From a clean start and with the newest success kept, every row a success has settled, leftovers included, lies in a window strictly before the watermark, so the next success writes a new window. |
| `Ingestion.IngestedStep` | src/collectors/workload.py:108-109 | For every event that the watermark had not reached at the beginning and no purge has reopened: it is ingested if and only if it was seen and not lost; a success turns it ingested exactly when its own window admits it, and nothing else changes its fate. |
| `Provenance.EveryRowAccounts` | src/collectors/workload.py:37-58 | At every moment of every serial history from a clean start, with any failures, purges of runs and purges of rows: each row counts exactly the events stored under its key if they are of one group, and lacks executions if and only if they are not. |
| `Provenance.TableAccounts` | src/collectors/workload.py:115-146 | At every such moment an instance's rows add up to its events, each as often as it is stored, if no two groups met under one key, and lack executions if and only if two did. |
| `Provenance.WindowAccounts` | src/collectors/workload.py:113-113 | The same for every single window, which counts each event stored in it once, however often it was written. |
| `Provenance.StoredPlaced` | src/collectors/workload.py:107-113 | A stored event lies after a recorded success if and only if the window of its row opens at or after that success. |
| `Provenance.Readmitted` | src/collectors/workload.py:107-109 | A later run admits a stored event exactly if there is no watermark or the event's window does not open before it. |
| `Provenance.WindowRenewed` | src/collectors/workload.py:37-58 | A success names every row that its window already holds. |
| `Ingestion.DoublesIffAhead` | src/collectors/workload.py:107-113 | A success stores an event in a second window if and only if, before it, the instance has a row in a window after the one it writes, or in any other window when there is no watermark. |
| `Ingestion.OneHomeIffNeverAhead` | src/collectors/workload.py:107-113 | After every success, every event is counted in at most one row if and only if no success met a row ahead. |
| `Ingestion.StoresOfSuccess` | src/collectors/workload.py:113-113 | If the attempts before every success agree with it, what is stored after a success is what successes have stored, so that the window sums are those of the windows of successes that admitted the event. |
| `Ingestion.EndToEnd` | src/collectors/workload.py:115-146 | After every success, from a clean start, with any failures and any purges of runs: if no success met a row ahead, the instance's rows sum to exactly the ingested events, column by column, if no successful window had two groups under one attribution key; executions are missing if and only if one had. |
| `Ingestion.ExactIffNeverAhead` | src/collectors/workload.py:115-146 | After every success, as long as groups have keys of their own, the sums are exact if and only if no success met a row ahead; otherwise the table holds more executions than were ingested. |
| `Ingestion.BarFreeLogAccounted` | src/collectors/workload.py:115-146 | With present, bar-free attribution fields the sums are exact to the last column if and only if no success met a row ahead. |
| `Ingestion.NoneSharedIffSeparable` | src/collectors/workload.py:126-126 | After every success, no two groups share a stored key if and only if every successful window had groups with keys of their own. |
| `Ingestion.AlwaysAgreeIffNeverAhead` | src/collectors/workload.py:107-113 | While purges keep the newest success and the rows, no success meets a row ahead if and only if the attempts before every success agree with it. |
| `History.WatermarkMoves` | src/collectors/workload.py:60-63 | In every serial history: a success moves the watermark forward, to its own start; other runs and other instances leave it alone; a purge can only lower it, and leaves it alone exactly when it spares a success that started then, in particular when its cutoff has not passed it; it never runs ahead of the clock. |
| `History.NoRunAhead` | src/db.py:64-92 | No recorded success starts after the moment the history has reached, and run ids stay fresh. |
| `Counterexamples.AnEventIsLost` | src/collectors/workload.py:92-113 | A concrete history in which an event is seen by a success but never aggregated. |
| `Counterexamples.AnExecutionIsCountedTwice` | src/collectors/workload.py:113-113 | A concrete serial history from a clean start, with one failed attempt, one success and an older event that shows up in between, whose table counts three executions of the two events ingested. |
| `Collector.Run` | src/collectors/base.py:47-63 | For every script of driver faults the run's end (returned, raised or died; its collection_run row; the number of rows kept) is the one its calls decide, and the repository shows that end and nothing else: returned exactly when all n + 5 calls succeed, died only by a kill, no run row when fetch or transform raised or in a dry run. |
| `Collector.RunEndings` | src/collectors/base.py:47-63 | A run returns exactly when all n + 5 driver calls succeed; it is on record as a success exactly when all but the last do and that one takes effect; it has a run row exactly when the first commit took effect; it dies only by a kill, and surely if its first fault is one. |
| `Collector.FirstFaultDecides` | src/collectors/base.py:47-71 | The first fault's position and kind decide the end, in plain cases, together with the two calls of finish_run('failed') after an error in the loop; without a fault the run succeeds. |
| `Collector.OneErrorInTheLoop` | src/collectors/base.py:55-60 | A single fault in the loop, for every position and kind: an error that skipped its statement keeps exactly the rows merged before it, one whose statement had taken effect keeps that row too, a rollback or a kill keeps none; all but the kill are recorded with a failed row and raised. |
| `Collector.OneErrorAtTheCommit` | src/collectors/base.py:55-71 | A single fault at the commit of the rows: they stay if it took effect, or if it was skipped and finish_run commits them with the failed row; a kill before it took effect or a rollback loses them. |
| `Collector.OneErrorElsewhere` | src/collectors/base.py:53-63 | A single fault at another call keeps no rows before the loop and all after it, and leaves the run row in the state that its position and kind decide. |
| `Collector.PersistAndFinish` | src/collectors/base.py:56-63 | The try/except/else ends as the calls decide: an error in the loop commits the rows merged so far together with 'failed'; a kill gives them up and leaves 'running'; after the rows' commit they stay. |
| `Collector.Persist` | src/collectors/base.py:65-71 | The row-by-row MERGE loop leaves the connection with the rows executed, without them after a rollback or a kill; only its commit makes anything durable, and then everything. |
| `Collector.RunLeaves` | src/collectors/base.py:55-63 | A run adds its own collection_run row in the state its end decides, with row_count or error, and merges a prefix of its rows; nothing else changes. |
| `Collector.EffectOnRuns` | src/db.py:64-92 | A run adds to the successful starts of its own instance and task exactly its own start if it succeeded, and nothing otherwise. |
| `Collector.OtherWatermarks` | src/collectors/workload.py:60-63 | A run leaves the watermarks of other tasks and of other instances alone. |
| `Deadlocks.CollectorsKeepApart` | src/collectors/deadlocks.py:54-57 | The workload and the deadlocks collector leave each other's watermarks alone on every instance. |
| `Repository.Connection.Execute` | src/db.py:51-61 | A statement that succeeds, or fails after taking effect, shows on its own connection; one that was skipped does not; a rollback or a kill shows the committed state; nothing becomes durable. |
| `Repository.Connection.Commit` | src/collectors/base.py:71-71 | A commit makes durable exactly what the connection sees, also when the failure strikes after it took effect. |
| `Repository.Connection.StartRun` | src/db.py:64-74 | The 'running' row is inserted under a fresh id and committed before any fact row. |
| `Repository.Connection.FinishRun` | src/db.py:77-92 | The status change is committed together with everything pending on the connection. |
| `Repository.Connection.Close` | run.py:98-101 | Closing gives up whatever was not committed. |
| `WorkloadCollection.WorkloadCollector.Run` | src/collectors/workload.py:92-99 | A run is the lifecycle on the rows above the watermark the repository held before, with exactly its end. |
| `WorkloadCollection.WorkloadCollector.GetWatermark` | src/collectors/workload.py:96-99 | None exactly when no run of this instance's 'workload' task succeeded; otherwise the start of one that did, exceeded by no other. |
| `Repository.WatermarkIsNewestSuccess` | src/collectors/workload.py:60-63 | A value is the watermark if and only if it is the start of a success of the task on the instance that no other exceeds, or absent without one. |
| `WorkloadCollection.WorkloadCollector.Transform` | src/collectors/workload.py:106-146 | The imperative transform returns the specified rows: one per attribution in first-occurrence order, under the window start. |
| `WorkloadCollection.GroupEvents` | src/collectors/workload.py:115-133 | The dictionary pass yields the keys in first-occurrence order, each with the totals of exactly its own events. |
| `Fleet.RunInstance` | run.py:83-101 | One instance's turn: connects, runs, and ends exactly as its connections, its read and its driver calls decide; an unreachable server or a failing read raises without a run row, a death means a kill; a turn that returns and is not dry leaves the run row with its own start and end, 'success' and the row count, and merges the rows of what was visible at its fetch above the watermark; each opened connection is closed exactly once. |
| `Fleet.RunAll` | run.py:80-103 | The instances have exactly their turns, in order, each over what the earlier ones left, with the times of their jobs; every turn that returned and was not dry is on record in the end; only a death ends the loop early; otherwise the exit code is 0 exactly when every turn returned and 1 if not, and every connection opened, one per reachable server, is closed exactly once. |
| `Fleet.TurnsAreSerial` | run.py:80-103 | For any sequence of turns, of one or many invocations, whose times are in order for an instance, that instance's turns form a serial history whose repository is the one the loop leaves. |
| `Fleet.InvocationsIngestOnce` | src/collectors/workload.py:92-113 | However often the loop is invoked, an event that was not passed at the beginning is aggregated or lost exactly once when it has been passed, and never before. |
| `Fleet.FleetIsolation` | run.py:83-96 | With distinct names, each instance ends with the rows and watermark its run alone would have left. |
| `Fleet.ServedAlone` | src/config.py:50-63 | With distinct names, every turn in the loop, its end included, is the one its instance would have had alone, and leaves that instance the rows and watermark it alone would have left. |
| `Fleet.UnservedKeep` | run.py:80-103 | Instances without a turn keep their rows and watermark. |
| `Fleet.FleetRunsAreSteps` | run.py:83-96 | In the history of one instance, its runs in the loop are steps of that history and the other instances' runs change neither its rows nor its successful starts. |
| `Fleet.EffectElsewhere` | src/collectors/base.py:47-63 | A run touches no other instance's rows or watermark. |
| `Fleet.EffectIsLocal` | src/collectors/base.py:47-63 | What a run does to its own instance depends only on that instance's rows and watermark. |
| `Merge.UpsertAllAt` | src/collectors/workload.py:40-58 | Key by key: the last row wins the updated columns, the first (or the stored row) keeps the insert-only ones, other keys are untouched. |
| `Merge.Absorb` | src/collectors/base.py:65-71 | A batch absorbs any earlier partial batch over the same keys; in particular it is idempotent, and a prefix followed by the whole equals the whole. |
| `Merge.UpsertAllKeys` | src/collectors/base.py:65-71 | The keys afterwards are the old ones and the batch's. |
| `Merge.UpsertAllDisjoint` | src/collectors/base.py:65-71 | A batch of new keys lands beside the old rows as it would in an empty table. |
| `WorkloadMetrics.MergeConserves` | src/collectors/workload.py:49-51 | Merging new keys adds the batch's sums if the keys are distinct, and loses executions if and only if they are not. |
| `WorkloadMetrics.DistinctKeysCounted` | src/collectors/base.py:50-50 | A batch adds as many rows as its row_count if and only if its keys are distinct and none is stored already. |
| `Workload.NewerCounts` | src/collectors/workload.py:108-109 | The filter keeps every event strictly above the watermark as often as it occurs, and no other. |
| `Workload.NewerDivides` | src/collectors/workload.py:108-109 | The filter keeps the order: wherever the events are divided, the kept ones are divided alike. |
| `Workload.MinTime` | src/collectors/workload.py:113-113 | The first window starts at the time of some event and no event is earlier. |
| `Workload.TransformConserves` | src/collectors/workload.py:115-146 | The returned rows sum to the events that passed the watermark. |
| `Workload.TotalByColumn` | src/collectors/workload.py:128-133 | Every total is the sum of its own event column and exec_count is the number of events. |
| `Workload.SeparableIffDistinctKeys` | src/collectors/workload.py:126-126 | Rows carry distinct natural keys if and only if no two groups share an attribution key. |
| `Workload.WindowConserves` | src/collectors/workload.py:115-146 | A window merged into a table without its keys adds exactly its events if the groups are separable, and fewer executions if and only if they are not. |
| `Workload.StoredRowsMatchRowCount` | src/collectors/base.py:50-50 | The rows stored for a window number the logged row_count if and only if the groups are separable. |
| `Workload.BarFreeSeparable` | sql/workload_attribution.sql:60-61 | Present, bar-free fields make all groups separable. |
| `Attribution.SplitUndoesCode` | sql/workload_attribution.sql:60-61 | Splitting at '|' recovers the four fields from the concatenation. |
| `Attribution.CodeSeparates` | src/collectors/workload.py:47-48 | Two bar-free groups share a key exactly when they agree up to NULL against empty; when non-NULL, exactly when equal. |
| `Attribution.DigestSeparates` | sql/workload_attribution.sql:60-61 | An injective digest over the concatenation separates the same groups. |
| `Attribution.CodeCollides` | src/collectors/workload.py:126-126 | Without bar-freedom, or with NULL beside empty, different dictionary keys do share an attribution key. |
| `Classification.ScanPicks` | sql/rpt_views.sql:268-273 | With distinct priorities TOP (1) ORDER BY priority gives every program name, NULL included, exactly one category: the first match in ascending order. |
| `Classification.SeedIsAscending` | sql/workload_attribution.sql:25-41 | The seeded priorities are distinct and ascending. |
| `Classification.SeedIsTotal` | sql/workload_attribution.sql:25-41 | The seed matches every non-NULL name and no NULL; NULL is 'Unknown'. |
| `Classification.SeedSays` | sql/workload_attribution.sql:25-41 | A program name's seeded category is that of the first listed text that it contains or, where the pattern says so, begins with; 'Unknown' if none. |
| `Patterns.LikePrefix` | sql/rpt_views.sql:271-271 | 'text%' matches exactly the names that begin with the text, if that holds no '%', '_' or '['. |
| `Patterns.LikeContains` | sql/rpt_views.sql:271-271 | '%text%' matches exactly the names that contain the text, if that holds no '%', '_' or '['. |
| `Patterns.OneCharacterSet` | sql/rpt_views.sql:44-44 | '[c]' matches exactly the character c, whatever c means elsewhere. |
| `Patterns.OtherCharacterSet` | sql/rpt_views.sql:219-219 | '[^c]' matches exactly the other characters. |
| `Patterns.RangeSet` | sql/rpt_views.sql:219-219 | '[a-z]' matches exactly the characters between the two. |
| `Patterns.LockWaits` | sql/rpt_views.sql:44-44 | 'LCK[_]M%' matches exactly the wait types that begin with LCK_M. |
| `Patterns.UnclosedMatchesNothing` | sql/rpt_views.sql:219-219 | A pattern with a bracket that is never closed matches nothing. |
| `Rollup.RollupConserves` | sql/rpt_views.sql:260-274 | The categories of a window add up to the window's rows, column by column: CPU, logical reads and executions; none is dropped or counted twice. |
| `Rollup.CategoriesShown` | sql/rpt_views.sql:260-274 | The view has a row for exactly the categories that the class table picks, by program name, for some row of the window. |
| `Rollup.CategoryCells` | sql/rpt_views.sql:260-274 | Each of its CPU, reads and executions is the sum of that column over exactly the window's rows of that category. |
| `Rollup.SuccessWindow` | src/collectors/workload.py:113-113 | After every success, with any failures and purges before it, its window holds the keys and numbers of its batch and nothing else; the attributions too if the groups are separable, or if purges kept the newest success and the files are in order of visibility. |
| `Rollup.ReportConserves` | sql/rpt_views.sql:260-274 | After every success, with any failures and purges before it, the CPU, the logical reads and the executions of the report's categories for its window add up to those columns of the raw events that passed the watermark, through grouping, MERGE, old rows and rollup, if the groups are separable; executions are missing if and only if they are not. |
| `TuningJoin.OwnFindingsJoin` | sql/rpt_views.sql:214-219 | A table's own missing indexes always join. Its unused ones all do exactly when the printed text is LIKE itself; names without '[' are enough. |
| `TuningJoin.NamesPrinted` | src/collectors/index_ops.py:19-35 | A missing index is recorded as schema.table, an unused one as schema.table.index, and the join asks for the first or for LIKE schema.table.%. |
| `TuningJoin.UnclosedBracketLoses` | sql/rpt_views.sql:218-219 | A '[' in a table's name that nothing closes loses all its unused indexes and lets nothing in but its own missing index. |
| `TuningJoin.ClosedBracketSwaps` | sql/rpt_views.sql:218-219 | A table named '[c]' loses its own unused indexes and is joined by those of table 'c'. |
| `TuningJoin.JoinIsExact` | sql/rpt_views.sql:214-219 | Among dot-free names, a table's own findings join and no others do if and only if neither its name nor its schema's holds '%', '_', '[' or a dot. |
| `TuningJoin.StrangerJoins` | sql/rpt_views.sql:219-219 | For every name with a dot, or with a wildcard and no '[', there is another table whose finding joins. |
| `TuningJoin.BracketStrangers` | sql/rpt_views.sql:219-219 | If a name with '[' does not lose the table's own unused indexes, it lets another table's in. |
| `TuningJoin.DottedStrangersJoin` | sql/rpt_views.sql:218-219 | A table whose name continues another's after a dot prints as that one's index, and joins it if there is no '[', which is why strangers are taken dot-free. |
| `Deltas.Triangle` | sql/rpt_views.sql:42-42 | The reset-aware delta obeys the triangle inequality. |
| `Deltas.DroppingOne` | sql/rpt_views.sql:54-59 | Removing a snapshot never raises the sum of deltas. |
| `Deltas.DroppingMany` | sql/rpt_views.sql:54-59 | Any subset of a partition's snapshots reports at most what all of them report. |
| `Deltas.Telescope` | sql/rpt_views.sql:40-60 | The deltas sum to at least last minus first, and to exactly that if and only if no value ever fell. |
| `Deltas.CounterSplits` | sql/rpt_views.sql:37-38 | A counter's reading plus what restarts wiped out is what was counted. |
| `Deltas.ReportedPlusShortfall` | sql/rpt_views.sql:42-42 | For every counter history, what the view reports plus the shortfall is what was counted; per restarted interval the shortfall is what the last restart wiped out, and the previous reading too if the counter climbed back past it; none without restarts. |
| `Deltas.NoOverReporting` | sql/rpt_views.sql:54-59 | Whatever snapshots have been purged, the view never reports more than was counted. |
| `LagScan.ScanIsTheView` | sql/rpt_views.sql:54-59 | One ordered pass with a remembered value per partition yields exactly the view's rows, whatever other partitions' rows lie between. |
| `Purge.RetainedTable.DeleteTop` | sql/retention.sql:20-22 | One DELETE removes min(batch, eligible) rows, all older than its cutoff, whichever the server picks. |
| `Purge.RetainedTable.Purge` | sql/retention.sql:15-23 | With a cutoff re-read for each batch the loop ends with exactly the rows at or after its last cutoff; with a still clock it runs exactly the batches of 5000 needed plus one. |
| `Purge.BatchesRoundUp` | sql/retention.sql:15-23 | The batches needed are n over the batch size, rounded up. |
| `PurgedDeltas.DeltaFixedThroughoutPurge` | sql/retention.sql:29-34 | A row's delta is the same at every intermediate state of a purge if and only if it is its partition's first or its predecessor is at or after the cutoff. |
| `PurgedDeltas.TotalsShrink` | sql/retention.sql:139-144 | At every intermediate state each partition reports at most what it did before. |
| `PurgedDeltas.MidPurgeSpike` | sql/retention.sql:29-34 | A row can report more at some intermediate state of a purge than before it if and only if its predecessor is older than the cutoff and some still older row would give it a greater delta. |
| `PurgedDeltas.DeltaRises` | sql/rpt_views.sql:42-42 | The delta over an older reading is greater if and only if no reset lies between the predecessor and the row, and the older reading is below the predecessor's or above the row's own and the predecessor's is not zero. |
| `PurgedDeltas.ARowCanRise` | sql/retention.sql:29-34 | Such rows exist: a concrete series with one. |
| `PurgedDeltas.BatchSpike` | sql/retention.sql:29-34 | One DELETE TOP (n) can make a row report more if and only if for some such older row the batch has room for all rows in between and enough other old rows to spare those two. |
| `PurgedDeltas.EveryRiseOccurs` | sql/retention.sql:29-34 | Every row that could rise, with at most 5000 rows in between, does so after one batch of 5000 in a table with the same partition beside enough old rows of others. |
| `PurgedDeltas.SizeDecides` | sql/retention.sql:29-34 | A batch that clears all old rows at once shows no rise; one that leaves two of them can. |
| `PurgedDeltas.ViewAfterPurge` | sql/retention.sql:29-34 | After the purge the view is the old one without the rows whose predecessor went. |
| `PurgedDeltas.PurgeSnapshots` | sql/retention.sql:139-144 | Purging a snapshot table leaves each partition's series from the last cutoff on. |
| `History.MidPurgeWatermark` | sql/retention.sql:128-133 | No batch raises the watermark; one that the cutoff has not passed stays put. |
| `History.WatermarkFixedThroughoutPurge` | sql/retention.sql:128-133 | The watermark is the same at every intermediate state of a purge if and only if there is none or the cutoff has not passed it. |
| `History.CompletePurge` | sql/retention.sql:128-133 | A completed purge leaves the watermark unchanged or absent, absent exactly when the newest success is older than the cutoff. |
| `History.PurgeReopens` | sql/retention.sql:128-133 | After any purge, complete or not, the next success aggregates an event that had been passed once more if and only if it can see the event and the purge left no success that had reached it; for a completed purge, if and only if the cutoff had passed the newest success. Whether the event is then counted twice is another matter (`Ingestion.DoublesIffAhead`). |
| `Counterexamples.AnEventIsDoubled` | sql/retention.sql:128-133 | A concrete serial history in which both successes are purged and the next one makes three stored executions of the two events ingested. |
| `Counterexamples.AnEventIsIngestedTwice` | sql/retention.sql:128-133 | A concrete history with a purged watermark in which an event is aggregated twice under one window, and counted once. |
| `Deadlocks.IncrementalIsFullReread` | src/collectors/deadlocks.py:122-141 | For any buffer, reports with equal timestamps included: a watermark-filtered run leaves a key as merging the whole ring buffer would, except exactly where the watermark hides a report that the table does not show. |
| `Deadlocks.HistoryIsFullReread` | src/collectors/deadlocks.py:111-141 | Over every history of runs, failures, purges and other instances' work: the instance's rows equal those with full re-reads at every success if and only if for no key the last success that found a report had it hidden. |
| `Deadlocks.FullRereadIffOnTime` | src/collectors/deadlocks.py:111-141 | If at every success the table had what the watermark hid, it equals the one with full re-reads, for any buffers and purges; over an unchanging record and a watermark that holds, only then. |
| `Deadlocks.MissedForGood` | src/collectors/deadlocks.py:122-124 | A report of such a record that a success finds hidden and unstored is never stored afterwards. |
| `Deadlocks.StoredRowsMatchRowCount` | src/collectors/base.py:50-50 | The table grows by the logged row_count if and only if the reports above the watermark have distinct timestamps and none is stored already. |
| `Deadlocks.FateOfKey` | src/collectors/deadlocks.py:37-52 | The same for every single key. |
| `Deadlocks.ReplayAndEviction` | src/collectors/deadlocks.py:37-52 | A replayed buffer changes nothing, and rows that a later buffer no longer reports, or reports unchanged, stay. |
| `Deadlocks.MergedAt` | src/collectors/deadlocks.py:37-52 | Merging stores for every moment above the watermark its last buffered report and leaves every other row as it was. |
| `Deadlocks.NewReportStored` | src/collectors/deadlocks.py:122-127 | A report not stored yet is stored by a run that commits its rows if and only if it is in the buffer, of the instance, and every recorded success of its deadlocks task started before it. |
| `Deadlocks.ReportLedger` | src/collectors/deadlocks.py:111-141 | The ledger of one moment over every history of runs in order: times written + times missed + (passed at the beginning) = times reopened + (passed now). |
| `Deadlocks.ReportAccounting` | src/collectors/deadlocks.py:111-141 | A report that the buffer keeps until it is passed and no purge has reopened is written once if some success fetched after it appeared and none had fetched before that yet started at or after its time, and never otherwise. |
| `Deadlocks.WrittenIsStored` | src/collectors/deadlocks.py:37-52 | What a success has written stays. |
| `Deadlocks.RowsOfMembers` | src/collectors/deadlocks.py:122-141 | The rows are exactly the buffered reports with a time after the watermark, or all without one. |
| `Deadlocks.FindVictim` | src/collectors/deadlocks.py:67-76 | The victim is the first listed process whose id is a victim id, else three NULLs. |
| `Deadlocks.DeadlocksCollector.Run` | src/collectors/deadlocks.py:111-116 | A run is the shared lifecycle on the deadlocks above the watermark of its own successes; an empty result is no rows. |
| `QueryPerf.Transform` | src/collectors/query_perf.py:76-94 | Each hash once, in first-occurrence order, with the figures of its first row. |
| `QueryPerf.DeduplicatedFigures` | src/collectors/query_perf.py:76-94 | Each returned row has the figures of the first row with its hash, under the run's own instance and snapshot. |
| `QueryPerf.DeduplicatedHashes` | src/collectors/query_perf.py:78-82 | No hash is lost and none is invented. |
| `QueryPerf.FreshSnapshotInserts` | src/collectors/query_perf.py:45-62 | At a fresh snapshot time the MERGE inserts exactly row_count rows and touches no other. |
| `Quoting.ReadUndoesDoubling` | src/collectors/base.py:103-104 | For every name, reading the doubled name up to the closing delimiter recovers the name and the rest of the text. |
| `Quoting.DoublingIsNeeded` | src/collectors/base.py:103-104 | Without doubling the same reading succeeds if and only if the name is free of the delimiter. |
| `Quoting.UseBatchReads` | src/collectors/base.py:103-104 | The USE batch reads back as the database name and the query. |
| `Quoting.UseBatchPrinted` | src/collectors/base.py:103-104 | The batch begins with USE [ and prints a name without ']' as it is. |
| `Quoting.FileQueryReads` | src/collectors/workload.py:101-104 | The file query reads back as the glob and the fixed tail. |
| `Quoting.FileQueryPrinted` | src/collectors/workload.py:101-104 | A glob without a quote is printed as it is, between the fixed texts. |
| `Quoting.FetchRows` | src/collectors/base.py:100-108 | The per-database loop returns each database's own rows under its own name in list order, or raises if and only if some database cannot be used. |
| `Quoting.AllTaggedMembers` | src/collectors/base.py:100-108 | A row is fetched under a name if and only if the name is listed and its database returned the row. |
| `Quoting.AllTaggedAt` | src/collectors/base.py:100-108 | Each row stands after all rows of the databases listed before its own, at its own place. |

## Left out

- Fetched: event files never roll over; that events above the watermark stay readable is an assumption of the log.
- Serial: overlapping runs of one collector on one instance, and clocks that differ between hosts.
- Like: ESCAPE, which no pattern uses, collation (ranges in a set go by code point), trailing blanks, and whatever the
  server makes of a ']' directly after '[' or '[^' (here it ends the set).
- Code: SHA2_256 itself, and truncation of over-long names on insert.
- Metrics: CPU and duration stay integer microseconds; division by 1000 and DECIMAL(18,2) rounding are not modelled.
- FindVictim: XML and number parsing; processes arrive parsed. The resource summary and the graph text are opaque.
- RunAll: only the workload collector is dispatched; an exception raised by close itself is not modelled.
- Signal: a driver call either fails or not; locking, isolation between connections and MERGE races are not modelled.
- RowsOf: parsing of event XML and of timestamps.
- View: LAG over equal times in a partition, which the primary keys exclude.
- EndToEnd: with purges of fact_workload itself the sums are stated against what is stored (TableAccounts,
  WindowAccounts), not against everything ever ingested, part of which has been purged on purpose.
- ErasureExact: with a purge of the newest success or of rows in between, the exact statement is ErasedIffInWindow, for
  separable groups; for groups that share a key under different watermarks only FailureErasure's condition is stated.
- FullRereadIffOnTime: its second half speaks of one unchanging record, where equal timestamps mean equal reports;
  without that, HistoryIsFullReread is the exact statement.
- Column-mapping collectors (blocking, concurrency, cpu, health, index_ops, io_latency, storage, table_access, waits)
  and the sessions sampler: they rename columns or repeat the grouping.
- The plan-cache and DMV source queries, the two-ranking UNION, latency averages, the 90-day trend averages, storage
  growth, the rest of tuning candidates, health flags and rankings: settled by reading one expression.
- Configuration, credentials, connection strings, argument parsing and printing.
