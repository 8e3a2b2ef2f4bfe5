# Local-to-remote MySQL table synchronisation, modelled in Dafny

This project models two scripts that copy every table of a local MySQL database
to a remote one:

- `sync_to_remote_mysql_db.py` (Python, aiomysql);
- `sync_local_to_remote_db.php` (PHP, Doctrine DBAL).

Both scripts build an upsert statement per table:
`INSERT INTO t (cols) VALUES (...) ON DUPLICATE KEY UPDATE c = VALUES(c), ...`.
The update list covers every column except `time_stamp`. A control table
`sync_status(table_name, last_sync)` on the remote side decides each table's
mode:

- with no row for the table, the script does a full sync of all rows;
- with a row, it does an incremental sync of the rows with `time_stamp > last_sync`.

After writing the rows, each script stores a separate `MAX(time_stamp)` query as
the new `last_sync`.

The databases are values: rows are column maps and destination tables are keyed
by their primary key. The remote database is also a class, `Remote.RemoteDb`,
whose methods the scripts' loops call. Server failures are data (`Remote.Faults`):
which CREATE statements, which row upserts and which `sync_status` writes raise.

Modules:

- `Fragments`: the column list, the placeholder list and the update list, with
  the round trip `SplitList(Join(", ", items)) == items`.
- `Sql`: NULL-aware `time_stamp > w` and `MAX(time_stamp)`, value tuples, and
  upsert semantics (a new key inserts; an existing key overwrites every column
  but `time_stamp`; other keys are untouched).
- `Batching`: the slices of at most `bs` rows at offsets 0, bs, 2bs, and so on.
- `Remote`: source and destination databases, faults, the mode decision, and
  `RemoteDb`.
- `PySync`: the Python script. It runs all batches in one transaction
  (autocommit off), so a raising batch discards every batch of that table.
  `main` provisions every table and then runs the syncs.
- `PhpSync`: the PHP script. It runs one transaction per batch, and a raising
  batch is rolled back alone while the loop continues. The watermark is written
  regardless. A failing DDL or watermark write ends the whole run in the outer
  `catch`.

The new `last_sync` is what the code computes, not the maximum of the fetched
rows. Each script runs a separate `MAX(time_stamp)` query (the `atMax` snapshot
in the model). An incremental sync that finds no newer row stores NULL; it does
not leave `last_sync` unchanged. A row whose `last_sync` is NULL still selects an
incremental sync, and from then on nothing is selected
(`PySync.NullWatermarkStalls`, `PySync.StalledForever`).

The queries that name `time_stamp` need that column. In a table without it, the
incremental fetch raises before anything is written. The `MAX` query raises too,
and on a full sync that happens after the rows are copied. In Python that pass
fails with its rows committed and no `sync_status` row, so the next run copies
everything again (`PySync.FullSyncWithoutTimestamp`). In PHP the exception ends
the whole run (`PhpSync.FullSyncWithoutTimestampAborts`).

An existing remote table is never altered. If it lacks a source column, every
INSERT names an unknown column and raises. In Python the pass then fails with
nothing written (`PySync.SchemaDriftRollsBack`). In PHP every batch is rolled
back, yet the turn completes and writes the watermark
(`PhpSync.SchemaDriftLosesRows`).

PHP's `!$remoteTableExists` is a truthiness test, so an existing remote table
named `"0"` reads as missing. Its provisioning block then raises and the run ends
with nothing changed (`PhpSync.ZeroNamedTableAborts`). With that name the unquoted
`SHOW CREATE TABLE 0` is already rejected. The model has the CREATE of the
existing table raise, which has the same outcome.

## Model

| member | source | states |
|---|---|---|
| Fragments.ColumnList | sync_local_to_remote_db.php:82 | the column list is the DESCRIBE columns joined with ", " (read back by `ColumnListDenotes`) |
| Fragments.Placeholders | sync_to_remote_mysql_db.py:60 | the placeholder list is `n` markers joined with ", " (counted by `PlaceholdersCount`) |
| Fragments.UpdateList | sync_to_remote_mysql_db.py:61 | the update list is one `c = VALUES(c)` per update column, joined with ", " (read back by `UpdateListDenotes`) |
| Fragments.SplitJoin | sync_local_to_remote_db.php:82-84 | joining items that contain no comma with ", " and cutting the result at the commas gives the items back |
| Fragments.PlaceholdersCount | sync_to_remote_mysql_db.py:60 | the placeholder list holds exactly one marker per column |
| Fragments.ColumnListDenotes | sync_to_remote_mysql_db.py:43 | the INSERT column list names the DESCRIBE columns, in order, once each |
| Fragments.UpdateColumns | sync_to_remote_mysql_db.py:61 | a column is updated if and only if it is a listed column other than `time_stamp` |
| Fragments.UpdateColumnsAppend | sync_local_to_remote_db.php:74-80 | filtering out `time_stamp` distributes over concatenation, so building it column by column gives the same list |
| Fragments.UpdateColumnsNoTimestamp | sync_to_remote_mysql_db.py:61 | a column list without `time_stamp` is updated as a whole |
| Fragments.UpdateColumnsDropsTimestamp | sync_to_remote_mysql_db.py:61 | exactly the `time_stamp` column is removed, and the other columns keep their order |
| Fragments.UpdateListDenotes | sync_to_remote_mysql_db.py:61 | the update list reads back as one `c = VALUES(c)` per update column, in column order |
| Sql.Newer | sync_to_remote_mysql_db.py:93-97 | the selected rows are exactly the rows whose timestamp is above a non-NULL watermark; a NULL watermark selects nothing |
| Sql.NewerAppend | sync_to_remote_mysql_db.py:93-97 | the selection keeps the table's row order: selecting from `a + b` selects from `a`, then from `b` |
| Sql.MaxTimestamp | sync_to_remote_mysql_db.py:78-79 | `MAX(time_stamp)` is NULL if and only if no row has a timestamp; otherwise it is some row's timestamp and no row's is larger |
| Sql.NothingNewerThanMax | sync_to_remote_mysql_db.py:78-97 | no row of a table is newer than the table's own `MAX(time_stamp)` |
| Sql.MaxOfNewer | sync_to_remote_mysql_db.py:103-107 | the `MAX` over rows newer than `w` is strictly above `w`, and it is NULL if and only if no row is newer |
| Sql.Tuples | sync_to_remote_mysql_db.py:41 | one value tuple per row, each as long as the column list |
| Sql.BindTuple | sync_to_remote_mysql_db.py:41-45 | binding a row's value tuple to the column list stores the row's columns; a row with exactly those columns is stored unchanged |
| Sql.AssignCells | sync_to_remote_mysql_db.py:61 | `c = VALUES(c)` sets exactly the update columns to the inserted values and leaves every other column stored |
| Sql.ExecUpsertEffect | sync_to_remote_mysql_db.py:42-45 | one upsert: a new key stores the row; an existing key gets every column but `time_stamp` and keeps its timestamp; other keys are unchanged |
| Sql.ExecUpsert | sync_local_to_remote_db.php:104-108 | one statement keeps the table's columns and primary key and adds exactly the inserted row's key to the stored keys |
| Sql.ExecMany | sync_to_remote_mysql_db.py:42-46 | `executemany` keeps the columns and primary key and never removes a stored key |
| Sql.Upserted | sync_to_remote_mysql_db.py:39-46 | upserting rows keeps the columns and primary key and never removes a stored key |
| Sql.ExecManyAppend | sync_to_remote_mysql_db.py:39-46 | running the statement over `a + b` is running it over `a`, then over `b` |
| Sql.UpsertedAppend | sync_to_remote_mysql_db.py:39-46 | upserting `a + b` row by row is upserting `a`, then `b` |
| Sql.UpsertedOne | sync_local_to_remote_db.php:102-109 | upserting a single row is one statement |
| Sql.UpsertedUntouched | sync_to_remote_mysql_db.py:42-46 | a key that no upserted row maps to keeps its stored row, or stays absent |
| Sql.UpsertedMirrors | sync_to_remote_mysql_db.py:42-46 | after upserting rows with distinct keys, the destination holds every one of them in every overwritten column |
| Batching.Offset | sync_local_to_remote_db.php:94 | the offsets 0, bs, 2bs, ... of `$offset += $batchSize` (closed form in `OffsetIsProduct`) |
| Batching.Batches | sync_to_remote_mysql_db.py:39-40 | the slices `rows[i:i + batch_size]`, first to last (bounded by `BatchesBounded`, concatenated by `BatchesFlatten`) |
| Batching.OffsetIsProduct | sync_local_to_remote_db.php:94 | the offset of batch `k` is `k * bs` |
| Batching.OffsetMonotone | sync_local_to_remote_db.php:94 | a later batch starts at least one whole batch further on |
| Batching.BatchesBounded | sync_to_remote_mysql_db.py:39-40 | every batch holds between 1 and `batch_size` rows |
| Batching.BatchesFlatten | sync_to_remote_mysql_db.py:39-40 | the batches, concatenated, are the rows in order: nothing lost, repeated or reordered |
| Batching.BatchAt | sync_local_to_remote_db.php:94-95 | batch `k` exists if and only if its offset is below the row count, and it is the page `LIMIT bs OFFSET k*bs` |
| Batching.BatchItem | sync_local_to_remote_db.php:94-95 | row `i` of batch `k` is the row at position `offset + i` |
| Batching.BatchPositionsDisjoint | sync_local_to_remote_db.php:94-95 | rows of two different batches come from different positions |
| Batching.BatchesCeiling | sync_to_remote_mysql_db.py:39 | the number of batches times `batch_size` is at least the row count and less than the row count plus `batch_size` |
| Batching.BatchesCount | sync_to_remote_mysql_db.py:39 | the number of batches is the ceiling of the row count divided by `batch_size` |
| Remote.EnsureStatusTable | sync_to_remote_mysql_db.py:128-135 | `CREATE TABLE IF NOT EXISTS sync_status` leaves an existing status table as it is, and otherwise creates it empty |
| Remote.Fetched | sync_to_remote_mysql_db.py:64-97 | no `sync_status` row selects every row; a row selects exactly the rows newer than its `last_sync`, and none when it is NULL |
| Remote.StatementFails | sync_local_to_remote_db.php:104-108 | an upsert raises when the remote table is missing or lacks a column the INSERT names, when the update list is empty (an `ON DUPLICATE KEY UPDATE` with nothing after it), or when the server rejects that row |
| Remote.BatchFails | sync_to_remote_mysql_db.py:42-46 | a batch raises when an upsert of one of its rows raises |
| Remote.AfterCreate | sync_local_to_remote_db.php:60-64 | a CREATE succeeds if and only if the table is absent and the DDL is accepted; it adds an empty table with the source's columns and primary key, and changes no other |
| Remote.RemoteDb.CreateStatusTable | sync_local_to_remote_db.php:41-46 | the new state is `EnsureStatusTable` of the old one |
| Remote.RemoteDb.CreateTable | sync_to_remote_mysql_db.py:34 | reports success exactly as `AfterCreate` does, and on success the tables are `AfterCreate`'s |
| Remote.RemoteDb.Commit | sync_to_remote_mysql_db.py:47 | publishes the transaction's view of one table; `sync_status` is unchanged |
| Remote.RemoteDb.UpsertStatus | sync_to_remote_mysql_db.py:80-84 | the INSERT ... ON DUPLICATE KEY UPDATE sets the table's `last_sync` whether or not a row existed |
| Remote.RemoteDb.UpdateStatus | sync_to_remote_mysql_db.py:108-112 | the UPDATE changes `last_sync` only when the row exists |
| PySync.Provision | sync_to_remote_mysql_db.py:28-35 | provisioning fails if and only if the table is missing and its DDL is rejected; an existing table is left alone; a created one is the source's table, empty; other tables are unchanged |
| PySync.ProvisionIdempotent | sync_to_remote_mysql_db.py:28-35 | provisioning twice is provisioning once |
| PySync.CreateTableIfNotExists | sync_to_remote_mysql_db.py:28-35 | the new state and the success flag are those of `Provision` |
| PySync.FirstFailingBatch | sync_to_remote_mysql_db.py:39-46 | the result is a batch that raises, and no earlier batch raises; no result means no batch raises |
| PySync.InsertRowsSpec | sync_to_remote_mysql_db.py:37-47 | only the named table can change; a rolled-back write changes nothing; an empty row list commits with no change; no table's columns or primary key change |
| PySync.InsertRowsCommitsAll | sync_to_remote_mysql_db.py:37-47 | when no statement raises (the table exists with every named column, the update list is non-empty and the server accepts each row), every row is upserted in order and committed |
| PySync.InsertRowsInBatches | sync_to_remote_mysql_db.py:37-47 | the outcome and the new tables are `InsertRowsSpec`'s; `sync_status` is unchanged |
| PySync.ExecuteBatches | sync_to_remote_mysql_db.py:39-46 | the loop stops at the first batch that raises; with none, the transaction's view of the table is every row upserted in order |
| PySync.SyncTableSpec | sync_to_remote_mysql_db.py:49-118 | a pass changes only its own table and `sync_status` row; a failed pass leaves `sync_status` unchanged, and the whole database when the status table is missing or the write is rolled back; a finished pass stores `MAX(time_stamp)` of the whole table after a full sync and of the rows above the old `last_sync` after an incremental one; without a `time_stamp` column the pass fails, and an incremental one fails before writing |
| PySync.SyncTable | sync_to_remote_mysql_db.py:49-118 | the new state and outcome are `SyncTableSpec`'s |
| PySync.HealthyPassWrites | sync_to_remote_mysql_db.py:64-112 | when nothing fails, the remote table has every source column and the source has a `time_stamp` column, the pass finishes with exactly the fetched rows upserted |
| PySync.FullSyncWithoutTimestamp | sync_to_remote_mysql_db.py:68-84 | a full sync of a table without `time_stamp` commits every row, then fails at the `MAX` query with no `sync_status` row written |
| PySync.FullSyncMirrorsSource | sync_to_remote_mysql_db.py:68-84 | a healthy full sync of a table with a `time_stamp` column mirrors every source row and sets `last_sync` to the table's `MAX(time_stamp)` |
| PySync.SchemaDriftRollsBack | sync_to_remote_mysql_db.py:39-47 | an existing remote table lacking a source column makes the first `executemany` raise, and the pass fails with nothing written |
| PySync.IncrementalWatermark | sync_to_remote_mysql_db.py:103-112 | the new `last_sync` is the `MAX(time_stamp)` of the rows above the old one: strictly greater when there are such rows, NULL when there are none |
| PySync.NullWatermarkStalls | sync_to_remote_mysql_db.py:64-112 | a NULL `last_sync` makes the pass write no row and keep `last_sync` NULL |
| PySync.StalledForever | sync_to_remote_mysql_db.py:64-112 | once `last_sync` is NULL, no later pass changes anything, whatever the source holds |
| PySync.SecondPassClearsWatermark | sync_to_remote_mysql_db.py:64-112 | two runs with an unchanged source: the second selects nothing, changes no row, and stores NULL as `last_sync` |
| PySync.NewerDistinct | sync_to_remote_mysql_db.py:93-97 | the filtered rows keep distinct primary keys |
| PySync.NoRowSkipped | sync_to_remote_mysql_db.py:88-112 | if the destination had caught up and the source only gained rows above `last_sync`, one healthy pass catches up again and strictly raises `last_sync` |
| PySync.AllMirroredAfterPass | sync_to_remote_mysql_db.py:93-100 | upserting the rows above `w` onto a table that mirrored the old source mirrors every row of the new one |
| PySync.UnfetchedRowKept | sync_to_remote_mysql_db.py:93-100 | a row at or below the watermark is not fetched, and its mirrored destination row survives the pass |
| PySync.ProvisionAll | sync_to_remote_mysql_db.py:143-147 | when provisioning runs to its end every listed table exists; it never touches `sync_status` or an existing table, and every table it adds is the source's, empty |
| PySync.ProvisionAllHealthy | sync_to_remote_mysql_db.py:143-147 | without DDL failures, provisioning runs to its end |
| PySync.ProvisionStopsEarly | sync_to_remote_mysql_db.py:143-147 | once a CREATE fails, the rest of the list is never attempted |
| PySync.ProvisionTables | sync_to_remote_mysql_db.py:143-147 | the loop's state and result are `ProvisionAll`'s |
| PySync.SyncAll | sync_to_remote_mysql_db.py:150-151 | one outcome per listed table; the set of remote tables and every table's columns do not change |
| PySync.SyncAllFrame | sync_to_remote_mysql_db.py:150-151 | a table not listed keeps its remote table and its `sync_status` row, or stays without one |
| PySync.SyncAllHealthy | sync_to_remote_mysql_db.py:150-151 | with no failures, every sync whose remote table has the source's columns and whose source has a `time_stamp` column and a column besides it ends `Done` |
| PySync.SyncTables | sync_to_remote_mysql_db.py:150-151 | the loop's state and outcomes are `SyncAll`'s |
| PySync.SyncDatabaseHealthy | sync_to_remote_mysql_db.py:120-155 | with no failures, a `time_stamp` column in every table, and every existing remote table holding its source's columns, every listed table is provisioned before the first sync, and every sync ends `Done` |
| PySync.SyncDatabaseSpec | sync_to_remote_mysql_db.py:120-155 | `main` leaves a status table and drops no remote table; when provisioning succeeds there is one outcome per listed table and every listed table exists |
| PySync.SyncDatabaseFrame | sync_to_remote_mysql_db.py:120-155 | a table `SHOW TABLES` does not list keeps its remote table and, when `sync_status` already existed, its status row |
| PySync.SyncDatabase | sync_to_remote_mysql_db.py:120-155 | `main`'s state and outcome are `SyncDatabaseSpec`'s with `batch_size` 1000 |
| PhpSync.Truthy | sync_local_to_remote_db.php:56 | PHP truthiness of the lookup: no row, `""` and `"0"` are false |
| PhpSync.TableLookup | sync_local_to_remote_db.php:55 | the lookup returns the table's name if and only if the table exists |
| PhpSync.Provision | sync_local_to_remote_db.php:55-65 | provisioning fails if and only if the table exists under a name PHP reads as false, or is missing and its DDL is rejected; otherwise the table exists afterwards and every other table is unchanged |
| PhpSync.ZeroNamedTableAborts | sync_local_to_remote_db.php:55-64 | an existing remote table named `"0"` reads as missing; its provisioning block raises and the run ends there with nothing changed |
| PhpSync.BuildFragments | sync_local_to_remote_db.php:70-80 | one column name and one `?` per column, and `c = VALUES(c)` for every column except `time_stamp`, in order |
| PhpSync.BuildLists | sync_local_to_remote_db.php:82-84 | the imploded lists read back as the columns and as one placeholder per column |
| PhpSync.BatchEffect | sync_local_to_remote_db.php:97-118 | one batch's transaction never adds or removes a table |
| PhpSync.ApplyBatches | sync_local_to_remote_db.php:94-119 | the batch loop changes only the named table, keeps its columns and primary key, and never removes a row |
| PhpSync.WriteBatch | sync_local_to_remote_db.php:97-118 | commits if and only if no upsert of the batch raises; the new tables are `BatchEffect`'s; `sync_status` is unchanged |
| PhpSync.WriteBatchAt | sync_local_to_remote_db.php:95-118 | the page at offset `k*bs` written on top of the first `k` batches gives the first `k + 1` |
| PhpSync.WriteBatches | sync_local_to_remote_db.php:94-119 | after the `for ($offset ...)` loop the tables are `ApplyBatches` over all batches |
| PhpSync.ApplyBatchesUnfold | sync_local_to_remote_db.php:94-119 | the first `k + 1` batches are batch `k`'s transaction on top of the first `k` |
| PhpSync.NextBatch | sync_local_to_remote_db.php:94-95 | batch `k` is the page at offset `k*bs`, and the loop test decides whether another batch follows |
| PhpSync.ApplyBatchesNext | sync_local_to_remote_db.php:98-118 | a raising batch leaves the tables as they were; any other batch is upserted on top of the earlier ones |
| PhpSync.FailedBatch | sync_local_to_remote_db.php:114-118 | a batch in which an upsert raises is rolled back |
| PhpSync.CommittedBatch | sync_local_to_remote_db.php:102-112 | a batch with no raising upsert is committed |
| PhpSync.ApplyBatchesUntouched | sync_local_to_remote_db.php:94-119 | a key that no committed batch writes keeps its stored row, or stays absent |
| PhpSync.ApplyBatchesAll | sync_local_to_remote_db.php:94-119 | without raising statements, the first `k` batches upsert the first `k` batches' rows in order |
| PhpSync.NoBatchFails | sync_local_to_remote_db.php:98-118 | without a raising statement, no batch raises |
| PhpSync.AllBatchesCommitted | sync_local_to_remote_db.php:94-119 | without raising statements, the loop upserts every row in order and nothing else |
| PhpSync.TableStep | sync_local_to_remote_db.php:51-169 | a turn aborts if and only if provisioning fails, a query names a missing `time_stamp` column, or the watermark write raises; a rolled-back batch does not stop it; an incremental turn without `time_stamp` aborts before any batch; a completed turn stores `MAX(time_stamp)` of the whole table after a full sync and of the rows above the old `last_sync` after an incremental one; only its own table and status row change |
| PhpSync.FullSyncWithoutTimestampAborts | sync_local_to_remote_db.php:93-126 | a full sync of a table without `time_stamp` commits every batch, then the `MAX` query raises and ends the run with no `sync_status` row written |
| PhpSync.SyncTable | sync_local_to_remote_db.php:51-169 | the new state and abort are `TableStep`'s |
| PhpSync.WatermarkIgnoresStatementFaults | sync_local_to_remote_db.php:114-126 | upsert failures change neither how a turn ends nor the `sync_status` it leaves |
| PhpSync.NoRowFetchedTwice | sync_local_to_remote_db.php:121-136 | with an unchanged source, the next turn selects none of the rows this turn selected, whether committed or rolled back |
| PhpSync.BatchKeysDistinct | sync_local_to_remote_db.php:94-95 | rows with distinct keys keep them distinct across batches |
| PhpSync.RolledBackRowLost | sync_local_to_remote_db.php:114-166 | a new row whose batch was rolled back is absent after the turn, and the next turn does not select it while the source is unchanged |
| PhpSync.NothingCommitted | sync_local_to_remote_db.php:94-119 | a remote table lacking a named column rolls back every batch, so the loop changes nothing |
| PhpSync.SchemaDriftLosesRows | sync_local_to_remote_db.php:94-126 | an existing remote table lacking a source column has every batch rolled back, yet the turn completes and writes the watermark |
| PhpSync.AgreesWithPython | sync_local_to_remote_db.php:51-169 | without any failure, a table turn, whether it finds the remote table or creates it, provisions as `create_table_if_not_exists` does and then leaves the remote database exactly as a Python `sync_table` pass does |
| PhpSync.RunTables | sync_local_to_remote_db.php:51-170 | the loop over the first `m` tables never drops a remote table or a status row |
| PhpSync.RunFrame | sync_local_to_remote_db.php:51-170 | a table not among the first `m` keeps its remote table and status row |
| PhpSync.RunStopsEarly | sync_local_to_remote_db.php:51-176 | once a table aborts the run, later tables are never attempted |
| PhpSync.RunStaysAborted | sync_local_to_remote_db.php:174-176 | an aborted run is not extended by another table |
| PhpSync.AbortSkipsRest | sync_local_to_remote_db.php:51-176 | a table listed only after the one that aborted keeps its remote table and watermark |
| PhpSync.StepCompletes | sync_local_to_remote_db.php:55-166 | without DDL or watermark failures, a turn on a table with `time_stamp` and a name PHP reads as true completes with the table and its status row present |
| PhpSync.RunCompletes | sync_local_to_remote_db.php:51-172 | without DDL or watermark failures, with `time_stamp` in every table and no name PHP reads as false, the run completes and every table has a remote table and a status row |
| PhpSync.SyncDatabaseSpec | sync_local_to_remote_db.php:40-170 | the script leaves a status table and drops no remote table |
| PhpSync.SyncTables | sync_local_to_remote_db.php:51-170 | the loop's state and outcome are `RunTables` over the whole list |
| PhpSync.SyncDatabase | sync_local_to_remote_db.php:32-176 | the script's state and outcome are `SyncDatabaseSpec`'s with `$batchSize` 1000 |

## Left out

- Connection parameters, connecting and closing connections, `ini_set`, and the
  outer connection-failure `catch`: these are driver and configuration concerns.
  The remote database is a value or an object here, and connection failures are
  not modelled.
- Logging, `echo`/`print` and the wall-clock timing: output and floating point,
  with no effect on the databases.
- The `asyncio.gather` of the Python syncs: the syncs are modelled one table
  after another, each running to its end. In the script, the first sync that
  raises ends `main`, and tables still in flight are cancelled wherever they
  had got to.
- The DDL text returned by `SHOW CREATE TABLE`: a created table is modelled as
  empty, with the source's columns and primary key.
- Tables without a primary key, and unique keys other than the primary key: the
  destination is keyed by its primary key only.
- `SHOW TABLES LIKE`: wildcards are not interpreted, and the check is an
  exact-name match.
- The order of `LIMIT/OFFSET` pages without `ORDER BY`: the source's rows are
  taken in one stable order. The same snapshot is used for the count and for
  every page.
- MySQL type coercion, TIMESTAMP precision, time zones and `ON UPDATE
  CURRENT_TIMESTAMP`: timestamps are integers, and a column value is stored as
  given.
- `row[col]` raising `KeyError` in Python: every fetched row carries its
  DESCRIBE columns, and a missing column reads as NULL.
- Table names are taken to be valid unquoted identifiers. Both scripts put the
  name into their statements unquoted (sync_to_remote_mysql_db.py:56, 71, 145;
  sync_local_to_remote_db.php:60, 68, 93, 95). An all-digit or reserved-word
  name makes those statements fail, and the model does not capture that,
  except through the `"0"` case above.
- Column names are compared exactly. MySQL resolves `time_stamp` in the
  queries without regard to case, so a column `Time_Stamp` would serve the
  `MAX` and `>` queries. The scripts' own `!= 'time_stamp'` test, however, is
  case-sensitive. The model has a table carry the timestamp column, and a row
  its timestamp, only under the exact name `time_stamp`.
- Extra columns of an existing remote table are taken to have defaults: an
  extra NOT NULL column without one would make the INSERT raise, and the model
  does not capture that. Missing columns are modelled (`Remote.StatementFails`).
- PhpSync.TableStep: does not model the `sync_status` lookup failing for a
  missing status table, because the script creates that table before the loop.
- PySync.SyncTableSpec and PhpSync.TableStep: a source that changes during a
  pass is captured by two snapshots only: one for the rows fetched and one for
  the `MAX(time_stamp)` query.
