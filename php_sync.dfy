/**
 * The PHP script (`sync_local_to_remote_db.php`): one loop over the source
 * tables that, for each table, provisions it remotely, builds the upsert
 * fragments, pages through the rows to copy with one transaction per batch,
 * and writes the watermark. A batch whose statement raises is rolled back and
 * the loop goes on; a failing DDL or watermark write ends the whole run.
 */
module PhpSync {
  import opened Fragments
  import opened Sql
  import opened Batching
  import opened Remote
  import PySync

  /** `$batchSize` */
  const BatchSize: nat := 1000

  // ---------------------------------------------------------------------------
  // Provisioning

  /** PHP truthiness of `fetchOne`'s result: `false` (no row), `""` and `"0"` are falsy. */
  predicate Truthy(v: Option<string>)
  {
    v.Some? && v.value != "" && v.value != "0"
  }

  /** `SHOW TABLES LIKE ?` with `fetchOne`: the table's name, or no row (taken as an exact-name match). */
  function TableLookup(tables: map<string, DestTable>, name: string): (res: Option<string>)
    ensures res.Some? <==> name in tables
    ensures res.Some? ==> res.value == name
  {
    if name in tables then Some(name) else None
  }

  /**
   * `if (!$remoteTableExists)` create the table from `SHOW CREATE TABLE`.
   * An existing table whose name PHP reads as false (`"0"`) is taken as
   * missing, and the provisioning block raises: with an all-digit name the
   * unquoted `SHOW CREATE TABLE 0` is already rejected, and were it not, the
   * CREATE of an existing table would be. Either way nothing changes.
   */
  function Provision(r: RemoteState, name: string, t: SourceTable, f: Faults): (res: Option<RemoteState>)
    ensures res.None? <==> (name in r.tables && (name == "" || name == "0")) || (name !in r.tables && name in f.ddl)
    ensures name in r.tables && name != "" && name != "0" ==> res == Some(r)
    ensures res.Some? ==> name in res.value.tables && res.value.status == r.status
                          && res.value.hasStatus == r.hasStatus
                          && res.value.tables.Keys == r.tables.Keys + {name}
                          && (forall n :: n in r.tables ==> res.value.tables[n] == r.tables[n])
  {
    if Truthy(TableLookup(r.tables, name)) then Some(r)
    else
      match AfterCreate(r.tables, name, t, f)
      case None => None
      case Some(tables) => Some(r.(tables := tables))
  }

  // ---------------------------------------------------------------------------
  // Statement fragments

  /**
   * The `foreach ($columns as $column)` loop: one column name and one `?` per
   * column, and `c = VALUES(c)` for every column except `time_stamp`.
   */
  method BuildFragments(cols: seq<string>) returns (columnNames: seq<string>, placeholders: seq<string>, updateColumns: seq<string>)
    ensures columnNames == cols
    ensures placeholders == Markers("?", |cols|)
    ensures updateColumns == Assignments(UpdateColumns(cols))
  {
    columnNames, placeholders, updateColumns := [], [], [];
    var i := 0;
    while i < |cols|
      invariant 0 <= i <= |cols|
      invariant columnNames == cols[..i]
      invariant placeholders == Markers("?", i)
      invariant updateColumns == Assignments(UpdateColumns(cols[..i]))
    {
      var field := cols[i];
      columnNames := columnNames + [field];
      placeholders := placeholders + ["?"];
      if field != TimeStampColumn {
        updateColumns := updateColumns + [field + " = VALUES(" + field + ")"];
      }
      assert cols[..i + 1] == cols[..i] + [field];
      UpdateColumnsAppend(cols[..i], [field]);
      assert UpdateColumns([field]) == if field != TimeStampColumn then [field] else [];
      i := i + 1;
    }
    assert cols[..i] == cols;
  }

  /** The three imploded lists are the ones both scripts put into the upsert statement. */
  method BuildLists(cols: seq<string>) returns (columnsList: string, placeholdersList: string, updateList: string)
    ensures columnsList == ColumnList(cols)
    ensures placeholdersList == Placeholders("?", |cols|)
    ensures updateList == UpdateList(cols)
    ensures |cols| > 0 && CommaFree(cols) ==> SplitList(columnsList) == cols && |SplitList(placeholdersList)| == |cols|
  {
    var columnNames, placeholders, updateColumns := BuildFragments(cols);
    columnsList := Join(Separator, columnNames);
    placeholdersList := Join(Separator, placeholders);
    updateList := Join(Separator, updateColumns);
    if |cols| > 0 && CommaFree(cols) {
      ColumnListDenotes(cols);
      PlaceholdersCount("?", |cols|);
    }
  }

  // ---------------------------------------------------------------------------
  // The batch loop, one transaction per batch

  /** Whether some upsert at a position from `lo` up to `hi` raises. */
  predicate RangeFails(tables: map<string, DestTable>, name: string, cols: seq<string>, f: Faults, lo: nat, hi: nat)
  {
    exists p: nat :: lo <= p < hi && StatementFails(tables, name, cols, f, p)
  }

  /**
   * One batch's transaction: rolled back when some upsert of it raises,
   * otherwise committed with every row of `data` upserted in order. `offset`
   * is the position of the batch's first row among the selected rows.
   */
  function BatchEffect(tables: map<string, DestTable>, name: string, cols: seq<string>, data: seq<Row>,
                       offset: nat, f: Faults): (res: map<string, DestTable>)
    requires |data| > 0
    ensures res.Keys == tables.Keys
  {
    if RangeFails(tables, name, cols, f, offset, offset + |data|) then tables
    else
      assert !StatementFails(tables, name, cols, f, offset);
      tables[name := Upserted(tables[name], cols, data)]
  }

  /**
   * The remote tables after the first `k` batches: a batch in which some
   * upsert raises is rolled back as a whole, every other batch is committed.
   */
  function ApplyBatches(tables: map<string, DestTable>, name: string, cols: seq<string>, rows: seq<Row>,
                        bs: nat, f: Faults, k: nat): (res: map<string, DestTable>)
    requires bs > 0 && k <= |Batches(rows, bs)|
    ensures res.Keys == tables.Keys
    ensures forall n :: n in tables && n != name ==> res[n] == tables[n]
    ensures name in tables ==> res[name].primaryKey == tables[name].primaryKey
                               && res[name].columns == tables[name].columns
                               && tables[name].rows.Keys <= res[name].rows.Keys
    decreases k
  {
    if k == 0 then tables
    else
      BatchAt(rows, bs, k - 1);
      BatchEffect(ApplyBatches(tables, name, cols, rows, bs, f, k - 1), name, cols,
                  Batches(rows, bs)[k - 1], Offset(k - 1, bs), f)
  }

  /**
   * One batch: `beginTransaction`, one upsert per row, then `commit`; the
   * first upsert that raises sends it to `rollBack` instead.
   */
  method WriteBatch(db: RemoteDb, name: string, cols: seq<string>, data: seq<Row>, offset: nat, f: Faults)
    returns (committed: bool)
    requires |data| > 0
    modifies db
    ensures committed == !RangeFails(old(db.tables), name, cols, f, offset, offset + |data|)
    ensures db.tables == BatchEffect(old(db.tables), name, cols, data, offset, f)
    ensures db.status == old(db.status) && db.hasStatus == old(db.hasStatus)
  {
    // the upserts go to `pending`, which only the commit publishes
    var pending := if name in db.tables then db.tables[name] else DestTable([], [], map[]);
    var j := 0;
    while j < |data|
      invariant 0 <= j <= |data|
      invariant forall p: nat :: offset <= p < offset + j ==> !StatementFails(db.tables, name, cols, f, p)
      invariant name in db.tables ==> pending == Upserted(db.tables[name], cols, data[..j])
      invariant db.tables == old(db.tables) && db.status == old(db.status) && db.hasStatus == old(db.hasStatus)
    {
      if StatementFails(db.tables, name, cols, f, offset + j) {
        return false;
      }
      assert data[..j + 1] == data[..j] + [data[j]];
      UpsertedAppend(db.tables[name], cols, data[..j], [data[j]]);
      UpsertedOne(Upserted(db.tables[name], cols, data[..j]), cols, data[j]);
      pending := ExecUpsert(pending, cols, Tuple(cols, data[j]));
      j := j + 1;
    }
    assert data[..j] == data;
    assert !StatementFails(db.tables, name, cols, f, offset);
    db.Commit(name, pending);
    committed := true;
  }

  /** The `for ($offset = 0; $offset < $rowCount; $offset += $batchSize)` loop. */
  method WriteBatches(db: RemoteDb, name: string, cols: seq<string>, rows: seq<Row>, bs: nat, f: Faults)
    requires bs > 0
    modifies db
    ensures db.tables == ApplyBatches(old(db.tables), name, cols, rows, bs, f, |Batches(rows, bs)|)
    ensures db.status == old(db.status) && db.hasStatus == old(db.hasStatus)
  {
    ghost var t0 := db.tables;
    var rowCount := |rows|;
    var offset: nat := 0;
    ghost var k: nat := 0;
    BatchAt(rows, bs, 0);
    while offset < rowCount
      invariant offset == Offset(k, bs) && k <= |Batches(rows, bs)|
      invariant k < |Batches(rows, bs)| <==> offset < rowCount
      invariant db.tables == ApplyBatches(t0, name, cols, rows, bs, f, k)
      invariant db.status == old(db.status) && db.hasStatus == old(db.hasStatus)
    {
      NextBatch(rows, bs, k);
      WriteBatchAt(db, t0, name, cols, rows, bs, f, k, offset);
      offset := offset + bs;
      k := k + 1;
    }
  }

  /** The page at `offset`, which is batch `k`, written on top of the first `k` batches. */
  method WriteBatchAt(db: RemoteDb, ghost t0: map<string, DestTable>, name: string, cols: seq<string>,
                      rows: seq<Row>, bs: nat, f: Faults, ghost k: nat, offset: nat)
    requires bs > 0 && k < |Batches(rows, bs)| && offset == Offset(k, bs)
    requires db.tables == ApplyBatches(t0, name, cols, rows, bs, f, k)
    modifies db
    ensures db.tables == ApplyBatches(t0, name, cols, rows, bs, f, k + 1)
    ensures db.status == old(db.status) && db.hasStatus == old(db.hasStatus)
  {
    NextBatch(rows, bs, k);
    ApplyBatchesUnfold(t0, name, cols, rows, bs, f, k);
    var data := rows[offset..Min(offset + bs, |rows|)];
    var committed := WriteBatch(db, name, cols, data, offset, f);
  }

  /** The first `k + 1` batches are batch `k`'s transaction on top of the first `k`. */
  lemma ApplyBatchesUnfold(tables: map<string, DestTable>, name: string, cols: seq<string>, rows: seq<Row>,
                           bs: nat, f: Faults, k: nat)
    requires bs > 0 && k < |Batches(rows, bs)|
    ensures |Batches(rows, bs)[k]| > 0
    ensures ApplyBatches(tables, name, cols, rows, bs, f, k + 1)
            == BatchEffect(ApplyBatches(tables, name, cols, rows, bs, f, k), name, cols, Batches(rows, bs)[k], Offset(k, bs), f)
  {
    BatchAt(rows, bs, k);
  }

  /** Batch `k` is the rows the page at its offset reads, and the loop test tells whether another follows. */
  lemma NextBatch<T>(rows: seq<T>, bs: nat, k: nat)
    requires bs > 0 && k < |Batches(rows, bs)|
    ensures Offset(k, bs) < |rows| && Batches(rows, bs)[k] == rows[Offset(k, bs)..Min(Offset(k, bs) + bs, |rows|)]
    ensures k + 1 < |Batches(rows, bs)| <==> Offset(k, bs) + bs < |rows|
  {
    BatchAt(rows, bs, k);
    BatchAt(rows, bs, k + 1);
  }

  /**
   * Batch `k - 1`: rolled back, or committed on top of the earlier ones.
   * Table keys never change in the loop, so whether the batch raises is the
   * same judged against the tables before the loop.
   */
  lemma ApplyBatchesNext(tables: map<string, DestTable>, name: string, cols: seq<string>, rows: seq<Row>,
                         bs: nat, f: Faults, k: nat)
    requires bs > 0 && 0 < k <= |Batches(rows, bs)|
    ensures var a := ApplyBatches(tables, name, cols, rows, bs, f, k - 1);
            && (BatchFails(tables, name, cols, |rows|, bs, f, k - 1) ==> ApplyBatches(tables, name, cols, rows, bs, f, k) == a)
            && (!BatchFails(tables, name, cols, |rows|, bs, f, k - 1) ==>
                  name in a && ApplyBatches(tables, name, cols, rows, bs, f, k)
                               == a[name := Upserted(a[name], cols, Batches(rows, bs)[k - 1])])
  {
    var a := ApplyBatches(tables, name, cols, rows, bs, f, k - 1);
    BatchAt(rows, bs, k - 1);
    if !BatchFails(tables, name, cols, |rows|, bs, f, k - 1) {
      assert !StatementFails(tables, name, cols, f, Offset(k - 1, bs));
    }
    assert forall p: nat :: StatementFails(a, name, cols, f, p) == StatementFails(tables, name, cols, f, p);
  }

  /** A batch in which some upsert raises leaves the tables as they were. */
  lemma FailedBatch(tables: map<string, DestTable>, name: string, cols: seq<string>, rows: seq<Row>,
                    bs: nat, f: Faults, k: nat)
    requires bs > 0 && 0 < k <= |Batches(rows, bs)| && BatchFails(tables, name, cols, |rows|, bs, f, k - 1)
    ensures ApplyBatches(tables, name, cols, rows, bs, f, k) == ApplyBatches(tables, name, cols, rows, bs, f, k - 1)
  {
    ApplyBatchesNext(tables, name, cols, rows, bs, f, k);
  }

  /** A batch in which no upsert raises is upserted on top of the earlier ones. */
  lemma CommittedBatch(tables: map<string, DestTable>, name: string, cols: seq<string>, rows: seq<Row>,
                       bs: nat, f: Faults, k: nat)
    requires bs > 0 && 0 < k <= |Batches(rows, bs)| && !BatchFails(tables, name, cols, |rows|, bs, f, k - 1)
    ensures name in ApplyBatches(tables, name, cols, rows, bs, f, k - 1)
    ensures ApplyBatches(tables, name, cols, rows, bs, f, k)[name]
            == Upserted(ApplyBatches(tables, name, cols, rows, bs, f, k - 1)[name], cols, Batches(rows, bs)[k - 1])
  {
    ApplyBatchesNext(tables, name, cols, rows, bs, f, k);
  }

  /** A key that no committed batch writes keeps its stored row, or stays absent. */
  lemma {:induction false} ApplyBatchesUntouched(tables: map<string, DestTable>, name: string, cols: seq<string>,
                                                 rows: seq<Row>, bs: nat, f: Faults, k: nat, key: Key)
    requires bs > 0 && k <= |Batches(rows, bs)| && name in tables
    requires forall j, i :: 0 <= j < k && 0 <= i < |Batches(rows, bs)[j]| && !BatchFails(tables, name, cols, |rows|, bs, f, j)
                            ==> RowKey(tables[name].primaryKey, cols, Batches(rows, bs)[j][i]) != key
    ensures Keeps(tables[name], ApplyBatches(tables, name, cols, rows, bs, f, k)[name], key)
    decreases k
  {
    if k > 0 {
      var before := ApplyBatches(tables, name, cols, rows, bs, f, k - 1);
      ApplyBatchesUntouched(tables, name, cols, rows, bs, f, k - 1, key);
      if BatchFails(tables, name, cols, |rows|, bs, f, k - 1) {
        FailedBatch(tables, name, cols, rows, bs, f, k);
      } else {
        CommittedBatchUntouched(tables, name, cols, rows, bs, f, k, Batches(rows, bs)[k - 1], key);
      }
      KeepsTransitive(tables[name], before[name], ApplyBatches(tables, name, cols, rows, bs, f, k)[name], key);
    }
  }

  /** A committed batch none of whose rows maps to `key` keeps that key's row. */
  lemma CommittedBatchUntouched(tables: map<string, DestTable>, name: string, cols: seq<string>,
                                rows: seq<Row>, bs: nat, f: Faults, k: nat, batch: seq<Row>, key: Key)
    requires bs > 0 && 0 < k <= |Batches(rows, bs)| && name in tables && batch == Batches(rows, bs)[k - 1]
    requires !BatchFails(tables, name, cols, |rows|, bs, f, k - 1)
    requires forall i :: 0 <= i < |batch| ==> RowKey(tables[name].primaryKey, cols, batch[i]) != key
    ensures Keeps(ApplyBatches(tables, name, cols, rows, bs, f, k - 1)[name], ApplyBatches(tables, name, cols, rows, bs, f, k)[name], key)
  {
    var before := ApplyBatches(tables, name, cols, rows, bs, f, k - 1);
    CommittedBatch(tables, name, cols, rows, bs, f, k);
    UpsertedUntouched(before[name], cols, batch, key);
  }

  lemma KeepsTransitive(a: DestTable, b: DestTable, c: DestTable, key: Key)
    requires Keeps(a, b, key) && Keeps(b, c, key)
    ensures Keeps(a, c, key)
  {
  }

  /** When no statement raises, every batch is committed: all rows are upserted in order. */
  lemma {:induction false} ApplyBatchesAll(tables: map<string, DestTable>, name: string, cols: seq<string>,
                                           rows: seq<Row>, bs: nat, f: Faults, k: nat)
    requires bs > 0 && k <= |Batches(rows, bs)| && name in tables
    requires forall p: nat :: p < |rows| ==> !StatementFails(tables, name, cols, f, p)
    ensures ApplyBatches(tables, name, cols, rows, bs, f, k)[name] == Upserted(tables[name], cols, Flatten(Batches(rows, bs)[..k]))
    decreases k
  {
    var b := Batches(rows, bs);
    if k == 0 {
      assert b[..0] == [];
    } else {
      ApplyBatchesAll(tables, name, cols, rows, bs, f, k - 1);
      ApplyBatchesNext(tables, name, cols, rows, bs, f, k);
      NoBatchFails(tables, name, cols, |rows|, bs, f, k - 1);
      FlattenPrefix(b, k);
      UpsertedAppend(tables[name], cols, Flatten(b[..k - 1]), b[k - 1]);
    }
  }

  /** Without a failing statement, no batch fails. */
  lemma NoBatchFails(tables: map<string, DestTable>, name: string, cols: seq<string>, n: nat, bs: nat, f: Faults, k: nat)
    requires forall p: nat :: p < n ==> !StatementFails(tables, name, cols, f, p)
    ensures !BatchFails(tables, name, cols, n, bs, f, k)
  {
  }

  // ---------------------------------------------------------------------------
  // One table

  datatype Abort = ProvisionFailed | NoTimestampColumn | StatusWriteFailed

  /** The remote database after one table's turn, and whether that turn ended the run. */
  datatype Step = Step(state: RemoteState, abort: Option<Abort>)

  /**
   * One iteration of `foreach ($tables as $table)`. `t` is the source table
   * while its rows are paged, `atMax` when the `MAX(time_stamp)` query runs.
   * The watermark is written whether or not batches were rolled back. A query
   * naming `time_stamp` on a table without that column raises into the outer
   * `catch`: the incremental `COUNT` before any batch, the `MAX` query after
   * the batches.
   */
  function TableStep(r: RemoteState, name: string, t: SourceTable, atMax: SourceTable, bs: nat, f: Faults): (s: Step)
    requires bs > 0
    ensures s.abort == Some(ProvisionFailed) <==> Provision(r, name, t, f).None?
    ensures s.abort == Some(NoTimestampColumn) <==>
              Provision(r, name, t, f).Some? && ((name in r.status && !HasTimestamp(t)) || !HasTimestamp(atMax))
    ensures s.abort == Some(StatusWriteFailed) <==>
              Provision(r, name, t, f).Some? && !(name in r.status && !HasTimestamp(t)) && HasTimestamp(atMax)
              && name in f.status
    ensures s.abort == Some(NoTimestampColumn) && name in r.status && !HasTimestamp(t) ==>
              s.state == Provision(r, name, t, f).value
    ensures s.abort == Some(ProvisionFailed) ==> s.state == r
    ensures s.abort != Some(ProvisionFailed) ==> name in s.state.tables
    ensures s.abort.None? ==> name in s.state.status
    ensures s.abort.Some? ==> s.state.status == r.status
    ensures s.state.hasStatus == r.hasStatus && r.tables.Keys <= s.state.tables.Keys
    ensures forall n :: n != name ==> (n in s.state.tables <==> n in r.tables) && (n in s.state.status <==> n in r.status)
    ensures forall n :: n != name && n in r.tables ==> s.state.tables[n] == r.tables[n]
    ensures forall n :: n != name && n in r.status ==> s.state.status[n] == r.status[n]
    ensures r.status.Keys <= s.state.status.Keys
    ensures s.abort.None? ==>
              s.state.status[name] == if name in r.status then MaxTimestamp(Newer(atMax.rows, r.status[name]))
                                      else MaxTimestamp(atMax.rows)
  {
    match Provision(r, name, t, f)
    case None => Step(r, Some(ProvisionFailed))
    case Some(r1) =>
      if name in r1.status && !HasTimestamp(t) then Step(r1, Some(NoTimestampColumn))
      else
        var rows := Fetched(r1.status, name, t.rows);
        var r2 := r1.(tables := ApplyBatches(r1.tables, name, t.columns, rows, bs, f, |Batches(rows, bs)|));
        if !HasTimestamp(atMax) then Step(r2, Some(NoTimestampColumn))
        else if name in f.status then Step(r2, Some(StatusWriteFailed))
        else if name !in r1.status then Step(r2.(status := r1.status[name := MaxTimestamp(atMax.rows)]), None)
        else Step(r2.(status := r1.status[name := MaxTimestamp(Newer(atMax.rows, r1.status[name]))]), None)
  }

  method SyncTable(db: RemoteDb, name: string, t: SourceTable, atMax: SourceTable, bs: nat, f: Faults)
    returns (abort: Option<Abort>)
    requires bs > 0
    modifies db
    ensures Step(db.State(), abort) == TableStep(old(db.State()), name, t, atMax, bs, f)
  {
    var remoteTableExists := TableLookup(db.tables, name);
    if !Truthy(remoteTableExists) {
      var ok := db.CreateTable(name, t, f);
      if !ok {
        return Some(ProvisionFailed);
      }
    }
    // The statement text is built as the script builds it; what it denotes is
    // fixed by `ColumnListDenotes` and `UpdateListDenotes`, and the upserts below
    // are stated over `t.columns` directly.
    var columnsList, placeholdersList, updateList := BuildLists(t.columns);
    var lastSync: Option<Option<int>> := if name in db.status then Some(db.status[name]) else None;
    if lastSync.None? {
      WriteBatches(db, name, t.columns, t.rows, bs, f);
      if !HasTimestamp(atMax) {
        return Some(NoTimestampColumn);
      }
      if name in f.status {
        return Some(StatusWriteFailed);
      }
      db.UpsertStatus(name, MaxTimestamp(atMax.rows));
    } else {
      if !HasTimestamp(t) {
        return Some(NoTimestampColumn);
      }
      WriteBatches(db, name, t.columns, Newer(t.rows, lastSync.value), bs, f);
      if !HasTimestamp(atMax) {
        return Some(NoTimestampColumn);
      }
      if name in f.status {
        return Some(StatusWriteFailed);
      }
      db.UpdateStatus(name, MaxTimestamp(Newer(atMax.rows, lastSync.value)));
    }
    abort := None;
  }

  /** An existing remote table named `"0"` reads as missing; its provisioning block raises and the run ends there. */
  lemma ZeroNamedTableAborts(r: RemoteState, t: SourceTable, atMax: SourceTable, bs: nat, f: Faults)
    requires bs > 0 && "0" in r.tables
    ensures TableStep(r, "0", t, atMax, bs, f) == Step(r, Some(ProvisionFailed))
  {
  }

  /**
   * Upsert failures never change how a turn ends nor the watermark it
   * writes: two fault sets that agree on DDL and watermark writes give the
   * same `sync_status`.
   */
  lemma WatermarkIgnoresStatementFaults(r: RemoteState, name: string, t: SourceTable, atMax: SourceTable, bs: nat,
                                        f: Faults, g: Faults)
    requires bs > 0 && f.ddl == g.ddl && f.status == g.status
    ensures TableStep(r, name, t, atMax, bs, f).abort == TableStep(r, name, t, atMax, bs, g).abort
    ensures TableStep(r, name, t, atMax, bs, f).state.status == TableStep(r, name, t, atMax, bs, g).state.status
  {
    assert Provision(r, name, t, f) == Provision(r, name, t, g);
  }

  /**
   * After a turn that writes its watermark, with no source change before the
   * `MAX` query, the next turn selects none of the rows this turn selected,
   * whether their batch was committed or rolled back.
   */
  lemma NoRowFetchedTwice(r: RemoteState, name: string, t: SourceTable, bs: nat, f: Faults)
    requires bs > 0 && TableStep(r, name, t, t, bs, f).abort.None?
    ensures var s := TableStep(r, name, t, t, bs, f).state;
            forall x :: x in Fetched(r.status, name, t.rows) ==> x !in Fetched(s.status, name, t.rows)
  {
    var s := TableStep(r, name, t, t, bs, f).state;
    var sel := Fetched(r.status, name, t.rows);
    forall x | x in sel
      ensures !NewerThan(x, s.status[name])
    {
      var i :| 0 <= i < |sel| && sel[i] == x;
      assert x in sel;
    }
  }

  /**
   * A full sync of a table without a `time_stamp` column commits every batch,
   * then the `MAX(time_stamp)` query raises and ends the run: no `sync_status`
   * row is written and no later table is synced.
   */
  lemma FullSyncWithoutTimestampAborts(r: RemoteState, name: string, t: SourceTable, bs: nat, f: Faults)
    requires bs > 0 && name in r.tables && name != "" && name != "0" && name !in r.status && !HasTimestamp(t)
    requires forall p: nat :: p < |t.rows| ==> !StatementFails(r.tables, name, t.columns, f, p)
    ensures TableStep(r, name, t, t, bs, f)
            == Step(r.(tables := r.tables[name := Upserted(r.tables[name], t.columns, t.rows)]), Some(NoTimestampColumn))
  {
    AllBatchesCommitted(r.tables, name, t.columns, t.rows, bs, f);
  }

  /** Rows with distinct keys keep them distinct across batches. */
  lemma BatchKeysDistinct(pk: seq<string>, cols: seq<string>, rows: seq<Row>, bs: nat, j: nat, i: nat, j': nat, i': nat)
    requires bs > 0 && DistinctKeys(pk, cols, rows) && j != j'
    requires j < |Batches(rows, bs)| && i < |Batches(rows, bs)[j]|
    requires j' < |Batches(rows, bs)| && i' < |Batches(rows, bs)[j']|
    ensures RowKey(pk, cols, Batches(rows, bs)[j][i]) != RowKey(pk, cols, Batches(rows, bs)[j'][i'])
  {
    BatchItem(rows, bs, j, i);
    BatchItem(rows, bs, j', i');
    BatchPositionsDisjoint(bs, j, i, j', i');
  }

  /**
   * A row whose batch is rolled back is lost: if its key was not already in
   * the remote table and no other selected row has that key, the key is
   * still absent after the turn, and the next turn (source unchanged) does
   * not select the row again.
   */
  lemma RolledBackRowLost(r: RemoteState, name: string, t: SourceTable, bs: nat, f: Faults, j: nat, i: nat)
    requires bs > 0 && name in r.tables && name != "" && name != "0"
    requires TableStep(r, name, t, t, bs, f).abort.None?
    requires var rows := Fetched(r.status, name, t.rows);
             && DistinctKeys(r.tables[name].primaryKey, t.columns, rows)
             && j < |Batches(rows, bs)| && i < |Batches(rows, bs)[j]|
             && BatchFails(r.tables, name, t.columns, |rows|, bs, f, j)
             && RowKey(r.tables[name].primaryKey, t.columns, Batches(rows, bs)[j][i]) !in r.tables[name].rows
    ensures var rows := Fetched(r.status, name, t.rows);
            var x := Batches(rows, bs)[j][i];
            var s := TableStep(r, name, t, t, bs, f).state;
            && RowKey(r.tables[name].primaryKey, t.columns, x) !in s.tables[name].rows
            && x !in Fetched(s.status, name, t.rows)
  {
    var rows := Fetched(r.status, name, t.rows);
    var b := Batches(rows, bs);
    var pk := r.tables[name].primaryKey;
    var x := b[j][i];
    forall j', i' | 0 <= j' < |b| && 0 <= i' < |b[j']| && !BatchFails(r.tables, name, t.columns, |rows|, bs, f, j')
      ensures RowKey(pk, t.columns, b[j'][i']) != RowKey(pk, t.columns, x)
    {
      assert j' != j;
      BatchKeysDistinct(pk, t.columns, rows, bs, j, i, j', i');
    }
    ApplyBatchesUntouched(r.tables, name, t.columns, rows, bs, f, |b|, RowKey(pk, t.columns, x));
    BatchItem(rows, bs, j, i);
    NoRowFetchedTwice(r, name, t, bs, f);
  }

  /**
   * Without any failure, a table turn leaves the remote database exactly as
   * the Python script's `create_table_if_not_exists` followed by its
   * `sync_table` pass does, whether the table existed or had to be created.
   */
  lemma AgreesWithPython(r: RemoteState, name: string, t: SourceTable, atMax: SourceTable, bs: nat, f: Faults)
    requires bs > 0 && Provision(r, name, t, f).Some? && HasTimestamp(atMax)
    requires PySync.Healthy(Provision(r, name, t, f).value, name, t.columns, f)
    ensures PySync.Provision(r, name, t, f) == Provision(r, name, t, f)
    ensures TableStep(r, name, t, atMax, bs, f)
            == Step(PySync.SyncTableSpec(Provision(r, name, t, f).value, name, t, atMax, bs, f).state, None)
  {
    var r1 := Provision(r, name, t, f).value;
    AllBatchesCommitted(r1.tables, name, t.columns, Fetched(r1.status, name, t.rows), bs, f);
    PySync.HealthyPassWrites(r1, name, t, atMax, bs, f);
  }

  /** A remote table lacking one of the named columns rejects every batch: nothing is committed. */
  lemma {:induction false} NothingCommitted(tables: map<string, DestTable>, name: string, cols: seq<string>, rows: seq<Row>,
                                            bs: nat, f: Faults, k: nat)
    requires bs > 0 && k <= |Batches(rows, bs)| && name in tables && !HasColumns(tables[name], cols)
    ensures ApplyBatches(tables, name, cols, rows, bs, f, k) == tables
    decreases k
  {
    if k > 0 {
      NothingCommitted(tables, name, cols, rows, bs, f, k - 1);
      BatchAt(rows, bs, k - 1);
      assert StatementFails(tables, name, cols, f, Offset(k - 1, bs));
      FailedBatch(tables, name, cols, rows, bs, f, k);
    }
  }

  /**
   * An existing remote table whose columns drifted from the source's: every
   * batch is rolled back, yet the watermark is written, so the selected rows
   * are never copied.
   */
  lemma SchemaDriftLosesRows(r: RemoteState, name: string, t: SourceTable, atMax: SourceTable, bs: nat, f: Faults)
    requires bs > 0 && name in r.tables && name != "" && name != "0" && !HasColumns(r.tables[name], t.columns)
    requires HasTimestamp(t) && HasTimestamp(atMax) && name !in f.status
    ensures var s := TableStep(r, name, t, atMax, bs, f);
            s.abort.None? && s.state.tables == r.tables && name in s.state.status
  {
    var rows := Fetched(r.status, name, t.rows);
    NothingCommitted(r.tables, name, t.columns, rows, bs, f, |Batches(rows, bs)|);
  }

  /** Without a failing statement the batch loop upserts every row, in order, and nothing else. */
  lemma AllBatchesCommitted(tables: map<string, DestTable>, name: string, cols: seq<string>, rows: seq<Row>,
                            bs: nat, f: Faults)
    requires bs > 0 && name in tables
    requires forall p: nat :: p < |rows| ==> !StatementFails(tables, name, cols, f, p)
    ensures ApplyBatches(tables, name, cols, rows, bs, f, |Batches(rows, bs)|)
            == tables[name := Upserted(tables[name], cols, rows)]
  {
    var b := Batches(rows, bs);
    ApplyBatchesAll(tables, name, cols, rows, bs, f, |b|);
    assert b[..|b|] == b;
    BatchesFlatten(rows, bs);
  }

  // ---------------------------------------------------------------------------
  // The whole run

  datatype RunOutcome = Completed | Aborted(table: string, reason: Abort)
  datatype Run = Run(state: RemoteState, outcome: RunOutcome)

  /** Every name in the list is a source table. */
  ghost predicate AllListed(names: seq<string>, src: SourceDb)
  {
    forall i :: 0 <= i < |names| ==> names[i] in src.tables
  }

  /**
   * The table loop over the first `m` names (each table read once); the
   * first abort ends it.
   */
  function RunTables(r: RemoteState, src: SourceDb, names: seq<string>, m: nat, bs: nat, f: Faults): (res: Run)
    requires bs > 0 && m <= |names| && AllListed(names, src)
    ensures res.state.hasStatus == r.hasStatus && r.tables.Keys <= res.state.tables.Keys
    ensures r.status.Keys <= res.state.status.Keys
    decreases m
  {
    if m == 0 then Run(r, Completed)
    else
      var before := RunTables(r, src, names, m - 1, bs, f);
      if before.outcome.Aborted? then before
      else
        var t := src.tables[names[m - 1]];
        var s := TableStep(before.state, names[m - 1], t, t, bs, f);
        Run(s.state, if s.abort.Some? then Aborted(names[m - 1], s.abort.value) else Completed)
  }

  /** The script: create `sync_status` if needed, then sync every listed table in turn. */
  function SyncDatabaseSpec(r: RemoteState, src: SourceDb, bs: nat, f: Faults): (run: Run)
    requires bs > 0 && Listed(src)
    ensures run.state.hasStatus && r.tables.Keys <= run.state.tables.Keys
  {
    RunTables(EnsureStatusTable(r), src, src.names, |src.names|, bs, f)
  }

  /** Tables the loop never reaches, and tables not listed at all, are left alone. */
  lemma {:induction false} RunFrame(r: RemoteState, src: SourceDb, names: seq<string>, m: nat, bs: nat, f: Faults, n: string)
    requires bs > 0 && m <= |names| && AllListed(names, src)
    requires n !in names[..m]
    ensures var s := RunTables(r, src, names, m, bs, f).state;
            && (n in s.tables <==> n in r.tables) && (n in r.tables ==> s.tables[n] == r.tables[n])
            && (n in s.status <==> n in r.status) && (n in r.status ==> s.status[n] == r.status[n])
    decreases m
  {
    if m > 0 {
      assert names[..m - 1] <= names[..m];
      RunFrame(r, src, names, m - 1, bs, f, n);
    }
  }

  /** Once a table aborts the run, the rest of the list is never attempted. */
  lemma {:induction false} RunStopsEarly(r: RemoteState, src: SourceDb, names: seq<string>, j: nat, m: nat, bs: nat, f: Faults)
    requires bs > 0 && j <= m <= |names| && AllListed(names, src)
    requires RunTables(r, src, names, j, bs, f).outcome.Aborted?
    ensures RunTables(r, src, names, m, bs, f) == RunTables(r, src, names, j, bs, f)
    decreases m
  {
    if j < m {
      RunStopsEarly(r, src, names, j, m - 1, bs, f);
      RunStaysAborted(r, src, names, m, bs, f, RunTables(r, src, names, j, bs, f));
    }
  }

  /** An aborted run is not extended by one more table. */
  lemma RunStaysAborted(r: RemoteState, src: SourceDb, names: seq<string>, m: nat, bs: nat, f: Faults, run: Run)
    requires bs > 0 && 0 < m <= |names| && AllListed(names, src)
    requires RunTables(r, src, names, m - 1, bs, f) == run && run.outcome.Aborted?
    ensures RunTables(r, src, names, m, bs, f) == run
  {
  }

  /** A table listed after the one that aborted the run keeps its remote table and watermark. */
  lemma AbortSkipsRest(r: RemoteState, src: SourceDb, names: seq<string>, j: nat, bs: nat, f: Faults, n: string)
    requires bs > 0 && j <= |names| && AllListed(names, src)
    requires RunTables(r, src, names, j, bs, f).outcome.Aborted? && n !in names[..j]
    ensures var s := RunTables(r, src, names, |names|, bs, f).state;
            && (n in s.tables <==> n in r.tables) && (n in r.tables ==> s.tables[n] == r.tables[n])
            && (n in s.status <==> n in r.status) && (n in r.status ==> s.status[n] == r.status[n])
  {
    RunStopsEarly(r, src, names, j, |names|, bs, f);
    RunFrame(r, src, names, j, bs, f, n);
  }

  /** Every name in the list is a source table with a `time_stamp` column. */
  ghost predicate AllTimestamped(names: seq<string>, src: SourceDb)
  {
    forall i :: 0 <= i < |names| ==> names[i] in src.tables && HasTimestamp(src.tables[names[i]])
  }

  /**
   * Without DDL or watermark failures, with a `time_stamp` column in every
   * listed table and no listed name that PHP reads as false, the run completes and every listed table exists remotely with a
   * `sync_status` row, even if some of its batches were rolled back.
   */
  lemma {:induction false} RunCompletes(r: RemoteState, src: SourceDb, names: seq<string>, m: nat, bs: nat, f: Faults)
    requires bs > 0 && m <= |names| && AllListed(names, src)
    requires f.ddl == {} && f.status == {} && "" !in names && "0" !in names && AllTimestamped(names, src)
    ensures var res := RunTables(r, src, names, m, bs, f);
            && res.outcome == Completed
            && forall n :: n in names[..m] ==> n in res.state.tables && n in res.state.status
    decreases m
  {
    if m > 0 {
      var k := m - 1;
      RunCompletes(r, src, names, k, bs, f);
      var before := RunTables(r, src, names, k, bs, f);
      var t := src.tables[names[k]];
      var s := TableStep(before.state, names[k], t, t, bs, f);
      StepCompletes(before.state, names[k], t, bs, f);
      RunNext(r, src, names, k, bs, f, before.state, s);
      PrefixMembers(names, k);
    }
  }

  /** The names among the first `k + 1` are those among the first `k` and name `k`. */
  lemma PrefixMembers(names: seq<string>, k: nat)
    requires k < |names|
    ensures forall n :: n in names[..k + 1] <==> n in names[..k] || n == names[k]
  {
    assert names[..k + 1] == names[..k] + [names[k]];
  }

  /**
   * Without DDL or watermark failures, a turn on a table with a `time_stamp`
   * column and a name PHP reads as true completes and keeps every table and row.
   */
  lemma StepCompletes(r: RemoteState, name: string, t: SourceTable, bs: nat, f: Faults)
    requires bs > 0 && f.ddl == {} && f.status == {} && name != "" && name != "0" && HasTimestamp(t)
    ensures var s := TableStep(r, name, t, t, bs, f);
            && s.abort.None? && name in s.state.tables && name in s.state.status
            && r.tables.Keys <= s.state.tables.Keys && r.status.Keys <= s.state.status.Keys
  {
  }

  /** The table loop. */
  method SyncTables(db: RemoteDb, src: SourceDb, tables: seq<string>, bs: nat, f: Faults) returns (outcome: RunOutcome)
    requires bs > 0 && AllListed(tables, src)
    modifies db
    ensures Run(db.State(), outcome) == RunTables(old(db.State()), src, tables, |tables|, bs, f)
  {
    ghost var r0 := db.State();
    var i := 0;
    while i < |tables|
      invariant 0 <= i <= |tables|
      invariant RunTables(r0, src, tables, i, bs, f) == Run(db.State(), Completed)
    {
      var t := src.tables[tables[i]];
      ghost var before := db.State();
      var abort := SyncTable(db, tables[i], t, t, bs, f);
      RunNext(r0, src, tables, i, bs, f, before, Step(db.State(), abort));
      if abort.Some? {
        RunStopsEarly(r0, src, tables, i + 1, |tables|, bs, f);
        return Aborted(tables[i], abort.value);
      }
      i := i + 1;
    }
    outcome := Completed;
  }

  /** One more turn of the table loop after a run that has not aborted. */
  lemma RunNext(r0: RemoteState, src: SourceDb, names: seq<string>, i: nat, bs: nat, f: Faults, r: RemoteState, s: Step)
    requires bs > 0 && i < |names| && AllListed(names, src)
    requires RunTables(r0, src, names, i, bs, f) == Run(r, Completed)
    requires s == TableStep(r, names[i], src.tables[names[i]], src.tables[names[i]], bs, f)
    ensures RunTables(r0, src, names, i + 1, bs, f)
            == Run(s.state, if s.abort.Some? then Aborted(names[i], s.abort.value) else Completed)
  {
  }

  /** The script's `try` block: `CREATE TABLE IF NOT EXISTS sync_status`, `SHOW TABLES`, the table loop. */
  method SyncDatabase(db: RemoteDb, src: SourceDb, f: Faults) returns (outcome: RunOutcome)
    requires Listed(src)
    modifies db
    ensures Run(db.State(), outcome) == SyncDatabaseSpec(old(db.State()), src, BatchSize, f)
  {
    db.CreateStatusTable();
    var tables := src.names;
    outcome := SyncTables(db, src, tables, BatchSize, f);
  }
}
