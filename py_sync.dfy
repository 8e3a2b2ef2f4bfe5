/**
 * The Python script (`sync_to_remote_mysql_db.py`): provisioning of missing
 * remote tables, the batched upsert writer, the per-table full/incremental
 * sync, and the sequencing in `main`.
 *
 * Each operation is a method on the remote database object, proved against a
 * specification function on values; the properties of the script are lemmas
 * about those functions.
 */
module PySync {
  import opened Fragments
  import opened Sql
  import opened Batching
  import opened Remote

  /** `batch_size` */
  const BatchSize: nat := 1000

  // ---------------------------------------------------------------------------
  // create_table_if_not_exists

  /**
   * `SHOW TABLES LIKE name` finds the table (taken as an exact-name match):
   * nothing happens; otherwise the table is created from the source DDL.
   */
  function Provision(r: RemoteState, name: string, t: SourceTable, f: Faults): (res: Option<RemoteState>)
    ensures res.None? <==> name !in r.tables && name in f.ddl
    ensures res.Some? ==> name in res.value.tables && res.value.status == r.status
                          && res.value.hasStatus == r.hasStatus
                          && res.value.tables.Keys == r.tables.Keys + {name}
                          && (forall n :: n in r.tables ==> res.value.tables[n] == r.tables[n])
    ensures name in r.tables ==> res == Some(r)
    ensures name !in r.tables && res.Some? ==> res.value.tables[name] == Created(t)
  {
    if name in r.tables then Some(r)
    else
      match AfterCreate(r.tables, name, t, f)
      case None => None
      case Some(tables) => Some(r.(tables := tables))
  }

  /** Provisioning twice is provisioning once. */
  lemma ProvisionIdempotent(r: RemoteState, name: string, t: SourceTable, f: Faults)
    requires Provision(r, name, t, f).Some?
    ensures Provision(Provision(r, name, t, f).value, name, t, f) == Provision(r, name, t, f)
  {
  }

  method CreateTableIfNotExists(db: RemoteDb, name: string, t: SourceTable, f: Faults) returns (ok: bool)
    modifies db
    ensures var res := Provision(old(db.State()), name, t, f);
            ok == res.Some? && db.State() == if ok then res.value else old(db.State())
  {
    var found := name in db.tables;
    if !found {
      ok := db.CreateTable(name, t, f);
    } else {
      ok := true;
    }
  }

  // ---------------------------------------------------------------------------
  // insert_rows_in_batches

  datatype WriteOutcome = Committed | RolledBack(batch: nat)

  /** The outcome of the writer and the remote tables afterwards. */
  datatype Written = Written(outcome: WriteOutcome, tables: map<string, DestTable>)

  /** The first batch from `k` on whose `executemany` raises. */
  function FirstFailingBatch(tables: map<string, DestTable>, name: string, cols: seq<string>, rows: seq<Row>,
                             bs: nat, f: Faults, k: nat): (b: Option<nat>)
    requires bs > 0
    ensures b.Some? ==> k <= b.value < |Batches(rows, bs)| && BatchFails(tables, name, cols, |rows|, bs, f, b.value)
    ensures forall j :: k <= j < |Batches(rows, bs)| && (b.None? || j < b.value) ==>
                          !BatchFails(tables, name, cols, |rows|, bs, f, j)
    decreases |Batches(rows, bs)| - k
  {
    if k >= |Batches(rows, bs)| then None
    else if BatchFails(tables, name, cols, |rows|, bs, f, k) then Some(k)
    else FirstFailingBatch(tables, name, cols, rows, bs, f, k + 1)
  }

  /**
   * All batches run in one transaction, committed after the last one. When a
   * batch raises, the commit is never reached and closing the connection
   * discards the uncommitted batches.
   */
  function InsertRowsSpec(tables: map<string, DestTable>, name: string, cols: seq<string>, rows: seq<Row>,
                          bs: nat, f: Faults): (w: Written)
    requires bs > 0
    ensures w.tables.Keys == tables.Keys
    ensures forall n :: n in tables && n != name ==> w.tables[n] == tables[n]
    ensures w.outcome.RolledBack? ==> w.tables == tables
    ensures rows == [] ==> w == Written(Committed, tables)
    ensures forall n :: n in tables ==> w.tables[n].columns == tables[n].columns
                                        && w.tables[n].primaryKey == tables[n].primaryKey
  {
    match FirstFailingBatch(tables, name, cols, rows, bs, f, 0)
    case Some(k) => Written(RolledBack(k), tables)
    case None =>
      if name in tables then Written(Committed, tables[name := Upserted(tables[name], cols, rows)])
      else Written(Committed, tables)
  }

  /** When no statement raises, every row is upserted, in order, and committed. */
  lemma InsertRowsCommitsAll(tables: map<string, DestTable>, name: string, cols: seq<string>, rows: seq<Row>,
                             bs: nat, f: Faults)
    requires bs > 0 && name in tables
    requires forall p: nat :: p < |rows| ==> !StatementFails(tables, name, cols, f, p)
    ensures InsertRowsSpec(tables, name, cols, rows, bs, f)
            == Written(Committed, tables[name := Upserted(tables[name], cols, rows)])
  {
  }

  /** `insert_rows_in_batches`: the batch loop inside the open transaction, then `commit`. */
  method InsertRowsInBatches(db: RemoteDb, name: string, rows: seq<Row>, cols: seq<string>, bs: nat, f: Faults)
    returns (outcome: WriteOutcome)
    requires bs > 0
    modifies db
    ensures var w := InsertRowsSpec(old(db.tables), name, cols, rows, bs, f);
            outcome == w.outcome && db.tables == w.tables
    ensures db.status == old(db.status) && db.hasStatus == old(db.hasStatus)
  {
    var failed, pending := ExecuteBatches(db.tables, name, rows, cols, bs, f);
    if failed.Some? {
      // the exception skips `commit`; the open transaction is discarded
      return RolledBack(failed.value);
    }
    if name in db.tables {
      db.Commit(name, pending);
    }
    outcome := Committed;
  }

  /**
   * The `for i in range(0, len(rows), batch_size)` loop: each batch's
   * `executemany` runs, in order, in the open transaction, whose view of the
   * table is `pending`; the first batch that raises ends the loop, reported
   * as `failed`.
   */
  method ExecuteBatches(tables: map<string, DestTable>, name: string, rows: seq<Row>, cols: seq<string>,
                        bs: nat, f: Faults)
    returns (failed: Option<nat>, pending: DestTable)
    requires bs > 0
    ensures failed == FirstFailingBatch(tables, name, cols, rows, bs, f, 0)
    ensures failed.None? && name in tables ==> pending == Upserted(tables[name], cols, rows)
  {
    var start := if name in tables then tables[name] else DestTable([], [], map[]);
    pending := start;
    var i: nat := 0;
    var k: nat := 0;
    ghost var done: nat := 0;
    BatchAt(rows, bs, 0);
    while i < |rows|
      invariant i == Offset(k, bs) && k <= |Batches(rows, bs)|
      invariant k < |Batches(rows, bs)| <==> i < |rows|
      invariant FirstFailingBatch(tables, name, cols, rows, bs, f, 0)
                == FirstFailingBatch(tables, name, cols, rows, bs, f, k)
      invariant done == Min(i, |rows|) && pending == Upserted(start, cols, rows[..done])
    {
      if BatchFails(tables, name, cols, |rows|, bs, f, k) {
        return Some(k), pending;
      }
      InsertStep(tables, name, cols, rows, bs, f, k, i);
      var next := Min(i + bs, |rows|);
      var values := Tuples(cols, rows[i..next]);
      pending := ExecuteStep(start, cols, rows, i, next, pending, values);
      done := next;
      i := i + bs;
      k := k + 1;
    }
    assert rows[..done] == rows;
    failed := None;
  }

  /** One batch's `executemany` on the transaction's view extends the upserted prefix. */
  function ExecuteStep(start: DestTable, cols: seq<string>, rows: seq<Row>, i: nat, next: nat, pending: DestTable,
                       values: seq<seq<Value>>): (pending': DestTable)
    requires i <= next <= |rows| && pending == Upserted(start, cols, rows[..i]) && values == Tuples(cols, rows[i..next])
    ensures pending' == Upserted(start, cols, rows[..next])
  {
    UpsertedMore(start, cols, rows, i, next, pending);
    ExecMany(pending, cols, values)
  }

  /**
   * A batch that does not raise: the table exists, the first failing batch is
   * still ahead, and the loop test tells whether another batch follows.
   */
  lemma InsertStep(tables: map<string, DestTable>, name: string, cols: seq<string>, rows: seq<Row>,
                   bs: nat, f: Faults, k: nat, i: nat)
    requires bs > 0 && k < |Batches(rows, bs)| && i == Offset(k, bs)
    requires !BatchFails(tables, name, cols, |rows|, bs, f, k)
    ensures i < |rows| && name in tables && i + bs == Offset(k + 1, bs)
    ensures FirstFailingBatch(tables, name, cols, rows, bs, f, k)
            == FirstFailingBatch(tables, name, cols, rows, bs, f, k + 1)
    ensures k + 1 < |Batches(rows, bs)| <==> i + bs < |rows|
  {
    BatchAt(rows, bs, k);
    BatchAt(rows, bs, k + 1);
    assert !StatementFails(tables, name, cols, f, i);
  }

  // ---------------------------------------------------------------------------
  // sync_table

  datatype Failure = NoStatusTable | NoTimestampColumn | WriteFailed(batch: nat) | StatusWriteFailed
  datatype Outcome = Done | Failed(failure: Failure)

  /** The remote database after one `sync_table` pass, and how the pass ended. */
  datatype Pass = Pass(state: RemoteState, outcome: Outcome)

  /**
   * One `sync_table(name)` pass. `t` is the source table when its rows are
   * fetched, `atMax` when the separate `MAX(time_stamp)` query runs. A query
   * naming `time_stamp` on a table without that column raises: the
   * incremental fetch before anything is written, the `MAX` query after the
   * rows are committed.
   */
  function SyncTableSpec(r: RemoteState, name: string, t: SourceTable, atMax: SourceTable, bs: nat, f: Faults): (p: Pass)
    requires bs > 0
    ensures p.state.hasStatus == r.hasStatus && p.state.tables.Keys == r.tables.Keys
    ensures forall n :: n in r.tables && n != name ==> p.state.tables[n] == r.tables[n]
    ensures forall n :: n != name ==> (n in p.state.status <==> n in r.status)
    ensures forall n :: n in r.status && n != name ==> p.state.status[n] == r.status[n]
    ensures forall n :: n in r.tables ==> p.state.tables[n].columns == r.tables[n].columns
    ensures p.outcome != Done ==> p.state.status == r.status
    ensures p.outcome.Failed? && (p.outcome.failure.NoStatusTable? || p.outcome.failure.WriteFailed?) ==> p.state == r
    ensures p.outcome == Done ==> name in p.state.status && HasTimestamp(atMax) && (name in r.status ==> HasTimestamp(t))
    ensures r.hasStatus && !HasTimestamp(atMax) ==> p.outcome.Failed?
    ensures r.hasStatus && name in r.status && !HasTimestamp(t) ==> p == Pass(r, Failed(NoTimestampColumn))
    ensures p.outcome == Done ==>
              p.state.status[name] == if name in r.status then MaxTimestamp(Newer(atMax.rows, r.status[name]))
                                      else MaxTimestamp(atMax.rows)
  {
    if !r.hasStatus then Pass(r, Failed(NoStatusTable))
    else if name in r.status && !HasTimestamp(t) then Pass(r, Failed(NoTimestampColumn))
    else
      var rows := Fetched(r.status, name, t.rows);
      var w := InsertRowsSpec(r.tables, name, t.columns, rows, bs, f);
      if w.outcome.RolledBack? then Pass(r, Failed(WriteFailed(w.outcome.batch)))
      else
        var r1 := r.(tables := w.tables);
        if !HasTimestamp(atMax) then Pass(r1, Failed(NoTimestampColumn))
        else if name in f.status then Pass(r1, Failed(StatusWriteFailed))
        else if name !in r.status then Pass(r1.(status := r.status[name := MaxTimestamp(atMax.rows)]), Done)
        else Pass(r1.(status := r.status[name := MaxTimestamp(Newer(atMax.rows, r.status[name]))]), Done)
  }

  method SyncTable(db: RemoteDb, name: string, t: SourceTable, atMax: SourceTable, bs: nat, f: Faults)
    returns (outcome: Outcome)
    requires bs > 0
    modifies db
    ensures Pass(db.State(), outcome) == SyncTableSpec(old(db.State()), name, t, atMax, bs, f)
  {
    if !db.hasStatus {
      return Failed(NoStatusTable);
    }
    var columnNames := t.columns;
    var lastSync: Option<Option<int>> := if name in db.status then Some(db.status[name]) else None;
    if lastSync.Some? && !HasTimestamp(t) {
      return Failed(NoTimestampColumn);
    }
    var rows := if lastSync.None? then t.rows else Newer(t.rows, lastSync.value);
    var written := InsertRowsInBatches(db, name, rows, columnNames, bs, f);
    if written.RolledBack? {
      return Failed(WriteFailed(written.batch));
    }
    if !HasTimestamp(atMax) {
      return Failed(NoTimestampColumn);
    }
    if name in f.status {
      return Failed(StatusWriteFailed);
    }
    if lastSync.None? {
      db.UpsertStatus(name, MaxTimestamp(atMax.rows));
    } else {
      db.UpdateStatus(name, MaxTimestamp(Newer(atMax.rows, lastSync.value)));
    }
    outcome := Done;
  }

  /** No statement for this table can raise. */
  ghost predicate Healthy(r: RemoteState, name: string, cols: seq<string>, f: Faults)
  {
    r.hasStatus && name in r.tables && HasColumns(r.tables[name], cols)
    && TimeStampColumn in cols && UpdateColumns(cols) != [] && name !in f.status
    && forall p: nat :: (name, p) !in f.statements
  }

  /** A healthy pass ends `Done` with the fetched rows upserted. */
  lemma HealthyPassWrites(r: RemoteState, name: string, t: SourceTable, atMax: SourceTable, bs: nat, f: Faults)
    requires bs > 0 && Healthy(r, name, t.columns, f) && HasTimestamp(atMax)
    ensures var p := SyncTableSpec(r, name, t, atMax, bs, f);
            p.outcome == Done
            && p.state.tables == r.tables[name := Upserted(r.tables[name], t.columns, Fetched(r.status, name, t.rows))]
  {
    InsertRowsCommitsAll(r.tables, name, t.columns, Fetched(r.status, name, t.rows), bs, f);
  }

  /**
   * No `sync_status` row: a full sync. Every source row is mirrored and
   * `last_sync` becomes `MAX(time_stamp)` of the whole table, NULL when the
   * table has no timestamp.
   */
  lemma FullSyncMirrorsSource(r: RemoteState, name: string, t: SourceTable, bs: nat, f: Faults)
    requires bs > 0 && Healthy(r, name, t.columns, f) && name !in r.status
    requires DistinctKeys(r.tables[name].primaryKey, t.columns, t.rows)
    ensures var p := SyncTableSpec(r, name, t, t, bs, f);
            && p.outcome == Done
            && (forall i :: 0 <= i < |t.rows| ==> Mirrors(p.state.tables[name], t.columns, t.rows[i]))
            && p.state.status[name] == MaxTimestamp(t.rows)
  {
    HealthyPassWrites(r, name, t, t, bs, f);
    UpsertedMirrors(r.tables[name], t.columns, t.rows);
  }

  /**
   * A full sync of a table without a `time_stamp` column commits every row,
   * then the `MAX(time_stamp)` query raises: no `sync_status` row is written,
   * so the next run does a full sync again.
   */
  lemma FullSyncWithoutTimestamp(r: RemoteState, name: string, t: SourceTable, bs: nat, f: Faults)
    requires bs > 0 && r.hasStatus && name in r.tables && name !in r.status && !HasTimestamp(t)
    requires forall p: nat :: p < |t.rows| ==> !StatementFails(r.tables, name, t.columns, f, p)
    ensures SyncTableSpec(r, name, t, t, bs, f)
            == Pass(r.(tables := r.tables[name := Upserted(r.tables[name], t.columns, t.rows)]), Failed(NoTimestampColumn))
    ensures name !in SyncTableSpec(r, name, t, t, bs, f).state.status
  {
    InsertRowsCommitsAll(r.tables, name, t.columns, t.rows, bs, f);
  }

  /**
   * An existing remote table whose columns drifted from the source's: the
   * first `executemany` raises and the pass fails with nothing written.
   */
  lemma SchemaDriftRollsBack(r: RemoteState, name: string, t: SourceTable, atMax: SourceTable, bs: nat, f: Faults)
    requires bs > 0 && r.hasStatus && name in r.tables && !HasColumns(r.tables[name], t.columns)
    requires !(name in r.status && !HasTimestamp(t)) && Fetched(r.status, name, t.rows) != []
    ensures SyncTableSpec(r, name, t, atMax, bs, f) == Pass(r, Failed(WriteFailed(0)))
  {
    var rows := Fetched(r.status, name, t.rows);
    BatchAt(rows, bs, 0);
    assert StatementFails(r.tables, name, t.columns, f, 0);
    assert BatchFails(r.tables, name, t.columns, |rows|, bs, f, 0);
  }

  /**
   * A `sync_status` row with a non-NULL `last_sync`: when the source has newer
   * rows, the new `last_sync` is strictly greater; when it has none, the
   * UPDATE stores NULL.
   */
  lemma IncrementalWatermark(r: RemoteState, name: string, t: SourceTable, atMax: SourceTable, bs: nat, f: Faults, w: int)
    requires bs > 0 && name in r.status && r.status[name] == Some(w)
    requires SyncTableSpec(r, name, t, atMax, bs, f).outcome == Done
    ensures var last := SyncTableSpec(r, name, t, atMax, bs, f).state.status[name];
            && ((exists i :: 0 <= i < |atMax.rows| && NewerThan(atMax.rows[i], Some(w))) ==> last.Some? && last.value > w)
            && ((forall i :: 0 <= i < |atMax.rows| ==> !NewerThan(atMax.rows[i], Some(w))) ==> last.None?)
            && last == MaxTimestamp(Newer(atMax.rows, Some(w)))
  {
    MaxOfNewer(atMax.rows, w);
  }

  /**
   * A `sync_status` row whose `last_sync` is NULL still selects an
   * incremental sync, and `time_stamp > NULL` selects nothing: the pass
   * writes no row and leaves `last_sync` NULL, whatever the source holds.
   */
  lemma NullWatermarkStalls(r: RemoteState, name: string, t: SourceTable, atMax: SourceTable, bs: nat, f: Faults)
    requires bs > 0 && r.hasStatus && name in r.status && r.status[name] == None
    ensures var p := SyncTableSpec(r, name, t, atMax, bs, f);
            p.state.tables == r.tables && p.state.status == r.status
  {
    assert Fetched(r.status, name, t.rows) == [];
    assert Newer(atMax.rows, None) == [];
  }

  /** The source snapshots seen by successive passes (fetch and `MAX` alike). */
  function Passes(r: RemoteState, name: string, snapshots: seq<SourceTable>, bs: nat, f: Faults): RemoteState
    requires bs > 0
    decreases |snapshots|
  {
    if |snapshots| == 0 then r
    else Passes(SyncTableSpec(r, name, snapshots[0], snapshots[0], bs, f).state, name, snapshots[1..], bs, f)
  }

  /** Once `last_sync` is NULL, no later pass ever writes a row of that table again. */
  lemma {:induction false} StalledForever(r: RemoteState, name: string, snapshots: seq<SourceTable>, bs: nat, f: Faults)
    requires bs > 0 && r.hasStatus && name in r.status && r.status[name] == None
    ensures Passes(r, name, snapshots, bs, f) == r
    decreases |snapshots|
  {
    if |snapshots| > 0 {
      NullWatermarkStalls(r, name, snapshots[0], snapshots[0], bs, f);
      StalledForever(r, name, snapshots[1..], bs, f);
    }
  }

  /**
   * Running the script twice with no source change: the first (full) pass
   * sets `last_sync` to the table's maximum, the second selects no row,
   * changes no row, and stores NULL as `last_sync`.
   */
  lemma SecondPassClearsWatermark(r: RemoteState, name: string, t: SourceTable, bs: nat, f: Faults)
    requires bs > 0 && Healthy(r, name, t.columns, f) && name !in r.status
    requires exists i :: 0 <= i < |t.rows| && TimestampOf(t.rows[i]).Some?
    ensures var first := SyncTableSpec(r, name, t, t, bs, f);
            var second := SyncTableSpec(first.state, name, t, t, bs, f);
            && first.outcome == Done && first.state.status[name].Some?
            && second.outcome == Done && second.state.tables == first.state.tables
            && second.state.status[name] == None
  {
    HealthyPassWrites(r, name, t, t, bs, f);
    var first := SyncTableSpec(r, name, t, t, bs, f);
    var m := MaxTimestamp(t.rows);
    NothingNewerThanMax(t.rows);
    assert Fetched(first.state.status, name, t.rows) == [];
    HealthyPassWrites(first.state, name, t, t, bs, f);
    assert Upserted(first.state.tables[name], t.columns, []) == first.state.tables[name];
    assert first.state.tables[name := first.state.tables[name]] == first.state.tables;
  }

  /** Filtering keeps primary keys distinct. */
  lemma {:induction false} NewerDistinct(pk: seq<string>, cols: seq<string>, rows: seq<Row>, w: Option<int>)
    requires DistinctKeys(pk, cols, rows)
    ensures DistinctKeys(pk, cols, Newer(rows, w))
  {
    if |rows| > 0 {
      var rest := rows[1..];
      assert DistinctKeys(pk, cols, rest) by {
        forall i, j | 0 <= i < |rest| && 0 <= j < |rest| && i != j
          ensures RowKey(pk, cols, rest[i]) != RowKey(pk, cols, rest[j])
        {
          assert rest[i] == rows[i + 1] && rest[j] == rows[j + 1];
        }
      }
      NewerDistinct(pk, cols, rest, w);
      var tail := Newer(rest, w);
      forall x | x in tail
        ensures RowKey(pk, cols, x) != RowKey(pk, cols, rows[0])
      {
        var j :| 0 <= j < |rest| && rest[j] == x;
        assert rows[j + 1] == x;
      }
    }
  }

  /** The destination mirrors every row of `s` and `last_sync` is a timestamp. */
  ghost predicate CaughtUp(r: RemoteState, name: string, s: SourceTable)
  {
    name in r.tables && name in r.status && r.status[name].Some?
    && forall i :: 0 <= i < |s.rows| ==> Mirrors(r.tables[name], s.columns, s.rows[i])
  }

  /** Every row of `t` is an unchanged row of `s` or has a timestamp above `w`. */
  ghost predicate GrewAbove(s: SourceTable, t: SourceTable, w: int)
  {
    t.columns == s.columns
    && forall i :: 0 <= i < |t.rows| ==> t.rows[i] in s.rows || NewerThan(t.rows[i], Some(w))
  }

  /**
   * Rows are never skipped, under stated conditions: if the destination had
   * caught up with `s`, the source then only gained or changed rows above the
   * stored `last_sync`, at least one such row exists, primary keys are
   * distinct, and nothing fails, then after one pass the destination has
   * caught up with the new source and `last_sync` has strictly increased.
   */
  lemma NoRowSkipped(r: RemoteState, name: string, s: SourceTable, t: SourceTable, bs: nat, f: Faults)
    requires bs > 0 && Healthy(r, name, t.columns, f) && CaughtUp(r, name, s)
    requires GrewAbove(s, t, r.status[name].value)
    requires exists i :: 0 <= i < |t.rows| && NewerThan(t.rows[i], r.status[name])
    requires DistinctKeys(r.tables[name].primaryKey, t.columns, t.rows)
    ensures var p := SyncTableSpec(r, name, t, t, bs, f);
            && p.outcome == Done && CaughtUp(p.state, name, t)
            && p.state.status[name].value > r.status[name].value
  {
    var w := r.status[name].value;
    HealthyPassWrites(r, name, t, t, bs, f);
    MaxOfNewer(t.rows, w);
    AllMirroredAfterPass(r.tables[name], s, t, w);
  }

  /** Upserting the rows above `w` onto a table that mirrored `s` mirrors every row of `t`. */
  lemma AllMirroredAfterPass(table: DestTable, s: SourceTable, t: SourceTable, w: int)
    requires forall i :: 0 <= i < |s.rows| ==> Mirrors(table, s.columns, s.rows[i])
    requires GrewAbove(s, t, w) && DistinctKeys(table.primaryKey, t.columns, t.rows)
    ensures forall i :: 0 <= i < |t.rows| ==> Mirrors(Upserted(table, t.columns, Newer(t.rows, Some(w))), t.columns, t.rows[i])
  {
    var cols := t.columns;
    var fetched := Newer(t.rows, Some(w));
    NewerDistinct(table.primaryKey, cols, t.rows, Some(w));
    UpsertedMirrors(table, cols, fetched);
    forall i | 0 <= i < |t.rows|
      ensures Mirrors(Upserted(table, cols, fetched), cols, t.rows[i])
    {
      var x := t.rows[i];
      if NewerThan(x, Some(w)) {
        assert x in fetched;
        var j :| 0 <= j < |fetched| && fetched[j] == x;
      } else {
        var j :| 0 <= j < |s.rows| && s.rows[j] == x;
        UnfetchedRowKept(table, cols, t.rows, w, i);
      }
    }
  }

  /** A row at or below the watermark is not fetched, and no fetched row shares its key. */
  lemma UnfetchedRowKept(table: DestTable, cols: seq<string>, rows: seq<Row>, w: int, i: nat)
    requires DistinctKeys(table.primaryKey, cols, rows)
    requires i < |rows| && !NewerThan(rows[i], Some(w)) && Mirrors(table, cols, rows[i])
    ensures Mirrors(Upserted(table, cols, Newer(rows, Some(w))), cols, rows[i])
  {
    var pk := table.primaryKey;
    var fetched := Newer(rows, Some(w));
    forall m | 0 <= m < |fetched|
      ensures RowKey(pk, cols, fetched[m]) != RowKey(pk, cols, rows[i])
    {
      assert fetched[m] in fetched;
      var i' :| 0 <= i' < |rows| && rows[i'] == fetched[m];
      assert i' != i;
    }
    UpsertedUntouched(table, cols, fetched, RowKey(pk, cols, rows[i]));
  }

  // ---------------------------------------------------------------------------
  // main

  /** How the provisioning loop ended, and the remote database at that point. */
  datatype Provisioning = AllProvisioned(state: RemoteState) | StoppedAt(table: string, state: RemoteState)

  /** The provisioning loop over `names`; the first failing CREATE ends `main`. */
  function ProvisionAll(r: RemoteState, src: SourceDb, names: seq<string>, f: Faults): (res: Provisioning)
    requires forall i :: 0 <= i < |names| ==> names[i] in src.tables
    ensures res.AllProvisioned? ==> forall i :: 0 <= i < |names| ==> names[i] in res.state.tables
    ensures res.state.status == r.status && res.state.hasStatus == r.hasStatus
    ensures r.tables.Keys <= res.state.tables.Keys
    ensures forall n :: n in r.tables ==> res.state.tables[n] == r.tables[n]
    ensures forall n :: n in res.state.tables && n !in r.tables ==> n in src.tables && res.state.tables[n] == Created(src.tables[n])
    decreases |names|
  {
    if |names| == 0 then AllProvisioned(r)
    else
      var n := |names| - 1;
      match ProvisionAll(r, src, names[..n], f)
      case StoppedAt(table, s) => StoppedAt(table, s)
      case AllProvisioned(s) =>
        match Provision(s, names[n], src.tables[names[n]], f)
        case None => StoppedAt(names[n], s)
        case Some(s') => AllProvisioned(s')
  }

  /** The per-table syncs, one after another, each with its own outcome. */
  datatype Syncs = Syncs(state: RemoteState, outcomes: seq<Outcome>)

  function SyncAll(r: RemoteState, src: SourceDb, names: seq<string>, bs: nat, f: Faults): (res: Syncs)
    requires bs > 0 && forall i :: 0 <= i < |names| ==> names[i] in src.tables
    ensures |res.outcomes| == |names|
    ensures res.state.hasStatus == r.hasStatus && res.state.tables.Keys == r.tables.Keys
    ensures forall n :: n in r.tables ==> res.state.tables[n].columns == r.tables[n].columns
    decreases |names|
  {
    if |names| == 0 then Syncs(r, [])
    else
      var n := |names| - 1;
      var before := SyncAll(r, src, names[..n], bs, f);
      var t := src.tables[names[n]];
      var p := SyncTableSpec(before.state, names[n], t, t, bs, f);
      Syncs(p.state, before.outcomes + [p.outcome])
  }

  /** A table not listed keeps its remote table and its `sync_status` row. */
  lemma {:induction false} SyncAllFrame(r: RemoteState, src: SourceDb, names: seq<string>, bs: nat, f: Faults, n: string)
    requires bs > 0 && (forall i :: 0 <= i < |names| ==> names[i] in src.tables) && n !in names
    ensures var s := SyncAll(r, src, names, bs, f).state;
            && (n in r.tables ==> s.tables[n] == r.tables[n])
            && (n in s.status <==> n in r.status)
            && (n in r.status ==> s.status[n] == r.status[n])
    decreases |names|
  {
    if |names| > 0 {
      var k := |names| - 1;
      assert n != names[k];
      assert n !in names[..k];
      SyncAllFrame(r, src, names[..k], bs, f, n);
    }
  }

  datatype RunOutcome = ProvisionFailed(table: string) | Ran(outcomes: seq<Outcome>)
  datatype Run = Run(state: RemoteState, outcome: RunOutcome)

  /**
   * `main`: ensure `sync_status`, provision every listed table, then sync
   * every table (the concurrent gather taken one table after another).
   */
  function SyncDatabaseSpec(r: RemoteState, src: SourceDb, bs: nat, f: Faults): (run: Run)
    requires bs > 0 && Listed(src)
    ensures run.state.hasStatus && r.tables.Keys <= run.state.tables.Keys
    ensures run.outcome.Ran? ==> |run.outcome.outcomes| == |src.names|
                                 && forall i :: 0 <= i < |src.names| ==> src.names[i] in run.state.tables
  {
    match ProvisionAll(EnsureStatusTable(r), src, src.names, f)
    case StoppedAt(table, s) => Run(s, ProvisionFailed(table))
    case AllProvisioned(s) =>
      var done := SyncAll(s, src, src.names, bs, f);
      Run(done.state, Ran(done.outcomes))
  }

  /**
   * A table `SHOW TABLES` does not list keeps its remote table and, when
   * `sync_status` already existed, its status row.
   */
  lemma SyncDatabaseFrame(r: RemoteState, src: SourceDb, bs: nat, f: Faults, n: string)
    requires bs > 0 && Listed(src) && n !in src.names
    ensures n in r.tables ==> SyncDatabaseSpec(r, src, bs, f).state.tables[n] == r.tables[n]
    ensures r.hasStatus && n in r.status ==>
              n in SyncDatabaseSpec(r, src, bs, f).state.status && SyncDatabaseSpec(r, src, bs, f).state.status[n] == r.status[n]
  {
    var prov := ProvisionAll(EnsureStatusTable(r), src, src.names, f);
    if prov.AllProvisioned? {
      SyncAllFrame(prov.state, src, src.names, bs, f, n);
    }
  }

  /**
   * A listed table whose sync cannot fail when nothing else does: it exists
   * remotely with every source column, and its source has a `time_stamp`
   * column and a column besides it.
   */
  ghost predicate ReadyToSync(r: RemoteState, src: SourceDb, name: string)
  {
    name in src.tables && name in r.tables && HasColumns(r.tables[name], src.tables[name].columns)
    && HasTimestamp(src.tables[name]) && UpdateColumns(src.tables[name].columns) != []
  }

  /** Every table ready to sync ends `Done` when nothing fails. */
  lemma {:induction false} SyncAllHealthy(r: RemoteState, src: SourceDb, names: seq<string>, bs: nat)
    requires bs > 0 && r.hasStatus && forall i :: 0 <= i < |names| ==> names[i] in src.tables
    requires forall i :: 0 <= i < |names| ==> ReadyToSync(r, src, names[i])
    ensures forall i :: 0 <= i < |names| ==> SyncAll(r, src, names, bs, Faults({}, {}, {})).outcomes[i] == Done
    decreases |names|
  {
    var f := Faults({}, {}, {});
    if |names| > 0 {
      var n := |names| - 1;
      SyncAllHealthy(r, src, names[..n], bs);
      StaysHealthy(r, src, names[..n], bs, names[n]);
      LastSyncDone(r, src, names, bs);
      AllDone(SyncAll(r, src, names, bs, f).outcomes, SyncAll(r, src, names[..n], bs, f).outcomes);
    }
  }

  lemma AllDone(all: seq<Outcome>, before: seq<Outcome>)
    requires |all| > 0 && all[..|all| - 1] == before && all[|all| - 1] == Done
    requires forall i :: 0 <= i < |before| ==> before[i] == Done
    ensures forall i :: 0 <= i < |all| ==> all[i] == Done
  {
    assert forall i :: 0 <= i < |before| ==> all[i] == before[i];
  }

  /** The last listed table's sync ends `Done` when that table is healthy after the earlier syncs. */
  lemma LastSyncDone(r: RemoteState, src: SourceDb, names: seq<string>, bs: nat)
    requires bs > 0 && |names| > 0 && forall i :: 0 <= i < |names| ==> names[i] in src.tables
    requires var n := |names| - 1;
             HasTimestamp(src.tables[names[n]])
             && Healthy(SyncAll(r, src, names[..n], bs, Faults({}, {}, {})).state, names[n], src.tables[names[n]].columns, Faults({}, {}, {}))
    ensures var all := SyncAll(r, src, names, bs, Faults({}, {}, {})).outcomes;
            all[|names| - 1] == Done && all[..|names| - 1] == SyncAll(r, src, names[..|names| - 1], bs, Faults({}, {}, {})).outcomes
  {
    var f := Faults({}, {}, {});
    var n := |names| - 1;
    var before := SyncAll(r, src, names[..n], bs, f);
    var t := src.tables[names[n]];
    HealthyPassWrites(before.state, names[n], t, t, bs, f);
    assert (before.outcomes + [Done])[..n] == before.outcomes;
  }

  /** Earlier syncs keep a healthy table healthy: they never drop a table nor change its columns. */
  lemma StaysHealthy(r: RemoteState, src: SourceDb, names: seq<string>, bs: nat, name: string)
    requires bs > 0 && r.hasStatus && forall i :: 0 <= i < |names| ==> names[i] in src.tables
    requires ReadyToSync(r, src, name)
    ensures Healthy(SyncAll(r, src, names, bs, Faults({}, {}, {})).state, name, src.tables[name].columns, Faults({}, {}, {}))
  {
    var s := SyncAll(r, src, names, bs, Faults({}, {}, {})).state;
    assert s.tables[name].columns == r.tables[name].columns;
  }

  /**
   * With no failure anywhere and every table having a `time_stamp` column and
   * a column besides it, `main` provisions every listed table before the first
   * sync, and every sync ends `Done`.
   */
  lemma SyncDatabaseHealthy(r: RemoteState, src: SourceDb, bs: nat)
    requires bs > 0 && Listed(src)
    requires forall n :: n in src.tables ==> HasTimestamp(src.tables[n]) && UpdateColumns(src.tables[n].columns) != []
    requires forall n :: n in src.tables && n in r.tables ==> HasColumns(r.tables[n], src.tables[n].columns)
    ensures var f := Faults({}, {}, {});
            var prov := ProvisionAll(EnsureStatusTable(r), src, src.names, f);
            && prov.AllProvisioned?
            && (forall i :: 0 <= i < |src.names| ==> src.names[i] in prov.state.tables)
            && SyncDatabaseSpec(r, src, bs, f).outcome.Ran?
            && forall o :: o in SyncDatabaseSpec(r, src, bs, f).outcome.outcomes ==> o == Done
  {
    var f := Faults({}, {}, {});
    var prov := ProvisionAll(EnsureStatusTable(r), src, src.names, f);
    ProvisionAllHealthy(EnsureStatusTable(r), src, src.names);
    SyncAllHealthy(prov.state, src, src.names, bs);
  }

  /** Without DDL failures the provisioning loop runs to its end. */
  lemma {:induction false} ProvisionAllHealthy(r: RemoteState, src: SourceDb, names: seq<string>)
    requires forall i :: 0 <= i < |names| ==> names[i] in src.tables
    ensures ProvisionAll(r, src, names, Faults({}, {}, {})).AllProvisioned?
    decreases |names|
  {
    if |names| > 0 {
      ProvisionAllHealthy(r, src, names[..|names| - 1]);
    }
  }

  /** Once a CREATE fails, the rest of the list is never attempted. */
  lemma {:induction false} ProvisionStopsEarly(r: RemoteState, src: SourceDb, names: seq<string>, j: nat, f: Faults)
    requires j <= |names| && forall i :: 0 <= i < |names| ==> names[i] in src.tables
    requires ProvisionAll(r, src, names[..j], f).StoppedAt?
    ensures ProvisionAll(r, src, names, f) == ProvisionAll(r, src, names[..j], f)
    decreases |names| - j
  {
    if j < |names| {
      var n := |names| - 1;
      assert names[..n][..j] == names[..j];
      ProvisionStopsEarly(r, src, names[..n], j, f);
    } else {
      assert names[..j] == names;
    }
  }

  /** The provisioning loop of `main` (`for table in tables: ... create_table_if_not_exists`). */
  method ProvisionTables(db: RemoteDb, src: SourceDb, tables: seq<string>, f: Faults) returns (res: Option<string>)
    requires forall i :: 0 <= i < |tables| ==> tables[i] in src.tables
    modifies db
    ensures var prov := ProvisionAll(old(db.State()), src, tables, f);
            db.State() == prov.state && (res.None? <==> prov.AllProvisioned?)
            && (res.Some? ==> res.value == prov.table)
  {
    ghost var r0 := db.State();
    var i := 0;
    while i < |tables|
      invariant 0 <= i <= |tables|
      invariant ProvisionAll(r0, src, tables[..i], f) == AllProvisioned(db.State())
    {
      assert tables[..i + 1][..i] == tables[..i];
      var ok := CreateTableIfNotExists(db, tables[i], src.tables[tables[i]], f);
      if !ok {
        ProvisionStopsEarly(r0, src, tables, i + 1, f);
        return Some(tables[i]);
      }
      i := i + 1;
    }
    assert tables[..i] == tables;
    res := None;
  }

  /** The syncs of `main`, one table after another. */
  method SyncTables(db: RemoteDb, src: SourceDb, tables: seq<string>, bs: nat, f: Faults) returns (outcomes: seq<Outcome>)
    requires bs > 0 && forall i :: 0 <= i < |tables| ==> tables[i] in src.tables
    modifies db
    ensures SyncAll(old(db.State()), src, tables, bs, f) == Syncs(db.State(), outcomes)
  {
    ghost var r0 := db.State();
    outcomes := [];
    var i := 0;
    while i < |tables|
      invariant 0 <= i <= |tables|
      invariant SyncAll(r0, src, tables[..i], bs, f) == Syncs(db.State(), outcomes)
    {
      assert tables[..i + 1][..i] == tables[..i];
      var t := src.tables[tables[i]];
      var o := SyncTable(db, tables[i], t, t, bs, f);
      outcomes := outcomes + [o];
      i := i + 1;
    }
    assert tables[..i] == tables;
  }

  /** `main`: ensure `sync_status`, provision every table, then sync every table. */
  method SyncDatabase(db: RemoteDb, src: SourceDb, f: Faults) returns (outcome: RunOutcome)
    requires Listed(src)
    modifies db
    ensures Run(db.State(), outcome) == SyncDatabaseSpec(old(db.State()), src, BatchSize, f)
  {
    db.CreateStatusTable();
    var tables := src.names;
    var failed := ProvisionTables(db, src, tables, f);
    if failed.Some? {
      return ProvisionFailed(failed.value);
    }
    var outcomes := SyncTables(db, src, tables, BatchSize, f);
    outcome := Ran(outcomes);
  }
}
