/**
 * The slice of MySQL semantics both scripts rely on: rows as column maps,
 * the `time_stamp > ?` filter and `MAX(time_stamp)` with SQL NULL, the value
 * tuple of a row, and `INSERT ... ON DUPLICATE KEY UPDATE c = VALUES(c)` on a
 * table keyed by its primary key.
 */
module Sql {
  import opened Fragments

  datatype Option<T> = None | Some(value: T)

  /** A cell. TIMESTAMP cells hold `Num` (an instant) or `Null`. */
  datatype Value = Null | Num(n: int) | Text(s: string)

  /** A row as a dictionary/associative cursor returns it: column name to value. */
  type Row = map<string, Value>

  /** The primary-key values of a row, in primary-key column order. */
  type Key = seq<Value>

  function Cell(r: Row, c: string): Value
  {
    if c in r then r[c] else Null
  }

  /** The row's change timestamp; NULL reads as None. */
  function TimestampOf(r: Row): Option<int>
  {
    if TimeStampColumn in r && r[TimeStampColumn].Num? then Some(r[TimeStampColumn].n) else None
  }

  /** SQL `time_stamp > w`: unknown, hence not selected, when either side is NULL. */
  predicate NewerThan(r: Row, w: Option<int>)
  {
    TimestampOf(r).Some? && w.Some? && TimestampOf(r).value > w.value
  }

  /** `SELECT * FROM t WHERE time_stamp > w`, in the table's row order. */
  function Newer(rows: seq<Row>, w: Option<int>): (sel: seq<Row>)
    ensures forall x :: x in sel <==> x in rows && NewerThan(x, w)
    ensures |sel| <= |rows|
    ensures w.None? ==> sel == []
  {
    if |rows| == 0 then []
    else (if NewerThan(rows[0], w) then [rows[0]] else []) + Newer(rows[1..], w)
  }

  /**
   * The selection keeps the table's row order: selecting from rows `a`
   * followed by rows `b` selects from `a`, then from `b`.
   */
  lemma {:induction false} NewerAppend(a: seq<Row>, b: seq<Row>, w: Option<int>)
    ensures Newer(a + b, w) == Newer(a, w) + Newer(b, w)
    decreases |a|
  {
    if |a| == 0 {
      assert a + b == b;
    } else {
      assert (a + b)[0] == a[0];
      assert (a + b)[1..] == a[1..] + b;
      NewerAppend(a[1..], b, w);
    }
  }

  /** SQL `MAX` of two possibly-NULL timestamps (NULLs are ignored). */
  function Later(a: Option<int>, b: Option<int>): Option<int>
  {
    if a.None? then b
    else if b.None? then a
    else if a.value >= b.value then a else b
  }

  /** `SELECT MAX(time_stamp)`: the largest non-NULL timestamp, NULL when there is none. */
  function MaxTimestamp(rows: seq<Row>): (m: Option<int>)
    ensures m.None? <==> forall i :: 0 <= i < |rows| ==> TimestampOf(rows[i]).None?
    ensures m.Some? ==> exists i :: 0 <= i < |rows| && TimestampOf(rows[i]) == m
    ensures m.Some? ==> forall i :: 0 <= i < |rows| && TimestampOf(rows[i]).Some? ==>
                                      TimestampOf(rows[i]).value <= m.value
  {
    if |rows| == 0 then None
    else
      var rest := MaxTimestamp(rows[1..]);
      assert forall i :: 1 <= i < |rows| ==> rows[i] == rows[1..][i - 1];
      Later(TimestampOf(rows[0]), rest)
  }

  /** No row of a table is newer than the table's own `MAX(time_stamp)`. */
  lemma {:induction false} NothingNewerThanMax(rows: seq<Row>)
    ensures Newer(rows, MaxTimestamp(rows)) == []
  {
    var m := MaxTimestamp(rows);
    var sel := Newer(rows, m);
    if |sel| > 0 {
      assert sel[0] in sel;
    }
  }

  /**
   * `MAX(time_stamp) ... WHERE time_stamp > w` is strictly above a non-NULL
   * `w` when some row is newer, and NULL when none is.
   */
  lemma MaxOfNewer(rows: seq<Row>, w: int)
    ensures var m := MaxTimestamp(Newer(rows, Some(w)));
            (m.Some? ==> m.value > w) &&
            (m.None? <==> forall i :: 0 <= i < |rows| ==> !NewerThan(rows[i], Some(w)))
  {
    var sel := Newer(rows, Some(w));
    var m := MaxTimestamp(sel);
    if m.Some? {
      var i :| 0 <= i < |sel| && TimestampOf(sel[i]) == m;
      assert sel[i] in sel;
    }
    if m.None? {
      assert forall i :: 0 <= i < |rows| ==> !NewerThan(rows[i], Some(w));
    } else {
      var i :| 0 <= i < |sel| && TimestampOf(sel[i]) == m;
      assert sel[i] in sel;
      var j :| 0 <= j < |rows| && rows[j] == sel[i];
      assert NewerThan(rows[j], Some(w));
    }
  }

  /**
   * The value tuple of a row: its fields in column order
   * (`tuple(row[col] for col in column_names)`, `array_values($row)`).
   */
  function Tuple(cols: seq<string>, r: Row): seq<Value>
  {
    seq(|cols|, i requires 0 <= i < |cols| => Cell(r, cols[i]))
  }

  /** One value tuple per row, rows in order. */
  function Tuples(cols: seq<string>, rows: seq<Row>): (ts: seq<seq<Value>>)
    ensures |ts| == |rows| && forall i :: 0 <= i < |ts| ==> |ts[i]| == |cols|
  {
    seq(|rows|, i requires 0 <= i < |rows| => Tuple(cols, rows[i]))
  }

  /** The row an INSERT with this column list stores: column i receives value i. */
  function Bind(cols: seq<string>, vals: seq<Value>): Row
    requires |vals| == |cols|
  {
    if |cols| == 0 then map[] else Bind(cols[1..], vals[1..])[cols[0] := vals[0]]
  }

  /** The row restricted to the listed columns. */
  function Project(cols: seq<string>, r: Row): Row
  {
    map c | c in cols :: Cell(r, c)
  }

  /**
   * Binding a row's value tuple positionally to the column list gives the row
   * back, column by column; a row that has exactly those columns is unchanged.
   */
  lemma {:induction false} BindTuple(cols: seq<string>, r: Row)
    ensures Bind(cols, Tuple(cols, r)) == Project(cols, r)
    ensures r.Keys == (set c | c in cols) ==> Project(cols, r) == r
  {
    if |cols| > 0 {
      assert Tuple(cols, r)[1..] == Tuple(cols[1..], r);
      BindTuple(cols[1..], r);
      assert Project(cols, r) == Project(cols[1..], r)[cols[0] := Cell(r, cols[0])];
    }
  }

  /** The primary-key value of a row. */
  function KeyOf(pk: seq<string>, r: Row): Key
  {
    seq(|pk|, i requires 0 <= i < |pk| => Cell(r, pk[i]))
  }

  /** The key under which an upsert of `r` through this column list lands. */
  function RowKey(pk: seq<string>, cols: seq<string>, r: Row): Key
  {
    KeyOf(pk, Project(cols, r))
  }

  /** A destination table: its DDL (columns and primary key) and its rows by primary key. */
  datatype DestTable = DestTable(columns: seq<string>, primaryKey: seq<string>, rows: map<Key, Row>)

  /** The stored row after `c = VALUES(c)` for every update column. */
  function Assign(stored: Row, upd: seq<string>, inserted: Row): Row
  {
    stored + map c | c in upd :: Cell(inserted, c)
  }

  /** One `INSERT INTO t (cols) VALUES (vals) ON DUPLICATE KEY UPDATE ...` statement. */
  function ExecUpsert(t: DestTable, cols: seq<string>, vals: seq<Value>): (t': DestTable)
    requires |vals| == |cols|
    ensures t'.columns == t.columns && t'.primaryKey == t.primaryKey
    ensures t'.rows.Keys == t.rows.Keys + {KeyOf(t.primaryKey, Bind(cols, vals))}
  {
    var inserted := Bind(cols, vals);
    var k := KeyOf(t.primaryKey, inserted);
    if k in t.rows then t.(rows := t.rows[k := Assign(t.rows[k], UpdateColumns(cols), inserted)])
    else t.(rows := t.rows[k := inserted])
  }

  /** The statement run once per value tuple, in order (`executemany`, or a loop of them). */
  function ExecMany(t: DestTable, cols: seq<string>, tuples: seq<seq<Value>>): (t': DestTable)
    requires forall i :: 0 <= i < |tuples| ==> |tuples[i]| == |cols|
    ensures t'.columns == t.columns && t'.primaryKey == t.primaryKey
    ensures t.rows.Keys <= t'.rows.Keys
    decreases |tuples|
  {
    if |tuples| == 0 then t else ExecMany(ExecUpsert(t, cols, tuples[0]), cols, tuples[1..])
  }

  /** Every row upserted, in order. */
  function Upserted(t: DestTable, cols: seq<string>, rows: seq<Row>): (t': DestTable)
    ensures t'.columns == t.columns && t'.primaryKey == t.primaryKey
    ensures t.rows.Keys <= t'.rows.Keys
  {
    ExecMany(t, cols, Tuples(cols, rows))
  }

  /** The destination row for `r`'s key carries `r`'s value in every overwritten column. */
  ghost predicate Mirrors(t: DestTable, cols: seq<string>, r: Row)
  {
    var k := RowKey(t.primaryKey, cols, r);
    k in t.rows && forall c :: c in UpdateColumns(cols) ==> Cell(t.rows[k], c) == Cell(r, c)
  }

  /** The update columns take the inserted row's values; every other column keeps the stored one. */
  lemma AssignCells(stored: Row, upd: seq<string>, inserted: Row)
    ensures forall c :: c in upd ==> Cell(Assign(stored, upd, inserted), c) == Cell(inserted, c)
    ensures forall c :: c !in upd ==> Cell(Assign(stored, upd, inserted), c) == Cell(stored, c)
  {
  }

  /**
   * One upsert of `r`: a new key receives the projected row; an existing key
   * gets every column but `time_stamp` from `r` and keeps its `time_stamp`;
   * every other key is left alone.
   */
  lemma ExecUpsertEffect(t: DestTable, cols: seq<string>, r: Row)
    ensures var t' := ExecUpsert(t, cols, Tuple(cols, r));
            var k := RowKey(t.primaryKey, cols, r);
            && t'.columns == t.columns && t'.primaryKey == t.primaryKey
            && t'.rows.Keys == t.rows.Keys + {k}
            && (k !in t.rows ==> t'.rows[k] == Project(cols, r))
            && (k in t.rows ==> Cell(t'.rows[k], TimeStampColumn) == Cell(t.rows[k], TimeStampColumn))
            && Mirrors(t', cols, r)
            && forall k' :: k' in t.rows && k' != k ==> t'.rows[k'] == t.rows[k']
  {
    var inserted := Bind(cols, Tuple(cols, r));
    BindTuple(cols, r);
    assert inserted == Project(cols, r);
    var k := RowKey(t.primaryKey, cols, r);
    var upd := UpdateColumns(cols);
    if k in t.rows {
      var a := Assign(t.rows[k], upd, inserted);
      assert ExecUpsert(t, cols, Tuple(cols, r)) == t.(rows := t.rows[k := a]);
      assert TimeStampColumn !in upd;
      AssignCells(t.rows[k], upd, inserted);
    } else {
      assert ExecUpsert(t, cols, Tuple(cols, r)) == t.(rows := t.rows[k := inserted]);
    }
  }

  /** Running the statement over `a + b` is running it over `a`, then over `b`. */
  lemma {:induction false} ExecManyAppend(t: DestTable, cols: seq<string>, a: seq<seq<Value>>, b: seq<seq<Value>>)
    requires forall i :: 0 <= i < |a| ==> |a[i]| == |cols|
    requires forall i :: 0 <= i < |b| ==> |b[i]| == |cols|
    ensures ExecMany(t, cols, a + b) == ExecMany(ExecMany(t, cols, a), cols, b)
    decreases |a|
  {
    if |a| == 0 {
      assert a + b == b;
    } else {
      assert (a + b)[1..] == a[1..] + b;
      ExecManyAppend(ExecUpsert(t, cols, a[0]), cols, a[1..], b);
    }
  }

  /** Upserting `a + b` is upserting `a`, then `b`. */
  lemma UpsertedAppend(t: DestTable, cols: seq<string>, a: seq<Row>, b: seq<Row>)
    ensures Upserted(t, cols, a + b) == Upserted(Upserted(t, cols, a), cols, b)
  {
    assert Tuples(cols, a + b) == Tuples(cols, a) + Tuples(cols, b);
    ExecManyAppend(t, cols, Tuples(cols, a), Tuples(cols, b));
  }

  /** Running the statement over the next rows extends the upserted prefix. */
  lemma UpsertedMore(t: DestTable, cols: seq<string>, rows: seq<Row>, i: nat, j: nat, pending: DestTable)
    requires i <= j <= |rows| && pending == Upserted(t, cols, rows[..i])
    ensures ExecMany(pending, cols, Tuples(cols, rows[i..j])) == Upserted(t, cols, rows[..j])
  {
    UpsertedAppend(t, cols, rows[..i], rows[i..j]);
    assert rows[..i] + rows[i..j] == rows[..j];
  }

  /** Upserting a single row is one statement. */
  lemma UpsertedOne(t: DestTable, cols: seq<string>, r: Row)
    ensures Upserted(t, cols, [r]) == ExecUpsert(t, cols, Tuple(cols, r))
  {
    var ts := Tuples(cols, [r]);
    assert ts == [Tuple(cols, r)];
    assert ts[1..] == [];
    var one := ExecUpsert(t, cols, ts[0]);
    assert ExecMany(t, cols, ts) == ExecMany(one, cols, ts[1..]);
    assert ExecMany(one, cols, []) == one;
  }

  /** No two rows share a primary-key value. */
  ghost predicate DistinctKeys(pk: seq<string>, cols: seq<string>, rows: seq<Row>)
  {
    forall i, j :: 0 <= i < |rows| && 0 <= j < |rows| && i != j ==> RowKey(pk, cols, rows[i]) != RowKey(pk, cols, rows[j])
  }

  /** `t'` holds the same row as `t` under key `k`, or neither holds one. */
  ghost predicate Keeps(t: DestTable, t': DestTable, k: Key)
  {
    (k in t'.rows <==> k in t.rows) && (k in t.rows ==> t'.rows[k] == t.rows[k])
  }

  /** A key no upserted row maps to keeps its stored row (or stays absent). */
  lemma {:induction false} UpsertedUntouched(t: DestTable, cols: seq<string>, rows: seq<Row>, k: Key)
    requires forall i :: 0 <= i < |rows| ==> RowKey(t.primaryKey, cols, rows[i]) != k
    ensures Keeps(t, Upserted(t, cols, rows), k)
  {
    if |rows| > 0 {
      var n := |rows| - 1;
      UpsertedAppend(t, cols, rows[..n], [rows[n]]);
      assert rows[..n] + [rows[n]] == rows;
      UpsertedUntouched(t, cols, rows[..n], k);
      var mid := Upserted(t, cols, rows[..n]);
      ExecUpsertEffect(mid, cols, rows[n]);
      UpsertedOne(mid, cols, rows[n]);
    }
  }

  /** After upserting rows with distinct keys, the destination mirrors every one of them. */
  lemma {:induction false} UpsertedMirrors(t: DestTable, cols: seq<string>, rows: seq<Row>)
    requires DistinctKeys(t.primaryKey, cols, rows)
    ensures forall i :: 0 <= i < |rows| ==> Mirrors(Upserted(t, cols, rows), cols, rows[i])
  {
    if |rows| > 0 {
      var n := |rows| - 1;
      var prefix := rows[..n];
      UpsertedAppend(t, cols, prefix, [rows[n]]);
      assert prefix + [rows[n]] == rows;
      assert DistinctKeys(t.primaryKey, cols, prefix);
      UpsertedMirrors(t, cols, prefix);
      var mid := Upserted(t, cols, prefix);
      ExecUpsertEffect(mid, cols, rows[n]);
      var last := ExecUpsert(mid, cols, Tuple(cols, rows[n]));
      UpsertedOne(mid, cols, rows[n]);
      forall i | 0 <= i < |rows|
        ensures Mirrors(last, cols, rows[i])
      {
        if i < n {
          assert prefix[i] == rows[i];
          assert Mirrors(mid, cols, rows[i]);
          assert RowKey(t.primaryKey, cols, rows[i]) != RowKey(t.primaryKey, cols, rows[n]);
        }
      }
    }
  }
}
