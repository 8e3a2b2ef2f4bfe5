/**
 * The two databases the scripts connect to, as values, and the remote one as
 * an object whose fields the scripts' statements update.
 *
 * The local (source) database is only read. The remote (destination)
 * database holds the mirrored tables and the `sync_status` control table
 * `(table_name PRIMARY KEY, last_sync TIMESTAMP NULL)`.
 */
module Remote {
  import opened Fragments
  import opened Sql
  import opened Batching

  /** A source table: what `DESCRIBE` and `SHOW CREATE TABLE` report, and its rows in scan order. */
  datatype SourceTable = SourceTable(columns: seq<string>, primaryKey: seq<string>, rows: seq<Row>)

  /** The source database: `SHOW TABLES` order and the tables by name. */
  datatype SourceDb = SourceDb(names: seq<string>, tables: map<string, SourceTable>)

  /** Every table `SHOW TABLES` lists exists. */
  ghost predicate Listed(src: SourceDb)
  {
    forall i :: 0 <= i < |src.names| ==> src.names[i] in src.tables
  }

  /**
   * Failures the destination server can raise, given as data: `ddl` names the
   * tables whose CREATE statement it rejects, `statements` the pairs (table,
   * position in the fetched row sequence) whose upsert raises, `status` the
   * tables whose `sync_status` write raises.
   */
  datatype Faults = Faults(ddl: set<string>, statements: set<(string, nat)>, status: set<string>)

  /** The remote database: mirrored tables, `sync_status` rows, and whether `sync_status` exists. */
  datatype RemoteState = RemoteState(tables: map<string, DestTable>, status: map<string, Option<int>>, hasStatus: bool)

  /** `CREATE TABLE IF NOT EXISTS sync_status (...)`: an existing table is kept, a new one is empty. */
  function EnsureStatusTable(r: RemoteState): (r': RemoteState)
    ensures r'.hasStatus && r'.tables == r.tables
    ensures r.hasStatus ==> r' == r
    ensures !r.hasStatus ==> r'.status == map[]
  {
    if r.hasStatus then r else r.(hasStatus := true, status := map[])
  }

  /** The table `SHOW CREATE TABLE` text recreates: the same columns and primary key, no rows. */
  function Created(t: SourceTable): DestTable
  {
    DestTable(t.columns, t.primaryKey, map[])
  }

  /**
   * Executing a table's `CREATE TABLE` statement: it fails when the table
   * already exists or the server rejects the DDL, and otherwise adds the
   * empty table.
   */
  function AfterCreate(tables: map<string, DestTable>, name: string, t: SourceTable, f: Faults): (res: Option<map<string, DestTable>>)
    ensures res.Some? <==> name !in tables && name !in f.ddl
    ensures res.Some? ==> res.value.Keys == tables.Keys + {name} && res.value[name].rows == map[]
                          && res.value[name].columns == t.columns && res.value[name].primaryKey == t.primaryKey
                          && forall n :: n in tables ==> res.value[n] == tables[n]
  {
    if name in tables || name in f.ddl then None else Some(tables[name := Created(t)])
  }

  /**
   * Whether the remote table has every column the INSERT names. An existing
   * remote table is never altered, so one whose columns drifted from the
   * source's rejects the INSERT as naming an unknown column.
   */
  predicate HasColumns(t: DestTable, cols: seq<string>)
  {
    forall c :: c in cols ==> c in t.columns
  }

  /**
   * Whether the upsert of the row at position `p` of the fetched rows raises:
   * the table is missing or lacks a named column, the update list is empty
   * (an `ON DUPLICATE KEY UPDATE` with nothing after it is a syntax error),
   * or the server fails it.
   */
  predicate StatementFails(tables: map<string, DestTable>, name: string, cols: seq<string>, f: Faults, p: nat)
  {
    name !in tables || !HasColumns(tables[name], cols) || UpdateColumns(cols) == [] || (name, p) in f.statements
  }

  /** Whether some upsert of batch `k` (positions from its offset up to the next batch's) raises. */
  predicate BatchFails(tables: map<string, DestTable>, name: string, cols: seq<string>, n: nat, bs: nat, f: Faults, k: nat)
  {
    exists p: nat :: Offset(k, bs) <= p < Min(Offset(k, bs) + bs, n) && StatementFails(tables, name, cols, f, p)
  }

  /**
   * The mode decision and the fetch: no `sync_status` row means a full sync
   * of every row; a row, even one whose `last_sync` is NULL, means an
   * incremental sync of the rows with `time_stamp > last_sync`.
   */
  function Fetched(status: map<string, Option<int>>, name: string, rows: seq<Row>): (sel: seq<Row>)
    ensures name !in status ==> sel == rows
    ensures name in status ==> forall x :: x in sel <==> x in rows && NewerThan(x, status[name])
    ensures name in status && status[name].None? ==> sel == []
  {
    if name !in status then rows else Newer(rows, status[name])
  }

  /**
   * Whether a query naming `time_stamp` (the incremental `WHERE time_stamp > ?`
   * and `SELECT MAX(time_stamp)`) can run on the table: without that column
   * MySQL rejects it as an unknown column.
   */
  predicate HasTimestamp(t: SourceTable)
  {
    TimeStampColumn in t.columns
  }

  /** The remote database as the scripts' connections see it. */
  class RemoteDb {
    var tables: map<string, DestTable>
    var status: map<string, Option<int>>
    var hasStatus: bool

    constructor (tables: map<string, DestTable>, status: map<string, Option<int>>, hasStatus: bool)
      ensures State() == RemoteState(tables, status, hasStatus)
    {
      this.tables := tables;
      this.status := status;
      this.hasStatus := hasStatus;
    }

    function State(): RemoteState
      reads this
    {
      RemoteState(tables, status, hasStatus)
    }

    /** `CREATE TABLE IF NOT EXISTS sync_status (...)`, committed. */
    method CreateStatusTable()
      modifies this
      ensures State() == EnsureStatusTable(old(State()))
    {
      if !hasStatus {
        hasStatus := true;
        status := map[];
      }
    }

    /** `CREATE TABLE` from the source's DDL (DDL commits implicitly). */
    method CreateTable(name: string, t: SourceTable, f: Faults) returns (ok: bool)
      modifies this
      ensures ok == AfterCreate(old(tables), name, t, f).Some?
      ensures tables == if ok then AfterCreate(old(tables), name, t, f).value else old(tables)
      ensures status == old(status) && hasStatus == old(hasStatus)
    {
      ok := name !in tables && name !in f.ddl;
      if ok {
        tables := tables[name := Created(t)];
      }
    }

    /** Committing a transaction that leaves table `name` as `t`. */
    method Commit(name: string, t: DestTable)
      modifies this
      ensures tables == old(tables)[name := t]
      ensures status == old(status) && hasStatus == old(hasStatus)
    {
      tables := tables[name := t];
    }

    /** `INSERT INTO sync_status (table_name, last_sync) VALUES (?, ?) ON DUPLICATE KEY UPDATE last_sync = ?`. */
    method UpsertStatus(name: string, lastSync: Option<int>)
      modifies this
      ensures status == old(status)[name := lastSync]
      ensures tables == old(tables) && hasStatus == old(hasStatus)
    {
      status := status[name := lastSync];
    }

    /** `UPDATE sync_status SET last_sync = ? WHERE table_name = ?`: no row, no change. */
    method UpdateStatus(name: string, lastSync: Option<int>)
      modifies this
      ensures status == if name in old(status) then old(status)[name := lastSync] else old(status)
      ensures tables == old(tables) && hasStatus == old(hasStatus)
    {
      if name in status {
        status := status[name := lastSync];
      }
    }
  }
}
