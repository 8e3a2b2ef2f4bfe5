/**
 * Statement fragments built by both synchronisation scripts: the column list,
 * the placeholder list and the `ON DUPLICATE KEY UPDATE` assignment list of the
 * upsert statement. Everything here is pure string manipulation.
 */
module Fragments {

  /** The change-timestamp column; it is never overwritten by an upsert. */
  const TimeStampColumn: string := "time_stamp"

  /** The separator of every generated list (`', '.join(...)`, `implode(', ', ...)`). */
  const Separator: string := ", "

  /** `sep.join(items)` in Python, `implode(sep, items)` in PHP. */
  function Join(sep: string, items: seq<string>): string
  {
    if |items| == 0 then ""
    else if |items| == 1 then items[0]
    else items[0] + sep + Join(sep, items[1..])
  }

  /** Position of the first `ch` in `s`, or `|s|` when there is none. */
  function IndexOf(s: string, ch: char): (i: nat)
    ensures i <= |s|
    ensures i < |s| ==> s[i] == ch
    ensures forall j :: 0 <= j < i ==> s[j] != ch
  {
    if |s| == 0 then 0
    else if s[0] == ch then 0
    else 1 + IndexOf(s[1..], ch)
  }

  /**
   * Reads a generated list back: cuts `s` at every comma and drops the one
   * character (the space of the separator) that follows it.
   */
  function SplitList(s: string): seq<string>
    decreases |s|
  {
    var i := IndexOf(s, ',');
    if i == |s| then [s]
    else [s[..i]] + SplitList(s[if i + 2 <= |s| then i + 2 else |s|..])
  }

  /** No item of the list contains a comma (true of SQL identifiers). */
  ghost predicate CommaFree(items: seq<string>)
  {
    forall k :: 0 <= k < |items| ==> ',' !in items[k]
  }

  /** Joining with ", " and splitting again gives the items back. */
  lemma {:induction false} SplitJoin(items: seq<string>)
    requires |items| > 0 && CommaFree(items)
    ensures SplitList(Join(Separator, items)) == items
  {
    if |items| == 1 {
      assert Join(Separator, items) == items[0];
    } else {
      var head, rest := items[0], Join(Separator, items[1..]);
      var s := Join(Separator, items);
      assert s == head + ", " + rest;
      assert s[|head|] == ',';
      assert forall j :: 0 <= j < |head| ==> s[j] == head[j];
      assert IndexOf(s, ',') == |head|;
      assert s[..|head|] == head;
      assert s[|head| + 2..] == rest;
      assert CommaFree(items[1..]);
      SplitJoin(items[1..]);
    }
  }

  /** `n` copies of one placeholder marker. */
  function Markers(marker: string, n: nat): seq<string>
  {
    seq(n, _ => marker)
  }

  /** `', '.join(['%s'] * n)` (Python) and `implode(', ', $placeholders)` over `'?'` (PHP). */
  function Placeholders(marker: string, n: nat): string
  {
    Join(Separator, Markers(marker, n))
  }

  /** The placeholder list holds exactly `n` markers, one per column. */
  lemma PlaceholdersCount(marker: string, n: nat)
    requires n > 0 && ',' !in marker
    ensures SplitList(Placeholders(marker, n)) == Markers(marker, n)
    ensures |SplitList(Placeholders(marker, n))| == n
  {
    SplitJoin(Markers(marker, n));
  }

  /** The comma-separated column list of the INSERT. */
  function ColumnList(cols: seq<string>): string
  {
    Join(Separator, cols)
  }

  /** The column list names the columns in `DESCRIBE` order, one each. */
  lemma ColumnListDenotes(cols: seq<string>)
    requires |cols| > 0 && CommaFree(cols)
    ensures SplitList(ColumnList(cols)) == cols
  {
    SplitJoin(cols);
  }

  /** The columns an upsert overwrites: every column except `time_stamp`, in order. */
  function UpdateColumns(cols: seq<string>): (upd: seq<string>)
    ensures forall c :: c in upd <==> c in cols && c != TimeStampColumn
    ensures |upd| <= |cols|
  {
    if |cols| == 0 then []
    else (if cols[0] != TimeStampColumn then [cols[0]] else []) + UpdateColumns(cols[1..])
  }

  /** Filtering distributes over concatenation (so it can be built column by column). */
  lemma {:induction false} UpdateColumnsAppend(a: seq<string>, b: seq<string>)
    ensures UpdateColumns(a + b) == UpdateColumns(a) + UpdateColumns(b)
  {
    if |a| == 0 {
      assert a + b == b;
    } else {
      assert (a + b)[1..] == a[1..] + b;
      UpdateColumnsAppend(a[1..], b);
    }
  }

  /** A column list without `time_stamp` is overwritten as a whole. */
  lemma {:induction false} UpdateColumnsNoTimestamp(cols: seq<string>)
    requires TimeStampColumn !in cols
    ensures UpdateColumns(cols) == cols
  {
    if |cols| > 0 {
      UpdateColumnsNoTimestamp(cols[1..]);
    }
  }

  /** Exactly the `time_stamp` column is removed, and the order of the others is kept. */
  lemma UpdateColumnsDropsTimestamp(before: seq<string>, after: seq<string>)
    requires TimeStampColumn !in before && TimeStampColumn !in after
    ensures UpdateColumns(before + [TimeStampColumn] + after) == before + after
  {
    var ts := [TimeStampColumn];
    var head := before + ts;
    UpdateColumnsAppend(head, after);
    UpdateColumnsAppend(before, ts);
    UpdateColumnsNoTimestamp(before);
    UpdateColumnsNoTimestamp(after);
    assert UpdateColumns(ts) == [] by {
      assert ts[1..] == [];
    }
    assert UpdateColumns(head) == before;
  }

  /** `c = VALUES(c)`: set the column to the value the INSERT would have stored. */
  function Assignment(c: string): string
  {
    c + " = VALUES(" + c + ")"
  }

  function Assignments(cs: seq<string>): seq<string>
  {
    seq(|cs|, i requires 0 <= i < |cs| => Assignment(cs[i]))
  }

  /** The `ON DUPLICATE KEY UPDATE` list. */
  function UpdateList(cols: seq<string>): string
  {
    Join(Separator, Assignments(UpdateColumns(cols)))
  }

  /** The update list holds one `c = VALUES(c)` for each update column, in column order. */
  lemma UpdateListDenotes(cols: seq<string>)
    requires CommaFree(cols) && UpdateColumns(cols) != []
    ensures SplitList(UpdateList(cols)) == Assignments(UpdateColumns(cols))
  {
    var upd := UpdateColumns(cols);
    forall k | 0 <= k < |upd|
      ensures ',' !in Assignments(upd)[k]
    {
      var c := upd[k];
      assert c in cols;
      assert ',' !in c;
      assert ',' !in " = VALUES(";
      assert Assignments(upd)[k] == c + " = VALUES(" + c + ")";
    }
    SplitJoin(Assignments(upd));
  }
}
