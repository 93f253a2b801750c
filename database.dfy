/** A dismod_at database seen through its SQL connection: a map from table name to
    table, and the effect of the SQL statements the cascade issues on it. */
module Database {
  import opened Wrappers

  datatype Value = Null | IntV(i: int) | RealV(r: real) | TextV(s: string)

  /** A row as `get_table_dict` returns it: column name to value. */
  type Row = map<string, Value>

  datatype Table = Table(columns: seq<string>, rows: seq<Row>)

  type Tables = map<string, Table>

  /** Every row uses only the table's column names. */
  predicate RowsWithinColumns(t: Table)
  {
    forall i, c :: 0 <= i < |t.rows| && c in t.rows[i] ==> c in t.columns
  }

  function RenamedColumns(columns: seq<string>, from: string, to: string): (r: seq<string>)
    ensures |r| == |columns|
    ensures forall i :: 0 <= i < |r| ==> r[i] == if columns[i] == from then to else columns[i]
  {
    if |columns| == 0 then []
    else [if columns[0] == from then to else columns[0]] + RenamedColumns(columns[1..], from, to)
  }

  function RenamedKey(r: Row, from: string, to: string): Row
  {
    if from in r then (r - {from})[to := r[from]] else r
  }

  function RenamedRows(rows: seq<Row>, from: string, to: string): (r: seq<Row>)
    ensures |r| == |rows|
    ensures forall i :: 0 <= i < |r| ==> r[i] == RenamedKey(rows[i], from, to)
  {
    if |rows| == 0 then []
    else [RenamedKey(rows[0], from, to)] + RenamedRows(rows[1..], from, to)
  }

  function RenamedTable(t: Table, from: string, to: string): Table
  {
    Table(RenamedColumns(t.columns, from, to), RenamedRows(t.rows, from, to))
  }

  // ---------------------------------------------------------------------------
  // What each SQL statement does to the tables (None: SQLite reports an error)

  /** `DROP TABLE IF EXISTS name` */
  function AfterDrop(db: Tables, name: string): Tables
  {
    db - {name}
  }

  /** `ALTER TABLE table RENAME COLUMN from TO to`: fails when the table or the
      column is missing or when a column `to` already exists. */
  function AfterRenameColumn(db: Tables, table: string, from: string, to: string): Option<Tables>
  {
    if table !in db || from !in db[table].columns || to in db[table].columns then None
    else
      Some(db[table := RenamedTable(db[table], from, to)])
  }

  /** `ALTER TABLE from RENAME TO to`: fails when `from` is missing or `to` exists. */
  function AfterRenameTable(db: Tables, from: string, to: string): Option<Tables>
  {
    if from !in db || to in db then None
    else Some((db - {from})[to := db[from]])
  }

  function DropCommand(name: string): string
  {
    "DROP TABLE IF EXISTS " + name
  }

  function RenameColumnCommand(table: string, from: string, to: string): string
  {
    "ALTER TABLE " + table + " RENAME COLUMN " + from + " TO " + to
  }

  function RenameTableCommand(from: string, to: string): string
  {
    "ALTER TABLE " + from + " RENAME TO " + to
  }

  /** The primary-key column of a dismod_at table. */
  function IdColumn(table: string): string
  {
    table + "_id"
  }

  /** The three statements of `move_table(src, dst)`, in the order they are issued. */
  function MoveCommands(src: string, dst: string): seq<string>
  {
    [DropCommand(dst), RenameColumnCommand(src, IdColumn(src), IdColumn(dst)), RenameTableCommand(src, dst)]
  }

  /** The tables after the three statements of `move_table(src, dst)`, or None
      when one of them fails. */
  function MovedTables(db: Tables, src: string, dst: string): Option<Tables>
  {
    match AfterRenameColumn(AfterDrop(db, dst), src, IdColumn(src), IdColumn(dst))
    case None => None
    case Some(d) => AfterRenameTable(d, src, dst)
  }

  lemma IdColumnInjective(a: string, b: string)
    ensures IdColumn(a) == IdColumn(b) <==> a == b
  {
    if IdColumn(a) == IdColumn(b) {
      assert |a| == |b|;
      assert IdColumn(a)[..|a|] == a && IdColumn(b)[..|b|] == b;
    }
  }

  /** `move_table(src, dst)` succeeds exactly when src and dst differ, src exists,
      has its id column and has no column named like dst's id column; then src is
      gone, dst holds src's rows under the renamed id column, and nothing else changes. */
  lemma MovedTablesSpec(db: Tables, src: string, dst: string)
    ensures MovedTables(db, src, dst).Some? <==>
      src != dst && src in db && IdColumn(src) in db[src].columns && IdColumn(dst) !in db[src].columns
    ensures MovedTables(db, src, dst).Some? ==>
      MovedTables(db, src, dst).value == (db - {src, dst})[dst := RenamedTable(db[src], IdColumn(src), IdColumn(dst))]
  {
    var d1 := AfterDrop(db, dst);
    if src != dst && src in db && IdColumn(src) in db[src].columns && IdColumn(dst) !in db[src].columns {
      assert d1[src] == db[src];
      var d2 := AfterRenameColumn(d1, src, IdColumn(src), IdColumn(dst)).value;
      assert dst !in d2;
      assert AfterRenameTable(d2, src, dst).value == (db - {src, dst})[dst := d2[src]];
    }
  }

  lemma RenamedColumnsTwice(columns: seq<string>, a: string, b: string)
    requires b !in columns
    ensures RenamedColumns(RenamedColumns(columns, a, b), b, a) == columns
  {
    var r := RenamedColumns(RenamedColumns(columns, a, b), b, a);
    assert forall i :: 0 <= i < |columns| ==> r[i] == columns[i];
  }

  lemma RenamedRowsTwice(t: Table, a: string, b: string)
    requires RowsWithinColumns(t) && b !in t.columns
    ensures RenamedRows(RenamedRows(t.rows, a, b), b, a) == t.rows
  {
    var r := RenamedRows(RenamedRows(t.rows, a, b), b, a);
    forall i | 0 <= i < |t.rows| ensures r[i] == t.rows[i] {
      var row := t.rows[i];
      assert b !in row;
      if a in row {
        assert RenamedKey(RenamedKey(row, a, b), b, a) == row;
      }
    }
  }

  /** After renaming a present column `a` to `b`, `b` is a column and `a` is not. */
  lemma RenamedColumnsMembers(columns: seq<string>, a: string, b: string)
    requires a != b && a in columns
    ensures b in RenamedColumns(columns, a, b) && a !in RenamedColumns(columns, a, b)
  {
    var r := RenamedColumns(columns, a, b);
    var i :| 0 <= i < |columns| && columns[i] == a;
    assert r[i] == b;
    forall j | 0 <= j < |r| ensures r[j] != a {
      assert r[j] == if columns[j] == a then b else columns[j];
    }
  }

  /** Renaming a column and renaming it back gives the table back. */
  lemma RenamedTableTwice(t: Table, a: string, b: string)
    requires a != b && a in t.columns && b !in t.columns && RowsWithinColumns(t)
    ensures b in RenamedTable(t, a, b).columns && a !in RenamedTable(t, a, b).columns
    ensures RenamedTable(RenamedTable(t, a, b), b, a) == t
  {
    RenamedColumnsMembers(t.columns, a, b);
    RenamedColumnsTwice(t.columns, a, b);
    RenamedRowsTwice(t, a, b);
  }

  /** Putting back the entry that was taken out restores the map. */
  lemma RestoredEntry<K, V>(m: map<K, V>, x: K, y: K)
    requires x in m && x != y
    ensures (m - {x, y})[x := m[x]] == m - {y}
  {
  }

  lemma RemoveReplaced<K, V>(m: map<K, V>, x: K, y: K, v: V)
    ensures (m - {x, y})[y := v] - {y, x} == m - {x, y}
  {
  }

  /** Moving a table and moving it back restores every table, except that a table
      which already had the temporary name is gone. */
  lemma MoveRoundTrip(db: Tables, src: string, dst: string)
    requires MovedTables(db, src, dst).Some?
    requires RowsWithinColumns(db[src])
    ensures MovedTables(MovedTables(db, src, dst).value, dst, src) == Some(db - {dst})
  {
    MovedTablesSpec(db, src, dst);
    IdColumnInjective(src, dst);
    var t := db[src];
    var a, b := IdColumn(src), IdColumn(dst);
    var t1 := RenamedTable(t, a, b);
    RenamedTableTwice(t, a, b);
    var db1 := MovedTables(db, src, dst).value;
    assert db1 == (db - {src, dst})[dst := t1];
    MovedTablesSpec(db1, dst, src);
    RemoveReplaced(db, src, dst, t1);
    RestoredEntry(db, src, dst);
  }

  /** A dismod_at database connection: its tables and the statements issued on
      it through `sql_command` so far, in order. `get_table_dict` and
      `replace_table` change or read the tables without recording a statement. */
  class Connection {
    var tables: Tables
    var commands: seq<string>

    constructor (tables: Tables)
      ensures this.tables == tables && commands == []
    {
      this.tables := tables;
      commands := [];
    }

    method DropTableIfExists(name: string)
      modifies this
      ensures tables == AfterDrop(old(tables), name)
      ensures commands == old(commands) + [DropCommand(name)]
    {
      commands := commands + [DropCommand(name)];
      tables := AfterDrop(tables, name);
    }

    method RenameColumn(table: string, from: string, to: string) returns (ok: bool)
      modifies this
      ensures ok == AfterRenameColumn(old(tables), table, from, to).Some?
      ensures tables == if ok then AfterRenameColumn(old(tables), table, from, to).value else old(tables)
      ensures commands == old(commands) + [RenameColumnCommand(table, from, to)]
    {
      commands := commands + [RenameColumnCommand(table, from, to)];
      var after := AfterRenameColumn(tables, table, from, to);
      ok := after.Some?;
      if ok {
        tables := after.value;
      }
    }

    method RenameTable(from: string, to: string) returns (ok: bool)
      modifies this
      ensures ok == AfterRenameTable(old(tables), from, to).Some?
      ensures tables == if ok then AfterRenameTable(old(tables), from, to).value else old(tables)
      ensures commands == old(commands) + [RenameTableCommand(from, to)]
    {
      commands := commands + [RenameTableCommand(from, to)];
      var after := AfterRenameTable(tables, from, to);
      ok := after.Some?;
      if ok {
        tables := after.value;
      }
    }

    /** `get_table_dict(connection, name)`. */
    method GetTableDict(name: string) returns (rows: Result<seq<Row>>)
      ensures rows.Ok? <==> name in tables
      ensures rows.Ok? ==> rows.value == tables[name].rows
    {
      if name in tables {
        rows := Ok(tables[name].rows);
      } else {
        rows := Err(SqlFailed("no such table: " + name));
      }
    }

    /** `replace_table(connection, name, rows)`: the table keeps its columns
        and takes the given rows. */
    method ReplaceTable(name: string, rows: seq<Row>) returns (ok: bool)
      modifies this
      ensures ok <==> name in old(tables)
      ensures tables == if ok then old(tables)[name := Table(old(tables)[name].columns, rows)] else old(tables)
      ensures commands == old(commands)
    {
      ok := name in tables;
      if ok {
        tables := tables[name := Table(tables[name].columns, rows)];
      }
    }

    /** An `insert into` statement with the given text that adds `row` to `table`.
        SQLite refuses it when the table is missing or when the row's primary key
        is already taken. */
    method Insert(command: string, table: string, row: Row) returns (ok: bool)
      modifies this
      ensures ok <==> (table in old(tables) &&
        forall i :: 0 <= i < |old(tables)[table].rows| ==>
          !(IdColumn(table) in row && IdColumn(table) in old(tables)[table].rows[i]
            && old(tables)[table].rows[i][IdColumn(table)] == row[IdColumn(table)]))
      ensures tables == if ok then old(tables)[table := Table(old(tables)[table].columns, old(tables)[table].rows + [row])]
                        else old(tables)
      ensures commands == old(commands) + [command]
    {
      commands := commands + [command];
      ok := table in tables;
      if ok {
        var rows := tables[table].rows;
        var key := IdColumn(table);
        var i := 0;
        while i < |rows|
          invariant 0 <= i <= |rows|
          invariant ok <==> forall j :: 0 <= j < i ==>
            !(key in row && key in rows[j] && rows[j][key] == row[key])
        {
          if key in row && key in rows[i] && rows[i][key] == row[key] {
            ok := false;
          }
          i := i + 1;
        }
        if ok {
          tables := tables[table := Table(tables[table].columns, rows + [row])];
        }
      }
    }
  }
}
