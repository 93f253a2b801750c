/** Resuming a cascade from a node that has been fitted already: find the root
    and the fit node, check job 0 of the job table against them, move the avgint
    table out of the way, collect the databases of job 0's children, move avgint
    back and hand the job table to the parallel runner. Every table move is
    recorded in the database's log table. */
module ContinueCascade {
  import opened Wrappers
  import opened Strings
  import opened Dicts
  import opened Database
  import opened AllOptions
  import opened Jobs
  import CascadeFitNode

  // ---------------------------------------------------------------------------
  // The log table

  const LogTable := "log"
  const MessageType := "at_cascade"

  /** The row `add_log_entry` inserts; the time stamp is an input of the model. */
  function LogRow(logId: nat, seconds: int, message: string): Row
  {
    map["log_id" := IntV(logId), "message_type" := TextV(MessageType), "table_name" := Null,
        "row_id" := Null, "unix_time" := IntV(seconds), "message" := TextV(message)]
  }

  const InsertLogPrefix := "insert into log (log_id,message_type,table_name,row_id,unix_time,message) values("

  /** The text of the insert statement `add_log_entry` issues. */
  function LogCommand(logId: nat, seconds: int, message: string): string
  {
    InsertLogPrefix
    + IntToString(logId) + ","
    + "\"" + MessageType + "\","
    + "null,"
    + "null,"
    + IntToString(seconds) + ","
    + "\"" + message + "\")"
  }

  /** Some row of the log already has the id. */
  predicate LogIdTaken(rows: seq<Row>, logId: nat)
  {
    exists i :: 0 <= i < |rows| && "log_id" in rows[i] && rows[i]["log_id"] == IntV(logId)
  }

  /** The log ids are 0, 1, 2, ... in row order. */
  predicate DenseLog(rows: seq<Row>)
  {
    forall i :: 0 <= i < |rows| ==> "log_id" in rows[i] && rows[i]["log_id"] == IntV(i)
  }

  /** Whether a sequence of SQL statements all succeeded, the tables after them,
      and the statements issued. */
  datatype Effect = Effect(ok: bool, tables: Tables, commands: seq<string>)

  /** What `add_log_entry` does: read the log (an SQL error when there is none),
      then insert a row whose id is the number of rows read, which SQLite refuses
      when that id is taken. */
  function LogEffect(db: Tables, seconds: int, message: string): Effect
  {
    if LogTable !in db then Effect(false, db, [])
    else
      var log := db[LogTable];
      var logId := |log.rows|;
      var command := LogCommand(logId, seconds, message);
      if LogIdTaken(log.rows, logId) then Effect(false, db, [command])
      else Effect(true, db[LogTable := Table(log.columns, log.rows + [LogRow(logId, seconds, message)])], [command])
  }

  /** `add_log_entry(connection, message)` with `int(time.time())` given as `seconds`. */
  method AddLogEntry(connection: Connection, seconds: int, message: string) returns (ok: bool)
    modifies connection
    ensures var e := LogEffect(old(connection.tables), seconds, message);
      ok == e.ok && connection.tables == e.tables && connection.commands == old(connection.commands) + e.commands
  {
    var logTable := connection.GetTableDict(LogTable);
    if logTable.Err? {
      return false;
    }
    var logId := |logTable.value|;
    assert IdColumn(LogTable) == "log_id";
    ok := connection.Insert(LogCommand(logId, seconds, message), LogTable, LogRow(logId, seconds, message));
  }

  /** On a log with dense ids the entry always goes in, gets the next id, and
      the ids stay dense; no other table changes. */
  lemma LogEffectDense(db: Tables, seconds: int, message: string)
    requires LogTable in db && DenseLog(db[LogTable].rows)
    ensures var log := db[LogTable];
      var e := LogEffect(db, seconds, message);
      && e.ok
      && e.tables == db[LogTable := Table(log.columns, log.rows + [LogRow(|log.rows|, seconds, message)])]
      && DenseLog(e.tables[LogTable].rows)
  {
  }

  /** The log table after `add_log_entry` is called once per entry, in order, or
      None when one of the calls fails. */
  function LogEntries(db: Tables, entries: seq<(int, string)>): Option<Tables>
    decreases |entries|
  {
    if |entries| == 0 then Some(db)
    else
      match LogEntries(db, entries[..|entries| - 1])
      case None => None
      case Some(d) =>
        var e := LogEffect(d, entries[|entries| - 1].0, entries[|entries| - 1].1);
        if e.ok then Some(e.tables) else None
  }

  /** Repeated calls on a log with dense ids all succeed: the log keeps its rows,
      gains one row per call carrying that call's time and message, and its ids
      run 0, 1, ..., n - 1. */
  lemma {:induction false} LogEntriesDense(db: Tables, entries: seq<(int, string)>)
    requires LogTable in db && DenseLog(db[LogTable].rows)
    ensures var r := LogEntries(db, entries);
      var n := |db[LogTable].rows|;
      && r.Some? && LogTable in r.value
      && r.value - {LogTable} == db - {LogTable}
      && r.value[LogTable].columns == db[LogTable].columns
      && |r.value[LogTable].rows| == n + |entries|
      && r.value[LogTable].rows[..n] == db[LogTable].rows
      && DenseLog(r.value[LogTable].rows)
      && forall k :: 0 <= k < |entries| ==> r.value[LogTable].rows[n + k] == LogRow(n + k, entries[k].0, entries[k].1)
    decreases |entries|
  {
    if |entries| > 0 {
      var front := entries[..|entries| - 1];
      var last := entries[|entries| - 1];
      LogEntriesDense(db, front);
      var d := LogEntries(db, front).value;
      var n := |db[LogTable].rows|;
      assert |d[LogTable].rows| == n + |front| == n + |entries| - 1;
      LogEffectDense(d, last.0, last.1);
      var rows := d[LogTable].rows + [LogRow(|d[LogTable].rows|, last.0, last.1)];
      var r := d[LogTable := Table(d[LogTable].columns, rows)];
      assert LogEntries(db, entries) == Some(r);
      UpdateOutside(d, LogTable, Table(d[LogTable].columns, rows));
      assert rows[..n] == d[LogTable].rows[..n];
      forall k | 0 <= k < |entries|
        ensures rows[n + k] == LogRow(n + k, entries[k].0, entries[k].1)
      {
        if k < |front| {
          assert entries[k] == front[k];
          assert rows[n + k] == d[LogTable].rows[n + k];
        } else {
          assert k == |front|;
        }
      }
    }
  }

  // ---------------------------------------------------------------------------
  // move_table with its log entry

  function MoveMessage(src: string, dst: string): string
  {
    "move table " + src + " to " + dst
  }

  /** What this file's `move_table` does: the three statements of the cascade's
      table move, stopping at the first one SQLite refuses, then a log entry. */
  function MoveEffect(db: Tables, src: string, dst: string, seconds: int): Effect
  {
    match MovedTables(db, src, dst)
    case None => Effect(false, AfterDrop(db, dst), MoveCommands(src, dst)[..2])
    case Some(moved) =>
      var log := LogEffect(moved, seconds, MoveMessage(src, dst));
      Effect(log.ok, log.tables, MoveCommands(src, dst) + log.commands)
  }

  /** `move_table(connection, src_name, dst_name)`. */
  method MoveTable(connection: Connection, srcName: string, dstName: string, seconds: int) returns (ok: bool)
    modifies connection
    ensures var e := MoveEffect(old(connection.tables), srcName, dstName, seconds);
      ok == e.ok && connection.tables == e.tables && connection.commands == old(connection.commands) + e.commands
  {
    ok := CascadeFitNode.MoveTable(connection, srcName, dstName);
    if ok {
      ok := AddLogEntry(connection, seconds, MoveMessage(srcName, dstName));
    }
  }

  /** A move that succeeds issues, in order, the drop of dst, the rename of the
      id column, the rename of the table and the insert of the log message
      "move table src to dst", whose id is the number of log rows. */
  lemma MoveEffectCommands(db: Tables, src: string, dst: string, seconds: int)
    requires MoveEffect(db, src, dst, seconds).ok
    ensures var moved := MovedTables(db, src, dst);
      && moved.Some? && LogTable in moved.value
      && MoveEffect(db, src, dst, seconds).commands == [
        DropCommand(dst),
        RenameColumnCommand(src, IdColumn(src), IdColumn(dst)),
        RenameTableCommand(src, dst),
        LogCommand(|moved.value[LogTable].rows|, seconds, MoveMessage(src, dst))]
  {
  }

  /** Moving a table that the log is not, with a log entry, keeps every other
      table and appends one log row to a dense log. */
  lemma MoveEffectLogged(db: Tables, src: string, dst: string, seconds: int)
    requires MovedTables(db, src, dst).Some?
    requires LogTable in db && DenseLog(db[LogTable].rows) && LogTable != src && LogTable != dst
    ensures var log := db[LogTable];
      var e := MoveEffect(db, src, dst, seconds);
      && e.ok
      && e.tables == MovedTables(db, src, dst).value[LogTable := Table(log.columns, log.rows + [LogRow(|log.rows|, seconds, MoveMessage(src, dst))])]
      && DenseLog(e.tables[LogTable].rows)
  {
    MovedTablesSpec(db, src, dst);
    var moved := MovedTables(db, src, dst).value;
    assert moved[LogTable] == db[LogTable];
    LogEffectDense(moved, seconds, MoveMessage(src, dst));
  }

  /** A table with its id column and no column named like dst's id column can be
      moved to dst and back when the log has dense ids. */
  lemma MoveThereAndBack(db: Tables, src: string, dst: string, seconds1: int, seconds2: int)
    requires src != dst && src in db && RowsWithinColumns(db[src])
    requires IdColumn(src) in db[src].columns && IdColumn(dst) !in db[src].columns
    requires LogTable in db && DenseLog(db[LogTable].rows) && LogTable != src && LogTable != dst
    ensures MoveEffect(db, src, dst, seconds1).ok
    ensures MoveEffect(MoveEffect(db, src, dst, seconds1).tables, dst, src, seconds2).ok
  {
    MovedTablesSpec(db, src, dst);
    MoveEffectLogged(db, src, dst, seconds1);
    var there := MoveEffect(db, src, dst, seconds1).tables;
    var t := RenamedTable(db[src], IdColumn(src), IdColumn(dst));
    assert there[dst] == t;
    IdColumnInjective(src, dst);
    RenamedTableTwice(db[src], IdColumn(src), IdColumn(dst));
    MovedTablesSpec(there, dst, src);
    MoveEffectLogged(there, dst, src, seconds2);
  }

  /** Changing a table that a move does not touch commutes with the move. */
  lemma MovedTablesUpdate(d: Tables, src: string, dst: string, k: string, t: Table)
    requires k != src && k != dst
    ensures MovedTables(d[k := t], src, dst) ==
      match MovedTables(d, src, dst)
      case None => None
      case Some(m) => Some(m[k := t])
  {
    MovedTablesSpec(d, src, dst);
    MovedTablesSpec(d[k := t], src, dst);
    if src in d {
      assert d[k := t][src] == d[src];
      if MovedTables(d, src, dst).Some? {
        var x := RenamedTable(d[src], IdColumn(src), IdColumn(dst));
        assert (d[k := t] - {src, dst})[dst := x] == ((d - {src, dst})[dst := x])[k := t];
      }
    }
  }

  /** Moving src to dst and back, logging each move, leaves every table as it
      was, except that a table already called dst is gone and the log holds
      two more rows: first the move there, then the move back. */
  lemma MoveRoundTripLogged(db: Tables, src: string, dst: string, seconds1: int, seconds2: int)
    requires MovedTables(db, src, dst).Some? && RowsWithinColumns(db[src])
    requires LogTable in db && LogTable != src && LogTable != dst
    requires MoveEffect(db, src, dst, seconds1).ok
    ensures var there := MoveEffect(db, src, dst, seconds1);
      var back := MoveEffect(there.tables, dst, src, seconds2);
      var log := db[LogTable];
      var n := |log.rows|;
      back.ok ==>
        back.tables == (db - {dst})[LogTable := Table(log.columns,
          log.rows + [LogRow(n, seconds1, MoveMessage(src, dst)), LogRow(n + 1, seconds2, MoveMessage(dst, src))])]
  {
    MovedTablesSpec(db, src, dst);
    var moved := MovedTables(db, src, dst).value;
    assert moved[LogTable] == db[LogTable];
    var log := db[LogTable];
    var n := |log.rows|;
    var row1, row2 := LogRow(n, seconds1, MoveMessage(src, dst)), LogRow(n + 1, seconds2, MoveMessage(dst, src));
    var t1 := Table(log.columns, log.rows + [row1]);
    var there := moved[LogTable := t1];
    assert MoveEffect(db, src, dst, seconds1).tables == there;
    MoveRoundTrip(db, src, dst);
    assert MovedTables(moved, dst, src) == Some(db - {dst});
    MovedTablesUpdate(moved, dst, src, LogTable, t1);
    var backMoved := (db - {dst})[LogTable := t1];
    assert MovedTables(there, dst, src) == Some(backMoved);
    assert backMoved[LogTable] == t1;
    AppendTwo(log.rows, row1, row2);
    UpdateTwice(db - {dst}, LogTable, t1, Table(log.columns, log.rows + [row1, row2]));
  }

  // The identities below are stated as lemmas because, asserted inline
  // in the contexts that use them, they cost the solver far more.

  lemma AppendTwo<T>(s: seq<T>, a: T, b: T)
    ensures (s + [a]) + [b] == s + [a, b]
  {
  }

  lemma AppendAssociative<T>(a: seq<T>, b: seq<T>, c: seq<T>)
    ensures (a + b) + c == a + (b + c)
  {
  }

  lemma UpdateTwice<K, V>(m: map<K, V>, k: K, a: V, b: V)
    ensures m[k := a][k := b] == m[k := b]
  {
  }

  lemma UpdateOutside<K, V>(m: map<K, V>, k: K, v: V)
    ensures m[k := v] - {k} == m - {k}
  {
  }

  // ---------------------------------------------------------------------------
  // Finding the root, the fit node and job 0's children

  /** What `continue_cascade` reads from the two databases, and what the routines
      it calls return; those routines are not part of this model.
      `tableName2Id` is `table_name2id(node_table, 'node', ·)` (None where it
      fails), `parentNode` is `get_parent_node(fit_node_database)`,
      `covInfoSplitReferenceId` is `get_cov_info(...)['split_reference_id']`,
      `createJobTable` is `create_job_table` applied to the start node and split
      reference (the other arguments are fixed), `databaseDir` is
      `get_database_dir`, and `fitIntegrand` is `get_fit_integrand(...)`. */
  datatype Inputs = Inputs(
    nodeTable: seq<CascadeFitNode.NodeRow>,
    allOption: seq<OptionRow>,
    nodeSplit: seq<nat>,
    splitReference: seq<SplitReferenceRow>,
    tableName2Id: string -> Option<nat>,
    parentNode: string,
    covInfoSplitReferenceId: nat,
    createJobTable: (nat, Option<nat>) -> seq<JobRow>,
    databaseDir: DirQuery -> string,
    fitIntegrand: set<nat>)

  /** What is known once job 0 has been checked. */
  datatype Setup = Setup(
    rootNodeId: nat,
    rootSplitReferenceId: Value,
    fitNodeId: nat,
    fitSplitReferenceId: Option<nat>,
    jobTable: seq<JobRow>,
    startChildJobId: nat,
    endChildJobId: nat)

  /** The value of the last `root_split_reference_id` option row, as text, or
      Null (Python's None) when there is none. */
  function OptionText(v: Option<string>): Value
  {
    match v
    case None => Null
    case Some(s) => TextV(s)
  }

  /** Everything `continue_cascade` does before it first moves a table. */
  function ResumeSetup(inputs: Inputs): Result<Setup>
  {
    match LastValue(inputs.allOption, "root_node_name")
    case None => Err(AssertionFailed("root_node_name is not None"))
    case Some(rootNodeName) =>
      match inputs.tableName2Id(rootNodeName)
      case None => Err(KeyMissing(rootNodeName))
      case Some(rootNodeId) =>
        var rootSplitReferenceId := OptionText(LastValue(inputs.allOption, "root_split_reference_id"));
        match inputs.tableName2Id(inputs.parentNode)
        case None => Err(KeyMissing(inputs.parentNode))
        case Some(fitNodeId) =>
          var fitSplitReferenceId := if |inputs.splitReference| == 0 then None else Some(inputs.covInfoSplitReferenceId);
          var jobTable := inputs.createJobTable(fitNodeId, fitSplitReferenceId);
          if |jobTable| == 0 then Err(IndexOutOfRange(0))
          else if fitNodeId != jobTable[0].fit_node_id then
            Err(AssertionFailed("fit_node_id == job_table[0]['fit_node_id']"))
          else if fitSplitReferenceId != jobTable[0].split_reference_id then
            Err(AssertionFailed("fit_split_reference_id == job_table[0]['split_reference_id']"))
          else
            Ok(Setup(rootNodeId, rootSplitReferenceId, fitNodeId, fitSplitReferenceId, jobTable,
                     jobTable[0].start_child_job_id, jobTable[0].end_child_job_id))
  }

  /** The setup, with the two option loops. */
  method PlanSetup(inputs: Inputs) returns (r: Result<Setup>)
    ensures r == ResumeSetup(inputs)
  {
    var rootNodeName := LastOptionValue(inputs.allOption, "root_node_name");
    if rootNodeName.None? {
      return Err(AssertionFailed("root_node_name is not None"));
    }
    var rootNodeId := inputs.tableName2Id(rootNodeName.value);
    if rootNodeId.None? {
      return Err(KeyMissing(rootNodeName.value));
    }
    var rootSplit := LastOptionValue(inputs.allOption, "root_split_reference_id");
    var rootSplitReferenceId := if rootSplit.None? then Null else TextV(rootSplit.value);
    var fitNodeName := inputs.parentNode;
    var fitNodeId := inputs.tableName2Id(fitNodeName);
    if fitNodeId.None? {
      return Err(KeyMissing(fitNodeName));
    }
    var fitSplitReferenceId: Option<nat>;
    if |inputs.splitReference| == 0 {
      fitSplitReferenceId := None;
    } else {
      fitSplitReferenceId := Some(inputs.covInfoSplitReferenceId);
    }
    var jobTable := inputs.createJobTable(fitNodeId.value, fitSplitReferenceId);
    if |jobTable| == 0 {
      return Err(IndexOutOfRange(0));
    }
    if fitNodeId.value != jobTable[0].fit_node_id {
      return Err(AssertionFailed("fit_node_id == job_table[0]['fit_node_id']"));
    }
    if fitSplitReferenceId != jobTable[0].split_reference_id {
      return Err(AssertionFailed("fit_split_reference_id == job_table[0]['split_reference_id']"));
    }
    r := Ok(Setup(rootNodeId.value, rootSplitReferenceId, fitNodeId.value, fitSplitReferenceId, jobTable,
                  jobTable[0].start_child_job_id, jobTable[0].end_child_job_id));
  }

  /** The root is found from the last `root_node_name` option row, which must
      exist; the root split reference id is the last `root_split_reference_id`
      row's value, None when there is no such row. */
  lemma ResumeSetupRoot(inputs: Inputs)
    ensures (forall i :: 0 <= i < |inputs.allOption| ==> inputs.allOption[i].option_name != "root_node_name") ==>
      ResumeSetup(inputs) == Err(AssertionFailed("root_node_name is not None"))
    ensures ResumeSetup(inputs).Ok? ==>
      var s := ResumeSetup(inputs).value;
      exists i :: 0 <= i < |inputs.allOption| && inputs.allOption[i].option_name == "root_node_name"
        && inputs.tableName2Id(inputs.allOption[i].option_value) == Some(s.rootNodeId)
        && forall j :: i < j < |inputs.allOption| ==> inputs.allOption[j].option_name != "root_node_name"
    ensures ResumeSetup(inputs).Ok? ==>
      var s := ResumeSetup(inputs).value;
      (s.rootSplitReferenceId == Null <==>
        forall i :: 0 <= i < |inputs.allOption| ==> inputs.allOption[i].option_name != "root_split_reference_id")
      && (s.rootSplitReferenceId != Null ==>
        exists i :: 0 <= i < |inputs.allOption| && inputs.allOption[i].option_name == "root_split_reference_id"
          && s.rootSplitReferenceId == TextV(inputs.allOption[i].option_value)
          && forall j :: i < j < |inputs.allOption| ==> inputs.allOption[j].option_name != "root_split_reference_id")
  {
    LastValueSpec(inputs.allOption, "root_node_name");
    LastValueSpec(inputs.allOption, "root_split_reference_id");
  }

  /** The fit split reference id is None exactly when the split_reference table
      is empty, and job 0 fits the fit node and that split reference; a job 0
      that does not is refused by an assertion. */
  lemma ResumeSetupJobZero(inputs: Inputs)
    ensures ResumeSetup(inputs).Ok? ==>
      var s := ResumeSetup(inputs).value;
      && (s.fitSplitReferenceId.None? <==> |inputs.splitReference| == 0)
      && Some(s.fitNodeId) == inputs.tableName2Id(inputs.parentNode)
      && s.jobTable == inputs.createJobTable(s.fitNodeId, s.fitSplitReferenceId)
      && |s.jobTable| > 0
      && s.jobTable[0].fit_node_id == s.fitNodeId
      && s.jobTable[0].split_reference_id == s.fitSplitReferenceId
      && s.startChildJobId == s.jobTable[0].start_child_job_id
      && s.endChildJobId == s.jobTable[0].end_child_job_id
    ensures (&& LastValue(inputs.allOption, "root_node_name").Some?
             && inputs.tableName2Id(LastValue(inputs.allOption, "root_node_name").value).Some?
             && inputs.tableName2Id(inputs.parentNode).Some?) ==>
      var fitNodeId := inputs.tableName2Id(inputs.parentNode).value;
      var fitSplitReferenceId := if |inputs.splitReference| == 0 then None else Some(inputs.covInfoSplitReferenceId);
      var jobTable := inputs.createJobTable(fitNodeId, fitSplitReferenceId);
      (ResumeSetup(inputs).Ok? <==>
        |jobTable| > 0 && jobTable[0].fit_node_id == fitNodeId && jobTable[0].split_reference_id == fitSplitReferenceId)
  {
  }

  // ---------------------------------------------------------------------------
  // shift_databases

  /** The `get_database_dir` question for a job. */
  function JobQuery(s: Setup, nodeSplitSet: set<nat>, job: JobRow): DirQuery
  {
    DirQuery(nodeSplitSet, s.rootNodeId, s.rootSplitReferenceId, job.fit_node_id, job.split_reference_id)
  }

  /** The number of job ids in `range(start, end)`. */
  function RangeLength(start: nat, end: nat): nat
  {
    if start < end then end - start else 0
  }

  /** The job id the loop over `range(start, end)` stops at: the end of the
      range, or the first job id past the end of the job table. */
  function Reach(s: Setup): nat
  {
    var start, end := s.startChildJobId, s.endChildJobId;
    if start < end && |s.jobTable| < end then
      (if start < |s.jobTable| then |s.jobTable| else start)
    else end
  }

  /** The directories of the jobs the loop gets through before it stops, in
      order: each one is made if it is missing. */
  function DirsReached(inputs: Inputs, s: Setup, nodeSplitSet: set<nat>): seq<string>
  {
    var start := s.startChildJobId;
    seq(RangeLength(start, Reach(s)), k requires 0 <= k < RangeLength(start, Reach(s)) =>
      inputs.databaseDir(JobQuery(s, nodeSplitSet, s.jobTable[start + k])))
  }

  /** A sequence that agrees with the directories reached, job by job, is them. */
  lemma DirsReachedIs(inputs: Inputs, s: Setup, nodeSplitSet: set<nat>, made: seq<string>)
    requires |made| == RangeLength(s.startChildJobId, Reach(s))
    requires forall k :: 0 <= k < |made| ==>
      s.startChildJobId + k < |s.jobTable|
      && made[k] == inputs.databaseDir(JobQuery(s, nodeSplitSet, s.jobTable[s.startChildJobId + k]))
    ensures made == DirsReached(inputs, s, nodeSplitSet)
  {
  }

  /** The directories of the jobs in `range(start, end)`, in order, or the
      first job id past the end of the job table. */
  function ShiftDirs(inputs: Inputs, s: Setup, nodeSplitSet: set<nat>): Result<seq<string>>
  {
    var start, end := s.startChildJobId, s.endChildJobId;
    if start < end && |s.jobTable| < end then Err(IndexOutOfRange(Reach(s)))
    else Ok(DirsReached(inputs, s, nodeSplitSet))
  }

  /** The dict of shifted databases: for each directory in order,
      `d[last segment] = dir/dismod.db`. */
  function ShiftDatabases(dirs: seq<string>): Dict<string, string>
    decreases |dirs|
  {
    if |dirs| == 0 then []
    else
      var dir := dirs[|dirs| - 1];
      Put(ShiftDatabases(dirs[..|dirs| - 1]), LastSegment(dir), CascadeFitNode.DatabaseIn(dir))
  }

  lemma ShiftDatabasesSnoc(dirs: seq<string>, dir: string)
    ensures ShiftDatabases(dirs + [dir]) == Put(ShiftDatabases(dirs), LastSegment(dir), CascadeFitNode.DatabaseIn(dir))
  {
    assert (dirs + [dir])[..|dirs|] == dirs;
  }

  /** A key is in the dict exactly when some directory ends in it, and then its
      database is the one of the last such directory: a later job with the same
      name overwrites an earlier one. No key occurs twice. */
  lemma {:induction false} ShiftDatabasesGet(dirs: seq<string>, key: string)
    ensures Get(ShiftDatabases(dirs), key).None? <==> forall i :: 0 <= i < |dirs| ==> LastSegment(dirs[i]) != key
    ensures Get(ShiftDatabases(dirs), key).Some? ==>
      exists i :: 0 <= i < |dirs| && LastSegment(dirs[i]) == key
        && Get(ShiftDatabases(dirs), key).value == CascadeFitNode.DatabaseIn(dirs[i])
        && forall j :: i < j < |dirs| ==> LastSegment(dirs[j]) != key
    ensures DistinctKeys(ShiftDatabases(dirs))
    decreases |dirs|
  {
    if |dirs| > 0 {
      var front := dirs[..|dirs| - 1];
      var dir := dirs[|dirs| - 1];
      assert dirs == front + [dir];
      ShiftDatabasesGet(front, key);
      PutGet(ShiftDatabases(front), LastSegment(dir), CascadeFitNode.DatabaseIn(dir), key);
      PutDistinct(ShiftDatabases(front), LastSegment(dir), CascadeFitNode.DatabaseIn(dir));
      if LastSegment(dir) != key && Get(ShiftDatabases(front), key).Some? {
        var i :| 0 <= i < |front| && LastSegment(front[i]) == key
          && Get(ShiftDatabases(front), key).value == CascadeFitNode.DatabaseIn(front[i])
          && forall j :: i < j < |front| ==> LastSegment(front[j]) != key;
        assert front[i] == dirs[i];
      }
    }
  }

  /** The loop over job 0's child range: make each job's directory if it is
      missing, and record its database under its last path segment. */
  method ShiftDatabasesLoop(inputs: Inputs, s: Setup, nodeSplitSet: set<nat>)
    returns (dirs: Result<seq<string>>, made: seq<string>, shiftDatabases: Dict<string, string>)
    ensures dirs == ShiftDirs(inputs, s, nodeSplitSet)
    ensures made == DirsReached(inputs, s, nodeSplitSet)
    ensures dirs.Ok? ==> shiftDatabases == ShiftDatabases(dirs.value)
  {
    made := [];
    shiftDatabases := [];
    var start, end := s.startChildJobId, s.endChildJobId;
    var jobId := start;
    while jobId < end
      invariant start <= jobId && (jobId == start || jobId <= end)
      invariant jobId == start || jobId <= |s.jobTable|
      invariant |made| == jobId - start
      invariant forall k :: 0 <= k < |made| ==> made[k] == inputs.databaseDir(JobQuery(s, nodeSplitSet, s.jobTable[start + k]))
      invariant shiftDatabases == ShiftDatabases(made)
      decreases end - jobId
    {
      if |s.jobTable| <= jobId {
        assert jobId == Reach(s);
        DirsReachedIs(inputs, s, nodeSplitSet, made);
        return Err(IndexOutOfRange(jobId)), made, shiftDatabases;
      }
      var job := s.jobTable[jobId];
      var shiftDatabaseDir := inputs.databaseDir(JobQuery(s, nodeSplitSet, job));
      var shiftNodeDatabase := shiftDatabaseDir + "/dismod.db";
      assert shiftNodeDatabase == CascadeFitNode.DatabaseIn(shiftDatabaseDir);
      var shiftName := LastSegment(shiftDatabaseDir);
      ShiftDatabasesSnoc(made, shiftDatabaseDir);
      shiftDatabases := Put(shiftDatabases, shiftName, shiftNodeDatabase);
      made := made + [shiftDatabaseDir];
      jobId := jobId + 1;
    }
    assert |made| == RangeLength(start, end);
    assert !(start < end && |s.jobTable| < end);
    DirsReachedIs(inputs, s, nodeSplitSet, made);
    dirs := Ok(made);
  }

  /** The range is read from job 0; a job id past the end of the job table is an
      error, otherwise there is one directory per job id in the range, that job's
      `get_database_dir`. Either way the directories reached are those of the
      job ids from the start of the range up to the one the loop stops at. */
  lemma ShiftDirsSpec(inputs: Inputs, s: Setup, nodeSplitSet: set<nat>)
    ensures ShiftDirs(inputs, s, nodeSplitSet).Ok? <==>
      s.endChildJobId <= s.startChildJobId || s.endChildJobId <= |s.jobTable|
    ensures ShiftDirs(inputs, s, nodeSplitSet).Err? ==>
      ShiftDirs(inputs, s, nodeSplitSet).error == IndexOutOfRange(Reach(s))
      && Reach(s) == (if s.startChildJobId < |s.jobTable| then |s.jobTable| else s.startChildJobId)
    ensures var made := DirsReached(inputs, s, nodeSplitSet);
      && |made| == RangeLength(s.startChildJobId, Reach(s))
      && (forall jobId :: s.startChildJobId <= jobId < Reach(s) ==>
        jobId < |s.jobTable| && made[jobId - s.startChildJobId] == inputs.databaseDir(DirQuery(
          nodeSplitSet, s.rootNodeId, s.rootSplitReferenceId,
          s.jobTable[jobId].fit_node_id, s.jobTable[jobId].split_reference_id)))
    ensures ShiftDirs(inputs, s, nodeSplitSet).Ok? ==>
      var dirs := ShiftDirs(inputs, s, nodeSplitSet).value;
      && |dirs| == RangeLength(s.startChildJobId, s.endChildJobId)
      && forall jobId :: s.startChildJobId <= jobId < s.endChildJobId ==>
        dirs[jobId - s.startChildJobId] == inputs.databaseDir(DirQuery(
          nodeSplitSet, s.rootNodeId, s.rootSplitReferenceId,
          s.jobTable[jobId].fit_node_id, s.jobTable[jobId].split_reference_id))
  {
    var start, end := s.startChildJobId, s.endChildJobId;
    var made := DirsReached(inputs, s, nodeSplitSet);
    forall jobId | start <= jobId < Reach(s)
      ensures jobId < |s.jobTable| && made[jobId - start] == inputs.databaseDir(JobQuery(s, nodeSplitSet, s.jobTable[jobId]))
    {
      var k := jobId - start;
      assert start + k == jobId;
    }
    if ShiftDirs(inputs, s, nodeSplitSet).Ok? {
      var dirs := ShiftDirs(inputs, s, nodeSplitSet).value;
      forall jobId | start <= jobId < end
        ensures dirs[jobId - start] == inputs.databaseDir(JobQuery(s, nodeSplitSet, s.jobTable[jobId]))
      {
        var k := jobId - start;
        assert start + k == jobId;
      }
    }
  }

  // ---------------------------------------------------------------------------
  // The whole routine

  /** `create_shift_db(all_node_database, fit_node_database, shift_databases)`,
      which is not part of this model. */
  datatype CreateShiftDb = CreateShiftDb(allNodeDatabase: string, fitNodeDatabase: string, shiftDatabases: Dict<string, string>)

  /** The arguments of `run_parallel`. */
  datatype RunParallel = RunParallel(
    jobTable: seq<JobRow>,
    startJobId: nat,
    allNodeDatabase: string,
    nodeTable: seq<CascadeFitNode.NodeRow>,
    fitIntegrand: set<nat>,
    traceFit: bool,
    skipStartJob: bool,
    maxNumberCpu: nat)

  /** How the routine ends (the run it starts, or its failure), the fit node
      database's tables after it, the SQL statements it issued there, the
      directories it reached in the loop over job 0's children, each made when
      missing, and the `create_shift_db` call, if it got that far. These are
      recorded on every path, a failed one included. */
  datatype Outcome = Outcome(result: Result<RunParallel>, tables: Tables, commands: seq<string>,
                             dirsMade: seq<string>, shiftCall: Option<CreateShiftDb>)

  /** Everything `continue_cascade` does. */
  function ResumeOutcome(inputs: Inputs, allNodeDatabase: string, fitNodeDatabase: string, traceFit: bool,
                         db: Tables, seconds1: int, seconds2: int): Outcome
  {
    match ResumeSetup(inputs)
    case Err(f) => Outcome(Err(f), db, [], [], None)
    case Ok(s) =>
      var there := MoveEffect(db, "avgint", "c_root_avgint", seconds1);
      if !there.ok then Outcome(Err(SqlFailed(MoveMessage("avgint", "c_root_avgint"))), there.tables, there.commands, [], None)
      else ResumeMoved(inputs, s, allNodeDatabase, fitNodeDatabase, traceFit, there, seconds2)
  }

  /** What follows the move of avgint to c_root_avgint, whose effect is `there`. */
  function ResumeMoved(inputs: Inputs, s: Setup, allNodeDatabase: string, fitNodeDatabase: string, traceFit: bool,
                       there: Effect, seconds2: int): Outcome
  {
    match ShiftDirs(inputs, s, NodeSplitIds(inputs.nodeSplit))
    case Err(f) => Outcome(Err(f), there.tables, there.commands, DirsReached(inputs, s, NodeSplitIds(inputs.nodeSplit)), None)
    case Ok(dirs) =>
      var shift := CreateShiftDb(allNodeDatabase, fitNodeDatabase, ShiftDatabases(dirs));
      var back := MoveEffect(there.tables, "c_root_avgint", "avgint", seconds2);
      var commands := there.commands + back.commands;
      if !back.ok then Outcome(Err(SqlFailed(MoveMessage("c_root_avgint", "avgint"))), back.tables, commands, dirs, Some(shift))
      else
        var run := RunParallel(s.jobTable, 0, allNodeDatabase, inputs.nodeTable, inputs.fitIntegrand, traceFit, true, 1);
        Outcome(Ok(run), back.tables, commands, dirs, Some(shift))
  }

  /** `continue_cascade`, with the fit node database open on `connection` and the
      two log time stamps given. */
  method ContinueCascadeRun(connection: Connection, inputs: Inputs, allNodeDatabase: string, fitNodeDatabase: string,
                            traceFit: bool, seconds1: int, seconds2: int)
    returns (r: Result<RunParallel>, dirsMade: seq<string>, shiftCall: Option<CreateShiftDb>)
    modifies connection
    ensures var o := ResumeOutcome(inputs, allNodeDatabase, fitNodeDatabase, traceFit, old(connection.tables), seconds1, seconds2);
      && r == o.result && connection.tables == o.tables && connection.commands == old(connection.commands) + o.commands
      && dirsMade == o.dirsMade && shiftCall == o.shiftCall
  {
    dirsMade, shiftCall := [], None;
    var setup := PlanSetup(inputs);
    if setup.Err? {
      return Err(setup.error), dirsMade, shiftCall;
    }
    var s := setup.value;
    ghost var before := connection.commands;
    ghost var there := MoveEffect(connection.tables, "avgint", "c_root_avgint", seconds1);
    var ok := MoveTable(connection, "avgint", "c_root_avgint", seconds1);
    if !ok {
      return Err(SqlFailed(MoveMessage("avgint", "c_root_avgint"))), dirsMade, shiftCall;
    }
    var nodeSplitSet := NodeSplitSet(inputs.nodeSplit);
    var dirs, made, shiftDatabases := ShiftDatabasesLoop(inputs, s, nodeSplitSet);
    dirsMade := made;
    if dirs.Err? {
      return Err(dirs.error), dirsMade, shiftCall;
    }
    shiftCall := Some(CreateShiftDb(allNodeDatabase, fitNodeDatabase, shiftDatabases));
    ghost var back := MoveEffect(connection.tables, "c_root_avgint", "avgint", seconds2);
    ok := MoveTable(connection, "c_root_avgint", "avgint", seconds2);
    AppendAssociative(before, there.commands, back.commands);
    if !ok {
      return Err(SqlFailed(MoveMessage("c_root_avgint", "avgint"))), dirsMade, shiftCall;
    }
    var startJobId := 0;
    var skipStartJob := true;
    var maxNumberCpu := 1;
    r := Ok(RunParallel(s.jobTable, startJobId, allNodeDatabase, inputs.nodeTable,
                        inputs.fitIntegrand, traceFit, skipStartJob, maxNumberCpu));
  }

  /** On every path: the directories a resume makes when missing are those the
      loop reaches once the setup and the first move have succeeded, and none
      before; `create_shift_db` is called exactly when that loop completes,
      with the dict of the directories' databases, whether or not the move
      back then fails. */
  lemma ResumeEffects(inputs: Inputs, allNodeDatabase: string, fitNodeDatabase: string, traceFit: bool,
                      db: Tables, seconds1: int, seconds2: int)
    ensures var o := ResumeOutcome(inputs, allNodeDatabase, fitNodeDatabase, traceFit, db, seconds1, seconds2);
      var reached := ResumeSetup(inputs).Ok? && MoveEffect(db, "avgint", "c_root_avgint", seconds1).ok;
      && (reached ==> o.dirsMade == DirsReached(inputs, ResumeSetup(inputs).value, NodeSplitIds(inputs.nodeSplit)))
      && (!reached ==> o.dirsMade == [] && o.shiftCall.None?)
      && (o.shiftCall.Some? <==> reached && ShiftDirs(inputs, ResumeSetup(inputs).value, NodeSplitIds(inputs.nodeSplit)).Ok?)
      && (o.shiftCall.Some? ==> o.shiftCall.value == CreateShiftDb(allNodeDatabase, fitNodeDatabase, ShiftDatabases(o.dirsMade)))
      && (o.result.Ok? ==> o.shiftCall.Some?)
  {
  }

  /** The steps of a resume that succeeds. */
  lemma ResumeSucceededSteps(inputs: Inputs, allNodeDatabase: string, fitNodeDatabase: string, traceFit: bool,
                             db: Tables, seconds1: int, seconds2: int)
    requires ResumeOutcome(inputs, allNodeDatabase, fitNodeDatabase, traceFit, db, seconds1, seconds2).result.Ok?
    ensures var o := ResumeOutcome(inputs, allNodeDatabase, fitNodeDatabase, traceFit, db, seconds1, seconds2);
      && ResumeSetup(inputs).Ok?
      && var s := ResumeSetup(inputs).value;
      && var there := MoveEffect(db, "avgint", "c_root_avgint", seconds1);
      && there.ok
      && ShiftDirs(inputs, s, NodeSplitIds(inputs.nodeSplit)).Ok?
      && var dirs := ShiftDirs(inputs, s, NodeSplitIds(inputs.nodeSplit)).value;
      && var back := MoveEffect(there.tables, "c_root_avgint", "avgint", seconds2);
      && back.ok
      && o == Outcome(Ok(RunParallel(s.jobTable, 0, allNodeDatabase, inputs.nodeTable, inputs.fitIntegrand, traceFit, true, 1)),
                      back.tables, there.commands + back.commands,
                      dirs, Some(CreateShiftDb(allNodeDatabase, fitNodeDatabase, ShiftDatabases(dirs))))
  {
  }

  /** A resume that succeeds leaves the fit node database's tables as they were,
      apart from two new log rows and a stale c_root_avgint table, which is gone. */
  lemma ResumeRestoresTables(inputs: Inputs, allNodeDatabase: string, fitNodeDatabase: string, traceFit: bool,
                             db: Tables, seconds1: int, seconds2: int)
    requires "avgint" in db ==> RowsWithinColumns(db["avgint"])
    requires ResumeOutcome(inputs, allNodeDatabase, fitNodeDatabase, traceFit, db, seconds1, seconds2).result.Ok?
    ensures LogTable in db
    ensures ResumeOutcome(inputs, allNodeDatabase, fitNodeDatabase, traceFit, db, seconds1, seconds2).tables ==
      (db - {"c_root_avgint"})[LogTable := Table(db[LogTable].columns, db[LogTable].rows + [
        LogRow(|db[LogTable].rows|, seconds1, MoveMessage("avgint", "c_root_avgint")),
        LogRow(|db[LogTable].rows| + 1, seconds2, MoveMessage("c_root_avgint", "avgint"))])]
  {
    ResumeSucceededSteps(inputs, allNodeDatabase, fitNodeDatabase, traceFit, db, seconds1, seconds2);
    var src, dst := "avgint", "c_root_avgint";
    var moved := MovedTables(db, src, dst);
    assert moved.Some?;
    MovedTablesSpec(db, src, dst);
    assert LogTable in moved.value;
    MoveRoundTripLogged(db, src, dst, seconds1, seconds2);
  }

  /** A resume that succeeds starts the run at job 0, skipping that job, on one
      processor, with the job table built for the fit node, and hands
      `create_shift_db` the dict of the databases of job 0's children. */
  lemma ResumeRunParameters(inputs: Inputs, allNodeDatabase: string, fitNodeDatabase: string, traceFit: bool,
                            db: Tables, seconds1: int, seconds2: int)
    requires ResumeOutcome(inputs, allNodeDatabase, fitNodeDatabase, traceFit, db, seconds1, seconds2).result.Ok?
    ensures var o := ResumeOutcome(inputs, allNodeDatabase, fitNodeDatabase, traceFit, db, seconds1, seconds2);
      var run := o.result.value;
      var s := ResumeSetup(inputs).value;
      && run.startJobId == 0 && run.skipStartJob && run.maxNumberCpu == 1
      && run.jobTable == s.jobTable && run.traceFit == traceFit
      && ShiftDirs(inputs, s, NodeSplitIds(inputs.nodeSplit)) == Ok(o.dirsMade)
      && o.shiftCall == Some(CreateShiftDb(allNodeDatabase, fitNodeDatabase, ShiftDatabases(o.dirsMade)))
  {
    ResumeSucceededSteps(inputs, allNodeDatabase, fitNodeDatabase, traceFit, db, seconds1, seconds2);
  }

  /** The converse: with the setup checks passing, the child range inside the
      job table, an avgint table that has its id column and no c_root_avgint_id
      column, and a log with dense ids, the resume succeeds. */
  lemma ResumeSucceeds(inputs: Inputs, allNodeDatabase: string, fitNodeDatabase: string, traceFit: bool,
                       db: Tables, seconds1: int, seconds2: int)
    requires ResumeSetup(inputs).Ok?
    requires ShiftDirs(inputs, ResumeSetup(inputs).value, NodeSplitIds(inputs.nodeSplit)).Ok?
    requires "avgint" in db && RowsWithinColumns(db["avgint"])
    requires "avgint_id" in db["avgint"].columns && "c_root_avgint_id" !in db["avgint"].columns
    requires LogTable in db && DenseLog(db[LogTable].rows)
    ensures ResumeOutcome(inputs, allNodeDatabase, fitNodeDatabase, traceFit, db, seconds1, seconds2).result.Ok?
  {
    var src, dst := "avgint", "c_root_avgint";
    assert IdColumn(src) == "avgint_id" && IdColumn(dst) == "c_root_avgint_id";
    MoveThereAndBack(db, src, dst, seconds1, seconds2);
  }
}
