/** One step of the cascade: fit a node's database, predict for its children,
    create the child databases and recurse into them, pre-order. The dismod_at
    engine and the routines this one delegates to appear as trace events. */
module CascadeFitNode {
  import opened Wrappers
  import opened Strings
  import opened Dicts
  import opened Database
  import opened AllOptions

  /** A row of the dismod_at node table; `parent` is None for a root. */
  datatype NodeRow = NodeRow(node_name: string, parent: Option<nat>)

  // ---------------------------------------------------------------------------
  // Node table lookups

  /** The ids of the nodes whose parent is `parentNodeId`, in id order. */
  method ChildNodeIdList(nodeTable: seq<NodeRow>, parentNodeId: Option<nat>) returns (result: seq<nat>)
    ensures forall i, j :: 0 <= i < j < |result| ==> result[i] < result[j]
    ensures forall id: nat :: id in result <==> id < |nodeTable| && nodeTable[id].parent == parentNodeId
  {
    result := [];
    for nodeId := 0 to |nodeTable|
      invariant forall i :: 0 <= i < |result| ==> result[i] < nodeId
      invariant forall i, j :: 0 <= i < j < |result| ==> result[i] < result[j]
      invariant forall id: nat :: id in result <==> id < nodeId && nodeTable[id].parent == parentNodeId
    {
      if nodeTable[nodeId].parent == parentNodeId {
        result := result + [nodeId];
      }
    }
  }

  /** The id of the first node called `rowName`; None where the source's
      `assert False` fires. */
  function FirstNodeId(nodeTable: seq<NodeRow>, rowName: string): Option<nat>
    decreases |nodeTable|
  {
    if |nodeTable| == 0 then None
    else if nodeTable[0].node_name == rowName then Some(0)
    else
      match FirstNodeId(nodeTable[1..], rowName)
      case None => None
      case Some(id) => Some(id + 1)
  }

  /** None exactly when no node has the name; otherwise the id of a node with
      the name before which no node has it. */
  lemma {:induction false} FirstNodeIdSpec(nodeTable: seq<NodeRow>, rowName: string)
    ensures FirstNodeId(nodeTable, rowName).None? <==>
      forall i :: 0 <= i < |nodeTable| ==> nodeTable[i].node_name != rowName
    ensures FirstNodeId(nodeTable, rowName).Some? ==>
      var id := FirstNodeId(nodeTable, rowName).value;
      && id < |nodeTable| && nodeTable[id].node_name == rowName
      && forall j :: 0 <= j < id ==> nodeTable[j].node_name != rowName
    decreases |nodeTable|
  {
    if |nodeTable| > 0 && nodeTable[0].node_name != rowName {
      var tail := nodeTable[1..];
      FirstNodeIdSpec(tail, rowName);
      assert forall i :: 1 <= i < |nodeTable| ==> nodeTable[i] == tail[i - 1];
    }
  }

  /** A node with the name, with no node before it that has the name, is the
      one found. */
  lemma FirstNodeIdIs(nodeTable: seq<NodeRow>, rowName: string, id: nat)
    requires id < |nodeTable| && nodeTable[id].node_name == rowName
    requires forall j :: 0 <= j < id ==> nodeTable[j].node_name != rowName
    ensures FirstNodeId(nodeTable, rowName) == Some(id)
  {
    FirstNodeIdSpec(nodeTable, rowName);
  }

  /** `node_table_name2id`: the loop that returns at the first match. */
  method NodeTableName2Id(nodeTable: seq<NodeRow>, rowName: string) returns (r: Option<nat>)
    ensures r == FirstNodeId(nodeTable, rowName)
  {
    for nodeId := 0 to |nodeTable|
      invariant forall j :: 0 <= j < nodeId ==> nodeTable[j].node_name != rowName
    {
      if nodeTable[nodeId].node_name == rowName {
        FirstNodeIdIs(nodeTable, rowName, nodeId);
        return Some(nodeId);
      }
    }
    FirstNodeIdSpec(nodeTable, rowName);
    r := None;
  }

  // ---------------------------------------------------------------------------
  // Tables changed in place

  /** The avgint rows with `node_id` set to `fitNodeId`. */
  function WithNodeId(rows: seq<Row>, fitNodeId: nat): (r: seq<Row>)
    ensures |r| == |rows|
    ensures forall i :: 0 <= i < |r| ==> "node_id" in r[i] && r[i]["node_id"] == IntV(fitNodeId)
    ensures forall i, c :: 0 <= i < |r| && c != "node_id" ==>
      (c in r[i] <==> c in rows[i]) && (c in rows[i] ==> r[i][c] == rows[i][c])
  {
    seq(|rows|, i requires 0 <= i < |rows| => rows[i]["node_id" := IntV(fitNodeId)])
  }

  /** Reads the avgint table, sets `node_id` in every row and writes it back. */
  method SetAvgintNodeId(connection: Connection, fitNodeId: nat) returns (ok: bool)
    modifies connection
    ensures ok <==> "avgint" in old(connection.tables)
    ensures ok ==> connection.tables == old(connection.tables)["avgint" :=
      Table(old(connection.tables)["avgint"].columns, WithNodeId(old(connection.tables)["avgint"].rows, fitNodeId))]
    ensures !ok ==> connection.tables == old(connection.tables)
    ensures connection.commands == old(connection.commands)
  {
    var avgintTable := connection.GetTableDict("avgint");
    if avgintTable.Err? {
      return false;
    }
    var original := avgintTable.value;
    var rows := original;
    for i := 0 to |rows|
      invariant |rows| == |original|
      invariant forall j :: 0 <= j < i ==> rows[j] == original[j]["node_id" := IntV(fitNodeId)]
      invariant forall j :: i <= j < |rows| ==> rows[j] == original[j]
    {
      rows := rows[i := rows[i]["node_id" := IntV(fitNodeId)]];
    }
    assert rows == WithNodeId(original, fitNodeId);
    ok := connection.ReplaceTable("avgint", rows);
  }

  /** `move_table(connection, src, dst)`: the three statements, stopping at the
      first one SQLite refuses. Only the column rename can be refused. */
  method MoveTable(connection: Connection, srcName: string, dstName: string) returns (ok: bool)
    modifies connection
    ensures ok <==> MovedTables(old(connection.tables), srcName, dstName).Some?
    ensures ok ==> connection.tables == MovedTables(old(connection.tables), srcName, dstName).value
    ensures ok ==> connection.commands == old(connection.commands) + MoveCommands(srcName, dstName)
    ensures !ok ==> connection.tables == AfterDrop(old(connection.tables), dstName)
    ensures !ok ==> connection.commands == old(connection.commands) + MoveCommands(srcName, dstName)[..2]
  {
    ghost var db := connection.tables;
    MovedTablesSpec(db, srcName, dstName);
    connection.DropTableIfExists(dstName);
    ok := connection.RenameColumn(srcName, IdColumn(srcName), IdColumn(dstName));
    if ok {
      ok := connection.RenameTable(srcName, dstName);
    }
  }

  // ---------------------------------------------------------------------------
  // Paths

  const DatabaseFile := "dismod.db"

  /** The directory holding the all-node database: "." for a bare file name,
      otherwise everything before the last '/'. */
  function AllNodeDir(allNodeDatabase: string): string
  {
    var parts := Split(allNodeDatabase, '/');
    if |parts| == 1 then "." else Join(parts[..|parts| - 1], '/')
  }

  lemma AllNodeDirSpec(allNodeDatabase: string)
    ensures '/' !in allNodeDatabase ==> AllNodeDir(allNodeDatabase) == "."
    ensures '/' in allNodeDatabase ==>
      allNodeDatabase == AllNodeDir(allNodeDatabase) + "/" + LastSegment(allNodeDatabase)
  {
    SplitSingle(allNodeDatabase, '/');
    if '/' in allNodeDatabase {
      SplitLast(allNodeDatabase, '/');
    }
  }

  /** A path given relative to the all-node directory, as seen from the working
      directory. */
  function Prefixed(allNodeDir: string, path: string): string
  {
    if allNodeDir != "." then allNodeDir + "/" + path else path
  }

  function DatabaseIn(dir: string): string
  {
    dir + "/" + DatabaseFile
  }

  function ChildDir(fitNodeDir: string, nodeName: string): string
  {
    fitNodeDir + "/" + nodeName
  }

  /** What the cascade derives from the fit node database path: the node's name,
      its directory relative to the all-node directory, and its directory and
      database relative to the working directory. */
  datatype FitPaths = FitPaths(fitNodeName: string, relativeDir: string, fitNodeDir: string, fitNodeDatabase: string)

  /** The path checks and derivations at the start of `cascade_fit_node`. */
  function ResolvePaths(allNodeDatabase: string, fitNodeDatabase: string): Result<FitPaths>
  {
    var parts := Split(fitNodeDatabase, '/');
    var n := |parts|;
    if n < 2 then Err(AssertionFailed("len(path_list) >= 2"))
    else if parts[n - 1] != DatabaseFile then Err(AssertionFailed("path_list[-1] == 'dismod.db'"))
    else
      var dir := DropLast(fitNodeDatabase, |DatabaseFile| + 1);
      var allNodeDir := AllNodeDir(allNodeDatabase);
      Ok(FitPaths(parts[n - 2], dir, Prefixed(allNodeDir, dir), Prefixed(allNodeDir, fitNodeDatabase)))
  }

  /** The path must be `<dir>/dismod.db` with a non-empty list of '/'-pieces
      before the file name; then the node's name is the last piece of `<dir>`,
      and the node's directory and database are `<dir>` and the path itself,
      both prefixed with the all-node directory unless that is ".". */
  lemma ResolvePathsSpec(allNodeDatabase: string, fitNodeDatabase: string)
    ensures ResolvePaths(allNodeDatabase, fitNodeDatabase).Ok? <==>
      |Split(fitNodeDatabase, '/')| >= 2 && LastSegment(fitNodeDatabase) == DatabaseFile
    ensures ResolvePaths(allNodeDatabase, fitNodeDatabase).Ok? ==>
      var p := ResolvePaths(allNodeDatabase, fitNodeDatabase).value;
      && fitNodeDatabase == DatabaseIn(p.relativeDir)
      && p.fitNodeName == LastSegment(p.relativeDir)
      && p.fitNodeDir == Prefixed(AllNodeDir(allNodeDatabase), p.relativeDir)
      && p.fitNodeDatabase == DatabaseIn(p.fitNodeDir)
  {
    var parts := Split(fitNodeDatabase, '/');
    var n := |parts|;
    if n >= 2 && parts[n - 1] == DatabaseFile {
      var dir := DropLast(fitNodeDatabase, |DatabaseFile| + 1);
      var a := AllNodeDir(allNodeDatabase);
      assert ResolvePaths(allNodeDatabase, fitNodeDatabase)
        == Ok(FitPaths(parts[n - 2], dir, Prefixed(a, dir), Prefixed(a, fitNodeDatabase)));
      ResolvedDir(fitNodeDatabase);
      PrefixedDatabase(a, dir);
    }
  }

  /** Before `/dismod.db` comes the join of all the pieces but the last, and the
      last piece of that is the node's name. */
  lemma ResolvedDir(fitNodeDatabase: string)
    requires |Split(fitNodeDatabase, '/')| >= 2 && LastSegment(fitNodeDatabase) == DatabaseFile
    ensures var parts := Split(fitNodeDatabase, '/');
      var dir := DropLast(fitNodeDatabase, |DatabaseFile| + 1);
      fitNodeDatabase == DatabaseIn(dir) && LastSegment(dir) == parts[|parts| - 2]
  {
    var parts := Split(fitNodeDatabase, '/');
    var front := parts[..|parts| - 1];
    SplitDirectory(fitNodeDatabase, '/', DatabaseFile);
    SplitJoin(front, '/');
    assert front[|front| - 1] == parts[|parts| - 2];
  }

  /** Prefixing a node's database path is prefixing its directory. */
  lemma PrefixedDatabase(allNodeDir: string, dir: string)
    ensures Prefixed(allNodeDir, DatabaseIn(dir)) == DatabaseIn(Prefixed(allNodeDir, dir))
  {
    var f := DatabaseFile;
    assert allNodeDir + "/" + (dir + "/" + f) == (allNodeDir + "/" + dir) + "/" + f;
  }

  // ---------------------------------------------------------------------------
  // Child databases

  /** Every id indexes the node table. */
  predicate ValidIds(nodeTable: seq<NodeRow>, ids: seq<nat>)
  {
    forall j :: 0 <= j < |ids| ==> ids[j] < |nodeTable|
  }

  /** The names of the nodes `ids`, in order. */
  function Names(nodeTable: seq<NodeRow>, ids: seq<nat>): (names: seq<string>)
    requires ValidIds(nodeTable, ids)
    ensures |names| == |ids|
    ensures forall j :: 0 <= j < |ids| ==> names[j] == nodeTable[ids[j]].node_name
  {
    seq(|ids|, j requires 0 <= j < |ids| => nodeTable[ids[j]].node_name)
  }

  /** How many leading ids index the node table: the loop over the children
      gets that far before `node_table[node_id]` raises. */
  function ValidPrefix(nodeTable: seq<NodeRow>, children: seq<nat>): (k: nat)
    ensures k <= |children| && ValidIds(nodeTable, children[..k])
    ensures k < |children| ==> children[k] >= |nodeTable|
    decreases |children|
  {
    if |children| == 0 || children[0] >= |nodeTable| then 0
    else
      var k := 1 + ValidPrefix(nodeTable, children[1..]);
      assert forall j :: 1 <= j < k ==> children[..k][j] == children[1..][..k - 1][j - 1];
      k
  }

  /** Leading ids that are all valid, followed by an invalid one or by nothing,
      fix the prefix. */
  lemma ValidPrefixIs(nodeTable: seq<NodeRow>, children: seq<nat>, i: nat)
    requires i <= |children| && ValidIds(nodeTable, children[..i])
    requires i < |children| ==> children[i] >= |nodeTable|
    ensures ValidPrefix(nodeTable, children) == i
  {
  }

  function ChildDirs(fitNodeDir: string, names: seq<string>): (dirs: seq<string>)
    ensures |dirs| == |names|
    ensures forall j :: 0 <= j < |names| ==> dirs[j] == ChildDir(fitNodeDir, names[j])
  {
    seq(|names|, j requires 0 <= j < |names| => ChildDir(fitNodeDir, names[j]))
  }

  /** `child_node_databases` after assigning `<fitNodeDir>/<name>/dismod.db` to
      each name in turn. */
  function ChildDatabases(fitNodeDir: string, names: seq<string>): Dict<string, string>
    decreases |names|
  {
    if |names| == 0 then []
    else
      var last := names[|names| - 1];
      Put(ChildDatabases(fitNodeDir, names[..|names| - 1]), last, DatabaseIn(ChildDir(fitNodeDir, last)))
  }

  /** The dict maps each name, and nothing else, to its child database. */
  lemma {:induction false} ChildDatabasesGet(fitNodeDir: string, names: seq<string>, name: string)
    ensures Get(ChildDatabases(fitNodeDir, names), name) ==
      if name in names then Some(DatabaseIn(ChildDir(fitNodeDir, name))) else None
    ensures name in Keys(ChildDatabases(fitNodeDir, names)) <==> name in names
    decreases |names|
  {
    if |names| > 0 {
      var front := names[..|names| - 1];
      var last := names[|names| - 1];
      ChildDatabasesGet(fitNodeDir, front, name);
      PutGet(ChildDatabases(fitNodeDir, front), last, DatabaseIn(ChildDir(fitNodeDir, last)), name);
      assert names == front + [last];
    }
  }

  /** With distinct names, the dict's keys are the names, in order. */
  lemma {:induction false} ChildDatabasesKeys(fitNodeDir: string, names: seq<string>)
    requires Distinct(names)
    ensures Keys(ChildDatabases(fitNodeDir, names)) == names
    decreases |names|
  {
    if |names| > 0 {
      var front := names[..|names| - 1];
      var last := names[|names| - 1];
      ChildDatabasesKeys(fitNodeDir, front);
      PutNewKey(ChildDatabases(fitNodeDir, front), last, DatabaseIn(ChildDir(fitNodeDir, last)), front);
      assert names == front + [last];
    }
  }

  /** The outcome of the loop over a node's fit children: the directories made
      sure to exist, the dict from child name to child database, and the
      failure that stopped the loop, if any. */
  datatype Listing = Listing(dirs: seq<string>, databases: Dict<string, string>, failure: Option<Failure>)

  /** The loop over the children: for each, `fitNodeDir/<name>` is made to exist
      and its database path recorded, until an id outside the node table stops
      it with an index error. */
  function ChildListing(nodeTable: seq<NodeRow>, fitNodeDir: string, children: seq<nat>): Listing
  {
    var k := ValidPrefix(nodeTable, children);
    var names := Names(nodeTable, children[..k]);
    Listing(ChildDirs(fitNodeDir, names), ChildDatabases(fitNodeDir, names),
      if k < |children| then Some(IndexOutOfRange(children[k])) else None)
  }

  /** The loop that fills `child_node_databases`. */
  method ChildNodeDatabases(nodeTable: seq<NodeRow>, fitNodeDir: string, childNodeList: seq<nat>) returns (l: Listing)
    ensures l == ChildListing(nodeTable, fitNodeDir, childNodeList)
  {
    var dirs: seq<string> := [];
    var databases: Dict<string, string> := [];
    for i := 0 to |childNodeList|
      invariant ValidIds(nodeTable, childNodeList[..i])
      invariant dirs == ChildDirs(fitNodeDir, Names(nodeTable, childNodeList[..i]))
      invariant databases == ChildDatabases(fitNodeDir, Names(nodeTable, childNodeList[..i]))
    {
      var nodeId := childNodeList[i];
      if nodeId >= |nodeTable| {
        ValidPrefixIs(nodeTable, childNodeList, i);
        return Listing(dirs, databases, Some(IndexOutOfRange(nodeId)));
      }
      var nodeName := nodeTable[nodeId].node_name;
      var subdir := ChildDir(fitNodeDir, nodeName);
      ghost var before := Names(nodeTable, childNodeList[..i]);
      assert childNodeList[..i + 1] == childNodeList[..i] + [nodeId];
      assert ValidIds(nodeTable, childNodeList[..i + 1]);
      ghost var after := Names(nodeTable, childNodeList[..i + 1]);
      assert after == before + [nodeName];
      assert after[..|after| - 1] == before;
      dirs := dirs + [subdir];
      databases := Put(databases, nodeName, DatabaseIn(subdir));
    }
    assert childNodeList[..|childNodeList|] == childNodeList;
    ValidPrefixIs(nodeTable, childNodeList, |childNodeList|);
    l := Listing(dirs, databases, None);
  }

  // ---------------------------------------------------------------------------
  // The recursion, as a trace of the steps it asks for

  /** The tables `move_table` renames during a fit. */
  datatype TableName = Avgint | CAvgint | Predict | CPredictFitVar

  function TableText(t: TableName): string
  {
    match t
    case Avgint => "avgint"
    case CAvgint => "c_avgint"
    case Predict => "predict"
    case CPredictFitVar => "c_predict_fit_var"
  }

  /** The number of posterior samples the cascade asks for. */
  const NumberSample: nat := 20

  /** The dismod_at commands the cascade runs on a fit node database. */
  datatype Command = Init | FitBoth | SampleAsymptoticBoth(numberSample: nat) | PredictFitVar | PredictSample

  /** The command-line words after the database. */
  function Arguments(c: Command): seq<string>
  {
    match c
    case Init => ["init"]
    case FitBoth => ["fit", "both"]
    case SampleAsymptoticBoth(n) => ["sample", "asymptotic", "both", IntToString(n)]
    case PredictFitVar => ["predict", "fit_var"]
    case PredictSample => ["predict", "sample"]
  }

  datatype Event =
    | OmegaConstraint(allNodeDatabase: string, fitNodeDatabase: string)
    | MoveTableIn(database: string, src: TableName, dst: TableName)
    | ChildAvgintTable(allNodeDatabase: string, fitNodeDatabase: string)
      /** `dismod_at <database> <Arguments(command)>` */
    | Dismod(database: string, command: Command)
      /** `os.makedirs(dir)` unless it exists already */
    | EnsureDir(dir: string)
    | CreateChildNodeDb(allNodeDatabase: string, fitNodeDatabase: string, childNodeDatabases: Dict<string, string>)
    | SetAvgintNode(database: string, nodeId: nat)
      /** `dismodat.py <database> db2csv` */
    | Db2csv(database: string)

  /** The database or directory an event works on. */
  function Target(e: Event): string
  {
    match e
    case OmegaConstraint(_, db) => db
    case MoveTableIn(db, _, _) => db
    case ChildAvgintTable(_, db) => db
    case Dismod(db, _) => db
    case EnsureDir(dir) => dir
    case CreateChildNodeDb(_, db, _) => db
    case SetAvgintNode(db, _) => db
    case Db2csv(db) => db
  }

  /** The events issued, and the failure that ended the run, if any. */
  datatype Run = Run(events: seq<Event>, failure: Option<Failure>)

  /** What the cascade sees that is the same for every node: the all-node
      database's path and option table, the node table, and `get_fit_children`
      applied to a root node id. */
  datatype Env = Env(
    allNodeDatabase: string,
    allOption: seq<OptionRow>,
    nodeTable: seq<NodeRow>,
    getFitChildren: nat -> seq<seq<nat>>)

  /** `fit_children` as given, or computed from the last `root_node_name` option. */
  function FitChildren(env: Env, fitChildren: Option<seq<seq<nat>>>): Result<seq<seq<nat>>>
  {
    match fitChildren
    case Some(fc) => Ok(fc)
    case None =>
      match LastValue(env.allOption, "root_node_name")
      case None => Err(AssertionFailed("not root_node_name is None"))
      case Some(rootNodeName) =>
        match FirstNodeId(env.nodeTable, rootNodeName)
        case None => Err(AssertionFailed("node_table_name2id"))
        case Some(rootNodeId) => Ok(env.getFitChildren(rootNodeId))
  }

  /** The steps on the fit node's own database up to the prediction for its
      children. */
  function FitSteps(allNodeDatabase: string, db: string): seq<Event>
  {
    [ OmegaConstraint(allNodeDatabase, db),
      MoveTableIn(db, Avgint, CAvgint),
      ChildAvgintTable(allNodeDatabase, db),
      Dismod(db, Init),
      Dismod(db, FitBoth),
      Dismod(db, SampleAsymptoticBoth(NumberSample)),
      Dismod(db, PredictFitVar),
      MoveTableIn(db, Predict, CPredictFitVar),
      Dismod(db, PredictSample) ]
  }

  function EnsureDirs(dirs: seq<string>): seq<Event>
  {
    seq(|dirs|, j requires 0 <= j < |dirs| => EnsureDir(dirs[j]))
  }

  /** The steps on the fit node's own database after the child databases exist. */
  function FinishSteps(allNodeDatabase: string, db: string, fitNodeId: nat, childNodeDatabases: Dict<string, string>): seq<Event>
  {
    [ CreateChildNodeDb(allNodeDatabase, db, childNodeDatabases),
      MoveTableIn(db, CAvgint, Avgint),
      SetAvgintNode(db, fitNodeId),
      Dismod(db, PredictFitVar),
      MoveTableIn(db, Predict, CPredictFitVar),
      Dismod(db, PredictSample),
      Db2csv(db) ]
  }

  /** All the steps of a node before its children are fitted. */
  function OwnSteps(allNodeDatabase: string, p: FitPaths, fitNodeId: nat, l: Listing): seq<Event>
  {
    FitSteps(allNodeDatabase, p.fitNodeDatabase) + EnsureDirs(l.dirs)
      + FinishSteps(allNodeDatabase, p.fitNodeDatabase, fitNodeId, l.databases)
  }

  /** The path, relative to the all-node directory, handed to the recursive call
      for a child (see the finding in README: the code hands over the dict value,
      which is relative to the working directory). */
  function ChildDatabase(relativeDir: string, nodeName: string): string
  {
    DatabaseIn(ChildDir(relativeDir, nodeName))
  }

  /** Where a node's own work ends: stopped by a failure after some events, or
      ready to recurse into its children. */
  datatype Stage =
    | Stop(events: seq<Event>, failure: Failure)
    | Descend(paths: FitPaths, fitNodeId: nat, listing: Listing)

  /** Everything `cascade_fit_node` does for one node before the recursive calls,
      up to the first failure. */
  function NodeStage(env: Env, fitNodeDatabase: string, fitChildren: Option<seq<seq<nat>>>): Stage
  {
    match FitChildren(env, fitChildren)
    case Err(e) => Stop([], e)
    case Ok(fc) =>
      match ResolvePaths(env.allNodeDatabase, fitNodeDatabase)
      case Err(e) => Stop([], e)
      case Ok(p) =>
        match FirstNodeId(env.nodeTable, p.fitNodeName)
        case None => Stop([], AssertionFailed("node_table_name2id"))
        case Some(fitNodeId) =>
          var first := FitSteps(env.allNodeDatabase, p.fitNodeDatabase);
          if fitNodeId >= |fc| then Stop(first, IndexOutOfRange(fitNodeId))
          else
            var l := ChildListing(env.nodeTable, p.fitNodeDir, fc[fitNodeId]);
            if l.failure.Some? then Stop(first + EnsureDirs(l.dirs), l.failure.value)
            else Descend(p, fitNodeId, l)
  }

  /** `cascade_fit_node(all_node_database, fit_node_database, node_table,
      fit_children)`, with `fuel` bounding the recursion depth. */
  function CascadeRun(env: Env, fitNodeDatabase: string, fitChildren: Option<seq<seq<nat>>>, fuel: nat): Run
    decreases fuel, 1
  {
    if fuel == 0 then Run([], Some(RecursionLimit))
    else
      match NodeStage(env, fitNodeDatabase, fitChildren)
      case Stop(events, failure) => Run(events, Some(failure))
      case Descend(p, fitNodeId, l) => DescendRun(env, p, fitNodeId, l, fuel - 1)
  }

  /** A node that gets to its children: its own steps, then theirs. */
  function DescendRun(env: Env, p: FitPaths, fitNodeId: nat, l: Listing, below: nat): Run
    decreases below + 1, 0
  {
    var rest := ChildrenRun(env, p.relativeDir, Keys(l.databases), below);
    Run(OwnSteps(env.allNodeDatabase, p, fitNodeId, l) + rest.events, rest.failure)
  }

  /** The recursive calls for the children named `names`, in order, stopping at
      the first that fails. */
  function ChildrenRun(env: Env, relativeDir: string, names: seq<string>, fuel: nat): Run
    decreases fuel, |names| + 1
  {
    if |names| == 0 then Run([], None)
    else
      var n := |names|;
      var prev := ChildrenRun(env, relativeDir, names[..n - 1], fuel);
      if prev.failure.Some? then prev
      else
        var last := CascadeRun(env, ChildDatabase(relativeDir, names[n - 1]), None, fuel);
        Run(prev.events + last.events, last.failure)
  }

  /** A node that gets to its children runs its own steps, then theirs. */
  lemma CascadeRunDescends(env: Env, fitNodeDatabase: string, fitChildren: Option<seq<seq<nat>>>, fuel: nat, below: nat,
                           p: FitPaths, fitNodeId: nat, l: Listing)
    requires fuel == below + 1
    requires NodeStage(env, fitNodeDatabase, fitChildren) == Descend(p, fitNodeId, l)
    ensures var rest := ChildrenRun(env, p.relativeDir, Keys(l.databases), below);
      CascadeRun(env, fitNodeDatabase, fitChildren, fuel)
        == Run(OwnSteps(env.allNodeDatabase, p, fitNodeId, l) + rest.events, rest.failure)
  {
    assert CascadeRun(env, fitNodeDatabase, fitChildren, fuel) == DescendRun(env, p, fitNodeId, l, below);
  }

  /** Once a recursive call has failed, later children change nothing. */
  lemma {:induction false} ChildrenRunStops(env: Env, relativeDir: string, names: seq<string>, i: nat, fuel: nat)
    requires i <= |names|
    requires ChildrenRun(env, relativeDir, names[..i], fuel).failure.Some?
    ensures ChildrenRun(env, relativeDir, names, fuel) == ChildrenRun(env, relativeDir, names[..i], fuel)
    decreases |names|
  {
    if |names| > i {
      var n := |names|;
      assert names[..n - 1][..i] == names[..i];
      ChildrenRunStops(env, relativeDir, names[..n - 1], i, fuel);
    } else {
      assert names[..i] == names;
    }
  }

  /** `fit_children` as given, or computed from the last `root_node_name` option. */
  method GetFitChildren(env: Env, fitChildren: Option<seq<seq<nat>>>) returns (r: Result<seq<seq<nat>>>)
    ensures r == FitChildren(env, fitChildren)
  {
    if fitChildren.Some? {
      return Ok(fitChildren.value);
    }
    var rootNodeName := LastOptionValue(env.allOption, "root_node_name");
    if rootNodeName.None? {
      return Err(AssertionFailed("not root_node_name is None"));
    }
    var rootNodeId := NodeTableName2Id(env.nodeTable, rootNodeName.value);
    if rootNodeId.None? {
      return Err(AssertionFailed("node_table_name2id"));
    }
    r := Ok(env.getFitChildren(rootNodeId.value));
  }

  /** The node's own work, step by step, up to the recursive calls. */
  method FitNode(env: Env, fitNodeDatabase: string, fitChildren: Option<seq<seq<nat>>>) returns (stage: Stage)
    ensures stage == NodeStage(env, fitNodeDatabase, fitChildren)
  {
    var fc := GetFitChildren(env, fitChildren);
    if fc.Err? {
      return Stop([], fc.error);
    }
    var paths := ResolvePaths(env.allNodeDatabase, fitNodeDatabase);
    if paths.Err? {
      return Stop([], paths.error);
    }
    var p := paths.value;
    var found := NodeTableName2Id(env.nodeTable, p.fitNodeName);
    if found.None? {
      return Stop([], AssertionFailed("node_table_name2id"));
    }
    var fitNodeId := found.value;
    var events := FitSteps(env.allNodeDatabase, p.fitNodeDatabase);
    if fitNodeId >= |fc.value| {
      return Stop(events, IndexOutOfRange(fitNodeId));
    }
    var listing := ChildNodeDatabases(env.nodeTable, p.fitNodeDir, fc.value[fitNodeId]);
    if listing.failure.Some? {
      return Stop(events + EnsureDirs(listing.dirs), listing.failure.value);
    }
    stage := Descend(p, fitNodeId, listing);
  }

  /** The recursive procedure: the node's own steps, then each child in turn. */
  method CascadeFitNodeRun(env: Env, fitNodeDatabase: string, fitChildren: Option<seq<seq<nat>>>, fuel: nat)
    returns (run: Run)
    ensures run == CascadeRun(env, fitNodeDatabase, fitChildren, fuel)
    decreases fuel, 0
  {
    if fuel == 0 {
      return Run([], Some(RecursionLimit));
    }
    var stage := FitNode(env, fitNodeDatabase, fitChildren);
    if stage.Stop? {
      return Run(stage.events, Some(stage.failure));
    }
    var p, fitNodeId, listing := stage.paths, stage.fitNodeId, stage.listing;
    var below := fuel - 1;
    CascadeRunDescends(env, fitNodeDatabase, fitChildren, fuel, below, p, fitNodeId, listing);
    var rest := FitChildNodes(env, p.relativeDir, Keys(listing.databases), below);
    run := Run(OwnSteps(env.allNodeDatabase, p, fitNodeId, listing) + rest.events, rest.failure);
  }

  /** The loop over `child_node_databases` making the recursive calls. */
  method FitChildNodes(env: Env, relativeDir: string, names: seq<string>, fuel: nat) returns (run: Run)
    ensures run == ChildrenRun(env, relativeDir, names, fuel)
    decreases fuel, 1
  {
    var events: seq<Event> := [];
    var failure: Option<Failure> := None;
    var i := 0;
    while i < |names| && failure.None?
      invariant 0 <= i <= |names|
      invariant Run(events, failure) == ChildrenRun(env, relativeDir, names[..i], fuel)
    {
      assert names[..i + 1][..i] == names[..i];
      var child := CascadeFitNodeRun(env, ChildDatabase(relativeDir, names[i]), None, fuel);
      events := events + child.events;
      failure := child.failure;
      i := i + 1;
    }
    if i < |names| {
      ChildrenRunStops(env, relativeDir, names, i, fuel);
    } else {
      assert names[..i] == names;
    }
    run := Run(events, failure);
  }
}
