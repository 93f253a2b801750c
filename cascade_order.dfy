/** What the cascade's trace guarantees: child paths resolve to the databases the
    parent created, each node finishes its own steps before any child starts,
    and the nodes are visited in pre-order of `fit_children`. */
module CascadeOrder {
  import opened Wrappers
  import opened Strings
  import opened Dicts
  import opened CascadeFitNode

  // ---------------------------------------------------------------------------
  // Child paths

  lemma PrefixedChild(allNodeDir: string, relativeDir: string, name: string)
    ensures Prefixed(allNodeDir, ChildDir(relativeDir, name)) == ChildDir(Prefixed(allNodeDir, relativeDir), name)
  {
  }

  lemma DatabaseInCancel(a: string, b: string)
    requires DatabaseIn(a) == DatabaseIn(b)
    ensures a == b
  {
    assert |a| == |b|;
    assert DatabaseIn(a)[..|a|] == a && DatabaseIn(b)[..|b|] == b;
  }

  /** `<dir>/dismod.db` splits into the pieces of `<dir>` and the file name. */
  lemma SplitDatabaseIn(dir: string)
    ensures Split(DatabaseIn(dir), '/') == Split(dir, '/') + [DatabaseFile]
  {
    var f := DatabaseFile;
    assert DatabaseIn(dir) == dir + ['/'] + f;
    SplitConcat(dir, f, '/');
    SplitNoSeparator(f, '/');
  }

  /** The last piece of `<dir>/<name>` is `name` when `name` has no '/'. */
  lemma LastSegmentOfChildDir(dir: string, name: string)
    requires '/' !in name
    ensures LastSegment(ChildDir(dir, name)) == name
  {
    assert ChildDir(dir, name) == dir + ['/'] + name;
    SplitConcat(dir, name, '/');
    SplitNoSeparator(name, '/');
  }

  /** The path a child's call gets, `<dir>/<name>/dismod.db`, passes the checks
      and names the child's own directory and database. */
  lemma ChildPathResolves(allNodeDatabase: string, relativeDir: string, name: string)
    ensures var r := ResolvePaths(allNodeDatabase, ChildDatabase(relativeDir, name));
      && r.Ok?
      && r.value.relativeDir == ChildDir(relativeDir, name)
      && r.value.fitNodeDir == ChildDir(Prefixed(AllNodeDir(allNodeDatabase), relativeDir), name)
      && r.value.fitNodeDatabase == DatabaseIn(r.value.fitNodeDir)
      && ('/' !in name ==> r.value.fitNodeName == name)
  {
    var dir := ChildDir(relativeDir, name);
    var s := ChildDatabase(relativeDir, name);
    SplitDatabaseIn(dir);
    ResolvePathsSpec(allNodeDatabase, s);
    var r := ResolvePaths(allNodeDatabase, s).value;
    DatabaseInCancel(r.relativeDir, dir);
    PrefixedChild(AllNodeDir(allNodeDatabase), relativeDir, name);
    if '/' !in name {
      LastSegmentOfChildDir(relativeDir, name);
    }
  }

  /** The database the parent creates for a child, `child_node_databases[name]`. */
  function CreatedChildDatabase(p: FitPaths, name: string): string
  {
    DatabaseIn(ChildDir(p.fitNodeDir, name))
  }

  /** The path the code as written hands to the recursive call: the dict value,
      which already includes the all-node directory. */
  function ChildDatabaseAsWritten(p: FitPaths, name: string): string
  {
    CreatedChildDatabase(p, name)
  }

  /** As written, when the all-node database is not in the working directory,
      the child's call prefixes the all-node directory a second time and so
      works on a database other than the one its parent created. */
  lemma AsWrittenChildPathDoubled(allNodeDatabase: string, p: FitPaths, name: string)
    requires AllNodeDir(allNodeDatabase) != "."
    ensures var q := ResolvePaths(allNodeDatabase, ChildDatabaseAsWritten(p, name));
      && q.Ok?
      && q.value.fitNodeDatabase == AllNodeDir(allNodeDatabase) + "/" + CreatedChildDatabase(p, name)
      && q.value.fitNodeDatabase != CreatedChildDatabase(p, name)
  {
    var a := AllNodeDir(allNodeDatabase);
    ChildPathResolves(allNodeDatabase, p.fitNodeDir, name);
    PrefixedChild(a, p.fitNodeDir, name);
    PrefixedDatabase(a, ChildDir(p.fitNodeDir, name));
  }

  /** With the all-node database in the working directory the path as written
      and the corrected one agree. */
  lemma AsWrittenAgreesAtTop(allNodeDatabase: string, fitNodeDatabase: string, name: string)
    requires ResolvePaths(allNodeDatabase, fitNodeDatabase).Ok?
    requires AllNodeDir(allNodeDatabase) == "."
    ensures var p := ResolvePaths(allNodeDatabase, fitNodeDatabase).value;
      ChildDatabaseAsWritten(p, name) == ChildDatabase(p.relativeDir, name)
  {
    ResolvePathsSpec(allNodeDatabase, fitNodeDatabase);
  }

  /** Corrected: the path relative to the all-node directory resolves, in the
      child's call, to exactly the directory and database its parent created. */
  lemma ChildPathMatchesCreated(allNodeDatabase: string, fitNodeDatabase: string, name: string)
    requires ResolvePaths(allNodeDatabase, fitNodeDatabase).Ok?
    ensures var p := ResolvePaths(allNodeDatabase, fitNodeDatabase).value;
      var q := ResolvePaths(allNodeDatabase, ChildDatabase(p.relativeDir, name));
      && q.Ok?
      && q.value.fitNodeDir == ChildDir(p.fitNodeDir, name)
      && q.value.fitNodeDatabase == CreatedChildDatabase(p, name)
  {
    var p := ResolvePaths(allNodeDatabase, fitNodeDatabase).value;
    ResolvePathsSpec(allNodeDatabase, fitNodeDatabase);
    ChildPathResolves(allNodeDatabase, p.relativeDir, name);
  }

  // ---------------------------------------------------------------------------
  // What a successful call went through

  /** A node gets to its children only after `fit_children` was found, the path
      passed its checks, the node's name was found, its id indexes
      `fit_children` and the loop over its children went through. */
  lemma DescendSpec(env: Env, fitNodeDatabase: string, fitChildren: Option<seq<seq<nat>>>)
    requires NodeStage(env, fitNodeDatabase, fitChildren).Descend?
    ensures var s := NodeStage(env, fitNodeDatabase, fitChildren);
      && FitChildren(env, fitChildren).Ok?
      && ResolvePaths(env.allNodeDatabase, fitNodeDatabase) == Ok(s.paths)
      && FirstNodeId(env.nodeTable, s.paths.fitNodeName) == Some(s.fitNodeId)
      && s.fitNodeId < |FitChildren(env, fitChildren).value|
      && s.listing == ChildListing(env.nodeTable, s.paths.fitNodeDir, FitChildren(env, fitChildren).value[s.fitNodeId])
      && s.listing.failure.None?
  {
  }

  /** What the path checks of a node that got to its children derived. */
  lemma DescendPaths(env: Env, fitNodeDatabase: string, fitChildren: Option<seq<seq<nat>>>, p: FitPaths, id: nat, l: Listing)
    requires NodeStage(env, fitNodeDatabase, fitChildren) == Descend(p, id, l)
    ensures ResolvePaths(env.allNodeDatabase, fitNodeDatabase) == Ok(p)
    ensures fitNodeDatabase == DatabaseIn(p.relativeDir) && p.fitNodeName == LastSegment(p.relativeDir)
    ensures p.fitNodeDir == Prefixed(AllNodeDir(env.allNodeDatabase), p.relativeDir)
    ensures p.fitNodeDatabase == DatabaseIn(p.fitNodeDir)
  {
    DescendSpec(env, fitNodeDatabase, fitChildren);
    ResolvePathsSpec(env.allNodeDatabase, fitNodeDatabase);
  }

  /** A call that does not fail got to its children, and each of them succeeded. */
  lemma SuccessfulRun(env: Env, fitNodeDatabase: string, fitChildren: Option<seq<seq<nat>>>, fuel: nat)
      returns (p: FitPaths, id: nat, l: Listing, below: nat)
    requires CascadeRun(env, fitNodeDatabase, fitChildren, fuel).failure.None?
    ensures fuel == below + 1 && NodeStage(env, fitNodeDatabase, fitChildren) == Descend(p, id, l)
    ensures var rest := ChildrenRun(env, p.relativeDir, Keys(l.databases), below);
      && rest.failure.None?
      && CascadeRun(env, fitNodeDatabase, fitChildren, fuel).events == OwnSteps(env.allNodeDatabase, p, id, l) + rest.events
  {
    var stage := NodeStage(env, fitNodeDatabase, fitChildren);
    p, id, l, below := stage.paths, stage.fitNodeId, stage.listing, fuel - 1;
    CascadeRunDescends(env, fitNodeDatabase, fitChildren, fuel, below, p, id, l);
  }

  // ---------------------------------------------------------------------------
  // Each node's steps come before its children's

  /** Every event works on something inside `dir`. */
  predicate Below(events: seq<Event>, dir: string)
  {
    forall k :: 0 <= k < |events| ==> dir + "/" <= Target(events[k])
  }

  lemma BelowConcat(a: seq<Event>, b: seq<Event>, dir: string)
    requires Below(a, dir) && Below(b, dir)
    ensures Below(a + b, dir)
  {
    forall k | 0 <= k < |a + b| ensures dir + "/" <= Target((a + b)[k]) {
      if k >= |a| {
        assert (a + b)[k] == b[k - |a|];
      }
    }
  }

  lemma FitStepsBelow(allNodeDatabase: string, dir: string)
    ensures Below(FitSteps(allNodeDatabase, DatabaseIn(dir)), dir)
  {
    var db := DatabaseIn(dir);
    assert dir + "/" <= db;
    var steps := FitSteps(allNodeDatabase, db);
    assert forall k :: 0 <= k < |steps| ==> Target(steps[k]) == db;
  }

  lemma FinishStepsBelow(allNodeDatabase: string, dir: string, id: nat, d: Dict<string, string>)
    ensures Below(FinishSteps(allNodeDatabase, DatabaseIn(dir), id, d), dir)
  {
    var db := DatabaseIn(dir);
    assert dir + "/" <= db;
    var steps := FinishSteps(allNodeDatabase, db, id, d);
    assert forall k :: 0 <= k < |steps| ==> Target(steps[k]) == db;
  }

  lemma EnsureDirsBelow(dir: string, names: seq<string>)
    ensures Below(EnsureDirs(ChildDirs(dir, names)), dir)
  {
    var dirs := ChildDirs(dir, names);
    var events := EnsureDirs(dirs);
    forall k | 0 <= k < |events| ensures dir + "/" <= Target(events[k]) {
      assert Target(events[k]) == ChildDir(dir, names[k]);
    }
  }

  /** The directories the child loop makes sure of are the children's. */
  lemma ListingDirs(nodeTable: seq<NodeRow>, dir: string, children: seq<nat>)
    ensures var k := ValidPrefix(nodeTable, children);
      ChildListing(nodeTable, dir, children).dirs == ChildDirs(dir, Names(nodeTable, children[..k]))
  {
  }

  /** A node's own steps work on its database or inside a child directory. */
  lemma OwnStepsBelow(allNodeDatabase: string, p: FitPaths, id: nat, nodeTable: seq<NodeRow>, children: seq<nat>)
    requires p.fitNodeDatabase == DatabaseIn(p.fitNodeDir)
    ensures Below(OwnSteps(allNodeDatabase, p, id, ChildListing(nodeTable, p.fitNodeDir, children)), p.fitNodeDir)
  {
    var l := ChildListing(nodeTable, p.fitNodeDir, children);
    var k := ValidPrefix(nodeTable, children);
    FitStepsBelow(allNodeDatabase, p.fitNodeDir);
    ListingDirs(nodeTable, p.fitNodeDir, children);
    EnsureDirsBelow(p.fitNodeDir, Names(nodeTable, children[..k]));
    FinishStepsBelow(allNodeDatabase, p.fitNodeDir, id, l.databases);
    BelowConcat(FitSteps(allNodeDatabase, p.fitNodeDatabase), EnsureDirs(l.dirs), p.fitNodeDir);
    BelowConcat(FitSteps(allNodeDatabase, p.fitNodeDatabase) + EnsureDirs(l.dirs),
      FinishSteps(allNodeDatabase, p.fitNodeDatabase, id, l.databases), p.fitNodeDir);
  }

  /** What a call does before it stops on a failure of its own works inside
      the fit node's directory. */
  lemma StopBelow(env: Env, fitNodeDatabase: string, fitChildren: Option<seq<seq<nat>>>, p: FitPaths)
    requires ResolvePaths(env.allNodeDatabase, fitNodeDatabase) == Ok(p)
    requires NodeStage(env, fitNodeDatabase, fitChildren).Stop?
    ensures Below(NodeStage(env, fitNodeDatabase, fitChildren).events, p.fitNodeDir)
  {
    ResolvePathsSpec(env.allNodeDatabase, fitNodeDatabase);
    FitStepsBelow(env.allNodeDatabase, p.fitNodeDir);
    var fc := FitChildren(env, fitChildren);
    var id := FirstNodeId(env.nodeTable, p.fitNodeName);
    if fc.Ok? && id.Some? && id.value < |fc.value| {
      var children := fc.value[id.value];
      var l := ChildListing(env.nodeTable, p.fitNodeDir, children);
      var k := ValidPrefix(env.nodeTable, children);
      ListingDirs(env.nodeTable, p.fitNodeDir, children);
      EnsureDirsBelow(p.fitNodeDir, Names(env.nodeTable, children[..k]));
      BelowConcat(FitSteps(env.allNodeDatabase, p.fitNodeDatabase), EnsureDirs(l.dirs), p.fitNodeDir);
    }
  }

  /** Every step of a call works inside the fit node's directory. */
  lemma {:induction false} EventsBelowFitDir(env: Env, fitNodeDatabase: string, fitChildren: Option<seq<seq<nat>>>, fuel: nat, p: FitPaths)
    requires ResolvePaths(env.allNodeDatabase, fitNodeDatabase) == Ok(p)
    ensures Below(CascadeRun(env, fitNodeDatabase, fitChildren, fuel).events, p.fitNodeDir)
    decreases fuel, 0
  {
    if fuel > 0 {
      var stage := NodeStage(env, fitNodeDatabase, fitChildren);
      if stage.Stop? {
        StopBelow(env, fitNodeDatabase, fitChildren, p);
      } else {
        DescendSpec(env, fitNodeDatabase, fitChildren);
        ResolvePathsSpec(env.allNodeDatabase, fitNodeDatabase);
        var fc := FitChildren(env, fitChildren).value;
        var id, l := stage.fitNodeId, stage.listing;
        OwnStepsBelow(env.allNodeDatabase, p, id, env.nodeTable, fc[id]);
        var names := Keys(l.databases);
        var below := fuel - 1;
        CascadeRunDescends(env, fitNodeDatabase, fitChildren, fuel, below, p, id, l);
        ChildrenBelow(env, p.relativeDir, names, below);
        BelowConcat(OwnSteps(env.allNodeDatabase, p, id, l), ChildrenRun(env, p.relativeDir, names, below).events, p.fitNodeDir);
      }
    }
  }

  /** `t` lies inside the directory of one of the children `names` of `dir`. */
  predicate InSomeChild(dir: string, names: seq<string>, t: string)
  {
    exists j :: 0 <= j < |names| && ChildDir(dir, names[j]) + "/" <= t
  }

  /** Every event lies inside the directory of one of the children. */
  predicate InChildren(events: seq<Event>, dir: string, names: seq<string>)
  {
    forall k :: 0 <= k < |events| ==> InSomeChild(dir, names, Target(events[k]))
  }

  lemma InSomeChildMore(dir: string, names: seq<string>, more: seq<string>, t: string)
    requires InSomeChild(dir, names, t)
    ensures InSomeChild(dir, names + more, t)
  {
    var j :| 0 <= j < |names| && ChildDir(dir, names[j]) + "/" <= t;
    assert (names + more)[j] == names[j];
  }

  lemma ChildrenConcat(a: seq<Event>, b: seq<Event>, dir: string, names: seq<string>)
    requires InChildren(a, dir, names) && InChildren(b, dir, names) && Below(a, dir) && Below(b, dir)
    ensures InChildren(a + b, dir, names) && Below(a + b, dir)
  {
    BelowConcat(a, b, dir);
    forall k | 0 <= k < |a + b| ensures InSomeChild(dir, names, Target((a + b)[k])) {
      if k >= |a| {
        assert (a + b)[k] == b[k - |a|];
      }
    }
  }

  /** The events of the recursive calls for the children `names` lie inside
      the children's directories. */
  lemma {:induction false} ChildrenBelow(env: Env, relativeDir: string, names: seq<string>, fuel: nat)
    ensures var dir := Prefixed(AllNodeDir(env.allNodeDatabase), relativeDir);
      InChildren(ChildrenRun(env, relativeDir, names, fuel).events, dir, names)
      && Below(ChildrenRun(env, relativeDir, names, fuel).events, dir)
    decreases fuel, |names| + 1
  {
    var dir := Prefixed(AllNodeDir(env.allNodeDatabase), relativeDir);
    if |names| > 0 {
      var n := |names|;
      var front := names[..n - 1];
      ChildrenBelow(env, relativeDir, front, fuel);
      var prev := ChildrenRun(env, relativeDir, front, fuel);
      assert front + [names[n - 1]] == names;
      forall k | 0 <= k < |prev.events| ensures InSomeChild(dir, names, Target(prev.events[k])) {
        InSomeChildMore(dir, front, [names[n - 1]], Target(prev.events[k]));
      }
      if prev.failure.None? {
        var childDb := ChildDatabase(relativeDir, names[n - 1]);
        ChildPathResolves(env.allNodeDatabase, relativeDir, names[n - 1]);
        var q := ResolvePaths(env.allNodeDatabase, childDb).value;
        EventsBelowFitDir(env, childDb, None, fuel, q);
        var last := CascadeRun(env, childDb, None, fuel);
        forall k | 0 <= k < |last.events|
          ensures InSomeChild(dir, names, Target(last.events[k])) && dir + "/" <= Target(last.events[k])
        {
          assert ChildDir(dir, names[n - 1]) + "/" <= Target(last.events[k]);
        }
        ChildrenConcat(prev.events, last.events, dir, names);
      }
    }
  }

  /** Where in a node's own steps the avgint table is moved out and back, with
      no other move of avgint in between. */
  lemma OwnStepsLayout(allNodeDatabase: string, p: FitPaths, id: nat, l: Listing)
    ensures var own := OwnSteps(allNodeDatabase, p, id, l);
      && own[1] == MoveTableIn(p.fitNodeDatabase, Avgint, CAvgint)
      && own[|own| - 6] == MoveTableIn(p.fitNodeDatabase, CAvgint, Avgint)
      && own[|own| - 5] == SetAvgintNode(p.fitNodeDatabase, id)
      && forall k :: 1 < k < |own| - 6 ==> !own[k].MoveTableIn? || Avgint !in {own[k].src, own[k].dst}
  {
    var db := p.fitNodeDatabase;
    var own := OwnSteps(allNodeDatabase, p, id, l);
    var first := FitSteps(allNodeDatabase, db);
    var dirs := EnsureDirs(l.dirs);
    var finish := FinishSteps(allNodeDatabase, db, id, l.databases);
    assert own[|own| - 6] == finish[1] && own[|own| - 5] == finish[2];
    forall k | 1 < k < |own| - 6 ensures !own[k].MoveTableIn? || Avgint !in {own[k].src, own[k].dst} {
      if k < |first| {
        assert own[k] == first[k];
      } else if k < |first| + |dirs| {
        assert own[k] == dirs[k - |first|];
      } else {
        assert own[k] == finish[k - |first| - |dirs|];
      }
    }
  }

  /** A call that does not fail first runs all of the fit node's own steps:
      the avgint table is moved to c_avgint, the node is fitted and sampled,
      and avgint is moved back, before any step of a child. Every later step
      lies inside the directory of one of the children in `child_node_databases`. */
  lemma NodeBeforeChildren(env: Env, fitNodeDatabase: string, fitChildren: Option<seq<seq<nat>>>, fuel: nat)
      returns (p: FitPaths, id: nat, l: Listing)
    requires CascadeRun(env, fitNodeDatabase, fitChildren, fuel).failure.None?
    ensures ResolvePaths(env.allNodeDatabase, fitNodeDatabase) == Ok(p)
    ensures FitChildren(env, fitChildren).Ok? && FirstNodeId(env.nodeTable, p.fitNodeName) == Some(id)
    ensures var fc := FitChildren(env, fitChildren).value;
      id < |fc| && l == ChildListing(env.nodeTable, p.fitNodeDir, fc[id])
    ensures var own := OwnSteps(env.allNodeDatabase, p, id, l);
      var events := CascadeRun(env, fitNodeDatabase, fitChildren, fuel).events;
      && own <= events
      && own[1] == MoveTableIn(p.fitNodeDatabase, Avgint, CAvgint)
      && own[|own| - 6] == MoveTableIn(p.fitNodeDatabase, CAvgint, Avgint)
      && InChildren(events[|own|..], p.fitNodeDir, Keys(l.databases))
  {
    var below;
    p, id, l, below := SuccessfulRun(env, fitNodeDatabase, fitChildren, fuel);
    DescendSpec(env, fitNodeDatabase, fitChildren);
    DescendPaths(env, fitNodeDatabase, fitChildren, p, id, l);
    OwnStepsLayout(env.allNodeDatabase, p, id, l);
    var own := OwnSteps(env.allNodeDatabase, p, id, l);
    var names := Keys(l.databases);
    var rest := ChildrenRun(env, p.relativeDir, names, below);
    ChildrenBelow(env, p.relativeDir, names, below);
    var events := CascadeRun(env, fitNodeDatabase, fitChildren, fuel).events;
    assert events[|own|..] == rest.events;
  }

  // ---------------------------------------------------------------------------
  // Pre-order

  /** No two nodes share a name: looking up a node's name finds that node. */
  predicate UniqueNames(nodeTable: seq<NodeRow>)
  {
    forall i :: 0 <= i < |nodeTable| ==> FirstNodeId(nodeTable, nodeTable[i].node_name) == Some(i)
  }

  predicate PlainNames(nodeTable: seq<NodeRow>)
  {
    forall i :: 0 <= i < |nodeTable| ==> '/' !in nodeTable[i].node_name
  }

  predicate DistinctChildLists(fitChildren: seq<seq<nat>>)
  {
    forall id :: 0 <= id < |fitChildren| ==> Distinct(fitChildren[id])
  }

  /** The nodes of the `fit_children` tree below `id` in pre-order, to depth `fuel`. */
  function PreOrder(fitChildren: seq<seq<nat>>, id: nat, fuel: nat): seq<nat>
    decreases fuel, 0
  {
    if fuel == 0 then []
    else [id] + PreOrderList(fitChildren, if id < |fitChildren| then fitChildren[id] else [], fuel - 1)
  }

  function PreOrderList(fitChildren: seq<seq<nat>>, ids: seq<nat>, fuel: nat): seq<nat>
    decreases fuel, |ids| + 1
  {
    if |ids| == 0 then []
    else PreOrderList(fitChildren, ids[..|ids| - 1], fuel) + PreOrder(fitChildren, ids[|ids| - 1], fuel)
  }

  lemma PreOrderListSnoc(fitChildren: seq<seq<nat>>, ids: seq<nat>, id: nat, fuel: nat)
    ensures PreOrderList(fitChildren, ids + [id], fuel) == PreOrderList(fitChildren, ids, fuel) + PreOrder(fitChildren, id, fuel)
  {
    assert (ids + [id])[..|ids|] == ids;
  }

  lemma PreOrderUnfold(fitChildren: seq<seq<nat>>, id: nat, fuel: nat, below: nat)
    requires id < |fitChildren| && fuel == below + 1
    ensures PreOrder(fitChildren, id, fuel) == [id] + PreOrderList(fitChildren, fitChildren[id], below)
  {
  }

  /** The node ids the avgint table is set to, in trace order: one per node fitted. */
  function AvgintNodes(events: seq<Event>): seq<nat>
  {
    if |events| == 0 then []
    else (if events[0].SetAvgintNode? then [events[0].nodeId] else []) + AvgintNodes(events[1..])
  }

  lemma {:induction false} AvgintNodesConcat(a: seq<Event>, b: seq<Event>)
    ensures AvgintNodes(a + b) == AvgintNodes(a) + AvgintNodes(b)
    decreases |a|
  {
    if |a| > 0 {
      assert (a + b)[1..] == a[1..] + b;
      AvgintNodesConcat(a[1..], b);
    } else {
      assert a + b == b;
    }
  }

  lemma {:induction false} AvgintNodesNone(es: seq<Event>)
    requires forall k :: 0 <= k < |es| ==> !es[k].SetAvgintNode?
    ensures AvgintNodes(es) == []
    decreases |es|
  {
    if |es| > 0 {
      AvgintNodesNone(es[1..]);
    }
  }

  /** A node's own steps set the avgint node id once, to the node's id. */
  lemma OwnStepsAvgint(allNodeDatabase: string, p: FitPaths, id: nat, l: Listing)
    ensures AvgintNodes(OwnSteps(allNodeDatabase, p, id, l)) == [id]
  {
    var db := p.fitNodeDatabase;
    var first := FitSteps(allNodeDatabase, db);
    var dirs := EnsureDirs(l.dirs);
    var finish := FinishSteps(allNodeDatabase, db, id, l.databases);
    AvgintNodesNone(first);
    AvgintNodesNone(dirs);
    AvgintNodesNone(finish[..2]);
    AvgintNodesNone(finish[3..]);
    assert finish == finish[..2] + [SetAvgintNode(db, id)] + finish[3..];
    AvgintNodesConcat(finish[..2] + [SetAvgintNode(db, id)], finish[3..]);
    AvgintNodesConcat(finish[..2], [SetAvgintNode(db, id)]);
    AvgintNodesConcat(first, dirs);
    AvgintNodesConcat(first + dirs, finish);
  }

  /** Distinct nodes with unique names have distinct names. */
  lemma {:induction false} DistinctNames(nodeTable: seq<NodeRow>, ids: seq<nat>)
    requires UniqueNames(nodeTable) && Distinct(ids) && ValidIds(nodeTable, ids)
    ensures Distinct(Names(nodeTable, ids))
    decreases |ids|
  {
    if |ids| > 0 {
      var n := |ids|;
      var front := ids[..n - 1];
      var c := ids[n - 1];
      assert ValidIds(nodeTable, front) by {
        forall j | 0 <= j < |front| ensures front[j] < |nodeTable| {
          assert front[j] == ids[j];
        }
      }
      DistinctNames(nodeTable, front);
      var names := Names(nodeTable, ids);
      assert names[..n - 1] == Names(nodeTable, front);
      forall j | 0 <= j < n - 1 ensures names[j] != names[n - 1] {
        assert front[j] == ids[j] && front[j] != c;
        assert FirstNodeId(nodeTable, names[j]) == Some(ids[j]);
      }
    }
  }

  /** With distinct children and unique names, a child loop that went through
      has one key per child, in child order. */
  lemma ListingKeysAreNames(nodeTable: seq<NodeRow>, fitNodeDir: string, children: seq<nat>)
    requires UniqueNames(nodeTable) && Distinct(children)
    requires ChildListing(nodeTable, fitNodeDir, children).failure.None?
    ensures ValidIds(nodeTable, children)
      && Keys(ChildListing(nodeTable, fitNodeDir, children).databases) == Names(nodeTable, children)
  {
    var k := ValidPrefix(nodeTable, children);
    assert children[..k] == children;
    DistinctNames(nodeTable, children);
    ChildDatabasesKeys(fitNodeDir, Names(nodeTable, children));
  }

  /** What the pre-order argument assumes of the node table and of `fc`, the
      `fit_children` list every recursive call computes from the root node. */
  predicate TreeAssumptions(env: Env, fc: seq<seq<nat>>)
  {
    && UniqueNames(env.nodeTable) && PlainNames(env.nodeTable)
    && FitChildren(env, None) == Ok(fc) && DistinctChildLists(fc)
  }

  /** A successful run sets the fit node's id once, followed by what the
      recursive calls for its children set. */
  lemma SuccessfulRunAvgint(env: Env, fitNodeDatabase: string, fitChildren: Option<seq<seq<nat>>>, fc: seq<seq<nat>>, fuel: nat)
      returns (p: FitPaths, id: nat, children: seq<nat>, names: seq<string>, below: nat)
    requires TreeAssumptions(env, fc) && FitChildren(env, fitChildren) == Ok(fc)
    requires CascadeRun(env, fitNodeDatabase, fitChildren, fuel).failure.None?
    ensures fuel == below + 1 && ResolvePaths(env.allNodeDatabase, fitNodeDatabase) == Ok(p)
    ensures FirstNodeId(env.nodeTable, p.fitNodeName) == Some(id) && id < |fc| && children == fc[id]
    ensures ValidIds(env.nodeTable, children) && names == Names(env.nodeTable, children)
    ensures ChildrenRun(env, p.relativeDir, names, below).failure.None?
    ensures AvgintNodes(CascadeRun(env, fitNodeDatabase, fitChildren, fuel).events)
      == [id] + AvgintNodes(ChildrenRun(env, p.relativeDir, names, below).events)
  {
    var l;
    p, id, l, below := SuccessfulRun(env, fitNodeDatabase, fitChildren, fuel);
    DescendSpec(env, fitNodeDatabase, fitChildren);
    children := fc[id];
    ListingKeysAreNames(env.nodeTable, p.fitNodeDir, children);
    names := Names(env.nodeTable, children);
    OwnStepsAvgint(env.allNodeDatabase, p, id, l);
    AvgintNodesConcat(OwnSteps(env.allNodeDatabase, p, id, l), ChildrenRun(env, p.relativeDir, names, below).events);
  }

  /** When `fit_children` is `fc`, the list computed from the root node, node
      names are unique and free of '/', and no node lists a child twice, a
      successful run sets the avgint node id of each node in pre-order of `fc`:
      each node before its children, the children in list order. */
  lemma PreOrderTrace(env: Env, fitNodeDatabase: string, fitChildren: Option<seq<seq<nat>>>, fc: seq<seq<nat>>, fuel: nat)
      returns (p: FitPaths, id: nat)
    requires UniqueNames(env.nodeTable) && PlainNames(env.nodeTable)
    requires FitChildren(env, None) == Ok(fc) && FitChildren(env, fitChildren) == Ok(fc)
    requires DistinctChildLists(fc)
    requires CascadeRun(env, fitNodeDatabase, fitChildren, fuel).failure.None?
    ensures ResolvePaths(env.allNodeDatabase, fitNodeDatabase) == Ok(p)
    ensures FirstNodeId(env.nodeTable, p.fitNodeName) == Some(id)
    ensures AvgintNodes(CascadeRun(env, fitNodeDatabase, fitChildren, fuel).events) == PreOrder(fc, id, fuel)
  {
    var children, names, below;
    p, id, children, names, below := SuccessfulRunAvgint(env, fitNodeDatabase, fitChildren, fc, fuel);
    PreOrderChildren(env, p.relativeDir, fc, children, names, below);
    PreOrderUnfold(fc, id, fuel, below);
  }

  /** The same for the recursive calls the child loop makes, one per child. */
  lemma {:induction false} PreOrderChildren(env: Env, relativeDir: string, fc: seq<seq<nat>>, children: seq<nat>, names: seq<string>, fuel: nat)
    requires TreeAssumptions(env, fc) && ValidIds(env.nodeTable, children)
    requires names == Names(env.nodeTable, children)
    requires ChildrenRun(env, relativeDir, names, fuel).failure.None?
    ensures AvgintNodes(ChildrenRun(env, relativeDir, names, fuel).events) == PreOrderList(fc, children, fuel)
    decreases fuel, |children|
  {
    if |children| > 0 {
      var front, c := LastElement(children);
      var frontNames := Names(env.nodeTable, front);
      var name := env.nodeTable[c].node_name;
      assert names == frontNames + [name];
      ChildrenRunSnoc(env, relativeDir, frontNames, name, fuel);
      PreOrderListSnoc(fc, front, c, fuel);
      var prev := ChildrenRun(env, relativeDir, frontNames, fuel);
      var childDb := ChildDatabase(relativeDir, name);
      var last := CascadeRun(env, childDb, None, fuel);
      assert prev.failure.None?;
      assert ChildrenRun(env, relativeDir, names, fuel) == Run(prev.events + last.events, last.failure);
      PreOrderChildren(env, relativeDir, fc, front, frontNames, fuel);
      ChildPathResolves(env.allNodeDatabase, relativeDir, name);
      var p, id, grandChildren, childNames, below := SuccessfulRunAvgint(env, childDb, None, fc, fuel);
      assert id == c;
      PreOrderChildren(env, p.relativeDir, fc, grandChildren, childNames, below);
      PreOrderUnfold(fc, id, fuel, below);
      assert AvgintNodes(last.events) == PreOrder(fc, c, fuel);
      AvgintNodesConcat(prev.events, last.events);
    }
  }

  lemma LastElement<T>(s: seq<T>) returns (front: seq<T>, last: T)
    requires |s| > 0
    ensures s == front + [last] && front == s[..|s| - 1] && last == s[|s| - 1]
  {
    front, last := s[..|s| - 1], s[|s| - 1];
  }

  /** The child loop with one more child: the calls so far, then that child's
      call unless one of the earlier ones failed. */
  lemma ChildrenRunSnoc(env: Env, relativeDir: string, names: seq<string>, name: string, fuel: nat)
    ensures var prev := ChildrenRun(env, relativeDir, names, fuel);
      var last := CascadeRun(env, ChildDatabase(relativeDir, name), None, fuel);
      ChildrenRun(env, relativeDir, names + [name], fuel)
        == if prev.failure.Some? then prev else Run(prev.events + last.events, last.failure)
  {
    assert (names + [name])[..|names|] == names;
  }
}
