# at_cascade: a verified model of the cascade's bookkeeping

at_cascade fits a dismod_at model at the root of a node tree. It then
fits each child node, starting from its parent's posterior. The numbers
are worked out by the dismod_at engine. This project models the
deterministic code around those engine calls, and proves what that code
promises:

- **cascade_fit_node**:
  - lookups in the node table;
  - the derivation of the node name, directory and database from a
    `.../<node>/dismod.db` path;
  - the in-place rewrite of the avgint table;
  - the three-statement `move_table`;
  - the dict of child databases;
  - the recursion over `fit_children`.

  Engine calls and other routines that the code delegates to become events
  of a trace. The model proves:

  - derived paths resolve to the databases the parent created;
  - every step of a call stays inside its node's directory;
  - a node finishes its own steps before any child starts;
  - on a tree, a successful run visits the nodes in pre-order.
- **continue_cascade**:
  - the log table with dense ids;
  - `move_table` with its log entry, and the round trip that moves avgint
    out of the way and back;
  - the option lookups where the last row wins;
  - the checks on job 0;
  - the dict of shifted databases over job 0's half-open child range;
  - the parameters handed to the parallel runner.
- **get_split_info**: the parsing of the `split_list` option and the
  first-index lookup of the covariate's reference value.
- **ihme/get_age_group_id_table**: the filter that drops aggregates, the
  midpoints, Python's stable sort by midpoint, and the validity and
  overlap checks. Pairwise non-overlap is proved from the adjacent checks.
- **ihme/write_all_node_database** builds several tables of the all-node
  database:
  - the `write_table` projection;
  - the split_reference table, sorted by id;
  - the `all_option` dict;
  - the relative covariate set;
  - the all_cov_reference cross product in lexicographic order;
  - the node_split rows;
  - the omega age and time index tables.
- **ihme/summary**:
  - the text layout of the error and warning files;
  - the list of existing `predict.csv` files in job-table order;
  - the merged `predict.csv`, whose header is written once from the first
    row read.

A database is a map from table name to table: column names and rows. A
`Connection` class holds that map and the list of statements issued on it
through `sql_command`. Statements change the map as SQLite would.
`get_table_dict` and `replace_table` also issue SQL, but the model keeps only
their effect on the tables, not their statements. Python floats are Dafny
`real`. Text-to-float conversion is a parameter that may fail. Each
routine these functions call that this project does not model is a
parameter. These include the job table builder, the directory resolver,
the fit-children computation and the csv reader.

Loops in the source are `method`s with `while` or `for` loops. Each is
proved equal to a function that states the result. Lemmas then prove
what the source promises about that function.

Where the documentation and the code disagree, the model follows the code,
with two exceptions. There the code fails in a way the documentation
rules out, and the model carries the correction listed under
"## Findings":

- The recursion in `CascadeFitNode.CascadeRun`, `ChildrenRun` and
  `FitChildNodes` passes each child the path relative to the all-node
  directory, as the docstring documents. The code passes the dict value,
  which already carries the prefix (`at_cascade/cascade_fit_node.py:239,
  270-271`). So `CascadeOrder.EventsBelowFitDir`, `NodeBeforeChildren`
  and `PreOrderTrace` are theorems about the corrected program. The
  recursion as written appears only in `CascadeOrder.ChildDatabaseAsWritten`
  and `CascadeOrder.AsWrittenChildPathDoubled`.
- `Summary.CombinePredictFiles` and `Summary.RunSummary` bind `None` when
  the split_reference table is empty, where
  `at_cascade/ihme/summary.py:87` leaves the name unbound. The code as
  written appears only in `Summary.RootSplitReferenceAsWritten`,
  `Summary.CombinePredictFilesAsWritten` and
  `Summary.AsWrittenFailsWithoutSplitReference`.

In every other place:

- The doc of `cascade_fit_node` says the `fit_children` computed at the
  root is reused below it. The recursive call at
  `at_cascade/cascade_fit_node.py:270-271` passes no `fit_children`, so
  each child recomputes it from the root node name. The model does the
  same: `CascadeFitNode.ChildrenRun` calls each child with `None`.
- `write_all_node_database` writes node_split rows that hold a node name
  (`at_cascade/ihme/write_all_node_database.py:140-142`).
  `continue_cascade` and `summary` read the same table as node ids
  (`at_cascade/continue_cascade.py:189-191`,
  `at_cascade/ihme/summary.py:75-77`). The model writes names where the
  writer does, and reads ids where the readers do. On the name-only rows
  the readers would raise KeyError; see "## Left out".

## Model

| member | source | states |
|---|---|---|
| CascadeFitNode.ChildNodeIdList | at_cascade/cascade_fit_node.py:115-120 | exactly the ids whose parent is the given one, in strictly increasing order |
| CascadeFitNode.NodeTableName2Id | at_cascade/cascade_fit_node.py:122-126 | the loop that returns at the first match computes FirstNodeId |
| CascadeFitNode.FirstNodeIdSpec | at_cascade/cascade_fit_node.py:122-126 | None exactly when no node has the name; otherwise the smallest id with the name |
| CascadeFitNode.FirstNodeIdIs | at_cascade/cascade_fit_node.py:122-126 | the first node with the name is the one found (converse) |
| CascadeFitNode.WithNodeId | at_cascade/cascade_fit_node.py:137-141 | same row count; node_id is the fit node's id in every row; every other column is unchanged |
| CascadeFitNode.SetAvgintNodeId | at_cascade/cascade_fit_node.py:137-141 | the avgint table, if present, keeps its columns and gets WithNodeId rows; it fails without an avgint table; no other table changes |
| CascadeFitNode.MoveTable | at_cascade/cascade_fit_node.py:128-135 | the drop, column rename and table rename, in order; success iff MovedTables succeeds; a refused column rename leaves only the drop done |
| CascadeFitNode.AllNodeDirSpec | at_cascade/cascade_fit_node.py:170-176 | "." when the path has no '/', else everything before the last '/' |
| CascadeFitNode.ResolvePathsSpec | at_cascade/cascade_fit_node.py:178-191 | the path is accepted iff it has at least two '/'-pieces with last piece dismod.db; the node name is the last piece of the directory; directory and database are prefixed with the all-node directory unless it is "." |
| CascadeFitNode.ResolvedDir | at_cascade/cascade_fit_node.py:178-188 | the name taken from the second-to-last piece is the last piece of the directory left after dropping "/dismod.db" |
| CascadeFitNode.PrefixedDatabase | at_cascade/cascade_fit_node.py:187-191 | prefixing the database path is prefixing the directory |
| CascadeFitNode.Names | at_cascade/cascade_fit_node.py:233-235 | name j is the node_name of child id j |
| CascadeFitNode.ValidPrefix | at_cascade/cascade_fit_node.py:233-235 | the children loop gets as far as the leading ids that index the node table, and stops at the first id that does not |
| CascadeFitNode.ValidPrefixIs | at_cascade/cascade_fit_node.py:233-235 | that stopping point is unique |
| CascadeFitNode.ChildDirs | at_cascade/cascade_fit_node.py:236 | one directory per child, `<fit_node_dir>/<name>` |
| CascadeFitNode.ChildDatabasesGet | at_cascade/cascade_fit_node.py:229-239 | the dict maps each child name, and nothing else, to `<fit_node_dir>/<name>/dismod.db` |
| CascadeFitNode.ChildDatabasesKeys | at_cascade/cascade_fit_node.py:229-239 | with distinct names the keys are the names in child order |
| CascadeFitNode.ChildNodeDatabases | at_cascade/cascade_fit_node.py:229-239 | the loop filling child_node_databases computes ChildListing |
| CascadeFitNode.GetFitChildren | at_cascade/cascade_fit_node.py:153-168 | fit_children as given, or computed from the last root_node_name option |
| CascadeFitNode.FitNode | at_cascade/cascade_fit_node.py:153-266 | the node's own steps up to the recursive calls compute NodeStage |
| CascadeFitNode.CascadeFitNodeRun | at_cascade/cascade_fit_node.py:143-274 | the recursive procedure computes CascadeRun (corrected, see ## Findings) |
| CascadeFitNode.FitChildNodes | at_cascade/cascade_fit_node.py:268-271 | the loop of recursive calls computes ChildrenRun (corrected, see ## Findings) |
| CascadeFitNode.CascadeRunDescends | at_cascade/cascade_fit_node.py:193-271 | a node that gets to its children runs its own steps, then theirs (corrected, see ## Findings) |
| CascadeFitNode.ChildrenRunStops | at_cascade/cascade_fit_node.py:268-271 | after a failed recursive call, later children change nothing |
| CascadeOrder.PrefixedChild | at_cascade/cascade_fit_node.py:187-191 | prefixing commutes with descending into a child directory |
| CascadeOrder.SplitDatabaseIn | at_cascade/cascade_fit_node.py:178-181 | `<dir>/dismod.db` splits into the pieces of dir and the file name |
| CascadeOrder.LastSegmentOfChildDir | at_cascade/cascade_fit_node.py:182 | the last piece of `<dir>/<name>` is name |
| CascadeOrder.ChildPathResolves | at_cascade/cascade_fit_node.py:178-191 | a child's path passes the checks and resolves to the child's own directory and database |
| CascadeOrder.AsWrittenChildPathDoubled | at_cascade/cascade_fit_node.py:188-191 | as written, when the all-node database is outside the working directory, a child's call works on a database other than the one its parent created |
| CascadeOrder.AsWrittenAgreesAtTop | at_cascade/cascade_fit_node.py:188-191 | with the all-node directory ".", the as-written and corrected child paths agree |
| CascadeOrder.ChildPathMatchesCreated | at_cascade/cascade_fit_node.py:236-239 | corrected: the child's call resolves to exactly the directory and database its parent created |
| CascadeOrder.DescendSpec | at_cascade/cascade_fit_node.py:153-239 | a node reaches its children only after fit_children, the path checks, the node name lookup, the index check and the child loop all succeed |
| CascadeOrder.DescendPaths | at_cascade/cascade_fit_node.py:170-191 | what the path checks of such a node derived |
| CascadeOrder.SuccessfulRun | at_cascade/cascade_fit_node.py:193-271 | a run without failure descended, and every child run succeeded |
| CascadeOrder.FitStepsBelow | at_cascade/cascade_fit_node.py:193-227 | the fit steps work on the node's database |
| CascadeOrder.FinishStepsBelow | at_cascade/cascade_fit_node.py:242-266 | the steps after the child loop work on the node's database |
| CascadeOrder.EnsureDirsBelow | at_cascade/cascade_fit_node.py:236-238 | the child directories made lie inside the node directory |
| CascadeOrder.ListingDirs | at_cascade/cascade_fit_node.py:229-239 | the directories the child loop makes are the children's, for the ids before the first bad one |
| CascadeOrder.OwnStepsBelow | at_cascade/cascade_fit_node.py:193-266 | a node's own steps stay inside its directory |
| CascadeOrder.StopBelow | at_cascade/cascade_fit_node.py:153-239 | a call that stops on its own failure has stayed inside its directory |
| CascadeOrder.EventsBelowFitDir | at_cascade/cascade_fit_node.py:143-274 | every step of a call, its children's included, works inside the fit node's directory (corrected, see ## Findings) |
| CascadeOrder.ChildrenBelow | at_cascade/cascade_fit_node.py:268-271 | the events of the recursive calls lie inside the children's directories |
| CascadeOrder.OwnStepsLayout | at_cascade/cascade_fit_node.py:201-252 | avgint is moved to c_avgint at step 1 and back six steps before the end, with no other avgint move in between; the node id is set right after the move back |
| CascadeOrder.NodeBeforeChildren | at_cascade/cascade_fit_node.py:201-271 | a successful call runs all its own steps first, avgint moved out and back, and every later event lies in one of its children's directories (corrected, see ## Findings) |
| CascadeOrder.OwnStepsAvgint | at_cascade/cascade_fit_node.py:252 | a node's own steps set the avgint node id once, to its own id |
| CascadeOrder.DistinctNames | at_cascade/cascade_fit_node.py:233-239 | distinct nodes with unique names give distinct names |
| CascadeOrder.ListingKeysAreNames | at_cascade/cascade_fit_node.py:229-239 | a child loop that went through keys the dict by the children's names in child order |
| CascadeOrder.SuccessfulRunAvgint | at_cascade/cascade_fit_node.py:252-271 | a successful run sets its own id, then what its children's runs set |
| CascadeOrder.PreOrderTrace | at_cascade/cascade_fit_node.py:229-271 | on a tree with unique plain names, a successful run sets the avgint node ids in pre-order of fit_children (corrected, see ## Findings) |
| CascadeOrder.PreOrderChildren | at_cascade/cascade_fit_node.py:268-271 | the child loop's calls visit the children's subtrees in list order |
| CascadeOrder.ChildrenRunSnoc | at_cascade/cascade_fit_node.py:268-271 | one more child: the calls so far, then that child's call unless one failed |
| Database.RenamedColumns | at_cascade/cascade_fit_node.py:131-133 | same length; the renamed column is replaced, every other one is kept |
| Database.RenamedRows | at_cascade/cascade_fit_node.py:131-133 | each row with its key renamed |
| Database.IdColumnInjective | at_cascade/cascade_fit_node.py:131-132 | distinct tables have distinct id column names |
| Database.MovedTablesSpec | at_cascade/cascade_fit_node.py:128-135 | a move succeeds iff src and dst differ, src exists, has its id column and no column named like dst's id column; then src is gone, dst holds src's rows under the renamed id column, and nothing else changes |
| Database.RenamedColumnsTwice | at_cascade/continue_cascade.py:93-98 | renaming a column there and back restores the column list |
| Database.RenamedRowsTwice | at_cascade/continue_cascade.py:93-98 | renaming a key there and back restores the rows |
| Database.RenamedColumnsMembers | at_cascade/continue_cascade.py:93-98 | after the rename the new column is present and the old one is gone |
| Database.RenamedTableTwice | at_cascade/continue_cascade.py:93-98 | renaming and renaming back gives the table back |
| Database.MoveRoundTrip | at_cascade/continue_cascade.py:185-233 | moving a table and back restores every table except a stale one under the temporary name |
| Database.Connection.constructor | at_cascade/cascade_fit_node.py:194-195 | a connection on the given tables with no statements issued |
| Database.Connection.DropTableIfExists | at_cascade/cascade_fit_node.py:129-130 | the table is gone and the statement is recorded |
| Database.Connection.RenameColumn | at_cascade/cascade_fit_node.py:131-133 | refused exactly when the table or column is missing or the new name is taken; otherwise the column is renamed |
| Database.Connection.RenameTable | at_cascade/cascade_fit_node.py:134-135 | refused exactly when src is missing or dst exists; otherwise the table is renamed |
| Database.Connection.GetTableDict | at_cascade/cascade_fit_node.py:138 | the rows of the table, an error when it is missing |
| Database.Connection.ReplaceTable | at_cascade/cascade_fit_node.py:141 | the table keeps its columns and takes the given rows |
| Database.Connection.Insert | at_cascade/continue_cascade.py:78-86 | the row is appended unless the table is missing or its primary key is taken |
| ContinueCascade.AddLogEntry | at_cascade/continue_cascade.py:66-86 | the insert of a log row with id = row count, message type at_cascade, null table name and row id |
| ContinueCascade.LogEffectDense | at_cascade/continue_cascade.py:66-86 | on a dense log the entry goes in with the next id and the ids stay dense; nothing else changes |
| ContinueCascade.LogEntriesDense | at_cascade/continue_cascade.py:66-86 | repeated calls all succeed; the log keeps its rows and gains one per call, ids 0..n-1, with each call's time and message |
| ContinueCascade.MoveTable | at_cascade/continue_cascade.py:88-102 | the statements of move_table followed by the log entry |
| ContinueCascade.MoveEffectCommands | at_cascade/continue_cascade.py:88-102 | a successful move issues drop, column rename, table rename and the log insert of "move table src to dst", in that order |
| ContinueCascade.MoveEffectLogged | at_cascade/continue_cascade.py:88-102 | a logged move keeps the other tables and appends one row to a dense log |
| ContinueCascade.MoveThereAndBack | at_cascade/continue_cascade.py:185-233 | a table with its id column can be moved to dst and back |
| ContinueCascade.MovedTablesUpdate | at_cascade/continue_cascade.py:88-98 | changing a table the move does not touch commutes with the move |
| ContinueCascade.MoveRoundTripLogged | at_cascade/continue_cascade.py:88-102 | moving there and back leaves every table as it was, except that dst is gone and the log has the two move rows |
| ContinueCascade.PlanSetup | at_cascade/continue_cascade.py:134-179 | the option loops and job 0 checks compute ResumeSetup |
| ContinueCascade.ResumeSetupRoot | at_cascade/continue_cascade.py:134-146 | root_node_name comes from the last such row and must exist; root_split_reference_id is the last such row's value, or null |
| ContinueCascade.ResumeSetupJobZero | at_cascade/continue_cascade.py:151-179 | fit_split_reference_id is None iff the split_reference table is empty; the setup succeeds iff job 0 has the fit node and that split reference |
| ContinueCascade.ShiftDatabasesSnoc | at_cascade/continue_cascade.py:216-223 | each job puts `<dir>/dismod.db` under its dir's last piece |
| ContinueCascade.ShiftDatabasesGet | at_cascade/continue_cascade.py:193-223 | a key is in the dict iff some dir ends in it, with the last such dir's database; no key occurs twice |
| ContinueCascade.ShiftDatabasesLoop | at_cascade/continue_cascade.py:193-223 | the loop over the child range computes ShiftDirs and ShiftDatabases, and reaches the directories DirsReached also when it stops at a bad job id |
| ContinueCascade.ShiftDirsSpec | at_cascade/continue_cascade.py:195-214 | one dir per job id in [start, end), that job's directory; an id past the job table is an error naming the first such id; either way the directories reached are those of the job ids before the loop stops |
| ContinueCascade.ContinueCascadeRun | at_cascade/continue_cascade.py:113-260 | the routine on a connection computes ResumeOutcome: result, tables, statements, directories made and the create_shift_db call, failed paths included |
| ContinueCascade.ResumeEffects | at_cascade/continue_cascade.py:185-233 | on every path, directories are made only after the setup and the first move succeed, and then exactly those the loop reaches; create_shift_db is called iff the loop completes, with their databases, even when the move back then fails |
| ContinueCascade.ResumeSucceededSteps | at_cascade/continue_cascade.py:181-260 | a successful resume does the setup, moves avgint out, collects the dirs, calls create_shift_db, moves it back and starts the run |
| ContinueCascade.ResumeRestoresTables | at_cascade/continue_cascade.py:185-233 | a successful resume leaves the tables as they were, apart from two log rows and a stale c_root_avgint, which is gone |
| ContinueCascade.ResumeRunParameters | at_cascade/continue_cascade.py:226-260 | the run starts at job 0, skips it, uses one processor, and create_shift_db gets the shift dict |
| ContinueCascade.ResumeSucceeds | at_cascade/continue_cascade.py:181-260 | with the setup checks passing, the range inside the job table, a movable avgint and a dense log, the resume succeeds |
| AllOptions.LastValueSpec | at_cascade/continue_cascade.py:134-146 | None iff no row has the name; otherwise the value of the last such row |
| AllOptions.LastOptionValue | at_cascade/continue_cascade.py:134-140 | the overwriting option loop computes LastValue |
| Jobs.NodeSplitSet | at_cascade/continue_cascade.py:188-191 | the set holds exactly the node ids of the node_split rows |
| Dicts.PutGet | at_cascade/ihme/write_all_node_database.py:97-102 | after `d[k] = v`, k gives v and other keys are unchanged |
| Dicts.PutKeys | at_cascade/ihme/write_all_node_database.py:97-102 | `d[k] = v` keeps the key order and appends k when new |
| Dicts.PutDistinct | at_cascade/ihme/write_all_node_database.py:97-102 | `d[k] = v` never duplicates a key |
| SplitInfo.IndexOfSpec | at_cascade/get_split_info.py:117 | None iff x is not in the list; otherwise the first index holding x |
| SplitInfo.ParseFloatsSpec | at_cascade/get_split_info.py:97-99 | converts iff every token converts, value k from token k; otherwise the first bad token |
| SplitInfo.ParseFloatsStops | at_cascade/get_split_info.py:97-99 | a failing prefix fails the whole conversion |
| SplitInfo.ConvertReferences | at_cascade/get_split_info.py:97-99 | the conversion loop computes ParseFloats |
| SplitInfo.GetSplitInfoRun | at_cascade/get_split_info.py:76-127 | the routine computes GetSplitInfo |
| SplitInfo.GetSplitInfoNone | at_cascade/get_split_info.py:85-91 | None iff there is no split_list option |
| SplitInfo.GetSplitInfoParsed | at_cascade/get_split_info.py:85-125 | the last split_list row, unchanged; level, covariate name and references from its tokens; the reference id is the first index with the covariate's reference |
| SplitInfo.GetSplitInfoMissingReference | at_cascade/get_split_info.py:109-116 | a reference missing from the list fails the assertion |
| SplitInfo.SplitListRoundTrip | at_cascade/get_split_info.py:93-99 | a split list written as documented parses back to its level, name and reference texts |
| Sorting.SortByIsStableSort | at_cascade/ihme/get_age_group_id_table.py:41-42 | sorted is a permutation, sorted by key, keeping the order of equal keys |
| Sorting.StableSortUnique | at_cascade/ihme/get_age_group_id_table.py:41-42 | a sorted sequence that keeps the order of equal keys is determined uniquely |
| Strings.Split | at_cascade/cascade_fit_node.py:171 | at least one piece, none holding the separator |
| Strings.JoinSplit | at_cascade/cascade_fit_node.py:171-176 | joining the pieces of a split gives the string back |
| Strings.SplitJoin | at_cascade/cascade_fit_node.py:171-176 | splitting undoes joining separator-free pieces |
| Strings.SplitLast | at_cascade/cascade_fit_node.py:174-176 | a path with several pieces is its directory, '/', and the last piece |
| Strings.DropLast | at_cascade/cascade_fit_node.py:188 | Python's `s[:-k]` |
| Strings.Tokens | at_cascade/get_split_info.py:94 | Python's `split()`: non-empty tokens without whitespace |
| Strings.TokensOfJoin | at_cascade/get_split_info.py:94 | `' '.join(words).split() == words` |
| Strings.ParseIntToString | at_cascade/get_split_info.py:95 | `int(str(i)) == i` |
| AgeGroupTable.FilteredOk | at_cascade/ihme/get_age_group_id_table.py:22-38 | the filter succeeds iff every row converts |
| AgeGroupTable.FilteredKept | at_cascade/ihme/get_age_group_id_table.py:22-38 | one row per non-aggregate csv row, with the midpoint of its limits |
| AgeGroupTable.FilteredComplete | at_cascade/ihme/get_age_group_id_table.py:22-38 | every non-aggregate row is kept |
| AgeGroupTable.FilteredStops | at_cascade/ihme/get_age_group_id_table.py:22-38 | a failing prefix fails the filter with the same error |
| AgeGroupTable.FilterAgeGroups | at_cascade/ihme/get_age_group_id_table.py:22-38 | the append loop computes Filtered |
| AgeGroupTable.FirstFailureSpec | at_cascade/ihme/get_age_group_id_table.py:43-61 | no failure iff every row passes; otherwise the failure of the first bad row |
| AgeGroupTable.CheckAgeGroups | at_cascade/ihme/get_age_group_id_table.py:43-61 | the loop carrying the previous row computes FirstFailure |
| AgeGroupTable.BelowLater | at_cascade/ihme/get_age_group_id_table.py:40-61 | each interval lies at or below every later one |
| AgeGroupTable.NonOverlapping | at_cascade/ihme/get_age_group_id_table.py:40-61 | passing the adjacent checks implies pairwise non-overlap |
| AgeGroupTable.GetAgeGroupIdTable | at_cascade/ihme/get_age_group_id_table.py:14-61 | the routine computes AgeGroupIdTable |
| AgeGroupTable.AgeGroupIdTableSpec | at_cascade/ihme/get_age_group_id_table.py:22-61 | success iff every row converts and the sorted rows pass; then a stable sort by midpoint of the kept rows, pairwise non-overlapping |
| AgeGroupTable.AgeGroupIdTableRefuses | at_cascade/ihme/get_age_group_id_table.py:49-59 | an empty interval or an overlap with the previous row fails the assertion |
| AllNodeDatabase.ColNames | at_cascade/ihme/write_all_node_database.py:16-20 | the column names of col_list in order |
| AllNodeDatabase.ColTypes | at_cascade/ihme/write_all_node_database.py:16-20 | the column types of col_list in order |
| AllNodeDatabase.ProjectRowSpec | at_cascade/ihme/write_all_node_database.py:22-27 | a row projects iff it has every column; value j is that column's; otherwise KeyError on the first missing column |
| AllNodeDatabase.ProjectRowsSpec | at_cascade/ihme/write_all_node_database.py:22-27 | a table projects iff every row does, row by row |
| AllNodeDatabase.ProjectRowStops | at_cascade/ihme/write_all_node_database.py:24-26 | a failing prefix of columns fails the row |
| AllNodeDatabase.ProjectRowsStops | at_cascade/ihme/write_all_node_database.py:22-27 | a failing prefix of rows fails the table |
| AllNodeDatabase.TableErrorIsKeyMissing | at_cascade/ihme/write_all_node_database.py:26 | the only error is a KeyError |
| AllNodeDatabase.WriteTableSpec | at_cascade/ihme/write_all_node_database.py:15-30 | one output row per input row with value j from column j; names and types follow col_list; a KeyError iff some row lacks a column |
| AllNodeDatabase.RowOut | at_cascade/ihme/write_all_node_database.py:24-26 | the inner loop computes ProjectRow |
| AllNodeDatabase.WriteTable | at_cascade/ihme/write_all_node_database.py:15-30 | the loops compute TableOf |
| AllNodeDatabase.SexRows | at_cascade/ihme/write_all_node_database.py:75-87 | one row per sex entry in dict order |
| AllNodeDatabase.SplitReferenceTable | at_cascade/ihme/write_all_node_database.py:75-89 | one row per sex, a permutation, sorted by split_reference_id, equal ids in dict order |
| AllNodeDatabase.SplitReferenceRow | at_cascade/ihme/write_all_node_database.py:82-86 | the name and value columns of a split_reference row |
| AllNodeDatabase.OptionDictSpec | at_cascade/ihme/write_all_node_database.py:97-102 | each name maps to its last row's value; no name twice |
| AllNodeDatabase.AllOptionDict | at_cascade/ihme/write_all_node_database.py:97-102 | the option loop computes that dict |
| AllNodeDatabase.CovariateSet | at_cascade/ihme/write_all_node_database.py:108-111 | exactly the covariate names |
| AllNodeDatabase.RelativeSetOfRows | at_cascade/ihme/write_all_node_database.py:97-114 | the same stated on the option rows, last rows winning |
| AllNodeDatabase.AllCovReferenceSpec | at_cascade/ihme/write_all_node_database.py:116-129 | N*C*S rows in lexicographic order: row (n*C+c)*S+s is (n,c,s); every reference is 0.0 |
| AllNodeDatabase.CovReferenceRowWritten | at_cascade/ihme/write_all_node_database.py:123-137 | one row written on the table's columns is n, c, s, 0.0 |
| AllNodeDatabase.AllCovReferenceWritten | at_cascade/ihme/write_all_node_database.py:116-137 | the written table has n, c, s, 0.0 at row (n*C+c)*S+s |
| AllNodeDatabase.AllCovReferenceTable | at_cascade/ihme/write_all_node_database.py:116-129 | the three nested loops compute CovReferenceRows |
| AllNodeDatabase.NodeSplitRow | at_cascade/ihme/write_all_node_database.py:142 | a row holding the node name |
| AllNodeDatabase.NodeSplitTable | at_cascade/ihme/write_all_node_database.py:139-145 | exactly one row per name in the set |
| AllNodeDatabase.GridIdsSpec | at_cascade/ihme/write_all_node_database.py:163-189 | one id per omega row, the first index of its value; an absent or unconvertible value is an error |
| AllNodeDatabase.GridIdsStops | at_cascade/ihme/write_all_node_database.py:163-189 | a failing prefix of rows fails the table |
| AllNodeDatabase.ListIndex | at_cascade/ihme/write_all_node_database.py:171 | list.index as a scan computes IndexOf |
| AllNodeDatabase.OmegaGridTable | at_cascade/ihme/write_all_node_database.py:163-189 | the age and time index loops compute GridIds |
| Summary.WriteMessages | at_cascade/ihme/summary.py:45-46 | each message written as one line |
| Summary.WriteMessageTypeFile | at_cascade/ihme/summary.py:15-48 | the file is `<result_dir>/summary/<type>` and its text is MessageText |
| Summary.GroupText | at_cascade/ihme/summary.py:36-46 | each group adds a blank line unless it is the first, then its key, then its messages |
| Summary.EmptyMessageFile | at_cascade/ihme/summary.py:34-48 | an empty dict writes an empty file |
| Summary.LinesLength | at_cascade/ihme/summary.py:36-46 | group i takes its key line plus one line per message |
| Summary.GroupPlaced | at_cascade/ihme/summary.py:36-46 | the key of group i is at its line, with a blank line before it when i > 0 |
| Summary.MessagePlaced | at_cascade/ihme/summary.py:45-46 | message k of group i is on the k-th line after its key |
| Summary.LinesKept | at_cascade/ihme/summary.py:36-46 | later groups do not change the lines of earlier ones |
| Summary.MessageLayout | at_cascade/ihme/summary.py:36-46 | keys in order, exactly one blank line between groups, none before the first or after the last |
| Summary.MessageLineAt | at_cascade/ihme/summary.py:36-46 | in the whole file, message k of group i follows its key by k+1 lines |
| Summary.MessageFileLines | at_cascade/ihme/summary.py:34-48 | with no newline in keys or messages, the file's lines are exactly those lines, each ended by a newline |
| Summary.ExistingPredictFilesSpec | at_cascade/ihme/summary.py:105-132 | the jobs whose predict.csv exists, each file once, in job-table order; no existing one is missed |
| Summary.PredictCsvFileList | at_cascade/ihme/summary.py:105-132 | the loop computes ExistingPredictFiles |
| Summary.FieldText | at_cascade/ihme/summary.py:146 | the row's value for a field, or the empty string when absent |
| Summary.Record | at_cascade/ihme/summary.py:146 | one value per header field |
| Summary.MergedNothing | at_cascade/ihme/summary.py:137-146 | no rows at all gives an empty file without header, and only then |
| Summary.MergedSnoc | at_cascade/ihme/summary.py:141-146 | one more row: the header comes from the first row; later rows are written or refused |
| Summary.MergedSpec | at_cascade/ihme/summary.py:134-148 | success iff every row's fields lie in the first row's keys; then that header, once, and one record per row in order; otherwise a ValueError |
| Summary.MergedSameFields | at_cascade/ihme/summary.py:141-146 | rows with the first row's keys are written value for value |
| Summary.MergedStops | at_cascade/ihme/summary.py:141-146 | a refused row ends the merge |
| Summary.MergedStopsAt | at_cascade/ihme/summary.py:141-146 | the same with any rows after it |
| Summary.AllRowsPrefix | at_cascade/ihme/summary.py:137-140 | the rows of the files read so far come first |
| Summary.AllRowsStops | at_cascade/ihme/summary.py:137-147 | a refused row stops reading further files |
| Summary.AllRowsSnoc | at_cascade/ihme/summary.py:137-140 | one more file adds its rows in order |
| Summary.WriteReaderRows | at_cascade/ihme/summary.py:141-146 | the row loop of one file continues Merged |
| Summary.MergePredictFiles | at_cascade/ihme/summary.py:134-148 | the two loops compute the merge of all files' rows in file order |
| Summary.RootSplitReferenceAsWritten | at_cascade/ihme/summary.py:85-94 | as written: unbound when the split_reference table is empty |
| Summary.RootSplitReference | at_cascade/ihme/summary.py:85-94 | corrected: None when the split_reference table is empty, else the covariate's split reference id |
| Summary.SplitValue | at_cascade/ihme/summary.py:85-94 | None as null, an id as an integer |
| Summary.AsWrittenFailsWithoutSplitReference | at_cascade/ihme/summary.py:85-101 | with an empty split_reference table and the root found, the code as written fails and the corrected one does not fail that way |
| Summary.AsWrittenAgreesWithSplitReference | at_cascade/ihme/summary.py:85-101 | with a non-empty table they agree |
| Summary.CombinePredictSpec | at_cascade/ihme/summary.py:50-148 | a missing root name is a KeyError; otherwise the merge of the existing predict files' rows, failing only with a ValueError |
| Summary.CombinePredictFiles | at_cascade/ihme/summary.py:50-148 | the routine computes CombinePredict (corrected, see ## Findings) |
| Summary.RunSummary | at_cascade/ihme/summary.py:150-179 | the error file, then the warning file, then predict.csv in the summary directory; a failure iff combining fails (corrected, see ## Findings) |

## Left out

- The dismod_at engine (init, fit, sample, predict, db2csv) and the SQL driver: the engine calls are trace events. In continue_cascade the SQL statements are changes to a map of tables, held by `Database.Connection`. In the cascade they are trace events; see the next line.
- CascadeFitNode.FitSteps and CascadeFitNode.FinishSteps: the `move_table` calls at `at_cascade/cascade_fit_node.py:201, 222, 249, 258` and `set_avgint_node_id` at line 252 are trace events that cannot fail. The fit node database's tables are not tracked through the engine calls, so these statements are assumed to succeed. A fit node database without an avgint table raises at line 201, but `CascadeRun` goes on. `CascadeFitNode.MoveTable` and `CascadeFitNode.SetAvgintNodeId` model these two routines on a connection, including their failures, but the cascade does not call them.
- Jobs.NodeSplitSet and the `nodeSplit` field of `Summary.CombineInputs` (and of `ContinueCascade.Inputs`): node_split rows are node ids, read as `row['node_id']` at `at_cascade/continue_cascade.py:191` and `at_cascade/ihme/summary.py:77`. The table that `write_all_node_database` produces holds only `node_name` (`at_cascade/ihme/write_all_node_database.py:140-145`). On that table the readers raise KeyError as soon as the table is non-empty. The model does not express that KeyError.
- create_job_table, get_database_dir, run_parallel, get_fit_children, create_child_node_db, create_shift_db, omega_constraint, child_avgint_table, check_log, get_cov_info and table_name2id: their source is not part of this model. Each is a parameter, or an event the trace records.
- Recursion depth: `CascadeFitNode.CascadeRun` carries a `fuel` bound and reports RecursionLimit when it runs out. Python's own limit is not modelled.
- Floats are `real`. `float(...)` is the parameter `parseFloat`, which may fail. Formatting floats as text is not modelled.
- Strings.ParseInt: accepts an optional `-` or `+` followed by ASCII decimal digits. Python's `int()` also accepts surrounding whitespace, underscores between digits and non-ASCII decimal digits, which the model does not.
- create_shift_db is assumed not to touch the fit node database's tables; the outcome records its arguments, also when the move back after it fails.
- Time stamps (`time.time()`) are parameters. The multiprocessing lock and all parallelism are not modelled.
- SplitInfo.ConvertReferences: `get_split_info` rewrites `split_reference_list` in place. The model writes the values to a new list, because their type differs from the tokens'.
- Failure messages are not modelled verbatim. Each failure records its kind (AssertionFailed, KeyMissing, ValueFailed, ...) and a short text.
- `mulcov_freeze`, `mtall_index`, `all_mtall` and `mtall_specific` in write_all_node_database: they copy csv rows into tables through `write_table`, which is modelled, with no further logic.
- The driver of write_all_node_database (file reads, `dismod_at.create_table`): the tables are returned as values.
- AllNodeDatabase.NodeSplitTable: a Python set is visited in an order the program does not fix. The model picks the order freely, so it proves the rows but not their order.
- `relative_set` is computed but never used by the source. The model states it and uses it nowhere else.
- CSV parsing and quoting: `readCsv` is a parameter giving the rows of a file, and records are lists of field texts.
- Summary.RunSummary: when combining fails, the partly written predict.csv is not modelled, only the failure.
- The directory creation and type assertions at the start of `summary()`; file existence is the parameter `fileExists`.
- write_csv_table.py and the example driver simulate.py: the first is the same projection as `write_table`; the second has no logic of its own.

## Findings

| source | as written | input that shows it | evidently intended | confidence | as-written member | corrected member |
|---|---|---|---|---|---|---|
| at_cascade/cascade_fit_node.py:188-191, 239, 270-271 | the child database path stored in `child_node_databases` already starts with the all-node directory, and the recursive call prefixes it again | all_node_database `run/all_node.db` and fit node database `n0/dismod.db`: the child `n1` is created at `run/n0/n1/dismod.db`, but its call opens `run/run/n0/n1/dismod.db` | the recursive call gets the path relative to the all-node directory, `n0/n1/dismod.db`, resolving to the database the parent created | not executed | CascadeOrder.AsWrittenChildPathDoubled | CascadeOrder.ChildPathMatchesCreated |
| at_cascade/ihme/summary.py:85-101 | with an empty split_reference table the code assigns the misspelled `root_split_refernence_id`, so `root_split_reference_id` is unbound where it is used | an empty split_reference table with the root node found | `root_split_reference_id = None` | not executed | Summary.AsWrittenFailsWithoutSplitReference | Summary.CombinePredictSpec |
