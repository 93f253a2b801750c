/** What the resume and summary code share about the job table: the rows
    `create_job_table` returns, the question each `get_database_dir` call asks,
    and the rows of the all-node database's node_split and split_reference
    tables. `create_job_table` and `get_database_dir` are not part of this model;
    they appear as function parameters. */
module Jobs {
  import opened Wrappers
  import opened Database

  /** A row of the job table: the node and split reference a job fits, and the
      half-open range of job ids of its children. */
  datatype JobRow = JobRow(
    job_name: string,
    fit_node_id: nat,
    split_reference_id: Option<nat>,
    start_child_job_id: nat,
    end_child_job_id: nat)

  /** The keyword arguments of `get_database_dir` that are not the same for every
      call (the node table and the split reference table are). The root split
      reference id is whatever the caller found: an option value, an id, or None. */
  datatype DirQuery = DirQuery(
    nodeSplitSet: set<nat>,
    rootNodeId: nat,
    rootSplitReferenceId: Value,
    fitNodeId: nat,
    fitSplitReferenceId: Option<nat>)

  /** A row of the all-node database's split_reference table. */
  datatype SplitReferenceRow = SplitReferenceRow(split_reference_name: string, split_reference_value: real)

  /** The node ids listed in the node_split table, as a set. */
  function NodeSplitIds(nodeSplitTable: seq<nat>): set<nat>
  {
    set id | id in nodeSplitTable
  }

  /** `node_split_set`: one `add` per node_split row. */
  method NodeSplitSet(nodeSplitTable: seq<nat>) returns (s: set<nat>)
    ensures forall id :: id in s <==> id in nodeSplitTable
    ensures s == NodeSplitIds(nodeSplitTable)
  {
    s := {};
    for i := 0 to |nodeSplitTable|
      invariant forall id :: id in s <==> id in nodeSplitTable[..i]
    {
      assert nodeSplitTable[..i + 1] == nodeSplitTable[..i] + [nodeSplitTable[i]];
      s := s + {nodeSplitTable[i]};
    }
    assert nodeSplitTable[..|nodeSplitTable|] == nodeSplitTable;
  }
}
