/** `write_all_node_database` for the IHME example: the tables of the all-node
    database built from the root node database, the csv intermediate files and
    the example's constants. Tables are returned as values; creating them in
    the database (`dismod_at.create_table`) is not part of this model. */
module AllNodeDatabase {
  import opened Wrappers
  import opened Strings
  import opened Dicts
  import opened Database
  import opened AllOptions
  import opened Sorting
  import SplitInfo

  // ---------------------------------------------------------------------------
  // write_table

  /** The arguments `write_table` passes to `create_table`. */
  datatype CreatedTable = CreatedTable(
    tbl_name: string,
    col_name_list: seq<string>,
    col_type_list: seq<string>,
    row_list: seq<seq<Value>>)

  /** The column names of a `col_list`, in order. */
  function ColNames(colList: seq<(string, string)>): (names: seq<string>)
    ensures |names| == |colList|
    ensures forall j :: 0 <= j < |colList| ==> names[j] == colList[j].0
    decreases |colList|
  {
    if |colList| == 0 then [] else ColNames(colList[..|colList| - 1]) + [colList[|colList| - 1].0]
  }

  /** The column types of a `col_list`, in order. */
  function ColTypes(colList: seq<(string, string)>): (types: seq<string>)
    ensures |types| == |colList|
    ensures forall j :: 0 <= j < |colList| ==> types[j] == colList[j].1
    decreases |colList|
  {
    if |colList| == 0 then [] else ColTypes(colList[..|colList| - 1]) + [colList[|colList| - 1].1]
  }

  /** `row_in[col_name]` for each name in turn, or the KeyError of the first
      name the row lacks. */
  function ProjectRow(row: Row, names: seq<string>): Result<seq<Value>>
    decreases |names|
  {
    if |names| == 0 then Ok([])
    else
      match ProjectRow(row, names[..|names| - 1])
      case Err(f) => Err(f)
      case Ok(values) =>
        var name := names[|names| - 1];
        if name in row then Ok(values + [row[name]]) else Err(KeyMissing(name))
  }

  /** The projection of each row in turn, or the first error. */
  function ProjectRows(table: seq<Row>, names: seq<string>): Result<seq<seq<Value>>>
    decreases |table|
  {
    if |table| == 0 then Ok([])
    else
      match ProjectRows(table[..|table| - 1], names)
      case Err(f) => Err(f)
      case Ok(rows) =>
        match ProjectRow(table[|table| - 1], names)
        case Err(f) => Err(f)
        case Ok(values) => Ok(rows + [values])
  }

  /** What `write_table` hands to `create_table`. */
  function TableOf(table: seq<Row>, tblName: string, colList: seq<(string, string)>): Result<CreatedTable>
  {
    match ProjectRows(table, ColNames(colList))
    case Err(f) => Err(f)
    case Ok(rows) => Ok(CreatedTable(tblName, ColNames(colList), ColTypes(colList), rows))
  }

  /** A row projects exactly when it has every name; value j is then the row's
      value for name j. Otherwise the error names the first missing column. */
  lemma {:induction false} ProjectRowSpec(row: Row, names: seq<string>)
    ensures ProjectRow(row, names).Ok? <==> forall j :: 0 <= j < |names| ==> names[j] in row
    ensures ProjectRow(row, names).Ok? ==>
      var values := ProjectRow(row, names).value;
      |values| == |names| && forall j :: 0 <= j < |names| ==> values[j] == row[names[j]]
    ensures ProjectRow(row, names).Err? ==>
      exists j :: 0 <= j < |names| && names[j] !in row && ProjectRow(row, names).error == KeyMissing(names[j])
        && forall k :: 0 <= k < j ==> names[k] in row
    decreases |names|
  {
    if |names| > 0 {
      var front := names[..|names| - 1];
      ProjectRowSpec(row, front);
      assert forall j :: 0 <= j < |front| ==> front[j] == names[j];
      if ProjectRow(row, front).Err? {
        var j :| 0 <= j < |front| && front[j] !in row && ProjectRow(row, front).error == KeyMissing(front[j])
          && forall k :: 0 <= k < j ==> front[k] in row;
        assert names[j] == front[j];
      }
    }
  }

  /** A table projects exactly when each row has each name; row i is then the
      projection of input row i. */
  lemma {:induction false} ProjectRowsSpec(table: seq<Row>, names: seq<string>)
    ensures ProjectRows(table, names).Ok? <==> forall i :: 0 <= i < |table| ==> ProjectRow(table[i], names).Ok?
    ensures ProjectRows(table, names).Ok? ==>
      var rows := ProjectRows(table, names).value;
      |rows| == |table| && forall i :: 0 <= i < |table| ==> ProjectRow(table[i], names) == Ok(rows[i])
    decreases |table|
  {
    if |table| > 0 {
      var front := table[..|table| - 1];
      ProjectRowsSpec(front, names);
      assert forall i :: 0 <= i < |front| ==> front[i] == table[i];
    }
  }

  /** `write_table` writes one row per input row, and value j of row i is input
      row i's value for column j of `col_list`; names and types follow
      `col_list`. It fails, with a KeyError, exactly when some row lacks some
      column. */
  lemma WriteTableSpec(table: seq<Row>, tblName: string, colList: seq<(string, string)>)
    ensures TableOf(table, tblName, colList).Ok? <==>
      forall i, j :: 0 <= i < |table| && 0 <= j < |colList| ==> colList[j].0 in table[i]
    ensures TableOf(table, tblName, colList).Err? ==> TableOf(table, tblName, colList).error.KeyMissing?
    ensures TableOf(table, tblName, colList).Ok? ==>
      var t := TableOf(table, tblName, colList).value;
      && t.tbl_name == tblName
      && |t.col_name_list| == |t.col_type_list| == |colList|
      && (forall j :: 0 <= j < |colList| ==> t.col_name_list[j] == colList[j].0 && t.col_type_list[j] == colList[j].1)
      && |t.row_list| == |table|
      && forall i :: 0 <= i < |table| ==>
           |t.row_list[i]| == |colList| && forall j :: 0 <= j < |colList| ==> t.row_list[i][j] == table[i][colList[j].0]
  {
    var names := ColNames(colList);
    ProjectRowsSpec(table, names);
    forall i | 0 <= i < |table| {
      ProjectRowSpec(table[i], names);
    }
    if ProjectRows(table, names).Err? {
      TableErrorIsKeyMissing(table, names);
    }
  }

  lemma {:induction false} TableErrorIsKeyMissing(table: seq<Row>, names: seq<string>)
    requires ProjectRows(table, names).Err?
    ensures ProjectRows(table, names).error.KeyMissing?
    decreases |table|
  {
    var front := table[..|table| - 1];
    if ProjectRows(front, names).Err? {
      TableErrorIsKeyMissing(front, names);
    } else {
      ProjectRowSpec(table[|table| - 1], names);
    }
  }

  lemma {:induction false} ProjectRowStops(row: Row, names: seq<string>, n: nat)
    requires n <= |names| && ProjectRow(row, names[..n]).Err?
    ensures ProjectRow(row, names) == ProjectRow(row, names[..n])
    decreases |names| - n
  {
    if n < |names| {
      assert names[..n + 1][..n] == names[..n];
      ProjectRowStops(row, names, n + 1);
    } else {
      assert names[..n] == names;
    }
  }

  lemma {:induction false} ProjectRowsStops(table: seq<Row>, names: seq<string>, n: nat)
    requires n <= |table| && ProjectRows(table[..n], names).Err?
    ensures ProjectRows(table, names) == ProjectRows(table[..n], names)
    decreases |table| - n
  {
    if n < |table| {
      assert table[..n + 1][..n] == table[..n];
      ProjectRowsStops(table, names, n + 1);
    } else {
      assert table[..n] == table;
    }
  }

  /** The inner loop of `write_table`: `row_in[col_name]` for each column. */
  method RowOut(rowIn: Row, colNameList: seq<string>) returns (r: Result<seq<Value>>)
    ensures r == ProjectRow(rowIn, colNameList)
  {
    var rowOut: seq<Value> := [];
    for j := 0 to |colNameList|
      invariant ProjectRow(rowIn, colNameList[..j]) == Ok(rowOut)
    {
      assert colNameList[..j + 1][..j] == colNameList[..j];
      var colName := colNameList[j];
      if colName !in rowIn {
        ProjectRowStops(rowIn, colNameList, j + 1);
        return Err(KeyMissing(colName));
      }
      rowOut := rowOut + [rowIn[colName]];
    }
    assert colNameList[..|colNameList|] == colNameList;
    r := Ok(rowOut);
  }

  /** The loops of `write_table`: the column names and types, then one list of
      values per row. */
  method WriteTable(table: seq<Row>, tblName: string, colList: seq<(string, string)>) returns (r: Result<CreatedTable>)
    ensures r == TableOf(table, tblName, colList)
  {
    var colNameList: seq<string> := [];
    var colTypeList: seq<string> := [];
    for j := 0 to |colList|
      invariant colNameList == ColNames(colList[..j]) && colTypeList == ColTypes(colList[..j])
    {
      assert colList[..j + 1][..j] == colList[..j];
      colNameList := colNameList + [colList[j].0];
      colTypeList := colTypeList + [colList[j].1];
    }
    assert colList[..|colList|] == colList;
    var rowList: seq<seq<Value>> := [];
    for i := 0 to |table|
      invariant ProjectRows(table[..i], colNameList) == Ok(rowList)
    {
      assert table[..i + 1][..i] == table[..i];
      var rowOut := RowOut(table[i], colNameList);
      if rowOut.Err? {
        ProjectRowsStops(table, colNameList, i + 1);
        return Err(rowOut.error);
      }
      rowList := rowList + [rowOut.value];
    }
    assert table[..|table|] == table;
    r := Ok(CreatedTable(tblName, colNameList, colTypeList, rowList));
  }

  // ---------------------------------------------------------------------------
  // split_reference

  /** An entry of the example's `sex_info_dict`. */
  datatype SexInfo = SexInfo(covariate_value: real, split_reference_id: int)

  /** A row of `split_reference_table` before it is written. */
  datatype SplitReferenceOut = SplitReferenceOut(
    split_reference_name: string,
    split_reference_value: real,
    split_reference_id: int)

  /** The sort key. */
  function SplitReferenceKey(row: SplitReferenceOut): real
  {
    row.split_reference_id as real
  }

  function SexRow(sexName: string, info: SexInfo): SplitReferenceOut
  {
    SplitReferenceOut(sexName, info.covariate_value, info.split_reference_id)
  }

  /** One row per sex, in dictionary order. */
  function SexRows(sexInfoDict: Dict<string, SexInfo>): (rows: seq<SplitReferenceOut>)
    ensures |rows| == |sexInfoDict|
    ensures forall i :: 0 <= i < |rows| ==> rows[i] == SexRow(sexInfoDict[i].0, sexInfoDict[i].1)
    decreases |sexInfoDict|
  {
    if |sexInfoDict| == 0 then []
    else
      var n := |sexInfoDict| - 1;
      SexRows(sexInfoDict[..n]) + [SexRow(sexInfoDict[n].0, sexInfoDict[n].1)]
  }

  /** The loop over `sex_info_dict` and the `sorted` call: one row per sex,
      ordered by split_reference_id, sexes with equal ids in dictionary order. */
  method SplitReferenceTable(sexInfoDict: Dict<string, SexInfo>) returns (t: seq<SplitReferenceOut>)
    ensures t == SortBy(SexRows(sexInfoDict), SplitReferenceKey)
    ensures |t| == |sexInfoDict|
    ensures multiset(t) == multiset(SexRows(sexInfoDict))
    ensures forall i, j :: 0 <= i < j < |t| ==> t[i].split_reference_id <= t[j].split_reference_id
    ensures forall k :: WithKey(t, SplitReferenceKey, k) == WithKey(SexRows(sexInfoDict), SplitReferenceKey, k)
  {
    var splitReferenceTable: seq<SplitReferenceOut> := [];
    for i := 0 to |sexInfoDict|
      invariant splitReferenceTable == SexRows(sexInfoDict[..i])
    {
      assert sexInfoDict[..i + 1][..i] == sexInfoDict[..i];
      var sexName := sexInfoDict[i].0;
      var row := sexInfoDict[i].1;
      splitReferenceTable := splitReferenceTable + [SplitReferenceOut(sexName, row.covariate_value, row.split_reference_id)];
    }
    assert sexInfoDict[..|sexInfoDict|] == sexInfoDict;
    t := SortBy(splitReferenceTable, SplitReferenceKey);
    SortByIsStableSort(splitReferenceTable, SplitReferenceKey);
    assert forall i, j :: 0 <= i < j < |t| ==> SplitReferenceKey(t[i]) <= SplitReferenceKey(t[j]);
  }

  const SplitReferenceName := "split_reference_name"
  const SplitReferenceValue := "split_reference_value"
  const SplitReferenceIdColumn := "split_reference_id"

  /** The dictionary written for a split reference row. */
  function SplitReferenceRow(row: SplitReferenceOut): (r: Row)
    ensures SplitReferenceName in r && r[SplitReferenceName] == TextV(row.split_reference_name)
    ensures SplitReferenceValue in r && r[SplitReferenceValue] == RealV(row.split_reference_value)
  {
    map[SplitReferenceName := TextV(row.split_reference_name),
        SplitReferenceValue := RealV(row.split_reference_value),
        SplitReferenceIdColumn := IntV(row.split_reference_id)]
  }

  // ---------------------------------------------------------------------------
  // all_option

  /** The dictionary the option loop builds: `all_option[name] = value` per row. */
  function OptionDict(rows: seq<OptionRow>): Dict<string, string>
    decreases |rows|
  {
    if |rows| == 0 then []
    else
      var last := rows[|rows| - 1];
      Put(OptionDict(rows[..|rows| - 1]), last.option_name, last.option_value)
  }

  /** Each name maps to the value of its last row, so a later row overrides an
      earlier one; a name with no row is absent; no name appears twice. */
  lemma {:induction false} OptionDictSpec(rows: seq<OptionRow>)
    ensures DistinctKeys(OptionDict(rows))
    ensures forall name :: Get(OptionDict(rows), name) == LastValue(rows, name)
    decreases |rows|
  {
    if |rows| > 0 {
      var front := rows[..|rows| - 1];
      var last := rows[|rows| - 1];
      OptionDictSpec(front);
      PutDistinct(OptionDict(front), last.option_name, last.option_value);
      forall name | true
        ensures Get(OptionDict(rows), name) == LastValue(rows, name)
      {
        PutGet(OptionDict(front), last.option_name, last.option_value, name);
      }
    }
  }

  /** The option loop. */
  method AllOptionDict(rows: seq<OptionRow>) returns (allOption: Dict<string, string>)
    ensures allOption == OptionDict(rows)
    ensures DistinctKeys(allOption)
    ensures forall name :: Get(allOption, name) == LastValue(rows, name)
  {
    allOption := [];
    for i := 0 to |rows|
      invariant allOption == OptionDict(rows[..i])
    {
      assert rows[..i + 1][..i] == rows[..i];
      allOption := Put(allOption, rows[i].option_name, rows[i].option_value);
    }
    assert rows[..|rows|] == rows;
    OptionDictSpec(rows);
  }

  // ---------------------------------------------------------------------------
  // relative_set

  const AbsoluteCovariates := "absolute_covariates"
  const SplitCovariateName := "split_covariate_name"

  /** `covariate_set`: one `add` per covariate row. */
  method CovariateSet(covariateNames: seq<string>) returns (s: set<string>)
    ensures forall name :: name in s <==> name in covariateNames
  {
    s := {};
    for i := 0 to |covariateNames|
      invariant forall name :: name in s <==> name in covariateNames[..i]
    {
      assert covariateNames[..i + 1] == covariateNames[..i] + [covariateNames[i]];
      s := s + {covariateNames[i]};
    }
    assert covariateNames[..|covariateNames|] == covariateNames;
  }

  /** `covariate_set - not_relative_set`, where the latter holds the whitespace
      tokens of the absolute_covariates option and the split covariate name; a
      KeyError when either option is missing. */
  function RelativeSet(allOption: Dict<string, string>, covariateSet: set<string>): Result<set<string>>
  {
    match Get(allOption, AbsoluteCovariates)
    case None => Err(KeyMissing(AbsoluteCovariates))
    case Some(absolute) =>
      match Get(allOption, SplitCovariateName)
      case None => Err(KeyMissing(SplitCovariateName))
      case Some(split) =>
        var notRelativeSet := (set w | w in Tokens(absolute)) + {split};
        Ok(covariateSet - notRelativeSet)
  }

  /** The option loop and the set arithmetic together: with the rows of the
      all_option file, a covariate is relative exactly when it is not among the
      tokens of the last absolute_covariates row and not the value of the last
      split_covariate_name row. */
  lemma RelativeSetOfRows(rows: seq<OptionRow>, covariateNames: seq<string>, covariateSet: set<string>)
    requires forall name :: name in covariateSet <==> name in covariateNames
    ensures RelativeSet(OptionDict(rows), covariateSet).Err? <==>
      LastValue(rows, AbsoluteCovariates).None? || LastValue(rows, SplitCovariateName).None?
    ensures RelativeSet(OptionDict(rows), covariateSet).Ok? ==>
      forall name :: name in RelativeSet(OptionDict(rows), covariateSet).value <==>
        && name in covariateNames
        && name !in Tokens(LastValue(rows, AbsoluteCovariates).value)
        && name != LastValue(rows, SplitCovariateName).value
  {
    OptionDictSpec(rows);
  }

  // ---------------------------------------------------------------------------
  // all_cov_reference

  const NodeIdColumn := "node_id"
  const CovariateIdColumn := "covariate_id"
  const ReferenceColumn := "reference"

  /** The dictionary appended for node n, covariate c and split reference s; its
      reference is 0.0, to be replaced later. */
  function CovReferenceRow(n: int, c: int, s: int): Row
  {
    map[NodeIdColumn := IntV(n), CovariateIdColumn := IntV(c), SplitReferenceIdColumn := IntV(s),
        ReferenceColumn := RealV(0.0)]
  }

  /** Where the nested loops put the row for (n, c, s). */
  function CovReferenceIndex(n: nat, c: nat, s: nat, covariateCount: nat, splitCount: nat): nat
  {
    (n * covariateCount + c) * splitCount + s
  }

  /** A row for some node, covariate and split reference in range. */
  ghost predicate IsCovReferenceRow(row: Row, nodeCount: nat, covariateCount: nat, splitCount: nat)
  {
    exists n, c, s :: 0 <= n < nodeCount && 0 <= c < covariateCount && 0 <= s < splitCount
      && row == CovReferenceRow(n, c, s)
  }

  /** The rows the innermost loop appends for node n and covariate c, for the
      first s split references. */
  function SplitBlock(n: nat, c: nat, s: nat): seq<Row>
  {
    if s == 0 then [] else SplitBlock(n, c, s - 1) + [CovReferenceRow(n, c, s - 1)]
  }

  /** The rows the middle loop appends for node n, for the first c covariates. */
  function CovariateBlocks(n: nat, c: nat, splitCount: nat): seq<Row>
  {
    if c == 0 then [] else CovariateBlocks(n, c - 1, splitCount) + SplitBlock(n, c - 1, splitCount)
  }

  /** The rows the outer loop appends for the first n nodes. */
  function CovReferenceRows(n: nat, covariateCount: nat, splitCount: nat): seq<Row>
  {
    if n == 0 then [] else CovReferenceRows(n - 1, covariateCount, splitCount) + CovariateBlocks(n - 1, covariateCount, splitCount)
  }

  lemma {:induction false} SplitBlockLength(n: nat, c: nat, s: nat)
    ensures |SplitBlock(n, c, s)| == s
  {
    if s > 0 {
      SplitBlockLength(n, c, s - 1);
    }
  }

  lemma {:induction false} SplitBlockAt(n: nat, c: nat, s: nat, s': nat)
    requires s' < s
    ensures |SplitBlock(n, c, s)| == s && SplitBlock(n, c, s)[s'] == CovReferenceRow(n, c, s')
  {
    var below := s - 1;
    SplitBlockLength(n, c, below);
    SplitBlockLength(n, c, s);
    if s' < below {
      SplitBlockAt(n, c, below, s');
    }
  }

  lemma {:induction false} CovariateBlocksLength(n: nat, c: nat, splitCount: nat)
    ensures |CovariateBlocks(n, c, splitCount)| == c * splitCount
  {
    if c > 0 {
      var below := c - 1;
      CovariateBlocksLength(n, below, splitCount);
      SplitBlockLength(n, below, splitCount);
      assert c * splitCount == below * splitCount + splitCount;
    }
  }

  lemma {:induction false} CovariateBlocksAt(n: nat, c: nat, splitCount: nat, c': nat, s': nat)
    requires c' < c && s' < splitCount
    ensures c' * splitCount + s' < |CovariateBlocks(n, c, splitCount)|
    ensures CovariateBlocks(n, c, splitCount)[c' * splitCount + s'] == CovReferenceRow(n, c', s')
  {
    var below := c - 1;
    var front := CovariateBlocks(n, below, splitCount);
    CovariateBlocksLength(n, below, splitCount);
    SplitBlockLength(n, below, splitCount);
    var k := c' * splitCount + s';
    if c' < below {
      CovariateBlocksAt(n, below, splitCount, c', s');
    } else {
      SplitBlockAt(n, below, splitCount, s');
      assert k - |front| == s';
    }
  }

  lemma {:induction false} CovariateBlocksRow(n: nat, c: nat, splitCount: nat, k: nat, nodeCount: nat, covariateCount: nat)
    requires n < nodeCount && c <= covariateCount && k < |CovariateBlocks(n, c, splitCount)|
    ensures IsCovReferenceRow(CovariateBlocks(n, c, splitCount)[k], nodeCount, covariateCount, splitCount)
  {
    var below := c - 1;
    var front := CovariateBlocks(n, below, splitCount);
    SplitBlockLength(n, below, splitCount);
    if k < |front| {
      CovariateBlocksRow(n, below, splitCount, k, nodeCount, covariateCount);
    } else {
      var s' := k - |front|;
      SplitBlockAt(n, below, splitCount, s');
      assert CovariateBlocks(n, c, splitCount)[k] == CovReferenceRow(n, below, s');
    }
  }

  lemma {:induction false} CovReferenceRowsLength(n: nat, covariateCount: nat, splitCount: nat)
    ensures |CovReferenceRows(n, covariateCount, splitCount)| == n * (covariateCount * splitCount)
  {
    if n > 0 {
      var below := n - 1;
      CovReferenceRowsLength(below, covariateCount, splitCount);
      CovariateBlocksLength(below, covariateCount, splitCount);
      assert n * (covariateCount * splitCount) == below * (covariateCount * splitCount) + covariateCount * splitCount;
    }
  }

  lemma {:induction false} CovReferenceRowsAt(n: nat, covariateCount: nat, splitCount: nat, n': nat, c': nat, s': nat)
    requires n' < n && c' < covariateCount && s' < splitCount
    ensures n' * (covariateCount * splitCount) + (c' * splitCount + s') < |CovReferenceRows(n, covariateCount, splitCount)|
    ensures CovReferenceRows(n, covariateCount, splitCount)[n' * (covariateCount * splitCount) + (c' * splitCount + s')]
      == CovReferenceRow(n', c', s')
  {
    var below := n - 1;
    var size := covariateCount * splitCount;
    var front := CovReferenceRows(below, covariateCount, splitCount);
    var block := CovariateBlocks(below, covariateCount, splitCount);
    var t := CovReferenceRows(n, covariateCount, splitCount);
    assert t == front + block;
    CovReferenceRowsLength(below, covariateCount, splitCount);
    CovariateBlocksLength(below, covariateCount, splitCount);
    var j := c' * splitCount + s';
    var k := n' * size + j;
    CovariateBlocksAt(below, covariateCount, splitCount, c', s');
    if n' < below {
      CovReferenceRowsAt(below, covariateCount, splitCount, n', c', s');
      assert t[k] == front[k];
    } else {
      assert k == |front| + j;
      assert t[k] == block[j];
    }
  }

  lemma {:induction false} CovReferenceRowsRow(n: nat, covariateCount: nat, splitCount: nat, k: nat, nodeCount: nat)
    requires n <= nodeCount && k < |CovReferenceRows(n, covariateCount, splitCount)|
    ensures IsCovReferenceRow(CovReferenceRows(n, covariateCount, splitCount)[k], nodeCount, covariateCount, splitCount)
  {
    var below := n - 1;
    var front := CovReferenceRows(below, covariateCount, splitCount);
    if k < |front| {
      CovReferenceRowsRow(below, covariateCount, splitCount, k, nodeCount);
    } else {
      CovariateBlocksRow(below, covariateCount, splitCount, k - |front|, nodeCount, covariateCount);
    }
  }

  lemma MulAssociative(a: int, b: int, c: int)
    ensures a * b * c == a * (b * c)
  {
  }

  /** The loop index of (n, c, s), grouped by node block and covariate block. */
  lemma IndexRegrouped(n: nat, c: nat, s: nat, covariateCount: nat, splitCount: nat)
    ensures CovReferenceIndex(n, c, s, covariateCount, splitCount)
      == n * (covariateCount * splitCount) + (c * splitCount + s)
  {
    assert (n * covariateCount + c) * splitCount == (n * covariateCount) * splitCount + c * splitCount;
    assert (n * covariateCount) * splitCount == n * (covariateCount * splitCount);
  }

  /** The table has N * C * S rows in lexicographic (node, covariate, split
      reference) order: row (n * C + c) * S + s is the one for (n, c, s). Every
      row is one for a node, covariate and split reference in range, with
      reference 0.0. */
  lemma AllCovReferenceSpec(nodeCount: nat, covariateCount: nat, splitCount: nat)
    ensures |CovReferenceRows(nodeCount, covariateCount, splitCount)| == nodeCount * covariateCount * splitCount
    ensures forall n, c, s :: 0 <= n < nodeCount && 0 <= c < covariateCount && 0 <= s < splitCount ==>
      CovReferenceIndex(n, c, s, covariateCount, splitCount) < |CovReferenceRows(nodeCount, covariateCount, splitCount)|
      && CovReferenceRows(nodeCount, covariateCount, splitCount)[CovReferenceIndex(n, c, s, covariateCount, splitCount)]
         == CovReferenceRow(n, c, s)
    ensures forall k :: 0 <= k < |CovReferenceRows(nodeCount, covariateCount, splitCount)| ==>
      var row := CovReferenceRows(nodeCount, covariateCount, splitCount)[k];
      IsCovReferenceRow(row, nodeCount, covariateCount, splitCount) && row[ReferenceColumn] == RealV(0.0)
  {
    var t := CovReferenceRows(nodeCount, covariateCount, splitCount);
    var size := covariateCount * splitCount;
    CovReferenceRowsLength(nodeCount, covariateCount, splitCount);
    MulAssociative(nodeCount, covariateCount, splitCount);
    forall n, c, s | 0 <= n < nodeCount && 0 <= c < covariateCount && 0 <= s < splitCount
      ensures CovReferenceIndex(n, c, s, covariateCount, splitCount) < |t|
        && t[CovReferenceIndex(n, c, s, covariateCount, splitCount)] == CovReferenceRow(n, c, s)
    {
      CovReferenceRowsAt(nodeCount, covariateCount, splitCount, n, c, s);
      IndexRegrouped(n, c, s, covariateCount, splitCount);
    }
    forall k | 0 <= k < |t|
      ensures IsCovReferenceRow(t[k], nodeCount, covariateCount, splitCount) && t[k][ReferenceColumn] == RealV(0.0)
    {
      CovReferenceRowsRow(nodeCount, covariateCount, splitCount, k, nodeCount);
    }
  }

  const AllCovReferenceColumns: seq<(string, string)> :=
    [(NodeIdColumn, "integer"), (CovariateIdColumn, "integer"), (SplitReferenceIdColumn, "integer"),
     (ReferenceColumn, "real")]

  /** One all_cov_reference row, projected on the table's columns. */
  lemma CovReferenceRowWritten(n: int, c: int, s: int)
    ensures ProjectRow(CovReferenceRow(n, c, s), ColNames(AllCovReferenceColumns)) == Ok([IntV(n), IntV(c), IntV(s), RealV(0.0)])
  {
    var names := ColNames(AllCovReferenceColumns);
    var row := CovReferenceRow(n, c, s);
    assert names == [NodeIdColumn, CovariateIdColumn, SplitReferenceIdColumn, ReferenceColumn];
    assert row[NodeIdColumn] == IntV(n) && row[CovariateIdColumn] == IntV(c);
    assert row[SplitReferenceIdColumn] == IntV(s) && row[ReferenceColumn] == RealV(0.0);
    ProjectRowSpec(row, names);
    var values := ProjectRow(row, names).value;
    assert values == [IntV(n), IntV(c), IntV(s), RealV(0.0)];
  }

  /** Written with its `col_list`, the all_cov_reference table has, at row
      (n * C + c) * S + s, the values n, c, s and 0.0. */
  lemma AllCovReferenceWritten(nodeCount: nat, covariateCount: nat, splitCount: nat)
    ensures TableOf(CovReferenceRows(nodeCount, covariateCount, splitCount), "all_cov_reference", AllCovReferenceColumns).Ok?
    ensures var t := TableOf(CovReferenceRows(nodeCount, covariateCount, splitCount), "all_cov_reference", AllCovReferenceColumns).value;
      && |t.row_list| == nodeCount * covariateCount * splitCount
      && forall n, c, s :: 0 <= n < nodeCount && 0 <= c < covariateCount && 0 <= s < splitCount ==>
           CovReferenceIndex(n, c, s, covariateCount, splitCount) < |t.row_list|
           && t.row_list[CovReferenceIndex(n, c, s, covariateCount, splitCount)] == [IntV(n), IntV(c), IntV(s), RealV(0.0)]
  {
    var table := CovReferenceRows(nodeCount, covariateCount, splitCount);
    var names := ColNames(AllCovReferenceColumns);
    AllCovReferenceSpec(nodeCount, covariateCount, splitCount);
    ProjectRowsSpec(table, names);
    forall k | 0 <= k < |table|
      ensures ProjectRow(table[k], names).Ok?
    {
      var n, c, s :| 0 <= n < nodeCount && 0 <= c < covariateCount && 0 <= s < splitCount
        && table[k] == CovReferenceRow(n, c, s);
      CovReferenceRowWritten(n, c, s);
    }
    var rows := ProjectRows(table, names).value;
    forall n, c, s | 0 <= n < nodeCount && 0 <= c < covariateCount && 0 <= s < splitCount
      ensures CovReferenceIndex(n, c, s, covariateCount, splitCount) < |rows|
        && rows[CovReferenceIndex(n, c, s, covariateCount, splitCount)] == [IntV(n), IntV(c), IntV(s), RealV(0.0)]
    {
      CovReferenceRowWritten(n, c, s);
    }
  }

  /** The three nested loops. */
  method AllCovReferenceTable(nodeCount: nat, covariateCount: nat, splitCount: nat) returns (t: seq<Row>)
    ensures t == CovReferenceRows(nodeCount, covariateCount, splitCount)
  {
    t := [];
    for n := 0 to nodeCount
      invariant t == CovReferenceRows(n, covariateCount, splitCount)
    {
      ghost var done := t;
      for c := 0 to covariateCount
        invariant t == done + CovariateBlocks(n, c, splitCount)
      {
        ghost var before := t;
        for s := 0 to splitCount
          invariant t == before + SplitBlock(n, c, s)
        {
          t := t + [CovReferenceRow(n, c, s)];
        }
      }
    }
  }

  // ---------------------------------------------------------------------------
  // node_split

  const NodeNameColumn := "node_name"

  function NodeSplitRow(nodeName: string): (r: Row)
    ensures NodeNameColumn in r && r[NodeNameColumn] == TextV(nodeName)
  {
    map[NodeNameColumn := TextV(nodeName)]
  }

  /** The loop over `split_node_name_set`. A Python set is visited in an order
      the program does not control, so the model picks each next name freely;
      `order` is the order it picked. One row per name in the set, no name twice. */
  method NodeSplitTable(splitNodeNameSet: set<string>) returns (t: seq<Row>, ghost order: seq<string>)
    ensures |t| == |order| == |splitNodeNameSet|
    ensures forall k :: 0 <= k < |t| ==> order[k] in splitNodeNameSet && t[k] == NodeSplitRow(order[k])
    ensures forall name :: name in splitNodeNameSet ==> name in order
    ensures forall i, j :: 0 <= i < j < |order| ==> order[i] != order[j]
  {
    t := [];
    order := [];
    var remaining := splitNodeNameSet;
    while remaining != {}
      invariant remaining <= splitNodeNameSet
      invariant forall name :: name in splitNodeNameSet ==> (name in remaining <==> name !in order)
      invariant |t| == |order| && |order| + |remaining| == |splitNodeNameSet|
      invariant forall k :: 0 <= k < |t| ==> order[k] in splitNodeNameSet && t[k] == NodeSplitRow(order[k])
      invariant forall i, j :: 0 <= i < j < |order| ==> order[i] != order[j]
      decreases |remaining|
    {
      var nodeName :| nodeName in remaining;
      t := t + [NodeSplitRow(nodeName)];
      order := order + [nodeName];
      remaining := remaining - {nodeName};
    }
  }

  // ---------------------------------------------------------------------------
  // omega_age_grid and omega_time_grid

  const AgeColumn := "age"
  const TimeColumn := "time"

  /** The id written for one omega csv row: the first index in `list` of the
      float in `column`; a KeyError, a refused conversion or a `list.index`
      ValueError otherwise. */
  function GridId(row: map<string, string>, column: string, list: seq<real>, parseFloat: string -> Option<real>): Result<nat>
  {
    if column !in row then Err(KeyMissing(column))
    else
      match parseFloat(row[column])
      case None => Err(ConversionFailed(row[column]))
      case Some(x) =>
        match SplitInfo.IndexOf(list, x)
        case None => Err(NotInList)
        case Some(id) => Ok(id)
  }

  /** The ids for the omega rows in turn, or the first error. */
  function GridIds(rows: seq<map<string, string>>, column: string, list: seq<real>, parseFloat: string -> Option<real>): Result<seq<nat>>
    decreases |rows|
  {
    if |rows| == 0 then Ok([])
    else
      match GridIds(rows[..|rows| - 1], column, list, parseFloat)
      case Err(f) => Err(f)
      case Ok(ids) =>
        match GridId(rows[|rows| - 1], column, list, parseFloat)
        case Err(f) => Err(f)
        case Ok(id) => Ok(ids + [id])
  }

  /** One id per omega row, in order; each is the first index holding that
      row's value; an absent value, or one that does not convert, is an error. */
  lemma {:induction false} GridIdsSpec(rows: seq<map<string, string>>, column: string, list: seq<real>, parseFloat: string -> Option<real>)
    ensures GridIds(rows, column, list, parseFloat).Ok? <==>
      forall i :: 0 <= i < |rows| ==>
        column in rows[i] && parseFloat(rows[i][column]).Some? && parseFloat(rows[i][column]).value in list
    ensures GridIds(rows, column, list, parseFloat).Ok? ==>
      var ids := GridIds(rows, column, list, parseFloat).value;
      && |ids| == |rows|
      && forall i :: 0 <= i < |rows| ==>
           var x := parseFloat(rows[i][column]).value;
           ids[i] < |list| && list[ids[i]] == x && forall j :: 0 <= j < ids[i] ==> list[j] != x
    decreases |rows|
  {
    if |rows| > 0 {
      var front := rows[..|rows| - 1];
      var last := rows[|rows| - 1];
      GridIdsSpec(front, column, list, parseFloat);
      assert forall i :: 0 <= i < |front| ==> front[i] == rows[i];
      if column in last && parseFloat(last[column]).Some? {
        SplitInfo.IndexOfSpec(list, parseFloat(last[column]).value);
      }
    }
  }

  lemma {:induction false} GridIdsStops(rows: seq<map<string, string>>, n: nat, column: string, list: seq<real>, parseFloat: string -> Option<real>)
    requires n <= |rows| && GridIds(rows[..n], column, list, parseFloat).Err?
    ensures GridIds(rows, column, list, parseFloat) == GridIds(rows[..n], column, list, parseFloat)
    decreases |rows| - n
  {
    if n < |rows| {
      assert rows[..n + 1][..n] == rows[..n];
      GridIdsStops(rows, n + 1, column, list, parseFloat);
    } else {
      assert rows[..n] == rows;
    }
  }

  /** The index through Python's `list.index`: a scan from the front. */
  method ListIndex(list: seq<real>, x: real) returns (r: Option<nat>)
    ensures r == SplitInfo.IndexOf(list, x)
  {
    SplitInfo.IndexOfSpec(list, x);
    for i := 0 to |list|
      invariant forall j :: 0 <= j < i ==> list[j] != x
    {
      if list[i] == x {
        return Some(i);
      }
    }
    return None;
  }

  /** The loop over the omega age (or time) csv rows: one `{column_id: id}`
      row per csv row. */
  method OmegaGridTable(rows: seq<map<string, string>>, column: string, list: seq<real>, parseFloat: string -> Option<real>)
    returns (r: Result<seq<nat>>)
    ensures r == GridIds(rows, column, list, parseFloat)
  {
    var grid: seq<nat> := [];
    for i := 0 to |rows|
      invariant GridIds(rows[..i], column, list, parseFloat) == Ok(grid)
    {
      assert rows[..i + 1][..i] == rows[..i];
      var row := rows[i];
      if column !in row {
        GridIdsStops(rows, i + 1, column, list, parseFloat);
        return Err(KeyMissing(column));
      }
      var x := parseFloat(row[column]);
      if x.None? {
        GridIdsStops(rows, i + 1, column, list, parseFloat);
        return Err(ConversionFailed(row[column]));
      }
      var id := ListIndex(list, x.value);
      if id.None? {
        GridIdsStops(rows, i + 1, column, list, parseFloat);
        return Err(NotInList);
      }
      grid := grid + [id.value];
    }
    assert rows[..|rows|] == rows;
    r := Ok(grid);
  }
}
