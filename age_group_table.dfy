/** `get_age_group_id_table`: the age groups of the IHME input file that are not
    aggregates, with their midpoints, sorted by midpoint and checked for empty
    and overlapping intervals. */
module AgeGroupTable {
  import opened Wrappers
  import opened Strings
  import opened Sorting

  /** A row of the age group csv file, as the csv reader gives it: text. */
  datatype CsvRow = CsvRow(age_group_id: string, age_group_years_start: string, age_group_years_end: string)

  datatype AgeGroupRow = AgeGroupRow(age_group_id: int, age_lower: real, age_upper: real, age_mid: real)

  /** The sort key. */
  function AgeMid(row: AgeGroupRow): real
  {
    row.age_mid
  }

  // ---------------------------------------------------------------------------
  // The filter loop

  /** What the filter makes of one csv row: None for an aggregate age group,
      otherwise the converted row; an error when `int` or `float` refuses a field.
      `parseFloat` is Python's `float`, which is not part of this model. */
  function ConvertRow(row: CsvRow, aggregate: set<int>, parseFloat: string -> Option<real>): Result<Option<AgeGroupRow>>
  {
    match ParseInt(row.age_group_id)
    case None => Err(ConversionFailed(row.age_group_id))
    case Some(ageGroupId) =>
      if ageGroupId in aggregate then Ok(None)
      else
        match parseFloat(row.age_group_years_start)
        case None => Err(ConversionFailed(row.age_group_years_start))
        case Some(ageLower) =>
          match parseFloat(row.age_group_years_end)
          case None => Err(ConversionFailed(row.age_group_years_end))
          case Some(ageUpper) => Ok(Some(AgeGroupRow(ageGroupId, ageLower, ageUpper, (ageLower + ageUpper) / 2.0)))
  }

  /** The rows the filter loop appends, in file order, or the first conversion
      that fails. */
  function Filtered(rows: seq<CsvRow>, aggregate: set<int>, parseFloat: string -> Option<real>): Result<seq<AgeGroupRow>>
    decreases |rows|
  {
    if |rows| == 0 then Ok([])
    else
      match Filtered(rows[..|rows| - 1], aggregate, parseFloat)
      case Err(f) => Err(f)
      case Ok(t) =>
        match ConvertRow(rows[|rows| - 1], aggregate, parseFloat)
        case Err(f) => Err(f)
        case Ok(None) => Ok(t)
        case Ok(Some(r)) => Ok(t + [r])
  }

  /** The number of rows that are kept: their id converts and is not that of an
      aggregate age group. */
  function KeptCount(rows: seq<CsvRow>, aggregate: set<int>): nat
    decreases |rows|
  {
    if |rows| == 0 then 0
    else
      var id := ParseInt(rows[|rows| - 1].age_group_id);
      KeptCount(rows[..|rows| - 1], aggregate) + if id.Some? && id.value !in aggregate then 1 else 0
  }

  /** The filter succeeds exactly when every row converts. */
  lemma {:induction false} FilteredOk(rows: seq<CsvRow>, aggregate: set<int>, parseFloat: string -> Option<real>)
    ensures Filtered(rows, aggregate, parseFloat).Ok? <==>
      forall i :: 0 <= i < |rows| ==> ConvertRow(rows[i], aggregate, parseFloat).Ok?
    decreases |rows|
  {
    if |rows| > 0 {
      var front := rows[..|rows| - 1];
      FilteredOk(front, aggregate, parseFloat);
      assert forall i :: 0 <= i < |front| ==> front[i] == rows[i];
    }
  }

  /** The filter keeps one row per csv row that is not an aggregate: as many
      rows as there are such csv rows, each with an id outside the aggregate
      set and the midpoint of its limits, each converted from some csv row. */
  lemma {:induction false} FilteredKept(rows: seq<CsvRow>, aggregate: set<int>, parseFloat: string -> Option<real>)
    requires Filtered(rows, aggregate, parseFloat).Ok?
    ensures var t := Filtered(rows, aggregate, parseFloat).value;
      && |t| == KeptCount(rows, aggregate)
      && forall k :: 0 <= k < |t| ==>
           && t[k].age_group_id !in aggregate
           && t[k].age_mid == (t[k].age_lower + t[k].age_upper) / 2.0
           && exists i :: 0 <= i < |rows| && ConvertRow(rows[i], aggregate, parseFloat) == Ok(Some(t[k]))
    decreases |rows|
  {
    if |rows| > 0 {
      var front := rows[..|rows| - 1];
      FilteredKept(front, aggregate, parseFloat);
      var t := Filtered(front, aggregate, parseFloat).value;
      var c := ConvertRow(rows[|rows| - 1], aggregate, parseFloat).value;
      var u := Filtered(rows, aggregate, parseFloat).value;
      assert u == if c.Some? then t + [c.value] else t;
      forall k | 0 <= k < |u|
        ensures exists i :: 0 <= i < |rows| && ConvertRow(rows[i], aggregate, parseFloat) == Ok(Some(u[k]))
      {
        if k < |t| {
          var i :| 0 <= i < |front| && ConvertRow(front[i], aggregate, parseFloat) == Ok(Some(t[k]));
          assert rows[i] == front[i];
        } else {
          assert ConvertRow(rows[|rows| - 1], aggregate, parseFloat) == Ok(Some(u[k]));
        }
      }
    }
  }

  /** Every csv row that is not an aggregate is kept. */
  lemma {:induction false} FilteredComplete(rows: seq<CsvRow>, aggregate: set<int>, parseFloat: string -> Option<real>)
    requires Filtered(rows, aggregate, parseFloat).Ok?
    ensures forall i ::
      (0 <= i < |rows| && ConvertRow(rows[i], aggregate, parseFloat).Ok? && ConvertRow(rows[i], aggregate, parseFloat).value.Some?) ==>
      ConvertRow(rows[i], aggregate, parseFloat).value.value in Filtered(rows, aggregate, parseFloat).value
    decreases |rows|
  {
    if |rows| > 0 {
      var front := rows[..|rows| - 1];
      FilteredOk(rows, aggregate, parseFloat);
      FilteredComplete(front, aggregate, parseFloat);
      assert forall i :: 0 <= i < |front| ==> front[i] == rows[i];
    }
  }

  /** Once a prefix of the rows fails to convert, the whole filter fails with the
      same error. */
  lemma {:induction false} FilteredStops(rows: seq<CsvRow>, n: nat, aggregate: set<int>, parseFloat: string -> Option<real>)
    requires n <= |rows| && Filtered(rows[..n], aggregate, parseFloat).Err?
    ensures Filtered(rows, aggregate, parseFloat) == Filtered(rows[..n], aggregate, parseFloat)
    decreases |rows| - n
  {
    if n < |rows| {
      assert rows[..n + 1][..n] == rows[..n];
      FilteredStops(rows, n + 1, aggregate, parseFloat);
    } else {
      assert rows[..n] == rows;
    }
  }

  /** The loop over the csv rows that appends each non-aggregate row. */
  method FilterAgeGroups(rows: seq<CsvRow>, aggregate: set<int>, parseFloat: string -> Option<real>)
    returns (r: Result<seq<AgeGroupRow>>)
    ensures r == Filtered(rows, aggregate, parseFloat)
  {
    var ageGroupIdTable: seq<AgeGroupRow> := [];
    for i := 0 to |rows|
      invariant Filtered(rows[..i], aggregate, parseFloat) == Ok(ageGroupIdTable)
    {
      assert rows[..i + 1][..i] == rows[..i];
      var rowIn := rows[i];
      var ageGroupId := ParseInt(rowIn.age_group_id);
      if ageGroupId.None? {
        FilteredStops(rows, i + 1, aggregate, parseFloat);
        return Err(ConversionFailed(rowIn.age_group_id));
      }
      if ageGroupId.value !in aggregate {
        var ageLower := parseFloat(rowIn.age_group_years_start);
        if ageLower.None? {
          FilteredStops(rows, i + 1, aggregate, parseFloat);
          return Err(ConversionFailed(rowIn.age_group_years_start));
        }
        var ageUpper := parseFloat(rowIn.age_group_years_end);
        if ageUpper.None? {
          FilteredStops(rows, i + 1, aggregate, parseFloat);
          return Err(ConversionFailed(rowIn.age_group_years_end));
        }
        var rowOut := AgeGroupRow(ageGroupId.value, ageLower.value, ageUpper.value, (ageLower.value + ageUpper.value) / 2.0);
        ageGroupIdTable := ageGroupIdTable + [rowOut];
      }
    }
    assert rows[..|rows|] == rows;
    r := Ok(ageGroupIdTable);
  }

  // ---------------------------------------------------------------------------
  // The check for empty and overlapping age groups

  const LowerAboveUpper := "age_lower is greater than age_upper for age_group_id = "
  const OverlapFor := "the age limits for age_group_id = "
  const OverlapWith := " overlap the age limits for age_group_id = "

  function LowerAboveUpperMessage(ageGroupId: int): string
  {
    LowerAboveUpper + IntToString(ageGroupId)
  }

  function OverlapMessage(ageGroupId: int, previousAgeGroupId: int): string
  {
    OverlapFor + IntToString(ageGroupId) + OverlapWith + IntToString(previousAgeGroupId)
  }

  /** Row i of the sorted table passes both assertions: its lower limit is not
      above its upper limit, and not below the previous row's upper limit. */
  predicate RowPasses(t: seq<AgeGroupRow>, i: nat)
    requires i < |t|
  {
    t[i].age_lower <= t[i].age_upper && (i == 0 || t[i - 1].age_upper <= t[i].age_lower)
  }

  /** The assertion a row that does not pass fails, the limits check first. */
  function RowFailure(t: seq<AgeGroupRow>, i: nat): Failure
    requires i < |t| && !RowPasses(t, i)
  {
    if t[i].age_lower > t[i].age_upper then AssertionFailed(LowerAboveUpperMessage(t[i].age_group_id))
    else AssertionFailed(OverlapMessage(t[i].age_group_id, t[i - 1].age_group_id))
  }

  /** The first assertion that fails, scanning from row i. */
  function FirstFailure(t: seq<AgeGroupRow>, i: nat): Option<Failure>
    decreases |t| - i
  {
    if |t| <= i then None
    else if !RowPasses(t, i) then Some(RowFailure(t, i))
    else FirstFailure(t, i + 1)
  }

  /** No failure from row i on exactly when every row from i on passes. */
  lemma {:induction false} FirstFailureNone(t: seq<AgeGroupRow>, i: nat)
    ensures FirstFailure(t, i).None? <==> forall j :: i <= j < |t| ==> RowPasses(t, j)
    decreases |t| - i
  {
    if i < |t| {
      FirstFailureNone(t, i + 1);
    }
  }

  /** The row whose failure is reported: it fails, and every row before it
      from i on passes. */
  lemma {:induction false} FirstFailureRow(t: seq<AgeGroupRow>, i: nat) returns (j: nat)
    requires FirstFailure(t, i).Some?
    ensures i <= j < |t| && !RowPasses(t, j) && FirstFailure(t, i) == Some(RowFailure(t, j))
    ensures forall k :: i <= k < j ==> RowPasses(t, k)
    decreases |t| - i
  {
    if RowPasses(t, i) {
      assert FirstFailure(t, i) == FirstFailure(t, i + 1);
      j := FirstFailureRow(t, i + 1);
      forall k | i <= k < j
        ensures RowPasses(t, k)
      {
        if k > i {
          assert i + 1 <= k < j;
        }
      }
    } else {
      assert FirstFailure(t, i) == Some(RowFailure(t, i));
      j := i;
    }
  }

  /** No failure exactly when every row passes; otherwise the failure of a row
      after all earlier rows passed. */
  lemma FirstFailureSpec(t: seq<AgeGroupRow>, i: nat)
    ensures FirstFailure(t, i).None? <==> forall j :: i <= j < |t| ==> RowPasses(t, j)
    ensures FirstFailure(t, i).Some? ==>
      exists j :: i <= j < |t| && !RowPasses(t, j) && FirstFailure(t, i).value == RowFailure(t, j)
        && forall k :: i <= k < j ==> RowPasses(t, k)
  {
    FirstFailureNone(t, i);
    if FirstFailure(t, i).Some? {
      var j := FirstFailureRow(t, i);
    }
  }

  /** The loop that carries the previous row's upper limit and id. */
  method CheckAgeGroups(t: seq<AgeGroupRow>) returns (r: Option<Failure>)
    ensures r == FirstFailure(t, 0)
  {
    var previousAgeUpper: Option<real> := None;
    var previousAgeGroupId: Option<int> := None;
    for i := 0 to |t|
      invariant FirstFailure(t, 0) == FirstFailure(t, i)
      invariant previousAgeUpper == (if i == 0 then None else Some(t[i - 1].age_upper))
      invariant previousAgeGroupId == (if i == 0 then None else Some(t[i - 1].age_group_id))
    {
      var ageGroupId := t[i].age_group_id;
      var ageLower := t[i].age_lower;
      var ageUpper := t[i].age_upper;
      if ageLower > ageUpper {
        return Some(AssertionFailed(LowerAboveUpperMessage(ageGroupId)));
      }
      if previousAgeUpper.Some? && ageLower < previousAgeUpper.value {
        return Some(AssertionFailed(OverlapMessage(ageGroupId, previousAgeGroupId.value)));
      }
      previousAgeUpper := Some(ageUpper);
      previousAgeGroupId := Some(ageGroupId);
    }
    r := None;
  }

  /** Each row's interval lies at or below the next one's, up to any later row. */
  lemma {:induction false} BelowLater(t: seq<AgeGroupRow>, i: nat, j: nat)
    requires forall k :: 0 <= k < |t| ==> RowPasses(t, k)
    requires i < j < |t|
    ensures t[i].age_upper <= t[j].age_lower
    decreases j - i
  {
    assert RowPasses(t, j);
    if i + 1 < j {
      BelowLater(t, i, j - 1);
      assert RowPasses(t, j - 1);
    }
  }

  /** A table that passes the adjacent checks has pairwise non-overlapping age
      groups: every interval lies at or below every later one. */
  lemma NonOverlapping(t: seq<AgeGroupRow>)
    requires forall k :: 0 <= k < |t| ==> RowPasses(t, k)
    ensures forall i :: 0 <= i < |t| ==> t[i].age_lower <= t[i].age_upper
    ensures forall i, j :: 0 <= i < j < |t| ==> t[i].age_upper <= t[j].age_lower
  {
    forall i | 0 <= i < |t|
      ensures t[i].age_lower <= t[i].age_upper
    {
      assert RowPasses(t, i);
    }
    forall i, j | 0 <= i < j < |t|
      ensures t[i].age_upper <= t[j].age_lower
    {
      BelowLater(t, i, j);
    }
  }

  // ---------------------------------------------------------------------------
  // get_age_group_id_table

  /** The csv rows are given; reading the file is not part of this model. */
  function AgeGroupIdTable(rows: seq<CsvRow>, aggregate: set<int>, parseFloat: string -> Option<real>): Result<seq<AgeGroupRow>>
  {
    match Filtered(rows, aggregate, parseFloat)
    case Err(f) => Err(f)
    case Ok(t) =>
      var sorted := SortBy(t, AgeMid);
      match FirstFailure(sorted, 0)
      case Some(f) => Err(f)
      case None => Ok(sorted)
  }

  method GetAgeGroupIdTable(rows: seq<CsvRow>, aggregate: set<int>, parseFloat: string -> Option<real>)
    returns (r: Result<seq<AgeGroupRow>>)
    ensures r == AgeGroupIdTable(rows, aggregate, parseFloat)
  {
    var ageGroupIdTable := FilterAgeGroups(rows, aggregate, parseFloat);
    if ageGroupIdTable.Err? {
      return ageGroupIdTable;
    }
    var sorted := SortBy(ageGroupIdTable.value, AgeMid);
    var failure := CheckAgeGroups(sorted);
    if failure.Some? {
      return Err(failure.value);
    }
    r := Ok(sorted);
  }

  /** The table is returned exactly when every row converts and the sorted
      table passes every check. It is then the filtered rows stably sorted by
      midpoint, and its age groups do not overlap. */
  lemma AgeGroupIdTableSpec(rows: seq<CsvRow>, aggregate: set<int>, parseFloat: string -> Option<real>)
    ensures AgeGroupIdTable(rows, aggregate, parseFloat).Ok? <==>
      && Filtered(rows, aggregate, parseFloat).Ok?
      && var s := SortBy(Filtered(rows, aggregate, parseFloat).value, AgeMid);
         forall k :: 0 <= k < |s| ==> RowPasses(s, k)
    ensures AgeGroupIdTable(rows, aggregate, parseFloat).Ok? ==>
      var t := Filtered(rows, aggregate, parseFloat).value;
      var s := AgeGroupIdTable(rows, aggregate, parseFloat).value;
      && |s| == |t| == KeptCount(rows, aggregate)
      && multiset(s) == multiset(t)
      && SortedBy(s, AgeMid)
      && (forall k :: WithKey(s, AgeMid, k) == WithKey(t, AgeMid, k))
      && (forall i :: 0 <= i < |s| ==> s[i].age_lower <= s[i].age_upper)
      && forall i, j :: 0 <= i < j < |s| ==> s[i].age_upper <= s[j].age_lower
  {
    if Filtered(rows, aggregate, parseFloat).Ok? {
      FilteredKept(rows, aggregate, parseFloat);
      var t := Filtered(rows, aggregate, parseFloat).value;
      var s := SortBy(t, AgeMid);
      SortByIsStableSort(t, AgeMid);
      FirstFailureSpec(s, 0);
      if FirstFailure(s, 0).None? {
        NonOverlapping(s);
      }
    }
  }

  /** A row with its lower limit above its upper limit, or one whose lower limit
      is below the previous sorted row's upper limit, makes the routine fail. */
  lemma AgeGroupIdTableRefuses(rows: seq<CsvRow>, aggregate: set<int>, parseFloat: string -> Option<real>, k: nat)
    requires Filtered(rows, aggregate, parseFloat).Ok?
    requires var s := SortBy(Filtered(rows, aggregate, parseFloat).value, AgeMid);
      k < |s| && (s[k].age_lower > s[k].age_upper || (0 < k && s[k].age_lower < s[k - 1].age_upper))
    ensures AgeGroupIdTable(rows, aggregate, parseFloat).Err?
    ensures AgeGroupIdTable(rows, aggregate, parseFloat).error.AssertionFailed?
  {
    var t := Filtered(rows, aggregate, parseFloat).value;
    var s := SortBy(t, AgeMid);
    SortByIsStableSort(t, AgeMid);
    FirstFailureSpec(s, 0);
    assert !RowPasses(s, k);
  }
}
