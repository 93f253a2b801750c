/** The all_option table: option name/value rows in which, when a name occurs more
    than once, the last row is the one that counts. */
module AllOptions {
  import opened Wrappers

  datatype OptionRow = OptionRow(option_name: string, option_value: string)

  /** The value of the last row called `name`, or None when there is none. */
  function LastValue(rows: seq<OptionRow>, name: string): Option<string>
    decreases |rows|
  {
    if |rows| == 0 then None
    else if rows[|rows| - 1].option_name == name then Some(rows[|rows| - 1].option_value)
    else LastValue(rows[..|rows| - 1], name)
  }

  /** LastValue is None exactly when no row has the name; otherwise it is the
      value of a row with that name after which no row has that name. */
  lemma {:induction false} LastValueSpec(rows: seq<OptionRow>, name: string)
    ensures LastValue(rows, name).None? <==> forall i :: 0 <= i < |rows| ==> rows[i].option_name != name
    ensures LastValue(rows, name).Some? ==>
      exists i :: 0 <= i < |rows| && rows[i].option_name == name
        && rows[i].option_value == LastValue(rows, name).value
        && forall j :: i < j < |rows| ==> rows[j].option_name != name
    decreases |rows|
  {
    if |rows| > 0 {
      var n := |rows| - 1;
      var front := rows[..n];
      LastValueSpec(front, name);
      assert forall i :: 0 <= i < n ==> front[i] == rows[i];
      if rows[n].option_name != name && LastValue(front, name).Some? {
        var i :| 0 <= i < n && front[i].option_name == name
          && front[i].option_value == LastValue(front, name).value
          && forall j :: i < j < n ==> front[j].option_name != name;
        assert rows[i] == front[i];
      }
    }
  }

  /** The loop that scans the option rows and keeps overwriting the value each
      time the name matches. */
  method LastOptionValue(rows: seq<OptionRow>, name: string) returns (value: Option<string>)
    ensures value == LastValue(rows, name)
    ensures value.None? <==> forall i :: 0 <= i < |rows| ==> rows[i].option_name != name
    ensures value.Some? ==>
      exists i :: 0 <= i < |rows| && rows[i].option_name == name && rows[i].option_value == value.value
        && forall j :: i < j < |rows| ==> rows[j].option_name != name
  {
    value := None;
    for i := 0 to |rows|
      invariant value == LastValue(rows[..i], name)
    {
      assert rows[..i + 1][..i] == rows[..i];
      if rows[i].option_name == name {
        value := Some(rows[i].option_value);
      }
    }
    assert rows[..|rows|] == rows;
    LastValueSpec(rows, name);
  }
}
