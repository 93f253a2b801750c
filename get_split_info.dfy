/** `get_split_info`: the splitting covariate's description, parsed from the last
    `split_list` option row, and the index of the covariate's reference value in
    the list of split reference values. */
module SplitInfo {
  import opened Wrappers
  import opened Strings
  import opened AllOptions

  /** A row of the dismod_at covariate table, as far as the split is concerned. */
  datatype CovariateRow = CovariateRow(covariate_name: string, reference: real)

  datatype SplitInfo = SplitInfo(
    split_list: string,
    split_level: int,
    split_covariate_name: string,
    split_reference_list: seq<real>,
    split_reference_id: nat)

  /** What the routine gets from code that is not part of this model: Python's
      `float(s)` (None where it raises) and `table_name2id(covariate_table,
      'covariate', ·)` (None where it fails). */
  datatype Callees = Callees(parseFloat: string -> Option<real>, covariateName2Id: string -> Option<nat>)

  // ---------------------------------------------------------------------------
  // list.index

  /** `list.index(x)`: the first index holding x, None where Python raises. */
  function IndexOf(list: seq<real>, x: real): Option<nat>
    decreases |list|
  {
    if |list| == 0 then None
    else if list[0] == x then Some(0)
    else
      match IndexOf(list[1..], x)
      case None => None
      case Some(i) => Some(i + 1)
  }

  /** None exactly when x is not in the list; otherwise an index holding x with
      no earlier index holding it. */
  lemma {:induction false} IndexOfSpec(list: seq<real>, x: real)
    ensures IndexOf(list, x).None? <==> x !in list
    ensures IndexOf(list, x).Some? ==>
      var i := IndexOf(list, x).value;
      i < |list| && list[i] == x && forall j :: 0 <= j < i ==> list[j] != x
    decreases |list|
  {
    if |list| > 0 && list[0] != x {
      var tail := list[1..];
      IndexOfSpec(tail, x);
      assert list == [list[0]] + tail;
      assert forall j :: 1 <= j < |list| ==> list[j] == tail[j - 1];
    }
  }

  // ---------------------------------------------------------------------------
  // The float conversion loop

  /** `float(·)` applied to each token, or the first token it refuses. */
  function ParseFloats(tokens: seq<string>, parseFloat: string -> Option<real>): Result<seq<real>>
    decreases |tokens|
  {
    if |tokens| == 0 then Ok([])
    else
      match ParseFloats(tokens[..|tokens| - 1], parseFloat)
      case Err(f) => Err(f)
      case Ok(front) =>
        match parseFloat(tokens[|tokens| - 1])
        case None => Err(ConversionFailed(tokens[|tokens| - 1]))
        case Some(x) => Ok(front + [x])
  }

  /** The conversion succeeds exactly when every token converts, and then value k
      is token k converted; otherwise it reports the first token that does not. */
  lemma {:induction false} ParseFloatsSpec(tokens: seq<string>, parseFloat: string -> Option<real>)
    ensures ParseFloats(tokens, parseFloat).Ok? <==> forall k :: 0 <= k < |tokens| ==> parseFloat(tokens[k]).Some?
    ensures ParseFloats(tokens, parseFloat).Ok? ==>
      var values := ParseFloats(tokens, parseFloat).value;
      |values| == |tokens| && forall k :: 0 <= k < |tokens| ==> parseFloat(tokens[k]) == Some(values[k])
    ensures ParseFloats(tokens, parseFloat).Err? ==>
      exists k :: 0 <= k < |tokens| && parseFloat(tokens[k]).None?
        && ParseFloats(tokens, parseFloat).error == ConversionFailed(tokens[k])
        && forall j :: 0 <= j < k ==> parseFloat(tokens[j]).Some?
    decreases |tokens|
  {
    if |tokens| > 0 {
      var front := tokens[..|tokens| - 1];
      ParseFloatsSpec(front, parseFloat);
      assert forall k :: 0 <= k < |front| ==> front[k] == tokens[k];
      if ParseFloats(front, parseFloat).Err? {
        var k :| 0 <= k < |front| && parseFloat(front[k]).None?
          && ParseFloats(front, parseFloat).error == ConversionFailed(front[k])
          && forall j :: 0 <= j < k ==> parseFloat(front[j]).Some?;
        assert tokens[k] == front[k];
      }
    }
  }

  /** Once a prefix of the tokens fails to convert, so do all the tokens, with
      the same error. */
  lemma {:induction false} ParseFloatsStops(tokens: seq<string>, n: nat, parseFloat: string -> Option<real>)
    requires n <= |tokens| && ParseFloats(tokens[..n], parseFloat).Err?
    ensures ParseFloats(tokens, parseFloat) == ParseFloats(tokens[..n], parseFloat)
    decreases |tokens| - n
  {
    if n < |tokens| {
      assert tokens[..n + 1][..n] == tokens[..n];
      ParseFloatsStops(tokens, n + 1, parseFloat);
    } else {
      assert tokens[..n] == tokens;
    }
  }

  /** The loop that replaces each reference token by its value. The source
      rewrites the list in place; here the values go to a list of their own,
      since their type differs from the tokens'. */
  method ConvertReferences(tokens: seq<string>, parseFloat: string -> Option<real>) returns (r: Result<seq<real>>)
    ensures r == ParseFloats(tokens, parseFloat)
  {
    var values: seq<real> := [];
    for k := 0 to |tokens|
      invariant ParseFloats(tokens[..k], parseFloat) == Ok(values)
    {
      assert tokens[..k + 1][..k] == tokens[..k];
      var x := parseFloat(tokens[k]);
      if x.None? {
        ParseFloatsStops(tokens, k + 1, parseFloat);
        return Err(ConversionFailed(tokens[k]));
      }
      values := values + [x.value];
    }
    assert tokens[..|tokens|] == tokens;
    r := Ok(values);
  }

  // ---------------------------------------------------------------------------
  // get_split_info

  /** The parse of a `split_list` option value, then the reference lookup. */
  function ParseSplitList(splitList: string, covariateTable: seq<CovariateRow>, callees: Callees): Result<SplitInfo>
  {
    var tempList := Tokens(splitList);
    if |tempList| == 0 then Err(IndexOutOfRange(0))
    else
      match ParseInt(tempList[0])
      case None => Err(ConversionFailed(tempList[0]))
      case Some(splitLevel) =>
        if |tempList| == 1 then Err(IndexOutOfRange(1))
        else
          var splitCovariateName := tempList[1];
          match ParseFloats(tempList[2..], callees.parseFloat)
          case Err(f) => Err(f)
          case Ok(splitReferenceList) =>
            match callees.covariateName2Id(splitCovariateName)
            case None => Err(KeyMissing(splitCovariateName))
            case Some(splitCovariateId) =>
              if |covariateTable| <= splitCovariateId then Err(IndexOutOfRange(splitCovariateId))
              else
                var splitReference := covariateTable[splitCovariateId].reference;
                match IndexOf(splitReferenceList, splitReference)
                case None => Err(AssertionFailed("split_reference in split_reference_list"))
                case Some(splitReferenceId) =>
                  Ok(SplitInfo(splitList, splitLevel, splitCovariateName, splitReferenceList, splitReferenceId))
  }

  /** `get_split_info`: Ok(None) without a `split_list` option row. */
  function GetSplitInfo(allOption: seq<OptionRow>, covariateTable: seq<CovariateRow>, callees: Callees): Result<Option<SplitInfo>>
  {
    match LastValue(allOption, "split_list")
    case None => Ok(None)
    case Some(splitList) =>
      match ParseSplitList(splitList, covariateTable, callees)
      case Err(f) => Err(f)
      case Ok(info) => Ok(Some(info))
  }

  /** The routine, with its option loop and its conversion loop. */
  method GetSplitInfoRun(allOption: seq<OptionRow>, covariateTable: seq<CovariateRow>, callees: Callees)
    returns (r: Result<Option<SplitInfo>>)
    ensures r == GetSplitInfo(allOption, covariateTable, callees)
  {
    var splitList := LastOptionValue(allOption, "split_list");
    if splitList.None? {
      return Ok(None);
    }
    var tempList := Tokens(splitList.value);
    if |tempList| == 0 {
      return Err(IndexOutOfRange(0));
    }
    var splitLevel := ParseInt(tempList[0]);
    if splitLevel.None? {
      return Err(ConversionFailed(tempList[0]));
    }
    if |tempList| == 1 {
      return Err(IndexOutOfRange(1));
    }
    var splitCovariateName := tempList[1];
    var splitReferenceList := ConvertReferences(tempList[2..], callees.parseFloat);
    if splitReferenceList.Err? {
      return Err(splitReferenceList.error);
    }
    var splitCovariateId := callees.covariateName2Id(splitCovariateName);
    if splitCovariateId.None? {
      return Err(KeyMissing(splitCovariateName));
    }
    if |covariateTable| <= splitCovariateId.value {
      return Err(IndexOutOfRange(splitCovariateId.value));
    }
    var splitReference := covariateTable[splitCovariateId.value].reference;
    var splitReferenceId := IndexOf(splitReferenceList.value, splitReference);
    if splitReferenceId.None? {
      return Err(AssertionFailed("split_reference in split_reference_list"));
    }
    r := Ok(Some(SplitInfo(splitList.value, splitLevel.value, splitCovariateName, splitReferenceList.value, splitReferenceId.value)));
  }

  /** The result is None exactly when no option row is called `split_list`. */
  lemma GetSplitInfoNone(allOption: seq<OptionRow>, covariateTable: seq<CovariateRow>, callees: Callees)
    ensures GetSplitInfo(allOption, covariateTable, callees) == Ok(None) <==>
      forall i :: 0 <= i < |allOption| ==> allOption[i].option_name != "split_list"
  {
    LastValueSpec(allOption, "split_list");
  }

  /** A successful parse: the split list is the value of the last `split_list`
      row, unchanged; its first token is the level as an integer, its second the
      covariate name and the rest the reference values in order; and the
      reference id is the first index whose value equals the covariate's
      reference in the covariate table. */
  lemma GetSplitInfoParsed(allOption: seq<OptionRow>, covariateTable: seq<CovariateRow>, callees: Callees)
    requires GetSplitInfo(allOption, covariateTable, callees).Ok?
    requires GetSplitInfo(allOption, covariateTable, callees).value.Some?
    ensures var info := GetSplitInfo(allOption, covariateTable, callees).value.value;
      var tokens := Tokens(info.split_list);
      && (exists i :: 0 <= i < |allOption| && allOption[i].option_name == "split_list"
            && allOption[i].option_value == info.split_list
            && forall j :: i < j < |allOption| ==> allOption[j].option_name != "split_list")
      && |tokens| >= 2
      && ParseInt(tokens[0]) == Some(info.split_level)
      && info.split_covariate_name == tokens[1]
      && |info.split_reference_list| == |tokens| - 2
      && (forall k :: 0 <= k < |info.split_reference_list| ==>
            callees.parseFloat(tokens[k + 2]) == Some(info.split_reference_list[k]))
      && callees.covariateName2Id(info.split_covariate_name).Some?
      && var id := callees.covariateName2Id(info.split_covariate_name).value;
      && id < |covariateTable|
      && info.split_reference_id < |info.split_reference_list|
      && info.split_reference_list[info.split_reference_id] == covariateTable[id].reference
      && forall j :: 0 <= j < info.split_reference_id ==> info.split_reference_list[j] != covariateTable[id].reference
  {
    LastValueSpec(allOption, "split_list");
    var splitList := LastValue(allOption, "split_list").value;
    var tokens := Tokens(splitList);
    var rest := tokens[2..];
    ParseFloatsSpec(rest, callees.parseFloat);
    var values := ParseFloats(rest, callees.parseFloat).value;
    var id := callees.covariateName2Id(tokens[1]).value;
    IndexOfSpec(values, covariateTable[id].reference);
    forall k | 0 <= k < |values| ensures callees.parseFloat(tokens[k + 2]) == Some(values[k]) {
      assert rest[k] == tokens[k + 2];
    }
  }

  /** A reference value missing from the list fails the assertion. */
  lemma GetSplitInfoMissingReference(allOption: seq<OptionRow>, covariateTable: seq<CovariateRow>, callees: Callees)
    requires LastValue(allOption, "split_list").Some?
    requires var tokens := Tokens(LastValue(allOption, "split_list").value);
      && |tokens| >= 2 && ParseInt(tokens[0]).Some?
      && ParseFloats(tokens[2..], callees.parseFloat).Ok?
      && callees.covariateName2Id(tokens[1]).Some?
      && callees.covariateName2Id(tokens[1]).value < |covariateTable|
      && covariateTable[callees.covariateName2Id(tokens[1]).value].reference !in ParseFloats(tokens[2..], callees.parseFloat).value
    ensures GetSplitInfo(allOption, covariateTable, callees) == Err(AssertionFailed("split_reference in split_reference_list"))
  {
    var tokens := Tokens(LastValue(allOption, "split_list").value);
    var values := ParseFloats(tokens[2..], callees.parseFloat).value;
    IndexOfSpec(values, covariateTable[callees.covariateName2Id(tokens[1]).value].reference);
  }

  /** Digits and a minus sign are not whitespace. */
  lemma IntTextNoSpace(i: int)
    ensures |IntToString(i)| > 0 && NoSpace(IntToString(i))
  {
    var d := NatToString(if i < 0 then -i else i);
    assert forall k :: 0 <= k < |d| ==> IsDigit(d[k]);
    assert !IsSpace('-');
    if i < 0 {
      assert IntToString(i) == "-" + d;
      forall k | 0 <= k < |"-" + d| ensures !IsSpace(("-" + d)[k]) {
        if k > 0 {
          assert ("-" + d)[k] == d[k - 1];
        }
      }
    }
  }

  /** Writing a split list the way `split_list` is documented, level, covariate
      name and reference texts separated by blanks, and parsing it again gives
      back the level, the name and the reference texts. */
  lemma SplitListRoundTrip(splitLevel: int, covariateName: string, referenceTexts: seq<string>)
    requires |covariateName| > 0 && NoSpace(covariateName)
    requires forall k :: 0 <= k < |referenceTexts| ==> |referenceTexts[k]| > 0 && NoSpace(referenceTexts[k])
    ensures var tokens := Tokens(Join([IntToString(splitLevel), covariateName] + referenceTexts, ' '));
      && |tokens| == |referenceTexts| + 2
      && ParseInt(tokens[0]) == Some(splitLevel)
      && tokens[1] == covariateName
      && tokens[2..] == referenceTexts
  {
    var words := [IntToString(splitLevel), covariateName] + referenceTexts;
    IntTextNoSpace(splitLevel);
    forall k | 0 <= k < |words| ensures |words[k]| > 0 && NoSpace(words[k]) {
      if k >= 2 {
        assert words[k] == referenceTexts[k - 2];
      }
    }
    TokensOfJoin(words);
    ParseIntToString(splitLevel);
    assert words[2..] == referenceTexts;
  }
}
