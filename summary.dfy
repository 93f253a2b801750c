/** The summary step of the IHME driver: one text file per message type (the
    errors and the warnings found in the cascade's logs), the list of the
    predict.csv files the cascade's jobs left behind, and their concatenation
    into one summary predict.csv. `check_log`, `get_parent_node`,
    `table_name2id`, `get_cov_info`, `create_job_table`, `get_database_dir`,
    the file system and csv reading are not part of this model; they appear as
    values and function parameters. */
module Summary {
  import opened Wrappers
  import opened Database
  import opened Dicts
  import opened Strings
  import opened Jobs

  // ---------------------------------------------------------------------------
  // write_message_type_file

  /** Each line of `lines` followed by a newline, as a sequence of
      `write(f'{line}\n')` calls leaves them in a file. */
  function Terminated(lines: seq<string>): string
    decreases |lines|
  {
    if |lines| == 0 then "" else Terminated(lines[..|lines| - 1]) + lines[|lines| - 1] + "\n"
  }

  /** The lines the loop writes for the i-th key: an empty line unless it is the
      first key, the key, then one line per message. */
  function GroupLines(d: Dict<string, seq<string>>, i: nat): seq<string>
    requires i < |d|
  {
    (if i == 0 then [] else [""]) + [d[i].0] + d[i].1
  }

  /** The lines written for the first n keys. */
  function MessageLines(d: Dict<string, seq<string>>, n: nat): seq<string>
    requires n <= |d|
    decreases n
  {
    if n == 0 then [] else MessageLines(d, n - 1) + GroupLines(d, n - 1)
  }

  /** The contents of a message file. */
  function MessageText(d: Dict<string, seq<string>>): string
  {
    Terminated(MessageLines(d, |d|))
  }

  /** The line on which the i-th key is written. */
  function KeyLine(d: Dict<string, seq<string>>, i: nat): nat
    requires i < |d|
  {
    if i == 0 then 0 else |MessageLines(d, i)| + 1
  }

  /** `f'{result_dir}/summary/{message_type}'`. */
  function MessageFileName(resultDir: string, messageType: string): string
  {
    resultDir + "/summary/" + messageType
  }

  lemma TerminatedSnoc(lines: seq<string>, line: string)
    ensures Terminated(lines + [line]) == Terminated(lines) + line + "\n"
  {
    assert (lines + [line])[..|lines|] == lines;
  }

  lemma {:induction false} TerminatedConcat(xs: seq<string>, ys: seq<string>)
    ensures Terminated(xs + ys) == Terminated(xs) + Terminated(ys)
    decreases |ys|
  {
    if |ys| > 0 {
      var front, last := ys[..|ys| - 1], ys[|ys| - 1];
      assert ys == front + [last];
      assert xs + ys == (xs + front) + [last];
      TerminatedConcat(xs, front);
      TerminatedSnoc(xs + front, last);
      TerminatedSnoc(front, last);
    } else {
      assert xs + ys == xs;
    }
  }

  /** A terminated list of lines is the lines joined by newlines, plus a final
      newline. */
  lemma {:induction false} TerminatedJoin(lines: seq<string>)
    requires |lines| > 0
    ensures Terminated(lines) == Join(lines, '\n') + "\n"
    decreases |lines|
  {
    var front, last := lines[..|lines| - 1], lines[|lines| - 1];
    assert Terminated(lines) == Terminated(front) + last + "\n";
    if |front| > 0 {
      TerminatedJoin(front);
      assert lines == front + [last];
      JoinConcat(front, [last], '\n');
      var j := Join(front, '\n');
      calc {
        Terminated(lines);
        (j + "\n") + last + "\n";
        (j + ['\n'] + Join([last], '\n')) + "\n";
        Join(lines, '\n') + "\n";
      }
    }
  }

  /** The inner loop of `write_message_type_file`: one line per message. */
  method WriteMessages(text: string, messages: seq<string>) returns (after: string)
    ensures after == text + Terminated(messages)
  {
    after := text;
    for j := 0 to |messages|
      invariant after == text + Terminated(messages[..j])
    {
      TerminatedSnoc(messages[..j], messages[j]);
      assert messages[..j + 1] == messages[..j] + [messages[j]];
      after := after + messages[j] + "\n";
    }
    assert messages[..|messages|] == messages;
  }

  /** The loop of `write_message_type_file`: the file text for a message
      dictionary, written key by key. */
  method WriteMessageTypeFile(resultDir: string, messageType: string, messageDict: Dict<string, seq<string>>)
    returns (fileName: string, text: string)
    ensures fileName == MessageFileName(resultDir, messageType)
    ensures text == MessageText(messageDict)
  {
    fileName := resultDir + "/summary/" + messageType;
    text := "";
    var firstKey := true;
    for i := 0 to |messageDict|
      invariant firstKey <==> i == 0
      invariant text == Terminated(MessageLines(messageDict, i))
    {
      GroupText(messageDict, i);
      if !firstKey {
        text := text + "\n";
      }
      firstKey := false;
      text := text + messageDict[i].0 + "\n";
      text := WriteMessages(text, messageDict[i].1);
    }
  }

  /** The text written for one more key. */
  lemma GroupText(d: Dict<string, seq<string>>, i: nat)
    requires i < |d|
    ensures Terminated(MessageLines(d, i + 1))
            == Terminated(MessageLines(d, i)) + (if i == 0 then "" else "\n") + d[i].0 + "\n" + Terminated(d[i].1)
  {
    var lead: seq<string> := if i == 0 then [] else [""];
    assert MessageLines(d, i + 1) == MessageLines(d, i) + GroupLines(d, i);
    TerminatedConcat(MessageLines(d, i), GroupLines(d, i));
    TerminatedConcat(lead + [d[i].0], d[i].1);
    TerminatedSnoc(lead, d[i].0);
    if i > 0 {
      TerminatedSnoc([], "");
    }
  }

  /** An empty message dictionary gives an empty file. */
  lemma EmptyMessageFile(d: Dict<string, seq<string>>)
    requires |d| == 0
    ensures MessageText(d) == ""
  {
  }

  /** The lines written for the i-th key follow those of the keys before it. */
  lemma LinesLength(d: Dict<string, seq<string>>, i: nat)
    requires i < |d|
    ensures |MessageLines(d, i + 1)| == KeyLine(d, i) + 1 + |d[i].1|
  {
    assert MessageLines(d, i + 1) == MessageLines(d, i) + GroupLines(d, i);
  }

  /** Where the i-th key lands among the lines of the first i + 1 keys, with
      the empty line before it. */
  lemma GroupPlaced(d: Dict<string, seq<string>>, i: nat)
    requires i < |d|
    ensures
      var lines, at := MessageLines(d, i + 1), KeyLine(d, i);
      && at + 1 + |d[i].1| == |lines|
      && lines[at] == d[i].0
      && (i > 0 ==> lines[at - 1] == "")
  {
    var front, group := MessageLines(d, i), GroupLines(d, i);
    var lines, at := front + group, KeyLine(d, i);
    assert MessageLines(d, i + 1) == lines;
    assert at == |front| + (if i == 0 then 0 else 1);
    if i > 0 {
      assert lines[at - 1] == group[0];
    }
    assert lines[at] == group[at - |front|];
  }

  /** Where the k-th message of the i-th key lands. */
  lemma MessagePlaced(d: Dict<string, seq<string>>, i: nat, k: nat)
    requires i < |d| && k < |d[i].1|
    ensures KeyLine(d, i) + 1 + k < |MessageLines(d, i + 1)|
    ensures MessageLines(d, i + 1)[KeyLine(d, i) + 1 + k] == d[i].1[k]
  {
    var front, group := MessageLines(d, i), GroupLines(d, i);
    var p := KeyLine(d, i) + 1 + k;
    assert MessageLines(d, i + 1) == front + group;
    assert p - |front| == (if i == 0 then 0 else 1) + 1 + k;
    assert (front + group)[p] == group[p - |front|];
  }

  /** Later keys only add lines after the ones already written. */
  lemma {:induction false} LinesKept(d: Dict<string, seq<string>>, n: nat, m: nat, p: nat)
    requires n <= m <= |d| && p < |MessageLines(d, n)|
    ensures p < |MessageLines(d, m)| && MessageLines(d, m)[p] == MessageLines(d, n)[p]
    decreases m - n
  {
    if n < m {
      LinesKept(d, n, m - 1, p);
      assert MessageLines(d, m) == MessageLines(d, m - 1) + GroupLines(d, m - 1);
    }
  }

  /** Groups follow each other with exactly one line between them: the first
      key is on the first line, the line before every other key is empty, the
      i-th key's messages (placed by `MessageLineAt`) fill the lines up to the
      empty line before the next key, and the file ends with the last key's
      messages. */
  lemma MessageLayout(d: Dict<string, seq<string>>, n: nat, i: nat)
    requires i < n <= |d|
    ensures
      var lines, at := MessageLines(d, n), KeyLine(d, i);
      && at + 1 + |d[i].1| <= |lines|
      && lines[at] == d[i].0
      && (i > 0 ==> lines[at - 1] == "")
      && (i + 1 < |d| ==> KeyLine(d, i + 1) == at + 1 + |d[i].1| + 1)
      && (i + 1 == n ==> |lines| == at + 1 + |d[i].1|)
  {
    var at := KeyLine(d, i);
    GroupPlaced(d, i);
    LinesKept(d, i + 1, n, at);
    LinesKept(d, i + 1, n, at + |d[i].1|);
    if i > 0 {
      LinesKept(d, i + 1, n, at - 1);
    }
  }

  /** The k-th message of the i-th key is on the k-th line after the key. */
  lemma MessageLineAt(d: Dict<string, seq<string>>, n: nat, i: nat, k: nat)
    requires i < n <= |d| && k < |d[i].1|
    ensures KeyLine(d, i) + 1 + k < |MessageLines(d, n)|
    ensures MessageLines(d, n)[KeyLine(d, i) + 1 + k] == d[i].1[k]
  {
    MessagePlaced(d, i, k);
    LinesKept(d, i + 1, n, KeyLine(d, i) + 1 + k);
  }

  /** No line of a message file holds a newline when no key or message does. */
  lemma {:induction false} LinesWithoutNewline(d: Dict<string, seq<string>>, n: nat)
    requires n <= |d|
    requires forall i :: 0 <= i < |d| ==> '\n' !in d[i].0 && forall k :: 0 <= k < |d[i].1| ==> '\n' !in d[i].1[k]
    ensures forall p :: 0 <= p < |MessageLines(d, n)| ==> '\n' !in MessageLines(d, n)[p]
    decreases n
  {
    if n > 0 {
      LinesWithoutNewline(d, n - 1);
      var front, group := MessageLines(d, n - 1), GroupLines(d, n - 1);
      assert MessageLines(d, n) == front + group;
      forall p | 0 <= p < |front + group|
        ensures '\n' !in (front + group)[p]
      {
        if p >= |front| {
          var q := p - |front|;
          assert (front + group)[p] == group[q];
          var lead := if n - 1 == 0 then 0 else 1;
          if q > lead {
            assert group[q] == d[n - 1].1[q - lead - 1];
          }
        }
      }
    }
  }

  /** Read back line by line, a message file gives exactly the lines above
      (the last piece after the final newline is empty), provided no key or
      message contains a newline. */
  lemma MessageFileLines(d: Dict<string, seq<string>>)
    requires |d| > 0
    requires forall i :: 0 <= i < |d| ==> '\n' !in d[i].0 && forall k :: 0 <= k < |d[i].1| ==> '\n' !in d[i].1[k]
    ensures Split(MessageText(d), '\n') == MessageLines(d, |d|) + [""]
  {
    var lines := MessageLines(d, |d|);
    MessageLayout(d, |d|, 0);
    TerminatedJoin(lines);
    LinesWithoutNewline(d, |d|);
    SplitJoin(lines, '\n');
    assert Join(lines, '\n') + "\n" == Join(lines, '\n') + ['\n'] + "";
    SplitConcat(Join(lines, '\n'), "", '\n');
  }

  // ---------------------------------------------------------------------------
  // predict_csv_file_list

  /** What every `get_database_dir` call of the summary has in common, and the
      directory the results are under. */
  datatype DirContext = DirContext(
    resultDir: string,
    nodeSplitSet: set<nat>,
    rootNodeId: nat,
    rootSplitReferenceId: Value,
    databaseDir: DirQuery -> string)

  /** `f'{result_dir}/{database_dir}/predict.csv'` for a job. */
  function JobPredictFile(c: DirContext, job: JobRow): string
  {
    var dir := c.databaseDir(DirQuery(c.nodeSplitSet, c.rootNodeId, c.rootSplitReferenceId,
                                      job.fit_node_id, job.split_reference_id));
    c.resultDir + "/" + dir + "/predict.csv"
  }

  /** The predict files of the jobs that exist, in job order. */
  function ExistingPredictFiles(c: DirContext, jobs: seq<JobRow>, fileExists: string -> bool): seq<string>
    decreases |jobs|
  {
    if |jobs| == 0 then []
    else
      var front := ExistingPredictFiles(c, jobs[..|jobs| - 1], fileExists);
      var file := JobPredictFile(c, jobs[|jobs| - 1]);
      if fileExists(file) then front + [file] else front
  }

  /** The job ids whose predict file exists, in increasing order. */
  ghost function ExistingJobIds(c: DirContext, jobs: seq<JobRow>, fileExists: string -> bool): seq<nat>
    decreases |jobs|
  {
    if |jobs| == 0 then []
    else
      var front := ExistingJobIds(c, jobs[..|jobs| - 1], fileExists);
      if fileExists(JobPredictFile(c, jobs[|jobs| - 1])) then front + [|jobs| - 1] else front
  }

  /** The list holds one file per job whose predict file exists and nothing
      else: its k-th entry is the predict file of the k-th such job, the jobs
      are in increasing job id order, and a job is among them exactly when its
      file exists. */
  lemma {:induction false} ExistingPredictFilesSpec(c: DirContext, jobs: seq<JobRow>, fileExists: string -> bool)
    ensures
      var files, ids := ExistingPredictFiles(c, jobs, fileExists), ExistingJobIds(c, jobs, fileExists);
      && |files| == |ids|
      && (forall k :: 0 <= k < |ids| ==>
            ids[k] < |jobs| && files[k] == JobPredictFile(c, jobs[ids[k]]) && fileExists(files[k]))
      && (forall k :: 0 < k < |ids| ==> ids[k - 1] < ids[k])
      && (forall j :: 0 <= j < |jobs| ==> (j in ids <==> fileExists(JobPredictFile(c, jobs[j]))))
    decreases |jobs|
  {
    if |jobs| > 0 {
      var front := jobs[..|jobs| - 1];
      ExistingPredictFilesSpec(c, front, fileExists);
      assert forall j :: 0 <= j < |front| ==> front[j] == jobs[j];
    }
  }

  /** The loop that builds `predict_csv_file_list`. */
  method PredictCsvFileList(c: DirContext, jobTable: seq<JobRow>, fileExists: string -> bool)
    returns (files: seq<string>)
    ensures files == ExistingPredictFiles(c, jobTable, fileExists)
  {
    files := [];
    for jobId := 0 to |jobTable|
      invariant files == ExistingPredictFiles(c, jobTable[..jobId], fileExists)
    {
      var jobRow := jobTable[jobId];
      var query := DirQuery(c.nodeSplitSet, c.rootNodeId, c.rootSplitReferenceId,
                            jobRow.fit_node_id, jobRow.split_reference_id);
      var databaseDir := c.databaseDir(query);
      var fileIn := c.resultDir + "/" + databaseDir + "/predict.csv";
      assert jobTable[..jobId + 1][..jobId] == jobTable[..jobId];
      if fileExists(fileIn) {
        files := files + [fileIn];
      }
    }
    assert jobTable[..|jobTable|] == jobTable;
  }

  // ---------------------------------------------------------------------------
  // The merged predict.csv

  /** A row as `csv.DictReader` gives it: field name to text, in the order of
      the file's header line. */
  type CsvRow = Dict<string, string>

  /** The summary predict.csv: empty when no row was read, otherwise the header
      line and one record per row written. */
  datatype CsvFile = EmptyFile | CsvTable(header: seq<string>, records: seq<seq<string>>)

  const FieldsNotInHeader := "dict contains fields not in fieldnames"

  /** The text of a field for `DictWriter.writerow`: the row's value, or the
      empty string when the row has no such field. */
  function FieldText(row: CsvRow, field: string): (t: string)
    ensures field in Keys(row) ==> Some(t) == Get(row, field)
    ensures field !in Keys(row) ==> t == ""
  {
    match Get(row, field)
    case Some(v) => v
    case None => ""
  }

  /** The record `writerow` writes for a row: one field per header entry. */
  function Record(row: CsvRow, header: seq<string>): (r: seq<string>)
    ensures |r| == |header|
    ensures forall k :: 0 <= k < |header| ==> r[k] == FieldText(row, header[k])
  {
    if |header| == 0 then [] else [FieldText(row, header[0])] + Record(row, header[1..])
  }

  /** `writerow` refuses a row with a field the header does not have. */
  predicate FitsHeader(row: CsvRow, header: seq<string>)
  {
    forall k :: 0 <= k < |row| ==> row[k].0 in header
  }

  /** One pass of the inner loop: the first row also fixes the header. */
  function WriteRow(out: CsvFile, row: CsvRow): Result<CsvFile>
  {
    var header := if out.EmptyFile? then Keys(row) else out.header;
    var records := if out.EmptyFile? then [] else out.records;
    if FitsHeader(row, header) then Ok(CsvTable(header, records + [Record(row, header)]))
    else Err(ValueFailed(FieldsNotInHeader))
  }

  /** The summary file after writing the given rows, one after the other. */
  function Merged(rows: seq<CsvRow>): Result<CsvFile>
    decreases |rows|
  {
    if |rows| == 0 then Ok(EmptyFile)
    else
      match Merged(rows[..|rows| - 1])
      case Err(e) => Err(e)
      case Ok(out) => WriteRow(out, rows[|rows| - 1])
  }

  /** All rows of the given files, file by file and, within a file, in order. */
  function AllRows(files: seq<string>, readCsv: string -> seq<CsvRow>): seq<CsvRow>
    decreases |files|
  {
    if |files| == 0 then [] else AllRows(files[..|files| - 1], readCsv) + readCsv(files[|files| - 1])
  }

  /** With no row the summary file stays empty: no header is written. */
  lemma MergedNothing(rows: seq<CsvRow>)
    ensures Merged(rows) == Ok(EmptyFile) <==> |rows| == 0
  {
    if |rows| > 0 {
      match Merged(rows[..|rows| - 1])
      case Err(e) =>
      case Ok(out) =>
    }
  }

  /** Writing one more row is one more pass of the inner loop. */
  lemma MergedSnoc(rows: seq<CsvRow>, row: CsvRow)
    ensures Merged(rows + [row]) == match Merged(rows)
                                  case Err(e) => Err(e)
                                  case Ok(out) => WriteRow(out, row)
  {
    assert (rows + [row])[..|rows|] == rows;
  }

  /** Every row has only fields of the given header. */
  predicate AllFit(rows: seq<CsvRow>, header: seq<string>)
  {
    forall i :: 0 <= i < |rows| ==> FitsHeader(rows[i], header)
  }

  /** With rows, the header is the first row's field names, written once; the
      file then holds one record per row in order, each listing the row's
      values under that header; and it fails, with `ValueError`, exactly when
      some row has a field the first row does not have. */
  lemma {:induction false} MergedSpec(rows: seq<CsvRow>)
    requires |rows| > 0
    ensures Merged(rows).Ok? <==> AllFit(rows, Keys(rows[0]))
    ensures Merged(rows).Err? ==> Merged(rows).error == ValueFailed(FieldsNotInHeader)
    ensures Merged(rows).Ok? ==>
      && Merged(rows).value.CsvTable?
      && Merged(rows).value.header == Keys(rows[0])
      && |Merged(rows).value.records| == |rows|
      && forall i :: 0 <= i < |rows| ==> Merged(rows).value.records[i] == Record(rows[i], Keys(rows[0]))
    decreases |rows|
  {
    var front, last := rows[..|rows| - 1], rows[|rows| - 1];
    var header := Keys(rows[0]);
    assert rows == front + [last];
    MergedSnoc(front, last);
    if |front| == 0 {
      assert rows == [last];
      assert FitsHeader(last, Keys(last));
    } else {
      MergedSpec(front);
      assert front[0] == rows[0];
      match Merged(front)
      case Err(e) =>
        var i :| 0 <= i < |front| && !FitsHeader(front[i], header);
        assert rows[i] == front[i];
      case Ok(out) =>
        if FitsHeader(last, header) {
          forall i | 0 <= i < |rows|
            ensures FitsHeader(rows[i], header)
          {
            if i < |front| { assert rows[i] == front[i]; }
          }
          var records := out.records + [Record(last, header)];
          assert Merged(rows) == Ok(CsvTable(header, records));
          forall i | 0 <= i < |rows|
            ensures records[i] == Record(rows[i], header)
          {
            if i < |front| { assert rows[i] == front[i]; }
          }
        } else {
          assert !FitsHeader(rows[|rows| - 1], header);
        }
    }
  }

  /** When every row has the first row's fields, in its order, each value lands
      in its own column. */
  lemma MergedSameFields(rows: seq<CsvRow>, i: nat, k: nat)
    requires 0 <= i < |rows| && |rows| > 0
    requires forall j :: 0 <= j < |rows| ==> Keys(rows[j]) == Keys(rows[0]) && DistinctKeys(rows[j])
    requires k < |rows[0]|
    ensures
      var m := Merged(rows);
      && m.Ok? && m.value.CsvTable? && |m.value.records| == |rows|
      && m.value.records[i] == Record(rows[i], Keys(rows[0]))
      && m.value.records[i][k] == rows[i][k].1
  {
    forall j | 0 <= j < |rows|
      ensures FitsHeader(rows[j], Keys(rows[0]))
    {
      assert forall m :: 0 <= m < |rows[j]| ==> rows[j][m].0 == Keys(rows[j])[m];
    }
    MergedSpec(rows);
    RowGetAt(rows[i], k);
  }

  /** In a row without repeated fields, the k-th field's value is found by its
      name. */
  lemma {:induction false} RowGetAt(row: CsvRow, k: nat)
    requires DistinctKeys(row) && k < |row|
    ensures Get(row, row[k].0) == Some(row[k].1)
    decreases k
  {
    if k > 0 {
      assert row[0].0 != row[k].0;
      assert DistinctKeys(row[1..]) by {
        forall a, b | 0 <= a < b < |row[1..]| ensures row[1..][a].0 != row[1..][b].0 {
          assert row[1..][a] == row[a + 1] && row[1..][b] == row[b + 1];
        }
      }
      RowGetAt(row[1..], k - 1);
    }
  }

  /** A refused row ends the file: nothing written after it changes the
      failure. */
  lemma {:induction false} MergedStops(rows: seq<CsvRow>, n: nat)
    requires n <= |rows| && Merged(rows[..n]).Err?
    ensures Merged(rows) == Merged(rows[..n])
    decreases |rows| - n
  {
    if n < |rows| {
      assert rows[..n + 1][..n] == rows[..n];
      MergedStops(rows, n + 1);
    } else {
      assert rows[..n] == rows;
    }
  }

  /** Cutting the second half of a concatenation. */
  lemma ConcatAt<T>(xs: seq<T>, ys: seq<T>, n: nat)
    requires n <= |ys|
    ensures xs + ys == (xs + ys[..n]) + ys[n..]
  {
    assert ys == ys[..n] + ys[n..];
  }

  /** One more element of the second half of a concatenation. */
  lemma SnocAt<T>(xs: seq<T>, ys: seq<T>, j: nat)
    requires j < |ys|
    ensures xs + ys[..j + 1] == (xs + ys[..j]) + [ys[j]]
  {
    assert ys[..j + 1] == ys[..j] + [ys[j]];
  }

  /** The same, for a refused prefix followed by more rows. */
  lemma MergedStopsAt(rows: seq<CsvRow>, more: seq<CsvRow>)
    requires Merged(rows).Err?
    ensures Merged(rows + more) == Merged(rows)
  {
    assert (rows + more)[..|rows|] == rows;
    MergedStops(rows + more, |rows|);
  }

  /** The rows of the first files come first among all rows. */
  lemma {:induction false} AllRowsPrefix(files: seq<string>, readCsv: string -> seq<CsvRow>, i: nat)
    requires i <= |files|
    ensures exists rest :: AllRows(files, readCsv) == AllRows(files[..i], readCsv) + rest
    decreases |files| - i
  {
    if i == |files| {
      assert files[..i] == files;
      assert AllRows(files, readCsv) == AllRows(files[..i], readCsv) + [];
    } else {
      AllRowsPrefix(files, readCsv, i + 1);
      var rest :| AllRows(files, readCsv) == AllRows(files[..i + 1], readCsv) + rest;
      assert files[..i + 1][..i] == files[..i];
      assert AllRows(files, readCsv) == AllRows(files[..i], readCsv) + (readCsv(files[i]) + rest);
    }
  }

  /** A refused row in one file ends the whole merge. */
  lemma AllRowsStops(files: seq<string>, readCsv: string -> seq<CsvRow>, i: nat)
    requires i <= |files| && Merged(AllRows(files[..i], readCsv)).Err?
    ensures Merged(AllRows(files, readCsv)) == Merged(AllRows(files[..i], readCsv))
  {
    var all := AllRows(files, readCsv);
    AllRowsPrefix(files, readCsv, i);
    var rest :| all == AllRows(files[..i], readCsv) + rest;
    assert all[..|AllRows(files[..i], readCsv)|] == AllRows(files[..i], readCsv);
    MergedStops(all, |AllRows(files[..i], readCsv)|);
  }

  /** The rows of all files but the last, then the last file's rows. */
  lemma AllRowsSnoc(files: seq<string>, readCsv: string -> seq<CsvRow>, i: nat)
    requires i < |files|
    ensures AllRows(files[..i + 1], readCsv) == AllRows(files[..i], readCsv) + readCsv(files[i])
  {
    assert files[..i + 1][..i] == files[..i];
  }

  /** The row loop for one input file. `out` stands for the writer and what it
      has written so far: `EmptyFile` while `writer` is None. */
  method WriteReaderRows(ghost before: seq<CsvRow>, out: CsvFile, reader: seq<CsvRow>)
    returns (r: Result<CsvFile>)
    requires Merged(before) == Ok(out)
    ensures r == Merged(before + reader)
  {
    var writer := out;
    assert before + reader[..0] == before;
    for j := 0 to |reader|
      invariant Merged(before + reader[..j]) == Ok(writer)
    {
      var row := reader[j];
      SnocAt(before, reader, j);
      MergedSnoc(before + reader[..j], row);
      var header := if writer.EmptyFile? then Keys(row) else writer.header;
      var records := if writer.EmptyFile? then [] else writer.records;
      if !FitsHeader(row, header) {
        ghost var upTo := before + reader[..j + 1];
        assert Merged(upTo) == WriteRow(writer, row);
        ConcatAt(before, reader, j + 1);
        MergedStopsAt(upTo, reader[j + 1..]);
        return Err(ValueFailed(FieldsNotInHeader));
      }
      writer := CsvTable(header, records + [Record(row, header)]);
    }
    assert reader[..|reader|] == reader;
    r := Ok(writer);
  }

  /** The file loop of `combine_predict_files`: each file's rows in turn; the
      first row read fixes the header. */
  method MergePredictFiles(predictCsvFileList: seq<string>, readCsv: string -> seq<CsvRow>)
    returns (r: Result<CsvFile>)
    ensures r == Merged(AllRows(predictCsvFileList, readCsv))
  {
    var writer := EmptyFile;
    for i := 0 to |predictCsvFileList|
      invariant Merged(AllRows(predictCsvFileList[..i], readCsv)) == Ok(writer)
    {
      var reader := readCsv(predictCsvFileList[i]);
      AllRowsSnoc(predictCsvFileList, readCsv, i);
      r := WriteReaderRows(AllRows(predictCsvFileList[..i], readCsv), writer, reader);
      if r.Err? {
        AllRowsStops(predictCsvFileList, readCsv, i + 1);
        return;
      }
      writer := r.value;
    }
    assert predictCsvFileList[..|predictCsvFileList|] == predictCsvFileList;
    r := Ok(writer);
  }

  // ---------------------------------------------------------------------------
  // combine_predict_files

  /** What `combine_predict_files` reads: the node_id column of the node_split
      table, the split_reference table, `get_parent_node(root_node_database)`,
      the node table's name lookup, `get_cov_info(...)['split_reference_id']`,
      `create_job_table` for a start node and split reference, `get_database_dir`,
      `os.path.exists`, and the rows of each csv file. */
  datatype CombineInputs = CombineInputs(
    resultDir: string,
    nodeSplit: seq<nat>,
    splitReference: seq<SplitReferenceRow>,
    rootNodeName: string,
    tableName2Id: string -> Option<nat>,
    covInfoSplitReferenceId: nat,
    createJobTable: (nat, Option<nat>) -> seq<JobRow>,
    databaseDir: DirQuery -> string,
    fileExists: string -> bool,
    readCsv: string -> seq<CsvRow>)

  const RootSplitReferenceName := "root_split_reference_id"

  /** The root split reference id as the code computes it: with an empty
      split_reference table only the misspelt `root_split_refernence_id` is
      assigned, so reading `root_split_reference_id` fails. */
  function RootSplitReferenceAsWritten(inputs: CombineInputs): (r: Result<Option<nat>>)
    ensures r.Err? <==> |inputs.splitReference| == 0
    ensures r.Err? ==> r.error == Unbound(RootSplitReferenceName)
    ensures r.Ok? ==> r.value == Some(inputs.covInfoSplitReferenceId)
  {
    if |inputs.splitReference| == 0 then Err(Unbound(RootSplitReferenceName))
    else Ok(Some(inputs.covInfoSplitReferenceId))
  }

  /** The root split reference id as intended: None without a split_reference
      table, otherwise the one `get_cov_info` reports. */
  function RootSplitReference(inputs: CombineInputs): (r: Option<nat>)
    ensures r.None? <==> |inputs.splitReference| == 0
    ensures r.Some? ==> r.value == inputs.covInfoSplitReferenceId
  {
    if |inputs.splitReference| == 0 then None else Some(inputs.covInfoSplitReferenceId)
  }

  /** The split reference id as `get_database_dir` receives it. */
  function SplitValue(id: Option<nat>): (v: Value)
    ensures id.None? <==> v == Null
    ensures id.Some? ==> v == IntV(id.value)
  {
    match id
    case None => Null
    case Some(i) => IntV(i)
  }

  /** Everything after the root split reference id is known: the job table, the
      existing predict files, and the merged file. */
  function CombineFromRoot(inputs: CombineInputs, rootNodeId: nat, rootSplitReferenceId: Option<nat>): Result<CsvFile>
  {
    var jobTable := inputs.createJobTable(rootNodeId, rootSplitReferenceId);
    var c := DirContext(inputs.resultDir, NodeSplitIds(inputs.nodeSplit), rootNodeId,
                        SplitValue(rootSplitReferenceId), inputs.databaseDir);
    Merged(AllRows(ExistingPredictFiles(c, jobTable, inputs.fileExists), inputs.readCsv))
  }

  /** `combine_predict_files` as written. */
  function CombinePredictFilesAsWritten(inputs: CombineInputs): Result<CsvFile>
  {
    match inputs.tableName2Id(inputs.rootNodeName)
    case None => Err(KeyMissing(inputs.rootNodeName))
    case Some(rootNodeId) =>
      match RootSplitReferenceAsWritten(inputs)
      case Err(e) => Err(e)
      case Ok(root) => CombineFromRoot(inputs, rootNodeId, root)
  }

  /** `combine_predict_files` with the root split reference id bound in both
      branches. */
  function CombinePredict(inputs: CombineInputs): Result<CsvFile>
  {
    match inputs.tableName2Id(inputs.rootNodeName)
    case None => Err(KeyMissing(inputs.rootNodeName))
    case Some(rootNodeId) => CombineFromRoot(inputs, rootNodeId, RootSplitReference(inputs))
  }

  /** As written, every summary of a cascade without a split_reference table
      fails once the root node is found, while the intended version never fails
      for an unbound name. */
  lemma AsWrittenFailsWithoutSplitReference(inputs: CombineInputs)
    requires |inputs.splitReference| == 0 && inputs.tableName2Id(inputs.rootNodeName).Some?
    ensures CombinePredictFilesAsWritten(inputs) == Err(Unbound(RootSplitReferenceName))
    ensures CombinePredict(inputs) != Err(Unbound(RootSplitReferenceName))
  {
    var rootNodeId := inputs.tableName2Id(inputs.rootNodeName).value;
    var rows := AllRows(ExistingPredictFiles(
      DirContext(inputs.resultDir, NodeSplitIds(inputs.nodeSplit), rootNodeId, Null, inputs.databaseDir),
      inputs.createJobTable(rootNodeId, None), inputs.fileExists), inputs.readCsv);
    if |rows| > 0 {
      MergedSpec(rows);
    }
  }

  /** With a split_reference table the code does what was intended. */
  lemma AsWrittenAgreesWithSplitReference(inputs: CombineInputs)
    requires |inputs.splitReference| > 0
    ensures CombinePredictFilesAsWritten(inputs) == CombinePredict(inputs)
  {
  }

  /** The intended `combine_predict_files` fails only when the root node is not
      in the node table or a csv row has a field the first row does not have;
      otherwise it merges every row of every existing predict file, in job
      order. */
  lemma CombinePredictSpec(inputs: CombineInputs)
    ensures inputs.tableName2Id(inputs.rootNodeName).None? ==>
      CombinePredict(inputs) == Err(KeyMissing(inputs.rootNodeName))
    ensures inputs.tableName2Id(inputs.rootNodeName).Some? ==>
      var rootNodeId := inputs.tableName2Id(inputs.rootNodeName).value;
      var root := RootSplitReference(inputs);
      var c := DirContext(inputs.resultDir, NodeSplitIds(inputs.nodeSplit), rootNodeId,
                          SplitValue(root), inputs.databaseDir);
      var rows := AllRows(ExistingPredictFiles(c, inputs.createJobTable(rootNodeId, root), inputs.fileExists),
                          inputs.readCsv);
      && CombinePredict(inputs) == Merged(rows)
      && (CombinePredict(inputs).Err? ==> CombinePredict(inputs).error == ValueFailed(FieldsNotInHeader))
  {
    if inputs.tableName2Id(inputs.rootNodeName).Some? {
      var rootNodeId := inputs.tableName2Id(inputs.rootNodeName).value;
      var root := RootSplitReference(inputs);
      var c := DirContext(inputs.resultDir, NodeSplitIds(inputs.nodeSplit), rootNodeId,
                          SplitValue(root), inputs.databaseDir);
      var rows := AllRows(ExistingPredictFiles(c, inputs.createJobTable(rootNodeId, root), inputs.fileExists),
                          inputs.readCsv);
      if |rows| > 0 {
        MergedSpec(rows);
      }
    }
  }

  /** `combine_predict_files`, step by step. */
  method CombinePredictFiles(inputs: CombineInputs) returns (r: Result<CsvFile>)
    ensures r == CombinePredict(inputs)
  {
    var nodeSplitSet := NodeSplitSet(inputs.nodeSplit);
    var rootNodeId := inputs.tableName2Id(inputs.rootNodeName);
    if rootNodeId.None? {
      return Err(KeyMissing(inputs.rootNodeName));
    }
    var rootSplitReferenceId: Option<nat>;
    if |inputs.splitReference| == 0 {
      rootSplitReferenceId := None;
    } else {
      rootSplitReferenceId := Some(inputs.covInfoSplitReferenceId);
    }
    var jobTable := inputs.createJobTable(rootNodeId.value, rootSplitReferenceId);
    var c := DirContext(inputs.resultDir, nodeSplitSet, rootNodeId.value,
                        SplitValue(rootSplitReferenceId), inputs.databaseDir);
    var predictCsvFileList := PredictCsvFileList(c, jobTable, inputs.fileExists);
    r := MergePredictFiles(predictCsvFileList, inputs.readCsv);
  }

  // ---------------------------------------------------------------------------
  // summary

  /** A file the summary writes. */
  datatype WrittenFile = MessageFile(name: string, text: string) | PredictFile(name: string, csv: CsvFile)

  /** `summary`: the error file, then the warning file, then predict.csv; a
      failure of the merge leaves the first two written. `errors` and
      `warnings` are what `check_log` reports for each message type. */
  method RunSummary(errors: Dict<string, seq<string>>, warnings: Dict<string, seq<string>>, inputs: CombineInputs)
    returns (written: seq<WrittenFile>, failure: Option<Failure>)
    ensures |written| == if failure.None? then 3 else 2
    ensures written[0] == MessageFile(MessageFileName(inputs.resultDir, "error"), MessageText(errors))
    ensures written[1] == MessageFile(MessageFileName(inputs.resultDir, "warning"), MessageText(warnings))
    ensures failure.None? <==> CombinePredict(inputs).Ok?
    ensures failure.Some? ==> failure.value == CombinePredict(inputs).error
    ensures failure.None? ==>
      written[2] == PredictFile(inputs.resultDir + "/summary/predict.csv", CombinePredict(inputs).value)
  {
    var errorName, errorText := WriteMessageTypeFile(inputs.resultDir, "error", errors);
    var warningName, warningText := WriteMessageTypeFile(inputs.resultDir, "warning", warnings);
    written := [MessageFile(errorName, errorText), MessageFile(warningName, warningText)];
    var merged := CombinePredictFiles(inputs);
    match merged
    case Err(e) =>
      failure := Some(e);
    case Ok(csv) =>
      written := written + [PredictFile(inputs.resultDir + "/summary/predict.csv", csv)];
      failure := None;
  }
}
