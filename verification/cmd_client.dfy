/** The CSV export of `src/client/cmd_client.py`: each analysed file
    becomes one row holding the file's stem and one formatted answer per
    question, written under the header `filename, Q1, ..., Q5`. */
module CmdClient {
  import opened Wrappers
  import opened Slices
  import opened Text
  import opened PyDict

  const NoEvidence: string := "No evidence found in conversation"

  /** One question entry of a model analysis; every key may be missing. */
  datatype Question = Question(questionNumber: Option<string>, answer: Option<string>, evidence: Option<string>)

  /** `d.get(key, "")`. */
  function OrEmpty(s: Option<string>): string
  {
    if s.Some? then s.value else ""
  }

  /** `format_answer`: "YES - evidence" for a YES answer with real
      evidence; otherwise the answer as it is, "" when missing. */
  function FormatAnswer(q: Question): (r: string)
    ensures var answer, evidence := OrEmpty(q.answer), OrEmpty(q.evidence);
      if answer == "YES" && evidence != "" && evidence != NoEvidence
      then r == "YES - " + evidence && r[6..] == evidence
      else r == answer
  {
    var answer := OrEmpty(q.answer);
    var evidence := OrEmpty(q.evidence);
    if answer == "YES" && evidence != "" && evidence != NoEvidence then "YES - " + evidence else answer
  }

  /** A formatted answer starts with "YES - " exactly when the evidence was
      attached, unless the bare answer itself starts that way. */
  lemma FormatAnswerAttaches(q: Question)
    requires !StartsWith(OrEmpty(q.answer), "YES - ")
    ensures StartsWith(FormatAnswer(q), "YES - ") <==>
      OrEmpty(q.answer) == "YES" && OrEmpty(q.evidence) != "" && OrEmpty(q.evidence) != NoEvidence
  {
  }

  /** Position of the last `c` in `s`, or -1. */
  function LastIndexOf(s: string, c: char): (r: int)
    ensures -1 <= r < |s|
    ensures r >= 0 ==> s[r] == c && forall j :: r < j < |s| ==> s[j] != c
    ensures r == -1 ==> forall j :: 0 <= j < |s| ==> s[j] != c
  {
    if |s| == 0 then -1
    else if s[|s| - 1] == c then |s| - 1
    else LastIndexOf(s[..|s| - 1], c)
  }

  /** The final component of a '/'-separated path. */
  function Name(path: string): (r: string)
    ensures forall j :: 0 <= j < |r| ==> r[j] != '/'
    ensures exists i :: 0 <= i <= |path| && path[i..] == r
  {
    var i := LastIndexOf(path, '/');
    assert path[i + 1..] == path[i + 1..];
    path[i + 1..]
  }

  /** `Path(p).stem`: the name without its last suffix, where a suffix
      starts at the last dot that is neither the first nor the last
      character of the name. */
  function Stem(path: string): (r: string)
    ensures var name := Name(path); var i := LastIndexOf(name, '.');
      if 0 < i < |name| - 1 then r == name[..i] && name == r + name[i..] && forall j :: i < j < |name| ==> name[j] != '.'
      else r == name
  {
    var name := Name(path);
    var i := LastIndexOf(name, '.');
    if 0 < i < |name| - 1 then name[..i] else name
  }

  /** The three nested look-ups of `result.get("result", {})
      .get("analysis", {}).get("questions", [])`. */
  datatype QuestionSet = QuestionSet(questions: Option<seq<Question>>)
  datatype AnalysisEntry = AnalysisEntry(analysis: Option<QuestionSet>)
  datatype FileResult = FileResult(filePath: string, result: Option<AnalysisEntry>)

  function QuestionsOf(r: FileResult): seq<Question>
  {
    if r.result.None? || r.result.value.analysis.None? || r.result.value.analysis.value.questions.None? then []
    else r.result.value.analysis.value.questions.value
  }

  /** The column `f"Q{question_number}"`. */
  function QuestionKey(q: Question): (k: string)
    ensures |k| > 0 && k[0] == 'Q'
  {
    "Q" + OrEmpty(q.questionNumber)
  }

  /** The (key, value) assignments that build one row, in order. */
  function RowPairs(r: FileResult): (ps: seq<(string, string)>)
    ensures |ps| == |QuestionsOf(r)| + 1
  {
    var qs := QuestionsOf(r);
    [("filename", Stem(r.filePath))] + seq(|qs|, i requires 0 <= i < |qs| => (QuestionKey(qs[i]), FormatAnswer(qs[i])))
  }

  /** The row dict of one result: `filename` first, then `Q{number}` per
      question, a repeated number overwriting the earlier answer. */
  function RowOf(r: FileResult): Dict<string, string>
  {
    FromPairs(RowPairs(r))
  }

  method AssembleRow(r: FileResult) returns (row: Dict<string, string>)
    ensures row == RowOf(r)
  {
    row := [("filename", Stem(r.filePath))];
    var qs := QuestionsOf(r);
    RowStart(r);
    for i := 0 to |qs|
      invariant row == FromPairs(RowPairs(r)[..i + 1])
    {
      RowStep(r, i);
      row := Put(row, QuestionKey(qs[i]), FormatAnswer(qs[i]));
    }
    assert RowPairs(r)[..|qs| + 1] == RowPairs(r);
  }

  lemma RowStart(r: FileResult)
    ensures FromPairs(RowPairs(r)[..1]) == [("filename", Stem(r.filePath))]
  {
    var ps := RowPairs(r);
    RowPairAt(r, 0);
    FromPairsSnoc(ps, 0);
    assert ps[..0] == [];
  }

  lemma RowStep(r: FileResult, i: nat)
    requires i < |QuestionsOf(r)|
    ensures var q := QuestionsOf(r)[i];
      FromPairs(RowPairs(r)[..i + 2]) == Put(FromPairs(RowPairs(r)[..i + 1]), QuestionKey(q), FormatAnswer(q))
  {
    RowPairAt(r, i + 1);
    FromPairsSnoc(RowPairs(r), i + 1);
  }

  /** The filename column always holds the stem (no question key can
      overwrite it), each question key holds the answer of the last
      question with that number, and no key repeats. */
  lemma RowContents(r: FileResult, key: string)
    ensures var row := RowOf(r);
      Get(row, "filename") == Some(Stem(r.filePath)) &&
      Get(row, key) == LastValue(RowPairs(r), key) && DistinctKeys(row)
  {
    var ps := RowPairs(r);
    forall i | 1 <= i < |ps| ensures |ps[i].0| > 0 && ps[i].0[0] == 'Q' {
      assert ps[i].0 == QuestionKey(QuestionsOf(r)[i - 1]);
    }
    LastFilename(ps, |ps|);
    assert ps[..|ps|] == ps;
    FromPairsGet(ps, key);
    FromPairsGet(ps, "filename");
  }

  lemma {:induction false} LastFilename(ps: seq<(string, string)>, n: nat)
    requires 1 <= n <= |ps| && ps[0].0 == "filename"
    requires forall i :: 1 <= i < |ps| ==> |ps[i].0| > 0 && ps[i].0[0] == 'Q'
    ensures LastValue(ps[..n], "filename") == Some(ps[0].1)
  {
    if n > 1 {
      assert ps[..n][..n - 1] == ps[..n - 1];
      assert ps[..n][n - 1].0 != "filename" by {
        assert ps[n - 1].0[0] == 'Q';
      }
      LastFilename(ps, n - 1);
    } else {
      assert ps[..1] == [ps[0]];
    }
  }

  const FieldNames: seq<string> := ["filename", "Q1", "Q2", "Q3", "Q4", "Q5"]

  /** `writer.writerow(row)` for a `DictWriter` on `FieldNames`: a key
      outside the header raises; otherwise the values in header order, with
      "" for a missing column. */
  predicate Fits(row: Dict<string, string>)
  {
    forall i :: 0 <= i < |row| ==> row[i].0 in FieldNames
  }

  function CsvRecord(row: Dict<string, string>): (r: Option<seq<string>>)
    ensures r.None? <==> !Fits(row)
    ensures r.Some? ==> r.value == Columns(row, FieldNames)
  {
    if !Fits(row) then None else Some(Columns(row, FieldNames))
  }

  /** The row's value under each of `names`, "" where it has none. */
  function Columns(row: Dict<string, string>, names: seq<string>): (cs: seq<string>)
    ensures |cs| == |names|
    ensures forall i :: 0 <= i < |names| ==> cs[i] == OrEmpty(Get(row, names[i]))
  {
    if |names| == 0 then [] else [OrEmpty(Get(row, names[0]))] + Columns(row, names[1..])
  }

  /** A row whose question numbers are all among 1..5 is written, with
      the stem in the first column. */
  lemma NumberedRowWritten(r: FileResult)
    requires forall q :: q in QuestionsOf(r) ==> q.questionNumber.Some? && q.questionNumber.value in ["1", "2", "3", "4", "5"]
    ensures CsvRecord(RowOf(r)).Some?
    ensures CsvRecord(RowOf(r)).value[0] == Stem(r.filePath)
  {
    var row := RowOf(r);
    forall i | 0 <= i < |row| ensures row[i].0 in FieldNames {
      NumberedKey(r, i);
    }
    FitsAll(row);
    RowContents(r, "filename");
    assert FieldNames[0] == "filename";
  }

  lemma NumberedKey(r: FileResult, i: nat)
    requires forall q :: q in QuestionsOf(r) ==> q.questionNumber.Some? && q.questionNumber.value in ["1", "2", "3", "4", "5"]
    requires i < |RowOf(r)|
    ensures RowOf(r)[i].0 in FieldNames
  {
    var ps := RowPairs(r);
    FromPairsKeys(ps, i);
    var j :| 0 <= j < |ps| && ps[j].0 == RowOf(r)[i].0;
    RowPairAt(r, j);
    if j > 0 {
      var q := QuestionsOf(r)[j - 1];
      assert q in QuestionsOf(r);
      var n := q.questionNumber.value;
      assert QuestionKey(q) == "Q" + n;
      KeyInHeader(n);
    } else {
      assert ps[0].0 == FieldNames[0];
    }
  }

  lemma KeyInHeader(n: string)
    requires n in ["1", "2", "3", "4", "5"]
    ensures "Q" + n in FieldNames
  {
    if n == "1" { assert "Q" + n == FieldNames[1]; }
    else if n == "2" { assert "Q" + n == FieldNames[2]; }
    else if n == "3" { assert "Q" + n == FieldNames[3]; }
    else if n == "4" { assert "Q" + n == FieldNames[4]; }
    else { assert "Q" + n == FieldNames[5]; }
  }

  /** The pair at position j of a row: the filename first, then one per
      question. */
  lemma RowPairAt(r: FileResult, j: nat)
    requires j < |RowPairs(r)|
    ensures j == 0 ==> RowPairs(r)[j] == ("filename", Stem(r.filePath))
    ensures j > 0 ==> RowPairs(r)[j] == (QuestionKey(QuestionsOf(r)[j - 1]), FormatAnswer(QuestionsOf(r)[j - 1]))
  {
  }

  lemma {:induction false} FitsAll(row: Dict<string, string>)
    ensures Fits(row) <==> forall i :: 0 <= i < |row| ==> row[i].0 in FieldNames
  {
    if |row| > 0 {
      FitsAll(row[1..]);
      assert forall i :: 1 <= i < |row| ==> row[1..][i - 1] == row[i];
    }
  }

  /** Every key of a dict built from pairs comes from one of the pairs. */
  lemma {:induction false} FromPairsKeys<V>(ps: seq<(string, V)>, i: nat)
    requires i < |FromPairs(ps)|
    ensures exists j :: 0 <= j < |ps| && ps[j].0 == FromPairs(ps)[i].0
  {
    var init := ps[..|ps| - 1];
    var last := ps[|ps| - 1];
    var d := FromPairs(init);
    var k := FromPairs(ps)[i].0;
    assert FromPairs(ps) == Put(d, last.0, last.1);
    if k != last.0 {
      assert Keys(FromPairs(ps))[i] == k;
      if KeyIndex(d, last.0) >= 0 {
        assert Keys(d)[i] == k;
      } else {
        assert i < |d|;
        assert Keys(d)[i] == k;
      }
      FromPairsKeys(init, i);
      var j :| 0 <= j < |init| && init[j].0 == k;
      assert ps[j].0 == k;
    }
  }

  /** One iteration of the export loop. */
  method WriteRow(r: FileResult) returns (record: Option<seq<string>>)
    ensures record == CsvRecord(RowOf(r))
  {
    var row := AssembleRow(r);
    record := CsvRecord(row);
  }

  /** The values of `xs` before its first `None`. */
  function TakeSome<T>(xs: seq<Option<T>>): (r: seq<T>)
    ensures |r| <= |xs|
    ensures forall i :: 0 <= i < |r| ==> xs[i] == Some(r[i])
    ensures |r| < |xs| ==> xs[|r|].None?
  {
    if |xs| == 0 || xs[0].None? then []
    else [xs[0].value] + TakeSome(xs[1..])
  }

  /** Each value of `xs` wrapped in `Some`. */
  function Somes<T>(xs: seq<T>): (r: seq<Option<T>>)
    ensures |r| == |xs|
  {
    seq(|xs|, i requires 0 <= i < |xs| => Some(xs[i]))
  }

  lemma SomesSnoc<T>(xs: seq<T>, x: T)
    ensures Somes(xs + [x]) == Somes(xs) + [Some(x)]
  {
  }

  /** The values of `xs` before its first `None` are the only sequence
      that `xs` starts with, as `Some`s, up to a `None` or its end. */
  lemma {:induction false} TakeSomeUnique<T>(xs: seq<Option<T>>, r: seq<T>)
    requires |r| <= |xs| && xs[..|r|] == Somes(r)
    requires |r| < |xs| ==> xs[|r|].None?
    ensures TakeSome(xs) == r
  {
    if |r| > 0 {
      assert xs[0] == xs[..|r|][0] == Some(r[0]);
      forall i | 0 <= i < |r| - 1 ensures xs[1..][i] == Some(r[1..][i]) {
        assert xs[1..][i] == xs[..|r|][i + 1];
      }
      assert xs[1..][..|r| - 1] == Somes(r[1..]);
      TakeSomeUnique(xs[1..], r[1..]);
      assert TakeSome(xs) == [r[0]] + r[1..];
    }
  }

  /** The CSV record of each result, `None` where the row does not fit. */
  function RecordsOf(results: seq<FileResult>): (rs: seq<Option<seq<string>>>)
    ensures |rs| == |results|
    ensures forall i :: 0 <= i < |results| ==> rs[i] == CsvRecord(RowOf(results[i]))
  {
    seq(|results|, i requires 0 <= i < |results| => CsvRecord(RowOf(results[i])))
  }

  /** The records written for `results` before the first row that does
      not fit the header. */
  function Exported(results: seq<FileResult>): (rs: seq<seq<string>>)
    ensures |rs| <= |results|
  {
    TakeSome(RecordsOf(results))
  }

  /** Some row does not fit the header, so writing it raises. */
  predicate ExportFails(results: seq<FileResult>)
  {
    exists i :: 0 <= i < |results| && CsvRecord(RowOf(results[i])).None?
  }

  /** The export loop: rows are written in result order, and the first
      row with a key outside the header stops the export. */
  method WriteRows(results: seq<FileResult>) returns (records: seq<seq<string>>, failed: bool)
    ensures records == Exported(results)
    ensures failed == ExportFails(results)
  {
    ghost var recs := RecordsOf(results);
    records := [];
    for i := 0 to |results|
      invariant |records| == i && recs[..i] == Somes(records)
    {
      var record := WriteRow(results[i]);
      assert recs[i] == record;
      if record.None? {
        TakeSomeUnique(recs, records);
        ExportFailsAt(results, i);
        return records, true;
      }
      SomesSnoc(records, record.value);
      PrefixSnoc(recs, i);
      records := records + [record.value];
    }
    assert recs[..|results|] == recs;
    TakeSomeUnique(recs, records);
    ExportSucceeds(results, records);
    failed := false;
  }

  lemma ExportFailsAt(results: seq<FileResult>, i: nat)
    requires i < |results| && RecordsOf(results)[i].None?
    ensures ExportFails(results)
  {
  }

  lemma ExportSucceeds(results: seq<FileResult>, records: seq<seq<string>>)
    requires RecordsOf(results) == Somes(records)
    ensures !ExportFails(results)
  {
    forall j | 0 <= j < |results| ensures CsvRecord(RowOf(results[j])).Some? {
      assert RecordsOf(results)[j] == Somes(records)[j];
    }
  }

  /** Each written record is the CSV record of the result at its position. */
  lemma ExportedAreRecords(results: seq<FileResult>)
    ensures forall i :: 0 <= i < |Exported(results)| ==> CsvRecord(RowOf(results[i])) == Some(Exported(results)[i])
  {
    var recs := RecordsOf(results);
    assert forall i :: 0 <= i < |Exported(results)| ==> recs[i] == Some(Exported(results)[i]);
  }

  /** A failed export stops exactly at the first row that does not fit;
      otherwise every row is written. */
  lemma ExportStopsAtFailure(results: seq<FileResult>)
    ensures ExportFails(results) <==> |Exported(results)| < |results|
    ensures ExportFails(results) ==> !Fits(RowOf(results[|Exported(results)|]))
  {
    var recs, e := RecordsOf(results), Exported(results);
    if |e| == |results| {
      forall i | 0 <= i < |results| ensures CsvRecord(RowOf(results[i])).Some? {
        assert recs[i] == Some(e[i]);
      }
    } else {
      assert recs[|e|].None?;
    }
  }
}
