/** The scoring of `evaluation/report.py`: labeled rows joined with
    predicted rows on their id, confusion counts per question, the
    all-cases and yes-only metrics as exact ratios, and the three result
    tables. */
module Report {
  import opened Wrappers
  import opened Slices
  import opened Text
  import opened PyDict
  import opened Labels

  /** A row of a labeled-data or conversation file: its id and Q1..Q5. */
  datatype Row = Row(id: string, answers: Answers)

  /** A row of the inner join on `id`: the labeled and the predicted answers. */
  datatype MergedRow = MergedRow(id: string, labeled: Answers, conv: Answers)

  /** The predicted rows sharing the id of `l`, paired with it, in file
      order: a predicted row occurring k times is paired k times. */
  function MatchRows(l: Row, conv: seq<Row>): (r: seq<MergedRow>)
    ensures forall m :: m in r ==> m.id == l.id && m.labeled == l.answers && Row(m.id, m.conv) in conv
    ensures forall c :: c in conv && c.id == l.id ==> MergedRow(l.id, l.answers, c.answers) in r
    ensures forall a :: multiset(r)[MergedRow(l.id, l.answers, a)] == multiset(conv)[Row(l.id, a)]
  {
    if |conv| == 0 then []
    else
      var rest := MatchRows(l, conv[1..]);
      assert forall c :: c in conv[1..] ==> c in conv;
      assert conv == [conv[0]] + conv[1..];
      if conv[0].id == l.id then [MergedRow(l.id, l.answers, conv[0].answers)] + rest else rest
  }

  /** `pd.merge(labeled, conv, on='id', how='inner')`: every pair of a
      labeled and a predicted row with equal ids, and nothing else; a pair
      of rows occurring i and j times occurs i * j times. */
  function Merge(labeled: seq<Row>, conv: seq<Row>): (r: seq<MergedRow>)
    ensures forall m :: m in r ==> Row(m.id, m.labeled) in labeled && Row(m.id, m.conv) in conv
    ensures forall l, c :: l in labeled && c in conv && l.id == c.id ==> MergedRow(l.id, l.answers, c.answers) in r
    ensures forall id, la, ca ::
              multiset(r)[MergedRow(id, la, ca)] == multiset(labeled)[Row(id, la)] * multiset(conv)[Row(id, ca)]
  {
    if |labeled| == 0 then []
    else
      var head, rest := MatchRows(labeled[0], conv), Merge(labeled[1..], conv);
      MergeCountStep(labeled, conv, head, rest);
      MergeMembers(labeled, conv, head + rest);
      head + rest
  }

  /** Membership both ways follows from the pair counts. */
  lemma MergeMembers(labeled: seq<Row>, conv: seq<Row>, r: seq<MergedRow>)
    requires forall id, la, ca ::
               multiset(r)[MergedRow(id, la, ca)] == multiset(labeled)[Row(id, la)] * multiset(conv)[Row(id, ca)]
    ensures forall m :: m in r ==> Row(m.id, m.labeled) in labeled && Row(m.id, m.conv) in conv
    ensures forall l, c :: l in labeled && c in conv && l.id == c.id ==> MergedRow(l.id, l.answers, c.answers) in r
  {
    forall m | m in r ensures Row(m.id, m.labeled) in labeled && Row(m.id, m.conv) in conv {
      assert multiset(r)[MergedRow(m.id, m.labeled, m.conv)] > 0;
    }
    forall l, c | l in labeled && c in conv && l.id == c.id ensures MergedRow(l.id, l.answers, c.answers) in r {
      assert multiset(labeled)[Row(l.id, l.answers)] > 0 && multiset(conv)[Row(l.id, c.answers)] > 0;
      assert multiset(r)[MergedRow(l.id, l.answers, c.answers)] > 0;
    }
  }

  /** The count of a merged pair over the first labeled row's matches
      followed by the merge of the other labeled rows. */
  lemma MergeCountStep(labeled: seq<Row>, conv: seq<Row>, head: seq<MergedRow>, rest: seq<MergedRow>)
    requires |labeled| > 0
    requires forall m :: m in head ==> m.id == labeled[0].id && m.labeled == labeled[0].answers
    requires forall a ::
               multiset(head)[MergedRow(labeled[0].id, labeled[0].answers, a)] == multiset(conv)[Row(labeled[0].id, a)]
    requires forall id, la, ca ::
               multiset(rest)[MergedRow(id, la, ca)] == multiset(labeled[1..])[Row(id, la)] * multiset(conv)[Row(id, ca)]
    ensures forall id, la, ca ::
              multiset(head + rest)[MergedRow(id, la, ca)] == multiset(labeled)[Row(id, la)] * multiset(conv)[Row(id, ca)]
  {
    forall id, la, ca
      ensures multiset(head + rest)[MergedRow(id, la, ca)] ==
        multiset(labeled)[Row(id, la)] * multiset(conv)[Row(id, ca)]
    {
      var m := MergedRow(id, la, ca);
      if Row(id, la) == labeled[0] {
        assert multiset(head)[m] == multiset(conv)[Row(id, ca)];
      } else {
        assert m !in head;
      }
      MergeCountAt(labeled, head, rest, m, multiset(conv)[Row(id, ca)]);
    }
  }

  /** The same for one merged pair `m` whose predicted row occurs `c` times. */
  lemma MergeCountAt(labeled: seq<Row>, head: seq<MergedRow>, rest: seq<MergedRow>, m: MergedRow, c: nat)
    requires |labeled| > 0
    requires multiset(head)[m] == if Row(m.id, m.labeled) == labeled[0] then c else 0
    requires multiset(rest)[m] == multiset(labeled[1..])[Row(m.id, m.labeled)] * c
    ensures multiset(head + rest)[m] == multiset(labeled)[Row(m.id, m.labeled)] * c
  {
    assert labeled == [labeled[0]] + labeled[1..];
    var k := multiset(labeled[1..])[Row(m.id, m.labeled)];
    if Row(m.id, m.labeled) == labeled[0] {
      assert multiset(labeled)[Row(m.id, m.labeled)] == k + 1;
      assert (k + 1) * c == k * c + c;
    } else {
      assert multiset(labeled)[Row(m.id, m.labeled)] == k;
    }
  }

  /** A cell counts as yes when its lower-cased text starts with "yes". */
  predicate IsYes(cell: string)
  {
    StartsWith(Lower(cell), "yes")
  }

  /** A cell counts as no when its lower-cased text is exactly "no". */
  predicate IsNo(cell: string)
  {
    Lower(cell) == "no"
  }

  /** No cell is both yes and no; a cell such as "maybe" or "" is neither. */
  lemma YesNoExclusive(cell: string)
    ensures !(IsYes(cell) && IsNo(cell))
  {
    if IsYes(cell) {
      assert Lower(cell)[0] == 'y';
    }
  }

  /** The raw counts of one question. */
  datatype Counts = Counts(total: nat, totalYes: nat, totalNo: nat, tp: nat, tn: nat, fp: nat, fn: nat)

  function AddCounts(a: Counts, b: Counts): Counts
  {
    Counts(a.total + b.total, a.totalYes + b.totalYes, a.totalNo + b.totalNo,
           a.tp + b.tp, a.tn + b.tn, a.fp + b.fp, a.fn + b.fn)
  }

  const NoCounts := Counts(0, 0, 0, 0, 0, 0, 0)

  lemma AddCountsAssoc(a: Counts, b: Counts, c: Counts)
    ensures AddCounts(a, AddCounts(b, c)) == AddCounts(AddCounts(a, b), c)
  {
  }

  function B(b: bool): nat { if b then 1 else 0 }

  /** The counts one merged row adds for question q: a yes or no qLabel,
      and a confusion cell only when both sides classify. */
  function RowCounts(m: MergedRow, q: nat): Counts
    requires q < 5
  {
    var l := m.labeled[q];
    var c := m.conv[q];
    Counts(1, B(IsYes(l)), B(IsNo(l)),
      B(IsYes(l) && IsYes(c)), B(IsNo(l) && IsNo(c)), B(IsNo(l) && IsYes(c)), B(IsYes(l) && IsNo(c)))
  }

  /** The counts of question q over the merged rows: the number of rows
      each boolean mask of `analyze_questions` selects. */
  function Tally(rows: seq<MergedRow>, q: nat): (r: Counts)
    requires q < 5
    ensures r.total == |rows|
    ensures r.tp + r.fn <= r.totalYes && r.fp + r.tn <= r.totalNo
    ensures r.totalYes + r.totalNo <= r.total
  {
    if |rows| == 0 then NoCounts
    else
      assert !(IsYes(rows[0].labeled[q]) && IsNo(rows[0].labeled[q])) by {
        YesNoExclusive(rows[0].labeled[q]);
      }
      assert !(IsYes(rows[0].conv[q]) && IsNo(rows[0].conv[q])) by {
        YesNoExclusive(rows[0].conv[q]);
      }
      AddCounts(RowCounts(rows[0], q), Tally(rows[1..], q))
  }

  /** Counting the concatenation of two frames gives the sum of the counts. */
  lemma {:induction false} TallyAppend(a: seq<MergedRow>, b: seq<MergedRow>, q: nat)
    requires q < 5
    ensures Tally(a + b, q) == AddCounts(Tally(a, q), Tally(b, q))
  {
    if |a| == 0 {
      assert a + b == b;
    } else {
      assert (a + b)[0] == a[0];
      assert (a + b)[1..] == a[1..] + b;
      TallyAppend(a[1..], b, q);
      assert Tally(a + b, q) == AddCounts(RowCounts(a[0], q), Tally(a[1..] + b, q));
      AddCountsAssoc(RowCounts(a[0], q), Tally(a[1..], q), Tally(b, q));
    }
  }

  function SumCounts(cs: seq<Counts>): Counts
  {
    if |cs| == 0 then NoCounts else AddCounts(SumCounts(cs[..|cs| - 1]), cs[|cs| - 1])
  }

  /** The counts of question q in each file, in file order. */
  function FileTallies(parts: seq<seq<MergedRow>>, q: nat): (cs: seq<Counts>)
    requires q < 5
    ensures |cs| == |parts|
  {
    seq(|parts|, i requires 0 <= i < |parts| => Tally(parts[i], q))
  }

  lemma FileTalliesPrefix(parts: seq<seq<MergedRow>>, q: nat)
    requires q < 5 && |parts| > 0
    ensures FileTallies(parts, q)[..|parts| - 1] == FileTallies(parts[..|parts| - 1], q)
    ensures FileTallies(parts, q)[|parts| - 1] == Tally(parts[|parts| - 1], q)
  {
  }

  lemma FlattenSnocParts(parts: seq<seq<MergedRow>>)
    requires |parts| > 0
    ensures Flatten(parts) == Flatten(parts[..|parts| - 1]) + parts[|parts| - 1]
  {
  }

  /** Scoring the concatenation of all merged files once gives, for every
      count, the sum over the files. */
  lemma {:induction false} TallyFlatten(parts: seq<seq<MergedRow>>, q: nat)
    requires q < 5
    ensures Tally(Flatten(parts), q) == SumCounts(FileTallies(parts, q))
  {
    if |parts| > 0 {
      var init, last := parts[..|parts| - 1], parts[|parts| - 1];
      TallyFlatten(init, q);
      FlattenSnocParts(parts);
      TallyAppend(Flatten(init), last, q);
      FileTalliesPrefix(parts, q);
    }
  }

  /** The metrics over all cases, in percent, with the counts echoed. */
  datatype AllCasesMetrics = AllCasesMetrics(
    accuracy: real, precision: real, recall: real, f1: real,
    truePositive: nat, falsePositive: nat, trueNegative: nat, falseNegative: nat, totalCases: nat)

  function Ratio(a: nat, b: nat): real
  {
    if b > 0 then a as real / b as real else 0.0
  }

  /** `calculate_metrics_all_cases`. Accuracy divides by `total` unguarded,
      so a total of 0 is the division error; precision, recall and F1 fall
      back to 0 when their denominators vanish. The counts are echoed. */
  function CalculateMetricsAllCases(tp: nat, fp: nat, fn: nat, tn: nat, total: nat): (r: Result<AllCasesMetrics, string>)
    ensures total == 0 <==> r == Failure("division by zero")
    ensures r.Success? ==>
      r.value.truePositive == tp && r.value.falsePositive == fp && r.value.trueNegative == tn &&
      r.value.falseNegative == fn && r.value.totalCases == total
  {
    if total == 0 then Failure("division by zero")
    else
      var accuracy := (tp + tn) as real / total as real;
      var precision := Ratio(tp, tp + fp);
      var recall := Ratio(tp, tp + fn);
      var f1 := if precision + recall > 0.0 then 2.0 * (precision * recall) / (precision + recall) else 0.0;
      Success(AllCasesMetrics(accuracy * 100.0, precision * 100.0, recall * 100.0, f1 * 100.0,
                              tp, fp, tn, fn, total))
  }

  /** The percentages lie in [0, 100]; precision and recall are 0 when
      their denominators are, and F1 is 0 without a true positive. */
  lemma AllCasesMetricsBounds(tp: nat, fp: nat, fn: nat, tn: nat, total: nat)
    requires total > 0
    ensures var m := CalculateMetricsAllCases(tp, fp, fn, tn, total).value;
      (tp + tn <= total ==> 0.0 <= m.accuracy <= 100.0) &&
      0.0 <= m.precision <= 100.0 && 0.0 <= m.recall <= 100.0 &&
      (tp + fp == 0 ==> m.precision == 0.0) && (tp + fn == 0 ==> m.recall == 0.0) &&
      (tp == 0 ==> m.f1 == 0.0)
  {
    RatioBounds(tp, tp + fp);
    RatioBounds(tp, tp + fn);
    if tp + tn <= total {
      AccuracyBound(tp + tn, total);
    }
  }

  lemma AccuracyBound(a: nat, total: nat)
    requires 0 < total && a <= total
    ensures 0.0 <= a as real / total as real * 100.0 <= 100.0
  {
    assert a as real / total as real <= 1.0;
  }

  /** With a true positive, F1 is 2TP / (2TP + FP + FN) in percent: it
      agrees with the closed form of the harmonic mean. */
  lemma AllCasesF1(tp: nat, fp: nat, fn: nat, tn: nat, total: nat)
    requires total > 0 && tp > 0
    ensures CalculateMetricsAllCases(tp, fp, fn, tn, total).value.f1 == 200.0 * tp as real / (2 * tp + fp + fn) as real
  {
    F1Harmonic(tp, fp, fn);
  }

  lemma RatioBounds(a: nat, b: nat)
    requires a <= b
    ensures 0.0 <= Ratio(a, b) <= 1.0
  {
  }

  /** With a true positive, the harmonic mean of precision and recall is
      2TP / (2TP + FP + FN). */
  lemma F1Harmonic(tp: nat, fp: nat, fn: nat)
    requires tp > 0
    ensures var p := Ratio(tp, tp + fp); var r := Ratio(tp, tp + fn);
      p + r > 0.0 && 2.0 * (p * r) / (p + r) * 100.0 == 200.0 * tp as real / (2 * tp + fp + fn) as real
  {
    var t, x, y := tp as real, fp as real, fn as real;
    var p := t / (t + x);
    var r := t / (t + y);
    assert p * (t + x) == t;
    assert r * (t + y) == t;
    var d := 2.0 * t + x + y;
    assert (p + r) * (t + x) * (t + y) == t * d;
    assert p * r * (t + x) * (t + y) == t * t;
    calc {
      2.0 * (p * r) / (p + r);
      2.0 * (p * r) * (t + x) * (t + y) / ((p + r) * (t + x) * (t + y));
      2.0 * t * t / (t * d);
      2.0 * t / d;
    }
  }

  /** The yes-only view: accuracy among the labeled-yes cases, in percent. */
  datatype YesOnlyMetrics = YesOnlyMetrics(accuracy: real, truePositive: nat, falseNegative: nat, totalYesCases: nat)

  /** `calculate_metrics_yes_only`: TP / total_yes, or 0 without yes cases;
      false positives and true negatives play no part. */
  function CalculateMetricsYesOnly(tp: nat, fn: nat, totalYes: nat): (r: YesOnlyMetrics)
    ensures r.truePositive == tp && r.falseNegative == fn && r.totalYesCases == totalYes
    ensures totalYes == 0 ==> r.accuracy == 0.0
    ensures tp <= totalYes ==> 0.0 <= r.accuracy <= 100.0
    ensures totalYes > 0 ==> r.accuracy * totalYes as real == 100.0 * tp as real
  {
    YesOnlyMetrics(Ratio(tp, totalYes) * 100.0, tp, fn, totalYes)
  }

  /** The three dicts of `analyze_questions`, keyed Q1..Q5. */
  datatype Analysis = Analysis(
    allMetrics: Dict<string, AllCasesMetrics>,
    yesOnly: Dict<string, YesOnlyMetrics>,
    rawCounts: Dict<string, Counts>)

  /** The outcome of `analyze_questions` on a non-empty frame, question
      by question. */
  predicate AnalysisAgrees(rows: seq<MergedRow>, a: Analysis, n: nat)
    requires n <= 5 && |rows| > 0
    requires |a.allMetrics| >= n && |a.yesOnly| >= n && |a.rawCounts| >= n
  {
    forall q :: 0 <= q < n ==>
      a.rawCounts[q] == (QuestionIds[q], Tally(rows, q)) &&
      a.allMetrics[q] == (QuestionIds[q], MetricsOf(Tally(rows, q), |rows|)) &&
      a.yesOnly[q] == (QuestionIds[q], YesOnlyOf(Tally(rows, q)))
  }

  function MetricsOf(c: Counts, total: nat): AllCasesMetrics
    requires total > 0
  {
    CalculateMetricsAllCases(c.tp, c.fp, c.fn, c.tn, total).value
  }

  function YesOnlyOf(c: Counts): YesOnlyMetrics
  {
    CalculateMetricsYesOnly(c.tp, c.fn, c.totalYes)
  }

  /** `analyze_questions` over the merged rows: for each question, in order,
      its counts and both metric views. An empty frame fails with the
      division error at the first question. */
  method AnalyzeQuestions(rows: seq<MergedRow>) returns (r: Result<Analysis, string>)
    ensures |rows| == 0 <==> r == Failure("division by zero")
    ensures r.Success? <==> |rows| > 0
    ensures r.Success? ==>
      Keys(r.value.allMetrics) == QuestionIds && Keys(r.value.yesOnly) == QuestionIds &&
      Keys(r.value.rawCounts) == QuestionIds && AnalysisAgrees(rows, r.value, 5)
  {
    var a := Analysis([], [], []);
    QuestionIdsDistinct();
    for q := 0 to 5
      invariant |a.allMetrics| == q && |a.yesOnly| == q && |a.rawCounts| == q
      invariant q > 0 ==> |rows| > 0 && AnalysisAgrees(rows, a, q)
    {
      var qLabel := QuestionIds[q];
      var c := Tally(rows, q);
      var metrics := CalculateMetricsAllCases(c.tp, c.fp, c.fn, c.tn, |rows|);
      if metrics.Failure? {
        return Failure(metrics.error);
      }
      AgreesStep(rows, a, q);
      a := Record(a, q, c, metrics.value, CalculateMetricsYesOnly(c.tp, c.fn, c.totalYes));
    }
    r := Success(a);
  }

  lemma AgreesStep(rows: seq<MergedRow>, a: Analysis, q: nat)
    requires q < 5 && |rows| > 0 && |a.allMetrics| == q && |a.yesOnly| == q && |a.rawCounts| == q
    requires AnalysisAgrees(rows, a, q)
    ensures var c := Tally(rows, q);
      AnalysisAgrees(rows, Analysis(a.allMetrics + [(QuestionIds[q], MetricsOf(c, |rows|))],
                                    a.yesOnly + [(QuestionIds[q], YesOnlyOf(c))],
                                    a.rawCounts + [(QuestionIds[q], c)]), q + 1)
  {
    var c := Tally(rows, q);
    var b := Analysis(a.allMetrics + [(QuestionIds[q], MetricsOf(c, |rows|))],
                      a.yesOnly + [(QuestionIds[q], YesOnlyOf(c))],
                      a.rawCounts + [(QuestionIds[q], c)]);
    forall j | 0 <= j < q
      ensures b.rawCounts[j] == a.rawCounts[j] && b.allMetrics[j] == a.allMetrics[j] && b.yesOnly[j] == a.yesOnly[j]
    {
    }
  }

  /** Storing the counts and metrics of question q under its label. */
  function Record(a: Analysis, q: nat, c: Counts, m: AllCasesMetrics, y: YesOnlyMetrics): (r: Analysis)
    requires q < 5 && |a.allMetrics| == q && |a.yesOnly| == q && |a.rawCounts| == q
    requires forall j :: 0 <= j < q ==>
      a.allMetrics[j].0 == QuestionIds[j] && a.yesOnly[j].0 == QuestionIds[j] && a.rawCounts[j].0 == QuestionIds[j]
    ensures r == Analysis(a.allMetrics + [(QuestionIds[q], m)], a.yesOnly + [(QuestionIds[q], y)],
                          a.rawCounts + [(QuestionIds[q], c)])
  {
    QuestionIdsDistinct();
    var qLabel := QuestionIds[q];
    assert KeyIndex(a.rawCounts, qLabel) < 0;
    assert KeyIndex(a.allMetrics, qLabel) < 0;
    assert KeyIndex(a.yesOnly, qLabel) < 0;
    Analysis(Put(a.allMetrics, qLabel, m), Put(a.yesOnly, qLabel, y), Put(a.rawCounts, qLabel, c))
  }

  /** The rows of the three result tables. */
  datatype RawRow = RawRow(question: string, counts: Counts)
  datatype AllCasesRow = AllCasesRow(question: string, accuracy: real, precision: real, recall: real, f1: real)
  datatype YesOnlyRow = YesOnlyRow(question: string, totalYesCases: nat, correctYesCases: nat, accuracy: real)

  predicate HasQuestionKeys<V>(d: Dict<string, V>)
  {
    forall q :: 0 <= q < 5 ==> KeyIndex(d, QuestionIds[q]) >= 0
  }

  function Lookup<V>(d: Dict<string, V>, q: nat): V
    requires q < 5 && HasQuestionKeys(d)
  {
    Get(d, QuestionIds[q]).value
  }

  /** The all-cases table's row for a question's metrics. */
  function AllCasesRowOf(question: string, m: AllCasesMetrics): AllCasesRow
  {
    AllCasesRow(question, m.accuracy, m.precision, m.recall, m.f1)
  }

  /** The yes-only table's row for a question's metrics: the correct yes
      cases are the true positives. */
  function YesOnlyRowOf(question: string, y: YesOnlyMetrics): YesOnlyRow
  {
    YesOnlyRow(question, y.totalYesCases, y.truePositive, y.accuracy)
  }

  /** `create_results_tables`: three tables of exactly five rows, Q1..Q5
      in order, each row read from the entry of its question. */
  method CreateResultsTables(a: Analysis) returns (raw: seq<RawRow>, allCases: seq<AllCasesRow>, yesOnly: seq<YesOnlyRow>)
    requires HasQuestionKeys(a.rawCounts) && HasQuestionKeys(a.allMetrics) && HasQuestionKeys(a.yesOnly)
    ensures |raw| == 5 && |allCases| == 5 && |yesOnly| == 5
    ensures forall q :: 0 <= q < 5 ==>
      raw[q] == RawRow(QuestionIds[q], Lookup(a.rawCounts, q)) &&
      allCases[q] == AllCasesRowOf(QuestionIds[q], Lookup(a.allMetrics, q)) &&
      yesOnly[q] == YesOnlyRowOf(QuestionIds[q], Lookup(a.yesOnly, q))
  {
    raw := [];
    for q := 0 to 5
      invariant |raw| == q
      invariant forall j :: 0 <= j < q ==> raw[j] == RawRow(QuestionIds[j], Lookup(a.rawCounts, j))
    {
      raw := raw + [RawRow(QuestionIds[q], Lookup(a.rawCounts, q))];
    }
    allCases := [];
    for q := 0 to 5
      invariant |allCases| == q
      invariant forall j :: 0 <= j < q ==> allCases[j] == AllCasesRowOf(QuestionIds[j], Lookup(a.allMetrics, j))
    {
      allCases := allCases + [AllCasesRowOf(QuestionIds[q], Lookup(a.allMetrics, q))];
    }
    yesOnly := [];
    for q := 0 to 5
      invariant |yesOnly| == q
      invariant forall j :: 0 <= j < q ==> yesOnly[j] == YesOnlyRowOf(QuestionIds[j], Lookup(a.yesOnly, j))
    {
      yesOnly := yesOnly + [YesOnlyRowOf(QuestionIds[q], Lookup(a.yesOnly, q))];
    }
  }

  /** The analysis `analyze_questions` returns has every question's entry,
      and each is found under its label. */
  lemma AnalysisLookup(rows: seq<MergedRow>, a: Analysis, q: nat)
    requires |rows| > 0 && q < 5
    requires Keys(a.allMetrics) == QuestionIds && Keys(a.yesOnly) == QuestionIds && Keys(a.rawCounts) == QuestionIds
    requires AnalysisAgrees(rows, a, 5)
    ensures HasQuestionKeys(a.rawCounts) && HasQuestionKeys(a.allMetrics) && HasQuestionKeys(a.yesOnly)
    ensures Lookup(a.rawCounts, q) == Tally(rows, q)
    ensures Lookup(a.allMetrics, q) == MetricsOf(Tally(rows, q), |rows|)
    ensures Lookup(a.yesOnly, q) == YesOnlyOf(Tally(rows, q))
  {
    QuestionIdsDistinct();
    assert DistinctKeys(a.rawCounts) && DistinctKeys(a.allMetrics) && DistinctKeys(a.yesOnly);
    forall j | 0 <= j < 5
      ensures KeyIndex(a.rawCounts, QuestionIds[j]) >= 0 && KeyIndex(a.allMetrics, QuestionIds[j]) >= 0
      ensures KeyIndex(a.yesOnly, QuestionIds[j]) >= 0
    {
      GetAt(a.rawCounts, j);
      GetAt(a.allMetrics, j);
      GetAt(a.yesOnly, j);
    }
    GetAt(a.rawCounts, q);
    GetAt(a.allMetrics, q);
    GetAt(a.yesOnly, q);
  }

  /** The merged frame of each conversation file that loaded; a file that
      failed to load or merge is skipped. */
  function MergedParts(labeled: seq<Row>, files: seq<Option<seq<Row>>>): (r: seq<seq<MergedRow>>)
    ensures |r| <= |files|
    ensures |r| == 0 <==> forall i :: 0 <= i < |files| ==> files[i].None?
  {
    if |files| == 0 then []
    else
      var init := MergedParts(labeled, files[..|files| - 1]);
      assert forall i :: 0 <= i < |files| - 1 ==> files[..|files| - 1][i] == files[i];
      init + (if files[|files| - 1].Some? then [Merge(labeled, files[|files| - 1].value)] else [])
  }

  /** What `main` ends with. */
  datatype ScoreOutcome =
    | NoFilesFound
    | NoResults
    | ScoreError(message: string)
    | Scored(combined: seq<MergedRow>, raw: seq<RawRow>, allCases: seq<AllCasesRow>, yesOnly: seq<YesOnlyRow>)

  /** The scoring part of `main`: each loaded file is merged with the
      labeled rows, the merged frames are concatenated, and the
      concatenation is scored once. No matched files is reported; matched
      files that all fail to load give no results; an empty concatenation
      ends in the division error. */
  method ScoreFiles(labeled: seq<Row>, files: seq<Option<seq<Row>>>) returns (out: ScoreOutcome)
    ensures |files| == 0 <==> out == NoFilesFound
    ensures out == NoResults <==> |files| > 0 && forall i :: 0 <= i < |files| ==> files[i].None?
    ensures out.ScoreError? <==> |files| > 0 && |MergedParts(labeled, files)| > 0 && |Flatten(MergedParts(labeled, files))| == 0
    ensures out.ScoreError? ==> out.message == "division by zero"
    ensures out.Scored? ==>
      out.combined == Flatten(MergedParts(labeled, files)) &&
      |out.raw| == 5 && |out.allCases| == 5 && |out.yesOnly| == 5 &&
      forall q :: 0 <= q < 5 ==>
        out.raw[q] == RawRow(QuestionIds[q], Tally(out.combined, q)) &&
        out.allCases[q] == AllCasesRowOf(QuestionIds[q], MetricsOf(Tally(out.combined, q), |out.combined|)) &&
        out.yesOnly[q] == YesOnlyRowOf(QuestionIds[q], YesOnlyOf(Tally(out.combined, q)))
  {
    if |files| == 0 {
      return NoFilesFound;
    }
    var allMerged: seq<seq<MergedRow>> := [];
    for i := 0 to |files|
      invariant allMerged == MergedParts(labeled, files[..i])
    {
      assert files[..i + 1][..i] == files[..i];
      if files[i].Some? {
        allMerged := allMerged + [Merge(labeled, files[i].value)];
      }
    }
    assert files[..|files|] == files;
    if |allMerged| == 0 {
      return NoResults;
    }
    var combined := Flatten(allMerged);
    var analysis := AnalyzeQuestions(combined);
    if analysis.Failure? {
      return ScoreError(analysis.error);
    }
    forall q | 0 <= q < 5
      ensures HasQuestionKeys(analysis.value.rawCounts) && HasQuestionKeys(analysis.value.allMetrics)
      ensures HasQuestionKeys(analysis.value.yesOnly)
      ensures Lookup(analysis.value.rawCounts, q) == Tally(combined, q)
      ensures Lookup(analysis.value.allMetrics, q) == MetricsOf(Tally(combined, q), |combined|)
      ensures Lookup(analysis.value.yesOnly, q) == YesOnlyOf(Tally(combined, q))
    {
      AnalysisLookup(combined, analysis.value, q);
    }
    var raw, allCases, yesOnly := CreateResultsTables(analysis.value);
    out := Scored(combined, raw, allCases, yesOnly);
  }

  /** The pooled counts of `main` are the per-file counts summed. */
  lemma ScoredCountsArePerFileSums(labeled: seq<Row>, files: seq<Option<seq<Row>>>, q: nat)
    requires q < 5
    ensures var parts := MergedParts(labeled, files);
      Tally(Flatten(parts), q) == SumCounts(FileTallies(parts, q))
  {
    TallyFlatten(MergedParts(labeled, files), q);
  }
}
