/** The all-questions agreement check of `evaluation/test.py`: a lenient
    answer comparison, per-file statistics, and accuracy pooled over files. */
module EvalTest {
  import opened Wrappers
  import opened Slices
  import opened Text
  import opened Labels
  import opened Report

  /** `str(v).strip().lower()`. */
  function Normalize(s: string): string
  {
    Lower(Strip(s))
  }

  lemma LowerKeepsNonWhitespace(c: char)
    requires c !in Whitespace
    ensures LowerChar(c) !in Whitespace
  {
  }

  /** Normalising twice is normalising once. */
  lemma NormalizeIdempotent(s: string)
    ensures Normalize(Normalize(s)) == Normalize(s)
  {
    var t := Strip(s);
    var l := Lower(t);
    if |l| > 0 {
      LowerKeepsNonWhitespace(t[0]);
      LowerKeepsNonWhitespace(t[|t| - 1]);
    }
    StripCharsNoop(l, Whitespace);
    LowerIdempotent(t);
  }

  /** `compare_answers`: after normalising both sides, two answers match
      when both start with "yes" or when they are equal; the special case
      for "no" is one of the equal ones. */
  function CompareAnswers(labeled: string, conv: string): (r: bool)
    ensures r <==> (StartsWith(Normalize(labeled), "yes") && StartsWith(Normalize(conv), "yes"))
                   || Normalize(labeled) == Normalize(conv)
  {
    var l := Normalize(labeled);
    var c := Normalize(conv);
    if l == "no" && c == "no" then true
    else if StartsWith(l, "yes") && StartsWith(c, "yes") then true
    else l == c
  }

  /** The comparison is an equivalence relation. */
  lemma CompareAnswersEquivalence(a: string, b: string, c: string)
    ensures CompareAnswers(a, a)
    ensures CompareAnswers(a, b) == CompareAnswers(b, a)
    ensures CompareAnswers(a, b) && CompareAnswers(b, c) ==> CompareAnswers(a, c)
  {
  }

  /** The comparison sees only the normalised text: surrounding whitespace
      and letter case on either side make no difference. */
  lemma CompareAnswersNormalized(a: string, b: string)
    ensures CompareAnswers(Normalize(a), b) == CompareAnswers(a, b)
    ensures CompareAnswers(a, Normalize(b)) == CompareAnswers(a, b)
  {
    NormalizeIdempotent(a);
    NormalizeIdempotent(b);
  }

  /** `check_all_answers`: all five question pairs of the row match. */
  predicate CheckAllAnswers(m: MergedRow)
  {
    forall i :: 0 <= i < 5 ==> CompareAnswers(m.labeled[i], m.conv[i])
  }

  /** A prediction identical to its label passes the row check. */
  lemma CheckAllAnswersReflexive(id: string, a: Answers)
    ensures CheckAllAnswers(MergedRow(id, a, a))
  {
    forall i | 0 <= i < 5 ensures CompareAnswers(a[i], a[i]) {
      CompareAnswersEquivalence(a[i], a[i], a[i]);
    }
  }

  /** The number of rows whose `all_correct` column is true. */
  function CountCorrect(rows: seq<MergedRow>): (r: nat)
    ensures r <= |rows|
    ensures r == |rows| <==> forall i :: 0 <= i < |rows| ==> CheckAllAnswers(rows[i])
  {
    if |rows| == 0 then 0
    else
      var rest := CountCorrect(rows[1..]);
      assert forall i :: 1 <= i < |rows| ==> rows[1..][i - 1] == rows[i];
      (if CheckAllAnswers(rows[0]) then 1 else 0) + rest
  }

  lemma {:induction false} CountCorrectAppend(a: seq<MergedRow>, b: seq<MergedRow>)
    ensures CountCorrect(a + b) == CountCorrect(a) + CountCorrect(b)
  {
    if |a| == 0 {
      assert a + b == b;
    } else {
      assert (a + b)[1..] == a[1..] + b;
      CountCorrectAppend(a[1..], b);
    }
  }

  /** `a / b * 100`: the share of a in b, in percent. */
  function Percent(a: nat, b: nat): (r: real)
    requires b > 0
    ensures a <= b ==> 0.0 <= r <= 100.0
    ensures r * b as real == 100.0 * a as real
  {
    var r := a as real / b as real * 100.0;
    assert a <= b ==> 0.0 <= r <= 100.0 by {
      if a <= b {
        AccuracyBound(a, b);
      }
    }
    r
  }

  /** The statistics of one file. */
  datatype FileStats = FileStats(totalAccuracy: real, totalCorrect: nat, totalRows: nat)

  /** The merged frame with its `all_correct` column. */
  function WithAllCorrect(rows: seq<MergedRow>): (r: seq<(MergedRow, bool)>)
    ensures |r| == |rows| && forall i :: 0 <= i < |rows| ==> r[i] == (rows[i], CheckAllAnswers(rows[i]))
  {
    seq(|rows|, i requires 0 <= i < |rows| => (rows[i], CheckAllAnswers(rows[i])))
  }

  /** `analyze_file`: no statistics and an empty frame when no row merges;
      otherwise the rows passing the all-questions check out of all merged
      rows, as a percentage. */
  function AnalyzeFile(conv: seq<Row>, labeled: seq<Row>): (r: (Option<FileStats>, seq<(MergedRow, bool)>))
    ensures |Merge(labeled, conv)| == 0 <==> r.0 == None
    ensures r.0 == None ==> r.1 == []
    ensures r.0.Some? ==>
      var s := r.0.value;
      s.totalRows == |Merge(labeled, conv)| > 0 && s.totalCorrect <= s.totalRows &&
      s.totalCorrect == CountCorrect(Merge(labeled, conv)) &&
      s.totalAccuracy == Percent(s.totalCorrect, s.totalRows) &&
      r.1 == WithAllCorrect(Merge(labeled, conv))
  {
    var merged := Merge(labeled, conv);
    var totalRows := |merged|;
    if totalRows == 0 then (None, [])
    else
      var frame := WithAllCorrect(merged);
      var totalCorrect := CountCorrect(merged);
      (Some(FileStats(Percent(totalCorrect, totalRows), totalCorrect, totalRows)), frame)
  }

  /** The overall result of `main`: correct rows, rows and accuracy over
      all files with statistics. */
  datatype Overall = Overall(totalCorrect: nat, totalRows: nat, accuracy: real)

  /** The merged frames of the files that produced statistics. */
  function MergedFrames(labeled: seq<Row>, files: seq<seq<Row>>): seq<seq<MergedRow>>
  {
    if |files| == 0 then []
    else
      var init := MergedFrames(labeled, files[..|files| - 1]);
      var m := Merge(labeled, files[|files| - 1]);
      init + (if |m| > 0 then [m] else [])
  }

  /** One more file adds its merged rows and correct rows to the pool
      when it merges at all. */
  lemma PooledStep(labeled: seq<Row>, files: seq<seq<Row>>, i: nat)
    requires i < |files|
    ensures var m := Merge(labeled, files[i]);
      var before := MergedFrames(labeled, files[..i]);
      var after := MergedFrames(labeled, files[..i + 1]);
      |after| == |before| + (if |m| > 0 then 1 else 0) &&
      |Flatten(after)| == |Flatten(before)| + |m| &&
      CountCorrect(Flatten(after)) == CountCorrect(Flatten(before)) + CountCorrect(m)
  {
    assert files[..i + 1][..i] == files[..i];
    var m := Merge(labeled, files[i]);
    var frames := MergedFrames(labeled, files[..i]);
    assert MergedFrames(labeled, files[..i + 1]) == frames + (if |m| > 0 then [m] else []);
    if |m| > 0 {
      FlattenAppend(frames, [m]);
      assert Flatten([m]) == m + Flatten([]);
      CountCorrectAppend(Flatten(frames), m);
    } else {
      assert frames + [] == frames;
    }
  }

  /** The pooled part of `main`: per-file correct and row counts are
      summed, and the final accuracy is the pooled ratio over all merged
      rows, not a mean of the per-file percentages. */
  method PooledAccuracy(labeled: seq<Row>, files: seq<seq<Row>>) returns (overall: Option<Overall>, results: seq<FileStats>)
    ensures |results| == |MergedFrames(labeled, files)|
    ensures overall.None? <==> |results| == 0
    ensures overall.Some? ==>
      var all := Flatten(MergedFrames(labeled, files));
      overall.value.totalRows == |all| > 0 &&
      overall.value.totalCorrect == CountCorrect(all) &&
      overall.value.accuracy == Percent(CountCorrect(all), |all|)
  {
    results := [];
    var correctSum, rowSum := 0, 0;
    ghost var frames: seq<seq<MergedRow>> := [];
    for i := 0 to |files|
      invariant frames == MergedFrames(labeled, files[..i])
      invariant |results| == |frames| && rowSum == |Flatten(frames)| && correctSum == CountCorrect(Flatten(frames))
      invariant |results| > 0 ==> rowSum > 0
    {
      PooledStep(labeled, files, i);
      var (stats, frame) := AnalyzeFile(files[i], labeled);
      if stats.Some? {
        results := results + [stats.value];
        correctSum := correctSum + stats.value.totalCorrect;
        rowSum := rowSum + stats.value.totalRows;
      }
      frames := MergedFrames(labeled, files[..i + 1]);
    }
    assert files[..|files|] == files;
    if |results| == 0 {
      return None, results;
    }
    overall := Some(Overall(correctSum, rowSum, Percent(correctSum, rowSum)));
  }
}
