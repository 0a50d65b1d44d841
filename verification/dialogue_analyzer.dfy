/** The batch pipeline of `src/client/dialogue_analyzer.py`: dialogue
    formatting, one model call per batch, the pass over the raw batch
    records, and the comparison of the model's answers with the original
    labels. The model is two functions: one that answers a prompt and one
    that formats that answer under a batch name. */
module DialogueAnalyzer {
  import opened Wrappers
  import opened Slices
  import opened Text
  import opened PyDict
  import opened Turns
  import Report

  /** A conversation as loaded: its id, its utterances, and its labels
      (question key to label text) when it has a `questions` entry. */
  datatype Conversation = Conversation(originalId: string, dialogue: seq<Turn>, questions: Option<Dict<string, string>>)

  /** The two header lines that open a formatted dialogue. */
  function Header(id: string): string
  {
    "\nConversation ID: " + id + "\n" + "Dialogue:\n"
  }

  /** One `speaker: text` line per utterance, each ended by a newline. */
  function UtteranceLines(us: seq<Turn>): string
  {
    if |us| == 0 then "" else UtteranceLines(us[..|us| - 1]) + TurnLine(us[|us| - 1]) + "\n"
  }

  function FormattedDialogue(c: Conversation): string
  {
    Header(c.originalId) + UtteranceLines(c.dialogue)
  }

  /** `format_dialogue`: the header, then the utterance lines appended one
      at a time. */
  method FormatDialogue(c: Conversation) returns (text: string)
    ensures text == FormattedDialogue(c)
  {
    text := "\nConversation ID: " + c.originalId + "\n";
    text := text + "Dialogue:\n";
    for i := 0 to |c.dialogue|
      invariant text == Header(c.originalId) + UtteranceLines(c.dialogue[..i])
    {
      assert c.dialogue[..i + 1][..i] == c.dialogue[..i];
      text := text + TurnLine(c.dialogue[i]) + "\n";
    }
    assert c.dialogue[..|c.dialogue|] == c.dialogue;
  }

  /** The lines of a formatted dialogue: an empty first line, the id line,
      the `Dialogue:` line, one line per utterance, and the empty line the
      final newline leaves. */
  function DialogueLines(c: Conversation): (ls: seq<string>)
    ensures |ls| == |c.dialogue| + 4
  {
    ["", "Conversation ID: " + c.originalId, "Dialogue:"]
      + seq(|c.dialogue|, i requires 0 <= i < |c.dialogue| => TurnLine(c.dialogue[i]))
      + [""]
  }

  function HeaderLines(id: string): seq<string>
  {
    ["", "Conversation ID: " + id, "Dialogue:"]
  }

  function TurnLines(us: seq<Turn>): (ls: seq<string>)
    ensures |ls| == |us|
  {
    seq(|us|, i requires 0 <= i < |us| => TurnLine(us[i]))
  }

  lemma HeaderJoin(id: string)
    ensures Join("\n", HeaderLines(id)) + "\n" == Header(id)
  {
    var h := HeaderLines(id);
    assert h[1..][1..] == ["Dialogue:"];
    assert Join("\n", h[1..]) == "Conversation ID: " + id + "\n" + "Dialogue:";
  }

  lemma {:induction false} JoinedHeaderAndTurns(id: string, us: seq<Turn>)
    ensures Join("\n", HeaderLines(id) + TurnLines(us)) + "\n" == Header(id) + UtteranceLines(us)
    decreases |us|
  {
    if |us| == 0 {
      assert HeaderLines(id) + TurnLines(us) == HeaderLines(id);
      HeaderJoin(id);
    } else {
      var init := us[..|us| - 1];
      var line := TurnLine(us[|us| - 1]);
      var before := HeaderLines(id) + TurnLines(init);
      assert HeaderLines(id) + TurnLines(us) == before + [line];
      JoinSnoc("\n", before, line);
      JoinedHeaderAndTurns(id, init);
      assert UtteranceLines(us) == UtteranceLines(init) + line + "\n";
    }
  }

  lemma DialogueIsLineJoin(c: Conversation)
    ensures FormattedDialogue(c) == Join("\n", DialogueLines(c))
  {
    var hs := HeaderLines(c.originalId) + TurnLines(c.dialogue);
    JoinedHeaderAndTurns(c.originalId, c.dialogue);
    assert DialogueLines(c) == hs + [""];
    JoinSnoc("\n", hs, "");
  }

  /** When neither the id nor any speaker or text holds a newline, the
      formatted dialogue splits back into exactly its lines: the header,
      one line per utterance in order, and nothing else. */
  lemma FormattedDialogueLines(c: Conversation)
    requires NoNewline(c.originalId)
    requires forall t :: t in c.dialogue ==> NoNewline(t.speaker) && NoNewline(t.text)
    ensures Split(FormattedDialogue(c), "\n") == DialogueLines(c)
  {
    var ls := DialogueLines(c);
    DialogueIsLineJoin(c);
    forall k, i | 0 <= k < |ls| && 0 <= i < |ls[k]| ensures ls[k][i] != '\n' {
      DialogueLinesNoNewline(c, k);
    }
    SplitJoinChar(ls, '\n');
  }

  function FormattedBatch(convs: seq<Conversation>): (fs: seq<string>)
    ensures |fs| == |convs|
  {
    seq(|convs|, i requires 0 <= i < |convs| => FormattedDialogue(convs[i]))
  }

  function BatchPrompt(convs: seq<Conversation>): string
  {
    Join("\n", FormattedBatch(convs))
  }

  /** `prepare_batch_prompt`: the formatted conversations, in order,
      joined by newlines. */
  method PrepareBatchPrompt(convs: seq<Conversation>) returns (prompt: string)
    ensures prompt == BatchPrompt(convs)
  {
    var formatted: seq<string> := [];
    for i := 0 to |convs|
      invariant formatted == FormattedBatch(convs[..i])
    {
      var f := FormatDialogue(convs[i]);
      formatted := formatted + [f];
    }
    assert convs[..|convs|] == convs;
    prompt := Join("\n", formatted);
  }

  /** The lines of a batch prompt, conversation after conversation. */
  function BatchLines(convs: seq<Conversation>): seq<string>
  {
    if |convs| == 0 then [] else BatchLines(convs[..|convs| - 1]) + DialogueLines(convs[|convs| - 1])
  }

  /** A non-empty batch prompt whose ids, speakers and texts hold no
      newline splits into the lines of each conversation in batch order:
      the joining newlines separate the conversations and lose nothing. */
  lemma {:induction false} BatchPromptLines(convs: seq<Conversation>)
    requires |convs| > 0
    requires forall c :: c in convs ==> NoNewline(c.originalId)
    requires forall c, t :: c in convs && t in c.dialogue ==> NoNewline(t.speaker) && NoNewline(t.text)
    ensures Split(BatchPrompt(convs), "\n") == BatchLines(convs)
  {
    var ls := BatchLines(convs);
    BatchPromptIsLineJoin(convs);
    forall k, i | 0 <= k < |ls| && 0 <= i < |ls[k]| ensures ls[k][i] != '\n' {
      BatchLinesNoNewline(convs, k);
    }
    SplitJoinChar(ls, '\n');
  }

  lemma {:induction false} BatchLinesNoNewline(convs: seq<Conversation>, k: nat)
    requires forall c :: c in convs ==> NoNewline(c.originalId)
    requires forall c, t :: c in convs && t in c.dialogue ==> NoNewline(t.speaker) && NoNewline(t.text)
    requires k < |BatchLines(convs)|
    ensures NoNewline(BatchLines(convs)[k])
    decreases |convs|
  {
    var init := convs[..|convs| - 1];
    var c := convs[|convs| - 1];
    assert c in convs;
    if k < |BatchLines(init)| {
      assert forall x :: x in init ==> x in convs;
      BatchLinesNoNewline(init, k);
    } else {
      DialogueLinesNoNewline(c, k - |BatchLines(init)|);
    }
  }

  lemma DialogueLinesNoNewline(c: Conversation, k: nat)
    requires NoNewline(c.originalId)
    requires forall t :: t in c.dialogue ==> NoNewline(t.speaker) && NoNewline(t.text)
    requires k < |DialogueLines(c)|
    ensures NoNewline(DialogueLines(c)[k])
  {
    var l := DialogueLines(c)[k];
    if k == 1 {
      forall i | 0 <= i < |l| ensures l[i] != '\n' {
        if i >= 17 {
          assert l[i] == c.originalId[i - 17];
        }
      }
    } else if 3 <= k < |DialogueLines(c)| - 1 {
      assert c.dialogue[k - 3] in c.dialogue;
      TurnLineNoNewline(c.dialogue[k - 3]);
    }
  }

  lemma {:induction false} BatchPromptIsLineJoin(convs: seq<Conversation>)
    requires |convs| > 0
    ensures BatchPrompt(convs) == Join("\n", BatchLines(convs))
    decreases |convs|
  {
    var init := convs[..|convs| - 1];
    var c := convs[|convs| - 1];
    var ls := DialogueLines(c);
    DialogueIsLineJoin(c);
    if |init| == 0 {
      assert BatchLines(init) == [];
      assert BatchLines(convs) == ls;
      assert FormattedBatch(convs) == [FormattedDialogue(c)];
    } else {
      BatchPromptIsLineJoin(init);
      assert BatchLines(convs) == BatchLines(init) + ls;
      assert |BatchLines(init)| >= 1 by {
        var i0 := init[..|init| - 1];
        assert BatchLines(init) == BatchLines(i0) + DialogueLines(init[|init| - 1]);
      }
      assert FormattedBatch(convs) == FormattedBatch(init) + [FormattedDialogue(c)];
      JoinSnoc("\n", FormattedBatch(init), FormattedDialogue(c));
      JoinConcat("\n", BatchLines(init), ls);
    }
  }

  /** The answer list of `raw_response["analysis"]["questions"]`, one
      answer per question position. */
  datatype Analysis = Analysis(answers: seq<string>)

  /** The formatted model response: its `analysis` and `file_path`
      entries, each possibly missing. */
  datatype RawResponse = RawResponse(analysis: Option<Analysis>, filePath: Option<string>)

  /** The record `process_batch` returns for one batch. */
  datatype BatchRecord =
    | BatchError(error: string, conversations: seq<string>)
    | BatchSuccess(conversations: seq<string>, rawResponse: RawResponse, originalLabels: Dict<string, Dict<string, string>>)

  function Ids(convs: seq<Conversation>): (ids: seq<string>)
    ensures |ids| == |convs| && forall i :: 0 <= i < |convs| ==> ids[i] == convs[i].originalId
  {
    seq(|convs|, i requires 0 <= i < |convs| => convs[i].originalId)
  }

  /** `conv.get("questions", {})`. */
  function LabelsOf(c: Conversation): Dict<string, string>
  {
    if c.questions.Some? then c.questions.value else []
  }

  function LabelPairs(convs: seq<Conversation>): (ps: seq<(string, Dict<string, string>)>)
    ensures |ps| == |convs| && forall i :: 0 <= i < |convs| ==> ps[i] == (convs[i].originalId, LabelsOf(convs[i]))
  {
    seq(|convs|, i requires 0 <= i < |convs| => (convs[i].originalId, LabelsOf(convs[i])))
  }

  const IndexErrorMessage: string := "list index out of range"

  /** `process_batch`: the model answers the batch prompt; the batch name
      comes from the first conversation (an empty batch fails there); the
      answer is formatted under that name. Any failure becomes an error
      record; both kinds of record list the batch's conversation ids. */
  function ProcessBatch<R>(convs: seq<Conversation>, ask: string -> Result<R, string>,
                           format: (R, string) -> Result<RawResponse, string>): (r: BatchRecord)
    ensures r.conversations == Ids(convs)
    ensures r.BatchSuccess? <==>
      |convs| > 0 && ask(BatchPrompt(convs)).Success? &&
      format(ask(BatchPrompt(convs)).value, "batch_" + convs[0].originalId).Success?
    ensures ask(BatchPrompt(convs)).Failure? ==> r == BatchError(ask(BatchPrompt(convs)).error, Ids(convs))
    ensures ask(BatchPrompt(convs)).Success? && |convs| == 0 ==> r == BatchError(IndexErrorMessage, [])
    ensures r.BatchSuccess? ==>
      r.rawResponse == format(ask(BatchPrompt(convs)).value, "batch_" + convs[0].originalId).value
  {
    var prompt := BatchPrompt(convs);
    var answer := ask(prompt);
    if answer.Failure? then BatchError(answer.error, Ids(convs))
    else if |convs| == 0 then BatchError(IndexErrorMessage, Ids(convs))
    else
      var formatted := format(answer.value, "batch_" + convs[0].originalId);
      if formatted.Failure? then BatchError(formatted.error, Ids(convs))
      else BatchSuccess(Ids(convs), formatted.value, FromPairs(LabelPairs(convs)))
  }

  /** The labels of a successful batch map each conversation id to the
      labels of the last conversation with that id (or `{}` when it has
      none), and no id repeats. When the ids are distinct, each
      conversation's own labels are found under its id. */
  lemma ProcessBatchLabels<R>(convs: seq<Conversation>, ask: string -> Result<R, string>,
                              format: (R, string) -> Result<RawResponse, string>, id: string)
    requires ProcessBatch(convs, ask, format).BatchSuccess?
    ensures var labels := ProcessBatch(convs, ask, format).originalLabels;
      Get(labels, id) == LastValue(LabelPairs(convs), id) && DistinctKeys(labels) &&
      ((forall a, b :: 0 <= a < b < |convs| ==> convs[a].originalId != convs[b].originalId) ==>
         forall i :: 0 <= i < |convs| ==> Get(labels, convs[i].originalId) == Some(LabelsOf(convs[i])))
  {
    var ps := LabelPairs(convs);
    FromPairsGet(ps, id);
    if forall a, b :: 0 <= a < b < |convs| ==> convs[a].originalId != convs[b].originalId {
      forall i | 0 <= i < |convs| ensures Get(FromPairs(ps), convs[i].originalId) == Some(LabelsOf(convs[i])) {
        FromPairsGet(ps, convs[i].originalId);
        LastValueAt(ps, i);
      }
    }
  }

  /** An entry of `analyze_raw_results`. */
  datatype AnalyzedBatch =
    | Failed(error: string, conversations: seq<string>)
    | Analyzed(conversations: seq<string>, originalLabels: Dict<string, Dict<string, string>>,
               analysis: Analysis, rawResponseId: Option<string>)

  /** The message of the `KeyError` for a missing `analysis` entry. */
  const MissingAnalysis: string := "'analysis'"

  /** One step of `analyze_raw_results`: an error record passes through;
      a success record without an analysis becomes an error that keeps its
      conversations; otherwise the analysis is taken out. */
  function AnalyzeBatch(b: BatchRecord): (r: AnalyzedBatch)
    ensures r.conversations == b.conversations
    ensures r.Failed? <==> b.BatchError? || b.rawResponse.analysis.None?
    ensures b.BatchError? ==> r == Failed(b.error, b.conversations)
    ensures r.Analyzed? ==>
      r.originalLabels == b.originalLabels && r.analysis == b.rawResponse.analysis.value &&
      r.rawResponseId == b.rawResponse.filePath
  {
    match b
    case BatchError(e, cs) => Failed(e, cs)
    case BatchSuccess(cs, raw, labels) =>
      if raw.analysis.None? then Failed(MissingAnalysis, cs)
      else Analyzed(cs, labels, raw.analysis.value, raw.filePath)
  }

  /** `analyze_raw_results`: one entry per record, in order. */
  method AnalyzeRawResults(raw: seq<BatchRecord>) returns (analyzed: seq<AnalyzedBatch>)
    ensures |analyzed| == |raw|
    ensures forall i :: 0 <= i < |raw| ==> analyzed[i] == AnalyzeBatch(raw[i])
  {
    analyzed := [];
    for i := 0 to |raw|
      invariant |analyzed| == i
      invariant forall j :: 0 <= j < i ==> analyzed[j] == AnalyzeBatch(raw[j])
    {
      analyzed := analyzed + [AnalyzeBatch(raw[i])];
    }
  }

  /** A label that disagrees with the model's (lower-cased) answer. */
  datatype Discrepancy = Discrepancy(conversationId: string, question: string, originalLabel: string, modelAnswer: string)

  /** The counters of `compare_results`, with the per-question `correct`
      and `total` counts for Q1..Q5 at positions 0..4. */
  datatype Comparison = Comparison(totalConversations: nat, successful: nat, failed: nat,
                                   correct: seq<nat>, total: seq<nat>, discrepancies: seq<Discrepancy>)

  predicate Shaped(m: Comparison)
  {
    |m.correct| == 5 && |m.total| == 5
  }

  function Sum5(s: seq<nat>): nat
    requires |s| == 5
  {
    s[0] + s[1] + s[2] + s[3] + s[4]
  }

  /** Every question's correct count is within its total, and every
      question scored is either correct or a discrepancy. */
  predicate Consistent(m: Comparison)
  {
    Shaped(m) && (forall k :: 0 <= k < 5 ==> m.correct[k] <= m.total[k]) &&
    Sum5(m.correct) + |m.discrepancies| == Sum5(m.total)
  }

  const Initial: Comparison := Comparison(0, 0, 0, [0, 0, 0, 0, 0], [0, 0, 0, 0, 0], [])

  /** `bool(original_value) == bool("no" not in model_answer)`: a
      non-empty label (even "No") stands for yes, and an answer stands for
      yes when its lower-cased text has no "no" in it. */
  predicate Agrees(value: string, answer: string)
  {
    value != "" <==> !Contains(Lower(answer), "no")
  }

  /** Scoring one label against the model's answer to the same question. */
  function Judge(m: Comparison, k: nat, convId: string, key: string, value: string, answer: string): (r: Comparison)
    requires Shaped(m) && k < 5
    ensures Shaped(r)
    ensures Consistent(m) ==> Consistent(r)
    ensures r.total == m.total[k := m.total[k] + 1]
    ensures Agrees(value, answer) ==> r.correct == m.correct[k := m.correct[k] + 1] && r.discrepancies == m.discrepancies
    ensures !Agrees(value, answer) ==>
      r.correct == m.correct && r.discrepancies == m.discrepancies + [Discrepancy(convId, key, value, Lower(answer))]
  {
    var t := m.(total := m.total[k := m.total[k] + 1]);
    if Agrees(value, answer) then t.(correct := t.correct[k := t.correct[k] + 1])
    else t.(discrepancies := t.discrepancies + [Discrepancy(convId, key, value, Lower(answer))])
  }

  /** The first n labels of one conversation scored in order; label i is
      question Q(i+1) and is judged against answer i. */
  function ScoreLabels(m: Comparison, convId: string, labels: Dict<string, string>, answers: seq<string>, n: nat): (r: Comparison)
    requires Shaped(m) && n <= |labels| && n <= 5 && n <= |answers|
    ensures Shaped(r)
    ensures Consistent(m) ==> Consistent(r)
    ensures Sum5(r.total) == Sum5(m.total) + n
    ensures r.totalConversations == m.totalConversations && r.successful == m.successful && r.failed == m.failed
  {
    if n == 0 then m
    else
      var prev := ScoreLabels(m, convId, labels, answers, n - 1);
      Judge(prev, n - 1, convId, labels[n - 1].0, labels[n - 1].1, answers[n - 1])
  }

  /** `compare_results` fails on a conversation with more labels than
      there are questions (no key `Q6`) or than the model gave answers. */
  predicate Scorable(labels: Dict<string, Dict<string, string>>, answers: seq<string>, n: nat)
    requires n <= |labels|
  {
    forall j :: 0 <= j < n ==> |labels[j].1| <= 5 && |labels[j].1| <= |answers|
  }

  /** The first n conversations of a batch: each counts once and has all
      its labels scored against the batch's one answer list. */
  function ScoreConversations(m: Comparison, labels: Dict<string, Dict<string, string>>, answers: seq<string>, n: nat): (r: Comparison)
    requires Shaped(m) && n <= |labels| && Scorable(labels, answers, n)
    ensures Shaped(r)
    ensures Consistent(m) ==> Consistent(r)
    ensures r.totalConversations == m.totalConversations + n
    ensures r.successful == m.successful && r.failed == m.failed
  {
    if n == 0 then m
    else
      var prev := ScoreConversations(m, labels, answers, n - 1);
      var entry := labels[n - 1];
      ScoreLabels(prev.(totalConversations := prev.totalConversations + 1), entry.0, entry.1, answers, |entry.1|)
  }

  predicate BatchScorable(b: AnalyzedBatch)
  {
    b.Failed? || Scorable(b.originalLabels, b.analysis.answers, |b.originalLabels|)
  }

  /** One batch of `compare_results`. */
  function BatchStep(m: Comparison, b: AnalyzedBatch): (r: Comparison)
    requires Shaped(m) && BatchScorable(b)
    ensures Shaped(r)
    ensures Consistent(m) ==> Consistent(r)
    ensures b.Failed? ==> r == m.(failed := m.failed + |b.conversations|)
    ensures b.Analyzed? ==>
      r.successful == m.successful + |b.conversations| && r.failed == m.failed &&
      r.totalConversations == m.totalConversations + |b.originalLabels|
  {
    if b.Failed? then m.(failed := m.failed + |b.conversations|)
    else
      ScoreConversations(m.(successful := m.successful + |b.conversations|), b.originalLabels, b.analysis.answers, |b.originalLabels|)
  }

  /** The counters after all the batches. */
  function Compared(bs: seq<AnalyzedBatch>): (r: Comparison)
    requires forall i :: 0 <= i < |bs| ==> BatchScorable(bs[i])
    ensures Consistent(r)
  {
    if |bs| == 0 then Initial
    else BatchStep(Compared(bs[..|bs| - 1]), bs[|bs| - 1])
  }

  function FailedConversations(bs: seq<AnalyzedBatch>): nat
  {
    if |bs| == 0 then 0
    else FailedConversations(bs[..|bs| - 1]) + (if bs[|bs| - 1].Failed? then |bs[|bs| - 1].conversations| else 0)
  }

  function SuccessfulConversations(bs: seq<AnalyzedBatch>): nat
  {
    if |bs| == 0 then 0
    else SuccessfulConversations(bs[..|bs| - 1]) + (if bs[|bs| - 1].Analyzed? then |bs[|bs| - 1].conversations| else 0)
  }

  function LabeledConversations(bs: seq<AnalyzedBatch>): nat
  {
    if |bs| == 0 then 0
    else LabeledConversations(bs[..|bs| - 1]) + (if bs[|bs| - 1].Analyzed? then |bs[|bs| - 1].originalLabels| else 0)
  }

  /** Error batches add their conversations to the failed count and the
      others to the successful count; the conversation total counts value
      entries of successful batches. */
  lemma {:induction false} ComparedCounts(bs: seq<AnalyzedBatch>)
    requires forall i :: 0 <= i < |bs| ==> BatchScorable(bs[i])
    ensures Compared(bs).failed == FailedConversations(bs)
    ensures Compared(bs).successful == SuccessfulConversations(bs)
    ensures Compared(bs).totalConversations == LabeledConversations(bs)
  {
    if |bs| > 0 {
      ComparedCounts(bs[..|bs| - 1]);
    }
  }

  /** The summary `compare_results` returns: the counters and each
      question's accuracy. */
  datatype Summary = Summary(counts: Comparison, accuracy: seq<real>)

  /** Each question's accuracy: correct over total, or 0 with no total. */
  function Accuracies(m: Comparison): (r: seq<real>)
    requires Consistent(m)
    ensures |r| == 5
    ensures forall k :: 0 <= k < 5 ==> r[k] == QuestionAccuracy(m.correct[k], m.total[k])
  {
    seq(5, k requires 0 <= k < 5 => QuestionAccuracy(m.correct[k], m.total[k]))
  }

  function QuestionAccuracy(correct: nat, total: nat): (r: real)
    requires correct <= total
    ensures 0.0 <= r <= 1.0 && r * total as real == correct as real
    ensures total == 0 ==> r == 0.0
  {
    Report.RatioBounds(correct, total);
    Report.Ratio(correct, total)
  }

  /** `compare_results`: None where the source raises (a conversation
      with a sixth value or more labels than answers); otherwise the
      counters of all batches and the accuracies. */
  method CompareResults(bs: seq<AnalyzedBatch>) returns (r: Option<Summary>)
    ensures r.None? <==> exists i :: 0 <= i < |bs| && !BatchScorable(bs[i])
    ensures r.Some? ==> r.value.counts == Compared(bs) && r.value.accuracy == Accuracies(Compared(bs))
  {
    var m := Initial;
    for i := 0 to |bs|
      invariant forall j :: 0 <= j < i ==> BatchScorable(bs[j])
      invariant m == Compared(bs[..i])
    {
      var ok;
      ok, m := CompareBatch(m, bs[i]);
      if !ok {
        return None;
      }
      ComparedStep(bs, i);
    }
    assert bs[..|bs|] == bs;
    r := Some(Summary(m, Accuracies(m)));
  }

  /** One batch of the loop of `compare_results`: a failed batch adds its
      conversations to the failures; an analysed one to the successes,
      and its labels are scored. */
  method CompareBatch(m0: Comparison, b: AnalyzedBatch) returns (ok: bool, m: Comparison)
    requires Shaped(m0)
    ensures ok <==> BatchScorable(b)
    ensures ok ==> m == BatchStep(m0, b)
  {
    if b.Failed? {
      return true, m0.(failed := m0.failed + |b.conversations|);
    }
    ok, m := ScoreBatch(m0.(successful := m0.successful + |b.conversations|), b.originalLabels, b.analysis.answers);
  }

  lemma ComparedStep(bs: seq<AnalyzedBatch>, i: nat)
    requires i < |bs| && forall j :: 0 <= j <= i ==> BatchScorable(bs[j])
    ensures Compared(bs[..i + 1]) == BatchStep(Compared(bs[..i]), bs[i])
  {
    assert bs[..i + 1][..i] == bs[..i];
  }

  /** Whether `compare_results` can score every label of one conversation. */
  predicate LabelsFit(labels: Dict<string, string>, answers: seq<string>)
  {
    |labels| <= 5 && |labels| <= |answers|
  }

  lemma ScorableStep(labels: Dict<string, Dict<string, string>>, answers: seq<string>, j: nat)
    requires j < |labels| && Scorable(labels, answers, j) && LabelsFit(labels[j].1, answers)
    ensures Scorable(labels, answers, j + 1)
  {
    forall i | 0 <= i < j + 1 ensures |labels[i].1| <= 5 && |labels[i].1| <= |answers| {
      if i < j {
        assert Scorable(labels, answers, j);
      }
    }
  }

  lemma ScoreConversationsStep(m0: Comparison, labels: Dict<string, Dict<string, string>>, answers: seq<string>, j: nat)
    requires Shaped(m0) && j < |labels| && Scorable(labels, answers, j + 1)
    ensures var prev := ScoreConversations(m0, labels, answers, j);
      ScoreConversations(m0, labels, answers, j + 1) ==
      ScoreLabels(prev.(totalConversations := prev.totalConversations + 1), labels[j].0, labels[j].1, answers, |labels[j].1|)
  {
    assert Scorable(labels, answers, j);
  }

  lemma UnscorableAt(labels: Dict<string, Dict<string, string>>, answers: seq<string>, j: nat)
    requires j < |labels| && !LabelsFit(labels[j].1, answers)
    ensures !Scorable(labels, answers, |labels|)
  {
  }

  method ScoreBatch(m0: Comparison, labels: Dict<string, Dict<string, string>>, answers: seq<string>)
    returns (ok: bool, m: Comparison)
    requires Shaped(m0)
    ensures ok <==> Scorable(labels, answers, |labels|)
    ensures ok ==> m == ScoreConversations(m0, labels, answers, |labels|)
  {
    m := m0;
    for j := 0 to |labels|
      invariant Scorable(labels, answers, j)
      invariant m == ScoreConversations(m0, labels, answers, j)
    {
      var entry := labels[j];
      var counted := m.(totalConversations := m.totalConversations + 1);
      ok, m := ScoreConversation(counted, entry.0, entry.1, answers);
      if !ok {
        UnscorableAt(labels, answers, j);
        return;
      }
      ScorableStep(labels, answers, j);
      ScoreConversationsStep(m0, labels, answers, j);
    }
    ok := true;
  }

  method ScoreConversation(m0: Comparison, convId: string, labels: Dict<string, string>, answers: seq<string>)
    returns (ok: bool, m: Comparison)
    requires Shaped(m0)
    ensures ok <==> LabelsFit(labels, answers)
    ensures ok ==> m == ScoreLabels(m0, convId, labels, answers, |labels|)
  {
    m := m0;
    for k := 0 to |labels|
      invariant k <= 5 && k <= |answers|
      invariant m == ScoreLabels(m0, convId, labels, answers, k)
    {
      if k >= 5 || k >= |answers| {
        return false, m;
      }
      m := Judge(m, k, convId, labels[k].0, labels[k].1, answers[k]);
    }
    ok := true;
  }
}
