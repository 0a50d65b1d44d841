/** The marker-based answer extraction of `src/ml/prompt_ollama.py`: five
    YES/NO questions Q1..Q5 put to a language model, with an evidence
    question asked only after a YES. The model is the `generate` parameter,
    a function from prompt to response. */
module PromptOllama {
  import opened Wrappers
  import opened Slices
  import opened Text
  import opened PyDict
  import opened Turns
  import opened Labels

  /** A conversation as loaded: its id and its turns. */
  datatype Conversation = Conversation(conversationId: string, turns: seq<Turn>)

  /** A prompt template with its single `{conversation}` slot: the text
      before the slot and the text after it. */
  datatype Template = Template(before: string, after: string)

  /** `template.format(conversation=text)`. */
  function Render(t: Template, text: string): (r: string)
    ensures |r| == |t.before| + |text| + |t.after|
    ensures r[|t.before|..|t.before| + |text|] == text
  {
    t.before + text + t.after
  }

  /** The two prompt tables, YES_NO_PROMPTS and EVIDENCE_PROMPTS, each in
      the order Q1..Q5. */
  datatype PromptTables = PromptTables(yesNo: seq<Template>, evidence: seq<Template>)

  predicate ValidTables(p: PromptTables)
  {
    |p.yesNo| == 5 && |p.evidence| == 5
  }

  const NoEvidence: string := "No evidence found in conversation"

  const EvidenceNotFound: string := "Evidence not found"

  const EvidenceMarker: string := "Evidence:"

  /** The rendered lines of a conversation, one per turn. */
  function ConversationLines(c: Conversation): (ls: seq<string>)
    ensures |ls| == |c.turns|
  {
    seq(|c.turns|, i requires 0 <= i < |c.turns| => TurnLine(c.turns[i]))
  }

  /** `format_conversation`: the turn lines joined by newlines. */
  function FormatConversation(c: Conversation): (r: string)
    ensures |c.turns| == 0 <==> r == []
  {
    Join("\n", ConversationLines(c))
  }

  /** When no speaker or text holds a newline, the formatted conversation
      has exactly one line per turn, in turn order, and no trailing
      newline: splitting it on newlines gives the turn lines back. */
  lemma FormatConversationLines(c: Conversation)
    requires |c.turns| > 0
    requires forall t :: t in c.turns ==> NoNewline(t.speaker) && NoNewline(t.text)
    ensures Split(FormatConversation(c), "\n") == ConversationLines(c)
  {
    var ls := ConversationLines(c);
    forall k | 0 <= k < |ls| ensures NoNewline(ls[k]) {
      assert c.turns[k] in c.turns;
      TurnLineNoNewline(c.turns[k]);
    }
    SplitJoinChar(ls, '\n');
  }

  /** `get_yes_no_answer`, given the model's response: YES exactly when the
      upper-cased response contains YES anywhere. */
  function YesNoAnswer(response: string): (r: string)
    ensures r == "YES" || r == "NO"
    ensures r == "YES" <==> Contains(Upper(response), "YES")
  {
    if Contains(Upper(response), "YES") then "YES" else "NO"
  }

  /** The parse ignores case: any ASCII spelling of "yes" counts. */
  lemma YesNoAnswerIgnoresCase(response: string)
    ensures YesNoAnswer(Lower(response)) == YesNoAnswer(response)
    ensures YesNoAnswer(Upper(response)) == YesNoAnswer(response)
  {
    assert Upper(Lower(response)) == Upper(response);
    assert Upper(Upper(response)) == Upper(response);
  }

  /** The substring test does not look for a word: "yesterday" is a YES. */
  lemma YesterdayIsYes()
    ensures YesNoAnswer("I saw them yesterday") == "YES"
  {
    var u := Upper("I saw them yesterday");
    assert u[11..14] == "YES";
    assert OccursAt(u, "YES", 11);
    ContainsAt(u, "YES", 11);
  }

  /** `get_evidence`, given the model's response: the stripped text after
      the first "Evidence:" marker, or "Evidence not found". */
  function GetEvidence(response: string): (r: string)
    ensures !Contains(response, EvidenceMarker) ==> r == EvidenceNotFound
  {
    var i := Find(response, EvidenceMarker);
    if i < 0 then EvidenceNotFound else Strip(response[i + |EvidenceMarker|..])
  }

  /** When the first marker ends the prefix `pre`, the evidence is the
      stripped remainder, whatever further markers it holds. */
  lemma GetEvidenceAfterFirstMarker(pre: string, body: string)
    requires forall j :: 0 <= j < |pre| ==> !OccursAt(pre + EvidenceMarker + body, EvidenceMarker, j)
    ensures GetEvidence(pre + EvidenceMarker + body) == Strip(body)
  {
    var s := pre + EvidenceMarker + body;
    assert OccursAt(s, EvidenceMarker, |pre|);
    assert Find(s, EvidenceMarker) == |pre|;
    assert s[|pre| + |EvidenceMarker|..] == body;
  }

  lemma ContainsInfix(s: string, a: nat, b: nat, p: string)
    requires a <= b <= |s| && Contains(s[a..b], p)
    ensures Contains(s, p)
  {
    var j := Find(s[a..b], p);
    assert OccursAt(s[a..b], p, j);
    assert s[a..b][j..j + |p|] == s[a + j..a + j + |p|];
    assert OccursAt(s, p, a + j);
    ContainsAt(s, p, a + j);
  }

  /** Stripping cannot create an occurrence. */
  lemma StripKeepsAbsent(piece: string, p: string)
    requires !Contains(piece, p)
    ensures !Contains(Strip(piece), p)
  {
    var r := Strip(piece);
    var a := |piece| - |StripLeft(piece, Whitespace)|;
    if Contains(r, p) {
      assert r == piece[a..a + |r|];
      ContainsInfix(piece, a, a + |r|, p);
    }
  }

  /** The evidence split into pieces: on every "and" substring (also inside
      words), each piece stripped; with no "and", the evidence itself. */
  function EvidencePieces(evidence: string): (r: seq<string>)
    ensures !Contains(evidence, "and") ==> r == [evidence]
    ensures Contains(evidence, "and") ==>
      |r| == |Split(evidence, "and")| >= 2 &&
      forall i :: 0 <= i < |r| ==> r[i] == Strip(Split(evidence, "and")[i])
    ensures forall i :: 0 <= i < |r| ==> !Contains(r[i], "and")
  {
    if Contains(evidence, "and") then
      var parts := Split(evidence, "and");
      var r := seq(|parts|, i requires 0 <= i < |parts| => Strip(parts[i]));
      assert forall i :: 0 <= i < |r| ==> !Contains(r[i], "and") by {
        forall i | 0 <= i < |r| ensures !Contains(r[i], "and") {
          StripKeepsAbsent(parts[i], "and");
        }
      }
      r
    else [evidence]
  }

  /** The raw pieces rebuild the evidence exactly; the recorded pieces are
      those raw pieces stripped. */
  lemma EvidencePiecesRebuild(evidence: string)
    requires Contains(evidence, "and")
    ensures Join("and", Split(evidence, "and")) == evidence
    ensures forall i :: 0 <= i < |EvidencePieces(evidence)| ==>
      EvidencePieces(evidence)[i] == Strip(Split(evidence, "and")[i])
  {
    JoinSplit(evidence, "and");
  }

  /** The result recorded for one question. */
  datatype QuestionResult = QuestionResult(answer: string, evidence: string, evidencePieces: seq<string>)

  function YesNoPrompt(tables: PromptTables, i: nat, conv: string): string
    requires ValidTables(tables) && i < 5
  {
    Render(tables.yesNo[i], conv)
  }

  function EvidencePrompt(tables: PromptTables, i: nat, conv: string): string
    requires ValidTables(tables) && i < 5
  {
    Render(tables.evidence[i], conv)
  }

  /** What question i records for the formatted conversation `conv`: the
      parsed YES/NO answer; after a YES, the parsed answer to the evidence
      prompt and its pieces; after a NO, the canonical no-evidence text and
      no pieces. */
  function QuestionOutcome(tables: PromptTables, generate: string -> string, conv: string, i: nat): (r: QuestionResult)
    requires ValidTables(tables) && i < 5
    ensures r.answer == "YES" || r.answer == "NO"
    ensures r.answer == "YES" <==> Contains(Upper(generate(YesNoPrompt(tables, i, conv))), "YES")
    ensures r.answer == "NO" ==> r.evidence == NoEvidence && r.evidencePieces == []
    ensures r.answer == "YES" ==>
      r.evidence == GetEvidence(generate(EvidencePrompt(tables, i, conv))) &&
      r.evidencePieces == EvidencePieces(r.evidence) && |r.evidencePieces| >= 1
  {
    var answer := YesNoAnswer(generate(YesNoPrompt(tables, i, conv)));
    if answer == "YES" then
      var evidence := GetEvidence(generate(EvidencePrompt(tables, i, conv)));
      QuestionResult(answer, evidence, EvidencePieces(evidence))
    else QuestionResult(answer, NoEvidence, [])
  }

  /** The prompts sent for questions 0..n-1, in order: each YES/NO prompt,
      followed by its evidence prompt when, and only when, the answer was YES. */
  function PromptsIssued(tables: PromptTables, generate: string -> string, conv: string, n: nat): (r: seq<string>)
    requires ValidTables(tables) && n <= 5
    ensures n > 0 ==> |r| >= n
  {
    if n == 0 then []
    else
      var i := n - 1;
      var p := YesNoPrompt(tables, i, conv);
      PromptsIssued(tables, generate, conv, i) + [p] +
        (if QuestionOutcome(tables, generate, conv, i).answer == "YES" then [EvidencePrompt(tables, i, conv)] else [])
  }

  /** The evidence table for the first n results: the id and pieces of each
      question answered YES, in question order. */
  function YesEntries(results: Dict<string, QuestionResult>, n: nat): (r: Dict<string, seq<string>>)
    requires n <= |results|
    ensures |r| <= n
  {
    if n == 0 then []
    else
      var e := results[n - 1];
      YesEntries(results, n - 1) + (if e.1.answer == "YES" then [(e.0, e.1.evidencePieces)] else [])
  }

  /** Looking a question up in the evidence table gives its pieces after a
      YES and nothing after a NO. */
  lemma {:induction false} YesEntriesGet(results: Dict<string, QuestionResult>, n: nat, i: nat)
    requires n <= |results| && i < |results| && DistinctKeys(results)
    ensures Get(YesEntries(results, n), results[i].0) ==
      if i < n && results[i].1.answer == "YES" then Some(results[i].1.evidencePieces) else None
  {
    if n > 0 {
      YesEntriesGet(results, n - 1, i);
      var prev := YesEntries(results, n - 1);
      var e := results[n - 1];
      if e.1.answer == "YES" {
        var cur := prev + [(e.0, e.1.evidencePieces)];
        assert cur[..|prev|] == prev;
        if i == n - 1 {
          YesEntriesKeys(results, n - 1, i);
          assert KeyIndex(prev, e.0) == -1;
          assert KeyIndex(cur, e.0) == |prev|;
        } else {
          assert results[i].0 != e.0;
          assert KeyIndex(cur, results[i].0) == KeyIndex(prev, results[i].0);
        }
      } else {
        assert YesEntries(results, n) == prev + [] == prev;
      }
    }
  }

  lemma {:induction false} YesEntriesKeys(results: Dict<string, QuestionResult>, n: nat, i: nat)
    requires n <= i < |results| && DistinctKeys(results)
    ensures forall j :: 0 <= j < |YesEntries(results, n)| ==> YesEntries(results, n)[j].0 != results[i].0
  {
    if n > 0 {
      YesEntriesKeys(results, n - 1, i);
    }
  }

  /** The results table of `get_all_answers`: one entry per question Q1..Q5
      in table order, each as `QuestionOutcome` describes. */
  function Outcomes(tables: PromptTables, generate: string -> string, conv: string): (r: Dict<string, QuestionResult>)
    requires ValidTables(tables)
    ensures Keys(r) == QuestionIds
    ensures forall i :: 0 <= i < 5 ==> r[i].1 == QuestionOutcome(tables, generate, conv, i)
  {
    seq(5, i requires 0 <= i < 5 => (QuestionIds[i], QuestionOutcome(tables, generate, conv, i)))
  }

  /** `get_all_answers`: the results table, and the evidence table of the
      questions answered YES; `issued` records the prompts sent to the model. */
  method GetAllAnswers(c: Conversation, tables: PromptTables, generate: string -> string)
    returns (results: Dict<string, QuestionResult>, evidenceMatches: Dict<string, seq<string>>, ghost issued: seq<string>)
    requires ValidTables(tables)
    ensures results == Outcomes(tables, generate, FormatConversation(c))
    ensures evidenceMatches == YesEntries(results, 5)
    ensures issued == PromptsIssued(tables, generate, FormatConversation(c), 5)
  {
    var conv := FormatConversation(c);
    ghost var spec := Outcomes(tables, generate, conv);
    results, evidenceMatches, issued := [], [], [];
    for i := 0 to 5
      invariant results == spec[..i]
      invariant evidenceMatches == YesEntries(spec, i)
      invariant issued == PromptsIssued(tables, generate, conv, i)
    {
      OutcomesStep(tables, generate, conv, i);
      var outcome; ghost var sent;
      outcome, evidenceMatches, sent := AskQuestion(tables, generate, conv, i, evidenceMatches);
      PromptsIssuedStep(tables, generate, conv, i);
      issued := issued + sent;
      results := Put(results, QuestionIds[i], outcome);
    }
    assert spec[..5] == spec;
  }

  /** One round of the question loop extends the results table by question
      i's entry and the evidence table by its pieces after a YES. */
  lemma OutcomesStep(tables: PromptTables, generate: string -> string, conv: string, i: nat)
    requires ValidTables(tables) && i < 5
    ensures var spec := Outcomes(tables, generate, conv);
      Put(spec[..i], QuestionIds[i], QuestionOutcome(tables, generate, conv, i)) == spec[..i + 1]
    ensures var spec := Outcomes(tables, generate, conv);
      KeyIndex(YesEntries(spec, i), QuestionIds[i]) < 0
  {
    var spec := Outcomes(tables, generate, conv);
    QuestionIdsDistinct();
    assert forall j :: 0 <= j < 5 ==> spec[j].0 == Keys(spec)[j];
    PutNext(spec, i);
    YesEntriesAbsent(spec, i, spec[i].0);
  }

  lemma PromptsIssuedStep(tables: PromptTables, generate: string -> string, conv: string, i: nat)
    requires ValidTables(tables) && i < 5
    ensures PromptsIssued(tables, generate, conv, i + 1) == PromptsIssued(tables, generate, conv, i) +
      ([YesNoPrompt(tables, i, conv)] +
       (if QuestionOutcome(tables, generate, conv, i).answer == "YES" then [EvidencePrompt(tables, i, conv)] else []))
  {
  }

  /** One round of the loop of `get_all_answers` for question i: the YES/NO
      prompt, then the evidence prompt only after a YES, whose pieces are
      stored under the question id. */
  method AskQuestion(tables: PromptTables, generate: string -> string, conv: string, i: nat,
                     evidenceMatches: Dict<string, seq<string>>)
    returns (outcome: QuestionResult, matches: Dict<string, seq<string>>, ghost sent: seq<string>)
    requires ValidTables(tables) && i < 5
    requires KeyIndex(evidenceMatches, QuestionIds[i]) < 0
    ensures outcome == QuestionOutcome(tables, generate, conv, i)
    ensures matches == evidenceMatches +
      (if outcome.answer == "YES" then [(QuestionIds[i], outcome.evidencePieces)] else [])
    ensures sent == [YesNoPrompt(tables, i, conv)] +
      (if outcome.answer == "YES" then [EvidencePrompt(tables, i, conv)] else [])
  {
    var qid := QuestionIds[i];
    var yesNoPrompt := YesNoPrompt(tables, i, conv);
    var answer := YesNoAnswer(generate(yesNoPrompt));
    sent := [yesNoPrompt];
    var evidence := NoEvidence;
    matches := evidenceMatches;
    if answer == "YES" {
      var evidencePrompt := EvidencePrompt(tables, i, conv);
      evidence := GetEvidence(generate(evidencePrompt));
      sent := sent + [evidencePrompt];
      var pieces := EvidencePieces(evidence);
      matches := Put(matches, qid, pieces);
    }
    var pieces := match Get(matches, qid) case Some(p) => p case None => [];
    outcome := QuestionResult(answer, evidence, pieces);
  }

  /** A key that none of the first n results carries is not in their
      evidence table. */
  lemma {:induction false} YesEntriesAbsent(results: Dict<string, QuestionResult>, n: nat, k: string)
    requires n <= |results| && forall j :: 0 <= j < n ==> results[j].0 != k
    ensures KeyIndex(YesEntries(results, n), k) < 0
  {
    if n > 0 {
      YesEntriesAbsent(results, n - 1, k);
    }
  }

  /** `get_all_prompts`: the YES/NO prompt of each question Q1..Q5, each
      holding the formatted conversation in its slot. */
  method GetAllPrompts(c: Conversation, tables: PromptTables) returns (prompts: Dict<string, string>)
    requires ValidTables(tables)
    ensures Keys(prompts) == QuestionIds
    ensures forall i :: 0 <= i < 5 ==> prompts[i].1 == YesNoPrompt(tables, i, FormatConversation(c))
    ensures forall i :: 0 <= i < 5 ==> Contains(prompts[i].1, FormatConversation(c))
  {
    var conv := FormatConversation(c);
    prompts := [];
    QuestionIdsDistinct();
    for i := 0 to 5
      invariant |prompts| == i
      invariant forall j :: 0 <= j < i ==> prompts[j] == (QuestionIds[j], YesNoPrompt(tables, j, conv))
      invariant forall j :: 0 <= j < i ==> Contains(prompts[j].1, conv)
    {
      var p := Render(tables.yesNo[i], conv);
      var b := |tables.yesNo[i].before|;
      assert OccursAt(p, conv, b);
      ContainsAt(p, conv, b);
      assert KeyIndex(prompts, QuestionIds[i]) < 0;
      prompts := Put(prompts, QuestionIds[i], p);
    }
  }

  /** A row of `get_all_answers_for_conversations`: the conversation id and
      the YES/NO answer of each question. */
  datatype AnswerRow = AnswerRow(id: string, answers: Dict<string, string>)

  /** The YES/NO answer of each question Q1..Q5 for one conversation. */
  function ConversationAnswers(c: Conversation, tables: PromptTables, generate: string -> string): (r: Dict<string, string>)
    requires ValidTables(tables)
    ensures Keys(r) == QuestionIds
  {
    seq(5, i requires 0 <= i < 5 => (QuestionIds[i], YesNoAnswer(generate(YesNoPrompt(tables, i, FormatConversation(c))))))
  }

  /** Each answer in a row is the one the full question pass records for
      that question, and hence YES or NO. */
  lemma ConversationAnswersOutcome(c: Conversation, tables: PromptTables, generate: string -> string, i: nat)
    requires ValidTables(tables) && i < 5
    ensures ConversationAnswers(c, tables, generate)[i].1 == QuestionOutcome(tables, generate, FormatConversation(c), i).answer
    ensures Get(ConversationAnswers(c, tables, generate), QuestionIds[i]) == Some(ConversationAnswers(c, tables, generate)[i].1)
  {
    QuestionIdsDistinct();
    GetAt(ConversationAnswers(c, tables, generate), i);
  }

  /** The answers dict of one conversation, built over its prompts. */
  method AnswerConversation(c: Conversation, tables: PromptTables, generate: string -> string)
    returns (answers: Dict<string, string>)
    requires ValidTables(tables)
    ensures answers == ConversationAnswers(c, tables, generate)
  {
    var prompts := GetAllPrompts(c, tables);
    ghost var spec := ConversationAnswers(c, tables, generate);
    answers := [];
    for i := 0 to 5
      invariant answers == spec[..i]
    {
      AnswerStep(c, tables, generate, answers, i);
      answers := Put(answers, prompts[i].0, YesNoAnswer(generate(prompts[i].1)));
    }
  }

  /** Question i's answer is appended, its key being new. */
  lemma AnswerStep(c: Conversation, tables: PromptTables, generate: string -> string, answers: Dict<string, string>, i: nat)
    requires ValidTables(tables) && i < 5 && answers == ConversationAnswers(c, tables, generate)[..i]
    ensures Put(answers, QuestionIds[i], YesNoAnswer(generate(YesNoPrompt(tables, i, FormatConversation(c))))) ==
      ConversationAnswers(c, tables, generate)[..i + 1]
  {
    QuestionIdsDistinct();
    assert KeyIndex(answers, QuestionIds[i]) < 0;
  }

  /** The rows `get_all_answers_for_conversations` builds: one per
      conversation, in order. */
  function AnswerRows(convs: seq<Conversation>, tables: PromptTables, generate: string -> string): (r: seq<AnswerRow>)
    requires ValidTables(tables)
    ensures |r| == |convs|
    ensures forall k :: 0 <= k < |convs| ==> r[k].id == convs[k].conversationId
  {
    seq(|convs|, k requires 0 <= k < |convs| => AnswerRow(convs[k].conversationId, ConversationAnswers(convs[k], tables, generate)))
  }

  /** `get_all_answers_for_conversations`. */
  method GetAllAnswersForConversations(convs: seq<Conversation>, tables: PromptTables, generate: string -> string)
    returns (rows: seq<AnswerRow>)
    requires ValidTables(tables)
    ensures rows == AnswerRows(convs, tables, generate)
  {
    ghost var spec := AnswerRows(convs, tables, generate);
    rows := [];
    for k := 0 to |convs|
      invariant rows == spec[..k]
    {
      var answers := AnswerConversation(convs[k], tables, generate);
      rows := rows + [AnswerRow(convs[k].conversationId, answers)];
    }
    assert spec[..|convs|] == spec;
  }
}
