/** The response handling of `LlamaModel` in `src/ml/model2.py`: cutting
    the JSON span out of a model reply, the textual clean-ups around the
    JSON parse, and folding the per-chunk results into five questions. */
module Model2 {
  import opened Wrappers
  import opened Slices
  import opened Text

  const NoEvidence: string := "No evidence found in conversation"

  const Fence: string := "```"

  // ---------------------------------------------------------------------
  // JSON span extraction

  /** The `{...}` span of one string: from its first '{' to its last '}'
      inclusive, with Python's slice rules for the -1 of a missing brace. */
  function BraceSpan(s: string): string
  {
    Slice(s, Find(s, "{"), RFindIn(s, "}", 0, |s|) + 1)
  }

  /** When the first '{' comes before the last '}', the span starts with
      '{', ends with '}', and is the stretch of `s` between them. */
  lemma BraceSpanBraces(s: string)
    requires 0 <= Find(s, "{") < RFindIn(s, "}", 0, |s|)
    ensures var r := BraceSpan(s);
      |r| >= 2 && r[0] == '{' && r[|r| - 1] == '}' &&
      r == s[Find(s, "{")..RFindIn(s, "}", 0, |s|) + 1]
  {
    var i := Find(s, "{");
    var j := RFindIn(s, "}", 0, |s|);
    assert s[i..i + 1] == "{" && s[j..j + 1] == "}";
    assert s[i] == '{' && s[j] == '}';
  }

  /** A part holding both braces. */
  predicate HasBraces(part: string)
  {
    Contains(part, "{") && Contains(part, "}")
  }

  /** The first part that holds both braces, if any. */
  function FirstBraced(parts: seq<string>): (r: Option<nat>)
    ensures r.Some? ==> r.value < |parts| && HasBraces(parts[r.value]) &&
                        (forall k :: 0 <= k < r.value ==> !HasBraces(parts[k]))
    ensures r.None? ==> forall k :: 0 <= k < |parts| ==> !HasBraces(parts[k])
  {
    if |parts| == 0 then None
    else if HasBraces(parts[0]) then Some(0)
    else match FirstBraced(parts[1..])
      case None => None
      case Some(k) => Some(k + 1)
  }

  /** The JSON text `_generate_response` hands to the parser. With a code
      fence in the reply, it is the brace span of the first fenced part
      holding both braces, and without such a part `json_content` is never
      bound, which ends the call with an error; without a fence it is the
      brace span of the whole reply. */
  method ExtractJsonSpan(text: string) returns (r: Result<string, string>)
    ensures Contains(text, Fence) ==>
      match FirstBraced(Split(text, Fence))
      case None => r.Failure?
      case Some(k) => r == Success(BraceSpan(Split(text, Fence)[k]))
    ensures !Contains(text, Fence) ==> r == Success(BraceSpan(text))
  {
    if Contains(text, Fence) {
      var parts := Split(text, Fence);
      var k := 0;
      while k < |parts| && !HasBraces(parts[k])
        invariant k <= |parts|
        invariant forall m :: 0 <= m < k ==> !HasBraces(parts[m])
      {
        k := k + 1;
      }
      if k == |parts| {
        return Failure("json_content is not bound");
      }
      r := Success(BraceSpan(parts[k]));
    } else {
      r := Success(BraceSpan(text));
    }
  }

  // ---------------------------------------------------------------------
  // Pre-processing of the JSON text

  /** The escape clean-up before parsing: newlines become spaces, then
      `\'` becomes `'`, `\"` becomes `"`, and `\\` becomes `\`, each as a
      whole-string replacement in that order. */
  function PreprocessJson(s: string): string
  {
    Replace(Replace(Replace(Replace(s, "\n", " "), "\\'", "'"), "\\\"", "\""), "\\\\", "\\")
  }

  predicate Lacks(s: string, c: char)
  {
    forall i :: 0 <= i < |s| ==> s[i] != c
  }

  lemma {:induction false} JoinLacks(sep: string, xs: seq<string>, c: char)
    requires Lacks(sep, c) && forall k :: 0 <= k < |xs| ==> Lacks(xs[k], c)
    ensures Lacks(Join(sep, xs), c)
    decreases |xs|
  {
    if |xs| > 1 {
      JoinLacks(sep, xs[1..], c);
    }
  }

  /** Every piece of a split is a stretch of the string, so a character
      absent from the string is absent from every piece. */
  lemma {:induction false} SplitLacks(s: string, sep: string, c: char)
    requires |sep| > 0 && Lacks(s, c)
    ensures forall k :: 0 <= k < |Split(s, sep)| ==> Lacks(Split(s, sep)[k], c)
    decreases |s|
  {
    var i := Find(s, sep);
    if i >= 0 {
      var rest := s[i + |sep|..];
      SplitLacks(rest, sep, c);
      assert Split(s, sep) == [s[..i]] + Split(rest, sep);
    }
  }

  /** Replacing with a text free of `c` leaves no `c` behind if the
      original had none. */
  lemma ReplaceLacks(s: string, pat: string, rep: string, c: char)
    requires |pat| > 0 && Lacks(s, c) && Lacks(rep, c)
    ensures Lacks(Replace(s, pat, rep), c)
  {
    SplitLacks(s, pat, c);
    JoinLacks(rep, Split(s, pat), c);
  }

  /** The first replacement removes every newline: no piece between
      newlines holds one, and they are joined with spaces. */
  lemma ReplaceNewlines(s: string)
    ensures Lacks(Replace(s, "\n", " "), '\n')
  {
    var parts := Split(s, "\n");
    forall k | 0 <= k < |parts| ensures Lacks(parts[k], '\n') {
      forall i | 0 <= i < |parts[k]| ensures parts[k][i] != '\n' {
        if parts[k][i] == '\n' {
          assert parts[k][i..i + 1] == "\n";
          assert OccursAt(parts[k], "\n", i);
          ContainsAt(parts[k], "\n", i);
        }
      }
    }
    JoinLacks(" ", parts, '\n');
  }

  /** The text handed to the parser holds no newline. */
  lemma PreprocessJsonSingleLine(s: string)
    ensures Lacks(PreprocessJson(s), '\n')
  {
    var a := Replace(s, "\n", " ");
    ReplaceNewlines(s);
    var b := Replace(a, "\\'", "'");
    ReplaceLacks(a, "\\'", "'", '\n');
    var c := Replace(b, "\\\"", "\"");
    ReplaceLacks(b, "\\\"", "\"", '\n');
    ReplaceLacks(c, "\\\\", "\\", '\n');
  }

  // ---------------------------------------------------------------------
  // Questions as parsed from a model reply

  /** One question object of a parsed reply; a missing key is None. */
  datatype QuestionUpdate = QuestionUpdate(
    number: Option<string>, answer: Option<string>, evidence: Option<string>, instances: Option<seq<string>>)

  /** A truthy string: present and non-empty. */
  predicate Truthy(s: Option<string>)
  {
    s.Some? && s.value != []
  }

  /** The evidence clean-up: strip '"' from both ends, then '\'', then
      turn every " and " into ". ". */
  function CleanEvidence(e: string): (r: string)
    ensures !Contains(StripChars(StripChars(e, {'"'}), {'\''}), " and ") ==>
      r == StripChars(StripChars(e, {'"'}), {'\''})
  {
    Replace(StripChars(StripChars(e, {'"'}), {'\''}), " and ", ". ")
  }

  /** The replacement only rewrites separators: putting " and " back
      between its pieces restores the quote-stripped evidence. */
  lemma CleanEvidencePieces(e: string)
    ensures var t := StripChars(StripChars(e, {'"'}), {'\''});
      CleanEvidence(e) == Join(". ", Split(t, " and ")) &&
      Join(" and ", Split(t, " and ")) == t
  {
    JoinSplit(StripChars(StripChars(e, {'"'}), {'\''}), " and ");
  }

  /** The clean-up loop over `data["analysis"]["questions"]`: a question
      with truthy evidence gets it cleaned, any other is left alone. */
  method CleanAllEvidence(qs: seq<QuestionUpdate>) returns (r: seq<QuestionUpdate>)
    ensures |r| == |qs|
    ensures forall k :: 0 <= k < |qs| ==>
      if Truthy(qs[k].evidence) then r[k] == qs[k].(evidence := Some(CleanEvidence(qs[k].evidence.value)))
      else r[k] == qs[k]
  {
    r := qs;
    for k := 0 to |r|
      invariant |r| == |qs|
      invariant forall m :: 0 <= m < k ==>
        if Truthy(qs[m].evidence) then r[m] == qs[m].(evidence := Some(CleanEvidence(qs[m].evidence.value)))
        else r[m] == qs[m]
      invariant forall m :: k <= m < |r| ==> r[m] == qs[m]
    {
      if Truthy(r[k].evidence) {
        r := r[k := r[k].(evidence := Some(CleanEvidence(r[k].evidence.value)))];
      }
    }
  }

  // ---------------------------------------------------------------------
  // Folding results into the five questions

  /** One element of a parsed `questions` list. `Question` is a dict whose
      fields have the types the loop expects. `Malformed` is an element
      on which the loop body raises before changing anything: a non-dict
      (`get` raises AttributeError) or a `question_number` that `int()`
      refuses with a TypeError (None, a list, a dict). `BadInstances` is a
      dict whose truthy `instances` value `extend` refuses with a TypeError
      (a number, say); its own `instances` field is ignored. */
  datatype QuestionItem =
    | Question(u: QuestionUpdate)
    | Malformed
    | BadInstances(b: QuestionUpdate)

  /** One per-chunk result: a string that does not parse, or a parsed
      object whose `analysis.questions` list may be missing. */
  datatype ModelResult = Unparseable | Parsed(questions: Option<seq<QuestionItem>>)

  /** A question of the formatted output. */
  datatype QuestionEntry = QuestionEntry(number: string, question: string, answer: string, evidence: string, instances: seq<string>)

  datatype FormattedOutput = FormattedOutput(filePath: string, conversationIds: seq<string>, questions: seq<QuestionEntry>)

  const StandardQuestions: seq<string> := [
    "Has any person given their age? (and what age was given)",
    "Has any person asked the other for their age?",
    "Has any person asked to meet up in person? Where?",
    "Has any person given a gift to the other? Or bought something from a list like an amazon wish list?",
    "Have any videos or photos been produced? Requested?"
  ]

  const QuestionNumbers: seq<string> := ["1", "2", "3", "4", "5"]

  /** The five entries before any result is applied. */
  function Defaults(): (es: seq<QuestionEntry>)
    ensures |es| == 5
  {
    seq(5, i requires 0 <= i < 5 => QuestionEntry(QuestionNumbers[i], StandardQuestions[i], "NO", NoEvidence, []))
  }

  /** The entry an update addresses: `int(number or "0") - 1` when that is
      a valid index, None for a missing, non-numeric or out-of-range number. */
  function TargetOf(u: QuestionUpdate): (r: Option<nat>)
    ensures r.Some? ==> r.value < 5
  {
    var n := ParseInt(if u.number.Some? then u.number.value else "0");
    if n.Some? && 0 <= n.value - 1 < 5 then Some(n.value - 1) else None
  }

  /** The three in-place updates of one entry. */
  function ApplyUpdate(e: QuestionEntry, u: QuestionUpdate): (r: QuestionEntry)
    ensures r.number == e.number && r.question == e.question
    ensures r.instances == e.instances + (if u.instances.Some? then u.instances.value else [])
  {
    assert u.instances.Some? && |u.instances.value| == 0 ==> e.instances + u.instances.value == e.instances;
    var e1 := if Truthy(u.answer) then e.(answer := u.answer.value) else e;
    var e2 := if Truthy(u.evidence) && u.answer == Some("YES") then e1.(evidence := u.evidence.value) else e1;
    if u.instances.Some? && |u.instances.value| > 0 then e2.(instances := e2.instances + u.instances.value) else e2
  }

  function ApplyToEntries(es: seq<QuestionEntry>, u: QuestionUpdate): (r: seq<QuestionEntry>)
    requires |es| == 5
    ensures |r| == 5
    ensures forall q :: 0 <= q < 5 ==> r[q].number == es[q].number && r[q].question == es[q].question
  {
    match TargetOf(u)
    case None => es
    case Some(q) => es[q := ApplyUpdate(es[q], u)]
  }

  /** The entries after applying the updates in order. Numbers and
      question texts never change. */
  function ApplyUpdates(es: seq<QuestionEntry>, us: seq<QuestionUpdate>): (r: seq<QuestionEntry>)
    requires |es| == 5
    ensures |r| == 5
    ensures forall q :: 0 <= q < 5 ==> r[q].number == es[q].number && r[q].question == es[q].question
  {
    if |us| == 0 then es else ApplyToEntries(ApplyUpdates(es, us[..|us| - 1]), us[|us| - 1])
  }

  /** The element raises an exception other than ValueError or IndexError,
      which the handler around the whole result catches: the rest of that
      result's questions are abandoned. A bad `instances` list raises only
      once the number has addressed an entry. */
  predicate Aborts(item: QuestionItem)
  {
    item.Malformed? || (item.BadInstances? && TargetOf(item.b).Some?)
  }

  /** What an element changes, as updates: a well-typed element is its own
      update; a bad `instances` list still lets the answer and evidence
      land; a malformed element changes nothing. */
  function ItemUpdates(item: QuestionItem): (r: seq<QuestionUpdate>)
    ensures |r| <= 1
    ensures forall u :: u in r ==> u.instances.None? || item.Question?
  {
    match item
    case Question(u) => [u]
    case Malformed => []
    case BadInstances(b) => if TargetOf(b).Some? then [b.(instances := None)] else []
  }

  /** No element of the list aborts. */
  predicate Completes(items: seq<QuestionItem>)
  {
    forall k :: 0 <= k < |items| ==> !Aborts(items[k])
  }

  /** The updates one result's questions make: those of each element in
      order, up to and including the first element that aborts. */
  function EffectiveUpdates(items: seq<QuestionItem>): seq<QuestionUpdate>
  {
    if |items| == 0 then []
    else
      var init := items[..|items| - 1];
      if Completes(init) then EffectiveUpdates(init) + ItemUpdates(items[|items| - 1])
      else EffectiveUpdates(init)
  }

  /** A list none of whose elements aborts gives exactly the updates of
      its elements: every question is applied. */
  lemma {:induction false} EffectiveUpdatesComplete(items: seq<QuestionItem>)
    requires Completes(items)
    requires forall k :: 0 <= k < |items| ==> items[k].Question?
    ensures |EffectiveUpdates(items)| == |items|
    ensures forall k :: 0 <= k < |items| ==> EffectiveUpdates(items)[k] == items[k].u
  {
    if |items| > 0 {
      var init := items[..|items| - 1];
      assert Completes(init);
      EffectiveUpdatesComplete(init);
    }
  }

  /** Nothing after an aborting element has any effect. */
  lemma {:induction false} AbortedTail(items: seq<QuestionItem>, i: nat)
    requires i < |items| && Aborts(items[i])
    ensures EffectiveUpdates(items) == EffectiveUpdates(items[..i + 1])
    decreases |items|
  {
    if |items| > i + 1 {
      var init := items[..|items| - 1];
      assert !Completes(init) by {
        assert init[i] == items[i];
      }
      assert init[..i + 1] == items[..i + 1];
      AbortedTail(init, i);
    } else {
      assert items[..i + 1] == items;
    }
  }

  /** The question updates of all results, in order; unparseable results
      and results without a questions list contribute none. */
  function UpdatesOf(results: seq<ModelResult>): seq<QuestionUpdate>
  {
    if |results| == 0 then []
    else
      var last := results[|results| - 1];
      UpdatesOf(results[..|results| - 1]) + (if last.Parsed? && last.questions.Some? then EffectiveUpdates(last.questions.value) else [])
  }

  /** `clean_and_format_response`: five entries numbered "1".."5" with the
      standard question texts, each starting at NO with the no-evidence
      text and no instances, then updated by the questions of every result
      in order, each result's up to its first element that aborts. */
  method CleanAndFormatResponse(allResults: seq<ModelResult>, filePath: string) returns (out: FormattedOutput)
    ensures out.filePath == filePath && out.conversationIds == []
    ensures out.questions == ApplyUpdates(Defaults(), UpdatesOf(allResults))
  {
    var questions: seq<QuestionEntry> := [];
    for idx := 0 to 5
      invariant questions == Defaults()[..idx]
    {
      questions := questions + [QuestionEntry(QuestionNumbers[idx], StandardQuestions[idx], "NO", NoEvidence, [])];
    }
    for i := 0 to |allResults|
      invariant |questions| == 5
      invariant questions == ApplyUpdates(Defaults(), UpdatesOf(allResults[..i]))
    {
      var result := allResults[i];
      if result.Parsed? && result.questions.Some? {
        questions := ApplyResultQuestions(questions, result.questions.value);
        ApplyUpdatesAppend(Defaults(), UpdatesOf(allResults[..i]), EffectiveUpdates(result.questions.value));
      } else {
        assert UpdatesOf(allResults[..i]) + [] == UpdatesOf(allResults[..i]);
      }
      UpdatesOfSnoc(allResults, i);
    }
    assert allResults[..|allResults|] == allResults;
    out := FormattedOutput(filePath, [], questions);
  }

  lemma ApplyUpdatesSnoc(es: seq<QuestionEntry>, prefix: seq<QuestionUpdate>, qs: seq<QuestionUpdate>, j: nat)
    requires |es| == 5 && j < |qs|
    ensures ApplyUpdates(es, prefix + qs[..j + 1]) == ApplyToEntries(ApplyUpdates(es, prefix + qs[..j]), qs[j])
  {
    var us := prefix + qs[..j + 1];
    assert us[..|us| - 1] == prefix + qs[..j];
  }

  lemma UpdatesOfSnoc(results: seq<ModelResult>, i: nat)
    requires i < |results|
    ensures UpdatesOf(results[..i + 1]) == UpdatesOf(results[..i]) +
      (if results[i].Parsed? && results[i].questions.Some? then EffectiveUpdates(results[i].questions.value) else [])
  {
    assert results[..i + 1][..i] == results[..i];
  }

  /** The loop over `result_data["analysis"]["questions"]` of one result,
      left at the first element that raises past the inner handler. */
  method ApplyResultQuestions(questions: seq<QuestionEntry>, items: seq<QuestionItem>) returns (r: seq<QuestionEntry>)
    requires |questions| == 5
    ensures r == ApplyUpdates(questions, EffectiveUpdates(items))
  {
    r := questions;
    for j := 0 to |items|
      invariant |r| == 5
      invariant Completes(items[..j])
      invariant r == ApplyUpdates(questions, EffectiveUpdates(items[..j]))
    {
      var aborted;
      r, aborted := ApplyQuestion(r, items[j]);
      assert items[..j + 1][..j] == items[..j];
      ApplyUpdatesAppend(questions, EffectiveUpdates(items[..j]), ItemUpdates(items[j]));
      if aborted {
        AbortedTail(items, j);
        return;
      }
      CompletesSnoc(items, j);
    }
    assert items[..|items|] == items;
  }

  lemma CompletesSnoc(items: seq<QuestionItem>, j: nat)
    requires j < |items| && Completes(items[..j]) && !Aborts(items[j])
    ensures Completes(items[..j + 1])
  {
    var done := items[..j + 1];
    forall k | 0 <= k < |done| ensures !Aborts(done[k]) {
      if k < j {
        assert done[k] == items[..j][k];
      }
    }
  }

  /** The body of that loop for one element: the number parsed as an int,
      then answer, evidence and instances updated in place. `aborted`
      reports an exception the inner handler does not catch. */
  method ApplyQuestion(questions: seq<QuestionEntry>, item: QuestionItem) returns (r: seq<QuestionEntry>, aborted: bool)
    requires |questions| == 5
    ensures aborted == Aborts(item)
    ensures r == ApplyUpdates(questions, ItemUpdates(item))
  {
    r, aborted := questions, false;
    if item.Malformed? {
      return questions, true;
    }
    var newQ := if item.Question? then item.u else item.b;
    var n := ParseInt(if newQ.number.Some? then newQ.number.value else "0");
    if n.Some? {
      var qNum := n.value - 1;
      if 0 <= qNum < |r| {
        assert TargetOf(newQ) == Some(qNum);
        var current := r[qNum];
        if Truthy(newQ.answer) {
          current := current.(answer := newQ.answer.value);
        }
        if Truthy(newQ.evidence) && newQ.answer == Some("YES") {
          current := current.(evidence := newQ.evidence.value);
        }
        if item.BadInstances? {
          aborted := true;
          assert current == ApplyUpdate(questions[qNum], newQ.(instances := None));
        } else if newQ.instances.Some? && |newQ.instances.value| > 0 {
          current := current.(instances := current.instances + newQ.instances.value);
        }
        assert current == ApplyUpdate(questions[qNum], ItemUpdates(item)[0]);
        r := r[qNum := current];
      } else {
        assert TargetOf(newQ) == None;
      }
    } else {
      assert TargetOf(newQ) == None;
    }
  }

  lemma {:induction false} ApplyUpdatesAppend(es: seq<QuestionEntry>, a: seq<QuestionUpdate>, b: seq<QuestionUpdate>)
    requires |es| == 5
    ensures ApplyUpdates(es, a + b) == ApplyUpdates(ApplyUpdates(es, a), b)
    decreases |b|
  {
    if |b| == 0 {
      assert a + b == a;
    } else {
      assert (a + b)[..|a + b| - 1] == a + b[..|b| - 1];
      ApplyUpdatesAppend(es, a, b[..|b| - 1]);
    }
  }

  /** The last update touches only the entry it addresses. */
  lemma LastStep(es: seq<QuestionEntry>, us: seq<QuestionUpdate>, q: nat)
    requires |es| == 5 && q < 5 && |us| > 0
    ensures var prev := ApplyUpdates(es, us[..|us| - 1]); var u := us[|us| - 1];
      ApplyUpdates(es, us)[q] == if TargetOf(u) == Some(q) then ApplyUpdate(prev[q], u) else prev[q]
  {
  }

  /** The update sets the evidence of its entry. */
  predicate SetsEvidence(u: QuestionUpdate)
  {
    Truthy(u.evidence) && u.answer == Some("YES")
  }

  /** Later results win: the answer of entry q is the last truthy answer
      among the updates addressed to q. */
  lemma {:induction false} AnswerLastWins(es: seq<QuestionEntry>, us: seq<QuestionUpdate>, q: nat, k: nat)
    requires |es| == 5 && q < 5 && k < |us|
    requires TargetOf(us[k]) == Some(q) && Truthy(us[k].answer)
    requires forall j :: k < j < |us| && TargetOf(us[j]) == Some(q) ==> !Truthy(us[j].answer)
    ensures ApplyUpdates(es, us)[q].answer == us[k].answer.value
  {
    if k < |us| - 1 {
      AnswerLastWins(es, us[..|us| - 1], q, k);
    }
  }

  /** Without a truthy answer addressed to q, entry q keeps its answer. */
  lemma {:induction false} AnswerUntouched(es: seq<QuestionEntry>, us: seq<QuestionUpdate>, q: nat)
    requires |es| == 5 && q < 5
    requires forall j :: 0 <= j < |us| && TargetOf(us[j]) == Some(q) ==> !Truthy(us[j].answer)
    ensures ApplyUpdates(es, us)[q].answer == es[q].answer
  {
    if |us| > 0 {
      AnswerUntouched(es, us[..|us| - 1], q);
    }
  }

  /** The evidence of entry q is that of the last update addressed to q
      that carries truthy evidence together with the answer "YES". */
  lemma {:induction false} EvidenceLastWins(es: seq<QuestionEntry>, us: seq<QuestionUpdate>, q: nat, k: nat)
    requires |es| == 5 && q < 5 && k < |us|
    requires TargetOf(us[k]) == Some(q) && SetsEvidence(us[k])
    requires forall j :: k < j < |us| && TargetOf(us[j]) == Some(q) ==> !SetsEvidence(us[j])
    ensures ApplyUpdates(es, us)[q].evidence == us[k].evidence.value
  {
    if k < |us| - 1 {
      EvidenceLastWins(es, us[..|us| - 1], q, k);
      LastStep(es, us, q);
    }
  }

  /** Evidence with any other answer, or empty evidence, is ignored. */
  lemma {:induction false} EvidenceUntouched(es: seq<QuestionEntry>, us: seq<QuestionUpdate>, q: nat)
    requires |es| == 5 && q < 5
    requires forall j :: 0 <= j < |us| && TargetOf(us[j]) == Some(q) ==> !SetsEvidence(us[j])
    ensures ApplyUpdates(es, us)[q].evidence == es[q].evidence
  {
    if |us| > 0 {
      EvidenceUntouched(es, us[..|us| - 1], q);
      LastStep(es, us, q);
    }
  }

  /** The instances lists addressed to q, concatenated in order. */
  function InstancesFor(us: seq<QuestionUpdate>, q: nat): seq<string>
  {
    if |us| == 0 then []
    else
      var u := us[|us| - 1];
      InstancesFor(us[..|us| - 1], q) + (if TargetOf(u) == Some(q) && u.instances.Some? then u.instances.value else [])
  }

  /** Instances accumulate: entry q ends with its own instances followed by
      every instances list addressed to it, in order. */
  lemma {:induction false} InstancesAccumulate(es: seq<QuestionEntry>, us: seq<QuestionUpdate>, q: nat)
    requires |es| == 5 && q < 5
    ensures ApplyUpdates(es, us)[q].instances == es[q].instances + InstancesFor(us, q)
  {
    if |us| == 0 {
      assert es[q].instances + [] == es[q].instances;
    } else {
      var init := us[..|us| - 1];
      var u := us[|us| - 1];
      InstancesAccumulate(es, init, q);
      LastStep(es, us, q);
      var prev := ApplyUpdates(es, init)[q];
      var added := if TargetOf(u) == Some(q) && u.instances.Some? then u.instances.value else [];
      var own, before := es[q].instances, InstancesFor(init, q);
      assert InstancesFor(us, q) == before + added;
      assert prev.instances == own + before;
      assert ApplyUpdates(es, us)[q].instances == prev.instances + added;
      AppendAssoc(own, before, added);
    }
  }

  /** A question no result addresses keeps the defaults: its number, the
      standard text, NO, the no-evidence text and no instances. */
  lemma UnaddressedKeepsDefaults(results: seq<ModelResult>, q: nat)
    requires q < 5
    requires forall j :: 0 <= j < |UpdatesOf(results)| ==> TargetOf(UpdatesOf(results)[j]) != Some(q)
    ensures ApplyUpdates(Defaults(), UpdatesOf(results))[q] ==
      QuestionEntry(QuestionNumbers[q], StandardQuestions[q], "NO", NoEvidence, [])
  {
    var us := UpdatesOf(results);
    AnswerUntouched(Defaults(), us, q);
    EvidenceUntouched(Defaults(), us, q);
    InstancesAccumulate(Defaults(), us, q);
    NoInstances(us, q);
  }

  lemma {:induction false} NoInstances(us: seq<QuestionUpdate>, q: nat)
    requires forall j :: 0 <= j < |us| ==> TargetOf(us[j]) != Some(q)
    ensures InstancesFor(us, q) == []
  {
    if |us| > 0 {
      NoInstances(us[..|us| - 1], q);
    }
  }

  /** A number that does not parse, is missing, or falls outside 1..5
      addresses no entry, so the update changes nothing. */
  lemma UnaddressedUpdateIgnored(es: seq<QuestionEntry>, u: QuestionUpdate)
    requires |es| == 5 && TargetOf(u).None?
    ensures ApplyToEntries(es, u) == es
  {
  }

  /** The number "3", bare or with blanks around it, addresses the third
      entry: `int()` strips the blanks. */
  lemma TargetOfThree()
    ensures TargetOf(QuestionUpdate(Some("3"), None, None, None)) == Some(2)
    ensures TargetOf(QuestionUpdate(Some(" 3 "), None, None, None)) == Some(2)
  {
    ParseIntOfNat(3);
    StripPaddedThree();
  }

  lemma StripPaddedThree()
    ensures Strip(" 3 ") == Strip("3")
  {
    assert IsSpace(' ') && !IsSpace('3');
    assert ' ' in Whitespace && '3' !in Whitespace;
    assert " 3 "[1..] == "3 ";
    assert StripLeft(" 3 ", Whitespace) == "3 ";
    assert StripLeft("3", Whitespace) == "3";
  }
}
