/** The conversation-analysis script `src/client/evaluation.py`: loaded
    JSON conversations are rendered as text, a prompt with the five
    questions is built around that text, and the files are processed in
    turn. */
module EvaluationClient {
  import opened Wrappers
  import opened Slices
  import opened Text
  import opened PyDict
  import opened Turns

  /** A value as `json.load` returns it: objects keep their keys in order. */
  datatype Json =
    | JNull
    | JBool(b: bool)
    | JNumber(literal: string)
    | JString(s: string)
    | JList(items: seq<Json>)
    | JObject(members: Dict<string, Json>)

  /** `str(value)`, also what an f-string puts in its place: a string is
      itself, and every other value is rendered by `show`. */
  function Str(j: Json, show: Json -> string): (r: string)
    ensures j.JString? ==> r == j.s
  {
    if j.JString? then j.s else show(j)
  }

  /** `key in value`: a key of an object, an element of a list, a substring
      of a string; any other value raises (None). */
  function HasKey(value: Json, key: string): (r: Option<bool>)
    ensures r.None? <==> !(value.JObject? || value.JList? || value.JString?)
  {
    match value
    case JObject(m) => Some(Get(m, key).Some?)
    case JList(items) => Some(JString(key) in items)
    case JString(s) => Some(Contains(s, key))
    case _ => None
  }

  /** `value[key]` with a string key: only an object holding the key has
      one; anything else raises (None). */
  function Lookup(value: Json, key: string): (r: Option<Json>)
    ensures r.Some? <==> value.JObject? && Get(value.members, key).Some?
  {
    if value.JObject? then Get(value.members, key) else None
  }

  /** What `for x in value` visits: a list's items, an object's keys, a
      string's characters; any other value raises (None). */
  function Elements(value: Json): (r: Option<seq<Json>>)
    ensures value.JList? ==> r == Some(value.items)
    ensures r.None? <==> !(value.JObject? || value.JList? || value.JString?)
  {
    match value
    case JList(items) => Some(items)
    case JObject(m) => Some(seq(|m|, i requires 0 <= i < |m| => JString(m[i].0)))
    case JString(s) => Some(seq(|s|, i requires 0 <= i < |s| => JString([s[i]])))
    case _ => None
  }

  /** The line of one turn, `f"{turn['speaker']}: {turn['text']}\n"`. */
  function TurnText(turn: Json, show: Json -> string): (r: Option<string>)
    ensures r.Some? <==> Lookup(turn, "speaker").Some? && Lookup(turn, "text").Some?
  {
    var speaker := Lookup(turn, "speaker");
    var text := Lookup(turn, "text");
    if speaker.None? || text.None? then None
    else Some(Str(speaker.value, show) + ": " + Str(text.value, show) + "\n")
  }

  /** The lines of the given turns, in order; None once one raises. */
  function TurnsText(turns: seq<Json>, show: Json -> string): Option<string>
  {
    if |turns| == 0 then Some("")
    else
      var prev := TurnsText(turns[..|turns| - 1], show);
      var line := TurnText(turns[|turns| - 1], show);
      if prev.None? || line.None? then None else Some(prev.value + line.value)
  }

  const ConversationHeader: string := "Conversation:\n"

  /** What one item of the list adds: nothing without a "dialogue", else the
      header, its turns' lines and an empty line; None when it raises. */
  function ConvText(conv: Json, show: Json -> string): Option<string>
  {
    var has := HasKey(conv, "dialogue");
    if has.None? then None
    else if !has.value then Some("")
    else
      var dialogue := Lookup(conv, "dialogue");
      if dialogue.None? then None
      else
        var turns := Elements(dialogue.value);
        if turns.None? then None
        else
          var lines := TurnsText(turns.value, show);
          if lines.None? then None else Some(ConversationHeader + lines.value + "\n")
  }

  /** The text the list loop builds from the given items; None once one
      raises. */
  function ConvsText(convs: seq<Json>, show: Json -> string): Option<string>
  {
    if |convs| == 0 then Some("")
    else
      var prev := ConvsText(convs[..|convs| - 1], show);
      var block := ConvText(convs[|convs| - 1], show);
      if prev.None? || block.None? then None else Some(prev.value + block.value)
  }

  /** What `format_conversation` returns: for a list, the built text
      stripped; for anything else, or when the loop raised, `str(data)`. */
  function Formatted(data: Json, show: Json -> string): string
  {
    if data.JList? then
      var text := ConvsText(data.items, show);
      if text.Some? then Strip(text.value) else Str(data, show)
    else Str(data, show)
  }

  /** `format_conversation`. */
  method FormatConversation(data: Json, show: Json -> string) returns (text: string)
    ensures text == Formatted(data, show)
  {
    if !data.JList? {
      return Str(data, show);
    }
    var convs := data.items;
    var formattedText := "";
    for i := 0 to |convs|
      invariant ConvsText(convs[..i], show) == Some(formattedText)
    {
      ConvsTextSnoc(convs, i, show);
      var conv := convs[i];
      var has := HasKey(conv, "dialogue");
      if has.None? {
        ConvsTextRaises(convs, i + 1, show);
        return Str(data, show);
      }
      if has.value {
        ghost var before := formattedText;
        formattedText := formattedText + ConversationHeader;
        var dialogue := Lookup(conv, "dialogue");
        if dialogue.None? {
          ConvsTextRaises(convs, i + 1, show);
          return Str(data, show);
        }
        var turns := Elements(dialogue.value);
        if turns.None? {
          ConvsTextRaises(convs, i + 1, show);
          return Str(data, show);
        }
        ghost var lines := "";
        for k := 0 to |turns.value|
          invariant TurnsText(turns.value[..k], show) == Some(lines)
          invariant formattedText == before + ConversationHeader + lines
        {
          TurnsTextSnoc(turns.value, k, show);
          var line := TurnText(turns.value[k], show);
          if line.None? {
            TurnsTextRaises(turns.value, k + 1, show);
            assert turns.value[..|turns.value|] == turns.value;
            ConvsTextRaises(convs, i + 1, show);
            return Str(data, show);
          }
          AppendAssoc(before + ConversationHeader, lines, line.value);
          formattedText := formattedText + line.value;
          lines := lines + line.value;
        }
        assert turns.value[..|turns.value|] == turns.value;
        formattedText := formattedText + "\n";
        AppendAssoc(before, ConversationHeader, lines);
        AppendAssoc(before, ConversationHeader + lines, "\n");
      } else {
        assert formattedText + "" == formattedText;
      }
    }
    assert convs[..|convs|] == convs;
    text := Strip(formattedText);
  }

  lemma ConvsTextSnoc(convs: seq<Json>, i: nat, show: Json -> string)
    requires i < |convs|
    ensures var prev, block := ConvsText(convs[..i], show), ConvText(convs[i], show);
      ConvsText(convs[..i + 1], show) == if prev.None? || block.None? then None else Some(prev.value + block.value)
  {
    assert convs[..i + 1][..i] == convs[..i];
  }

  lemma TurnsTextSnoc(turns: seq<Json>, k: nat, show: Json -> string)
    requires k < |turns|
    ensures var prev, line := TurnsText(turns[..k], show), TurnText(turns[k], show);
      TurnsText(turns[..k + 1], show) == if prev.None? || line.None? then None else Some(prev.value + line.value)
  {
    assert turns[..k + 1][..k] == turns[..k];
  }

  /** Once an item raises, the whole list falls back. */
  lemma {:induction false} ConvsTextRaises(convs: seq<Json>, i: nat, show: Json -> string)
    requires i <= |convs| && ConvsText(convs[..i], show).None?
    ensures ConvsText(convs, show).None?
    decreases |convs| - i
  {
    if i < |convs| {
      ConvsTextSnoc(convs, i, show);
      ConvsTextRaises(convs, i + 1, show);
    } else {
      assert convs[..i] == convs;
    }
  }

  lemma {:induction false} TurnsTextRaises(turns: seq<Json>, k: nat, show: Json -> string)
    requires k <= |turns| && TurnsText(turns[..k], show).None?
    ensures TurnsText(turns, show).None?
    decreases |turns| - k
  {
    if k < |turns| {
      TurnsTextSnoc(turns, k, show);
      TurnsTextRaises(turns, k + 1, show);
    } else {
      assert turns[..k] == turns;
    }
  }

  /** A list holding a value that is neither an object, a list nor a string
      makes the membership test raise, so the result is `str(data)`. */
  lemma ScalarItemFallsBack(data: Json, i: nat, show: Json -> string)
    requires data.JList? && i < |data.items|
    requires !(data.items[i].JObject? || data.items[i].JList? || data.items[i].JString?)
    ensures Formatted(data, show) == show(data)
  {
    var convs := data.items;
    ConvsTextSnoc(convs, i, show);
    ConvsTextRaises(convs, i + 1, show);
  }

  /** A list result has no whitespace at either end. */
  lemma FormattedTrimmed(data: Json, show: Json -> string)
    requires data.JList? && ConvsText(data.items, show).Some?
    ensures var r := Formatted(data, show); r == [] || (!IsSpace(r[0]) && !IsSpace(r[|r| - 1]))
  {
    var r := Formatted(data, show);
    if r != [] {
      assert r[0] !in Whitespace && r[|r| - 1] !in Whitespace;
      WhitespaceHolds(r[0]);
      WhitespaceHolds(r[|r| - 1]);
    }
  }

  lemma WhitespaceHolds(c: char)
    requires c !in Whitespace
    ensures !IsSpace(c)
  {
  }

  /** A conversation object as the corpus scripts save it: an id, and a
      dialogue of turns when it has one. */
  function EncodeTurn(t: Turn): Json
  {
    JObject([("speaker", JString(t.speaker)), ("text", JString(t.text))])
  }

  function EncodeConversation(id: string, dialogue: Option<seq<Turn>>): Json
  {
    if dialogue.None? then JObject([("conversation_id", JString(id))])
    else
      var ts := dialogue.value;
      JObject([("conversation_id", JString(id)),
               ("dialogue", JList(seq(|ts|, k requires 0 <= k < |ts| => EncodeTurn(ts[k]))))])
  }

  /** The block one saved conversation contributes. */
  function Block(dialogue: Option<seq<Turn>>): string
  {
    if dialogue.None? then ""
    else
      var ts := dialogue.value;
      ConversationHeader + Flatten(seq(|ts|, k requires 0 <= k < |ts| => TurnLine(ts[k]) + "\n")) + "\n"
  }

  /** For saved conversations, the text is, after stripping, each one with
      a dialogue in list order: the header, one `speaker: text` line per
      turn in turn order, and an empty line; the others add nothing. */
  lemma FormattedSaved(ids: seq<string>, dialogues: seq<Option<seq<Turn>>>, show: Json -> string)
    requires |ids| == |dialogues|
    ensures var data := JList(seq(|ids|, i requires 0 <= i < |ids| => EncodeConversation(ids[i], dialogues[i])));
      Formatted(data, show) == Strip(Flatten(seq(|ids|, i requires 0 <= i < |ids| => Block(dialogues[i]))))
  {
    var convs := seq(|ids|, i requires 0 <= i < |ids| => EncodeConversation(ids[i], dialogues[i]));
    var blocks := seq(|ids|, i requires 0 <= i < |ids| => Block(dialogues[i]));
    forall i | 0 <= i < |ids| ensures ConvText(convs[i], show) == Some(blocks[i]) {
      SavedBlock(ids[i], dialogues[i], show);
    }
    ConvsTextAll(convs, blocks, show);
  }

  lemma SavedBlock(id: string, dialogue: Option<seq<Turn>>, show: Json -> string)
    ensures ConvText(EncodeConversation(id, dialogue), show) == Some(Block(dialogue))
  {
    var conv := EncodeConversation(id, dialogue);
    if dialogue.None? {
      assert Get(conv.members, "dialogue").None? by {
        assert "conversation_id" != "dialogue";
      }
    } else {
      var ts := dialogue.value;
      var items := seq(|ts|, k requires 0 <= k < |ts| => EncodeTurn(ts[k]));
      var lines := seq(|ts|, k requires 0 <= k < |ts| => TurnLine(ts[k]) + "\n");
      assert "conversation_id" != "dialogue";
      assert Lookup(conv, "dialogue") == Some(JList(items));
      forall k | 0 <= k < |ts| ensures TurnText(items[k], show) == Some(lines[k]) {
        EncodedTurnText(ts[k], show);
      }
      TurnsTextAll(items, lines, show);
    }
  }

  lemma EncodedTurnText(t: Turn, show: Json -> string)
    ensures TurnText(EncodeTurn(t), show) == Some(TurnLine(t) + "\n")
  {
    var m := EncodeTurn(t).members;
    assert "speaker" != "text";
    assert KeyIndex(m, "speaker") == 0;
    assert KeyIndex(m, "text") == 1;
  }

  lemma {:induction false} TurnsTextAll(turns: seq<Json>, lines: seq<string>, show: Json -> string)
    requires |turns| == |lines| && forall k :: 0 <= k < |turns| ==> TurnText(turns[k], show) == Some(lines[k])
    ensures TurnsText(turns, show) == Some(Flatten(lines))
    decreases |turns|
  {
    if |turns| > 0 {
      var m := |turns| - 1;
      TurnsTextAll(turns[..m], lines[..m], show);
    }
  }

  lemma {:induction false} ConvsTextAll(convs: seq<Json>, blocks: seq<string>, show: Json -> string)
    requires |convs| == |blocks| && forall i :: 0 <= i < |convs| ==> ConvText(convs[i], show) == Some(blocks[i])
    ensures ConvsText(convs, show) == Some(Flatten(blocks))
    decreases |convs|
  {
    if |convs| > 0 {
      var m := |convs| - 1;
      ConvsTextAll(convs[..m], blocks[..m], show);
    }
  }

  /** The five analysis questions, in order. */
  const Questions: seq<string> := [
    "Has any person given their age? (and what age was given)",
    "Has any person asked the other for their age?",
    "Has any person asked to meet up in person? Where?",
    "Has any person given a gift to the other? Or bought something from a list like an amazon wish list?",
    "Have any videos or photos been produced? Requested?"
  ]

  /** `f"[Question{i+1}]. {q}"` for the question at 0-based position i. */
  function QuestionLine(i: nat, q: string): string
  {
    "[Question" + NatToString(i + 1) + "]. " + q
  }

  /** `questions_str`: the numbered questions joined by newlines. */
  function QuestionsBlock(qs: seq<string>): string
  {
    Join("\n", seq(|qs|, i requires 0 <= i < |qs| => QuestionLine(i, qs[i])))
  }

  lemma QuestionLineNoNewline(i: nat, q: string)
    requires NoNewline(q)
    ensures NoNewline(QuestionLine(i, q))
  {
    var n := NatToString(i + 1);
    assert NoNewline(n) by {
      forall j | 0 <= j < |n| ensures n[j] != '\n' {
        assert IsDigit(n[j]);
      }
    }
    NoNewlineAppend("[Question", n);
    NoNewlineAppend("[Question" + n, "]. ");
    NoNewlineAppend("[Question" + n + "]. ", q);
  }

  /** Single-line questions give one numbered line each, in order,
      numbered from 1. */
  lemma QuestionsBlockLines(qs: seq<string>)
    requires |qs| >= 1 && forall i :: 0 <= i < |qs| ==> NoNewline(qs[i])
    ensures var ls := Split(QuestionsBlock(qs), "\n");
      |ls| == |qs| && forall i :: 0 <= i < |qs| ==> ls[i] == "[Question" + NatToString(i + 1) + "]. " + qs[i]
  {
    var ls := seq(|qs|, i requires 0 <= i < |qs| => QuestionLine(i, qs[i]));
    forall k, j | 0 <= k < |ls| && 0 <= j < |ls[k]| ensures ls[k][j] != '\n' {
      QuestionLineNoNewline(k, qs[k]);
    }
    SplitJoinChar(ls, '\n');
  }

  const TemplateHead: string := "\n    You are analyzing a conversation for specific patterns and behaviors. \n" +
    "    Please review the following conversation carefully and answer each question precisely.\n\n" +
    "    Conversation:\n    "
  const TemplateMiddle: string := "\n\n    For each question below, provide a clear YES/NO answer followed by " +
    "specific evidence or \"No evidence found\":\n\n    "
  const TemplateTail: string := "\n\n    You are analyzing a conversation for specific patterns and behaviors. " +
    "Review the conversation carefully and provide your analysis in the following the format:\n" +
    "    answer_question_1. NO - No evidence found in conversation\n" +
    "    answer_question_2. NO - No evidence found in conversation\n" +
    "    answer_question_3. Yes - xxxxxxx\n" +
    "    answer_question_4. NO - No evidence found in conversation\n" +
    "    answer_question_5. NO - No evidence found in conversation\n    "

  /** `PROMPT_TEMPLATE.format(conversation=..., questions=...)`. */
  function AnalysisPrompt(conversation: string, questions: string): string
  {
    TemplateHead + conversation + TemplateMiddle + questions + TemplateTail
  }

  /** The prompt holds the conversation and then the questions, each whole,
      after the fixed text before them. */
  lemma AnalysisPromptCarries(conversation: string, questions: string)
    ensures var p := AnalysisPrompt(conversation, questions);
      OccursAt(p, conversation, |TemplateHead|) &&
      OccursAt(p, questions, |TemplateHead + conversation + TemplateMiddle|)
  {
    var a := TemplateHead;
    var b := TemplateHead + conversation + TemplateMiddle;
    var p := AnalysisPrompt(conversation, questions);
    AppendAssoc(a + conversation, TemplateMiddle + questions, TemplateTail);
    AppendAssoc(a + conversation, TemplateMiddle, questions);
    assert p == a + conversation + (TemplateMiddle + questions + TemplateTail);
    assert p[|a|..|a| + |conversation|] == conversation;
    assert p == b + questions + TemplateTail;
    assert p[|b|..|b| + |questions|] == questions;
  }

  /** `analyze_conversation`: the pipeline's reply is printed, and the
      function returns None whether or not the call raised. */
  function AnalyzeConversation(conversationText: string, pipeline: string -> Result<string, string>): (r: Option<Json>)
    ensures r.None?
  {
    var reply := pipeline(AnalysisPrompt(conversationText, QuestionsBlock(Questions)));
    None
  }

  /** The texts `process_files` analyzes: the loaded files' formatted texts
      that are not empty, in file order. */
  function AnalyzedTexts(loaded: seq<Option<Json>>, show: Json -> string): (ts: seq<string>)
    ensures |ts| <= |loaded|
    ensures forall k :: 0 <= k < |ts| ==> ts[k] != ""
  {
    if |loaded| == 0 then []
    else
      var prev := AnalyzedTexts(loaded[..|loaded| - 1], show);
      var data := loaded[|loaded| - 1];
      if data.Some? && Formatted(data.value, show) != "" then prev + [Formatted(data.value, show)] else prev
  }

  /** `process_files` once the pipeline is set up: each file's parsed JSON
      (None when loading failed) is formatted, empty texts are skipped, and
      the rest are analyzed; the results written are what was collected. */
  method ProcessFiles(loaded: seq<Option<Json>>, show: Json -> string, pipeline: string -> Result<string, string>)
    returns (analyzed: seq<string>, allResults: seq<Json>)
    ensures analyzed == AnalyzedTexts(loaded, show)
    ensures allResults == []
  {
    analyzed := [];
    allResults := [];
    for i := 0 to |loaded|
      invariant analyzed == AnalyzedTexts(loaded[..i], show)
      invariant allResults == []
    {
      assert loaded[..i + 1][..i] == loaded[..i];
      var conversationText: Option<string> := None;
      if loaded[i].Some? {
        var text := FormatConversation(loaded[i].value, show);
        conversationText := Some(text);
      }
      if conversationText.None? || conversationText.value == "" {
        continue;
      }
      analyzed := analyzed + [conversationText.value];
      var result := AnalyzeConversation(conversationText.value, pipeline);
      if result.Some? {
        allResults := allResults + [result.value];
      }
    }
    assert loaded[..|loaded|] == loaded;
  }
}
