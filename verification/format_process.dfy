/** `process_data` of the Cornell `format_process.py`: labeled rows are
    joined with the loaded conversations by id, and only rows with at
    least one answer starting with "Yes" are kept, as formatted records. */
module FormatProcess {
  import opened Wrappers
  import opened Text
  import opened PyDict
  import opened Turns
  import opened Labels

  /** A turn as loaded from a part file: speaker, text and whatever other
      keys the stored object carries. */
  datatype StoredTurn = StoredTurn(speaker: string, text: string, others: Dict<string, string>)

  /** A conversation as loaded from a part file. */
  datatype StoredConversation = StoredConversation(conversationId: string, turns: seq<StoredTurn>)

  /** A row of the labeled CSV: its `ID` and the `str()` of its five
      answer columns, Q1..Q5 in order. */
  datatype LabeledRow = LabeledRow(id: string, answers: Answers)

  /** One output record. */
  datatype Formatted = Formatted(originalId: string, dialogue: seq<Turn>, questions: Dict<string, string>)

  /** The (id, conversation) pairs of the `conv_dict` comprehension, in
      list order. */
  function ConvPairs(convs: seq<StoredConversation>): (ps: seq<(string, StoredConversation)>)
    ensures |ps| == |convs|
  {
    seq(|convs|, i requires 0 <= i < |convs| => (convs[i].conversationId, convs[i]))
  }

  /** `conv_dict`. */
  function ConvDict(convs: seq<StoredConversation>): Dict<string, StoredConversation>
  {
    FromPairs(ConvPairs(convs))
  }

  /** The last conversation of the list with the given id. */
  function LastWithId(convs: seq<StoredConversation>, id: string): (r: Option<StoredConversation>)
    ensures r.Some? ==> r.value.conversationId == id && r.value in convs
    ensures r.None? <==> forall i :: 0 <= i < |convs| ==> convs[i].conversationId != id
  {
    if |convs| == 0 then None
    else if convs[|convs| - 1].conversationId == id then Some(convs[|convs| - 1])
    else
      var r := LastWithId(convs[..|convs| - 1], id);
      assert forall i :: 0 <= i < |convs| - 1 ==> convs[..|convs| - 1][i] == convs[i];
      r
  }

  /** For a repeated conversation id, the last conversation with that id
      is the one `conv_dict` holds. */
  lemma ConvDictGet(convs: seq<StoredConversation>, id: string)
    ensures Get(ConvDict(convs), id) == LastWithId(convs, id)
  {
    FromPairsGet(ConvPairs(convs), id);
    LastValueWithId(convs, id);
  }

  lemma {:induction false} LastValueWithId(convs: seq<StoredConversation>, id: string)
    ensures LastValue(ConvPairs(convs), id) == LastWithId(convs, id)
  {
    if |convs| > 0 {
      var init := convs[..|convs| - 1];
      assert ConvPairs(convs)[..|convs| - 1] == ConvPairs(init);
      LastValueWithId(init, id);
    }
  }

  /** The `dialogue` list: the speaker and text of each turn, in order. */
  function Dialogue(c: StoredConversation): (d: seq<Turn>)
    ensures |d| == |c.turns|
    ensures forall k :: 0 <= k < |d| ==> d[k].speaker == c.turns[k].speaker && d[k].text == c.turns[k].text
  {
    seq(|c.turns|, k requires 0 <= k < |c.turns| => Turn(c.turns[k].speaker, c.turns[k].text))
  }

  /** The `questions` dict: Q1..Q5 in order, each holding its answer cell. */
  function QuestionsOf(answers: Answers): (q: Dict<string, string>)
    ensures Keys(q) == QuestionIds
    ensures forall i :: 0 <= i < 5 ==> Get(q, QuestionIds[i]) == Some(answers[i])
  {
    var q := seq(5, i requires 0 <= i < 5 => (QuestionIds[i], answers[i]));
    QuestionIdsDistinct();
    forall i | 0 <= i < 5 ensures Get(q, QuestionIds[i]) == Some(answers[i]) {
      GetAt(q, i);
    }
    q
  }

  /** `has_yes`: some answer starts with "Yes", case-sensitively. */
  predicate HasYes(answers: Answers)
  {
    exists i :: 0 <= i < 5 && StartsWith(answers[i], "Yes")
  }

  /** A row is kept when its id is a loaded conversation and it has a
      "Yes" answer. */
  predicate Kept(row: LabeledRow, dict: Dict<string, StoredConversation>)
  {
    Get(dict, row.id).Some? && HasYes(row.answers)
  }

  /** The formatted record of a row and its conversation. */
  function FormatRow(row: LabeledRow, c: StoredConversation): (f: Formatted)
    ensures f.originalId == row.id && f.dialogue == Dialogue(c) && f.questions == QuestionsOf(row.answers)
  {
    Formatted(row.id, Dialogue(c), QuestionsOf(row.answers))
  }

  /** The records for the given rows, in row order. */
  function Processed(rows: seq<LabeledRow>, dict: Dict<string, StoredConversation>): seq<Formatted>
  {
    if |rows| == 0 then []
    else
      var row := rows[|rows| - 1];
      Processed(rows[..|rows| - 1], dict) +
        (if Kept(row, dict) then [FormatRow(row, Get(dict, row.id).value)] else [])
  }

  /** The positions of the kept rows, in increasing order. */
  function KeptIndices(rows: seq<LabeledRow>, dict: Dict<string, StoredConversation>): (r: seq<nat>)
    ensures forall k :: 0 <= k < |r| ==> r[k] < |rows| && Kept(rows[r[k]], dict)
    ensures forall a, b :: 0 <= a < b < |r| ==> r[a] < r[b]
    ensures forall i :: 0 <= i < |rows| && Kept(rows[i], dict) ==> i in r
  {
    if |rows| == 0 then []
    else
      var n := |rows| - 1;
      var init := KeptIndices(rows[..n], dict);
      assert forall i :: 0 <= i < n ==> rows[..n][i] == rows[i];
      init + (if Kept(rows[n], dict) then [n] else [])
  }

  /** The output is the kept rows, formatted, in labeled-row order. */
  lemma {:induction false} ProcessedAt(rows: seq<LabeledRow>, dict: Dict<string, StoredConversation>)
    ensures |Processed(rows, dict)| == |KeptIndices(rows, dict)|
    ensures forall k :: 0 <= k < |Processed(rows, dict)| ==>
      var row := rows[KeptIndices(rows, dict)[k]];
      Processed(rows, dict)[k] == FormatRow(row, Get(dict, row.id).value)
  {
    if |rows| > 0 {
      var n := |rows| - 1;
      var init := rows[..n];
      ProcessedAt(init, dict);
      var p, ks := Processed(init, dict), KeptIndices(init, dict);
      forall k | 0 <= k < |p| ensures rows[ks[k]] == init[ks[k]] {
      }
    }
  }

  /** `process_data`: `conv_dict` first, then the rows in order, each
      appended when it is kept. */
  method ProcessData(rows: seq<LabeledRow>, convs: seq<StoredConversation>) returns (results: seq<Formatted>)
    ensures results == Processed(rows, ConvDict(convs))
  {
    var dict := ConvDict(convs);
    results := [];
    for i := 0 to |rows|
      invariant results == Processed(rows[..i], dict)
    {
      ProcessedSnoc(rows, dict, i);
      var row := rows[i];
      var conv := Get(dict, row.id);
      if conv.Some? {
        var formatted := FormatRow(row, conv.value);
        if HasYes(row.answers) {
          results := results + [formatted];
        }
      }
    }
    assert rows[..|rows|] == rows;
  }

  lemma ProcessedSnoc(rows: seq<LabeledRow>, dict: Dict<string, StoredConversation>, i: nat)
    requires i < |rows|
    ensures Processed(rows[..i + 1], dict) == Processed(rows[..i], dict) +
      (if Kept(rows[i], dict) then [FormatRow(rows[i], Get(dict, rows[i].id).value)] else [])
  {
    assert rows[..i + 1][..i] == rows[..i];
  }
}
