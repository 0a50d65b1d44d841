/** `CSVAnalysisClient` of `src/client/csv_analysis_client.py`: each row of
    the labeled CSV is rendered as a conversation text, and the rows are
    sent to the model in consecutive batches whose results are put together
    in order. */
module CsvAnalysisClient {
  import opened Wrappers
  import opened Slices
  import opened Text
  import opened Turns
  import opened Labels

  /** A row of the frame read with `index_col="ID"`: its name (the `ID`
      cell) and the `str()` of its five label columns, Q1..Q5 in order. */
  datatype LabelRow = LabelRow(name: string, cells: Answers)

  /** The dictionary `prepare_conversation_data` returns. */
  datatype ConversationData = ConversationData(conversationText: string, id: string)

  const IdLabel: string := "        Conversation ID: "
  const AgeHeader: string := "        Age Information:"
  const GivenLabel: string := "        - Age Given: "
  const AskedLabel: string := "        - Age Asked: "
  const DetailsHeader: string := "        Interaction Details:"
  const MeetLabel: string := "        - Meet Up Request: "
  const GiftLabel: string := "        - Gift/Purchase: "
  const MediaLabel: string := "        - Videos/Photos: "
  const Closing: string := "        "

  /** The lines of the triple-quoted text: an empty first line, the id, the
      two age answers, an empty line, the three interaction answers, and the
      indentation before the closing quotes. */
  function ConversationLines(row: LabelRow): (ls: seq<string>)
    ensures |ls| == 11
  {
    ["", IdLabel + row.name, AgeHeader, GivenLabel + row.cells[0], AskedLabel + row.cells[1], "",
     DetailsHeader, MeetLabel + row.cells[2], GiftLabel + row.cells[3], MediaLabel + row.cells[4], Closing]
  }

  /** `prepare_conversation_data`: the text and the row's name as id. */
  function PrepareConversationData(row: LabelRow): (d: ConversationData)
    ensures d.id == row.name
  {
    ConversationData(Join("\n", ConversationLines(row)), row.name)
  }

  /** Reads the id and the five answers back from a conversation text. */
  function ReadBack(text: string): Option<LabelRow>
  {
    var ls := Split(text, "\n");
    if |ls| == 11 && StartsWith(ls[1], IdLabel) && StartsWith(ls[3], GivenLabel) && StartsWith(ls[4], AskedLabel)
       && StartsWith(ls[7], MeetLabel) && StartsWith(ls[8], GiftLabel) && StartsWith(ls[9], MediaLabel)
    then
      Some(LabelRow(ls[1][|IdLabel|..], [ls[3][|GivenLabel|..], ls[4][|AskedLabel|..], ls[7][|MeetLabel|..],
                                         ls[8][|GiftLabel|..], ls[9][|MediaLabel|..]]))
    else None
  }

  /** The row's name and every cell are single-line strings. */
  predicate SingleLine(row: LabelRow)
  {
    NoNewline(row.name) && forall q :: 0 <= q < 5 ==> NoNewline(row.cells[q])
  }

  lemma LabelsSingleLine()
    ensures NoNewline(IdLabel) && NoNewline(AgeHeader) && NoNewline(GivenLabel) && NoNewline(AskedLabel)
    ensures NoNewline(DetailsHeader) && NoNewline(MeetLabel) && NoNewline(GiftLabel) && NoNewline(MediaLabel)
    ensures NoNewline(Closing) && NoNewline("")
  {
  }

  /** A labelled part keeps its label in front and its value after it. */
  lemma LabelledPart(tag: string, value: string)
    ensures StartsWith(tag + value, tag) && (tag + value)[|tag|..] == value
  {
  }

  /** The text has one line per part, and the name and the five answers
      can be read back from it, when none of them holds a newline. */
  lemma PreparedReadBack(row: LabelRow)
    requires SingleLine(row)
    ensures Split(PrepareConversationData(row).conversationText, "\n") == ConversationLines(row)
    ensures ReadBack(PrepareConversationData(row).conversationText) == Some(row)
  {
    var ls := ConversationLines(row);
    LabelsSingleLine();
    NoNewlineAppend(IdLabel, row.name);
    NoNewlineAppend(GivenLabel, row.cells[0]);
    NoNewlineAppend(AskedLabel, row.cells[1]);
    NoNewlineAppend(MeetLabel, row.cells[2]);
    NoNewlineAppend(GiftLabel, row.cells[3]);
    NoNewlineAppend(MediaLabel, row.cells[4]);
    forall k, i | 0 <= k < |ls| && 0 <= i < |ls[k]| ensures ls[k][i] != '\n' {
      assert NoNewline(ls[k]);
    }
    SplitJoinChar(ls, '\n');
    LabelledPart(IdLabel, row.name);
    LabelledPart(GivenLabel, row.cells[0]);
    LabelledPart(AskedLabel, row.cells[1]);
    LabelledPart(MeetLabel, row.cells[2]);
    LabelledPart(GiftLabel, row.cells[3]);
    LabelledPart(MediaLabel, row.cells[4]);
    var cells: Answers := [row.cells[0], row.cells[1], row.cells[2], row.cells[3], row.cells[4]];
    assert cells == row.cells;
  }

  /** The error Python raises for `len(df) // 0`. */
  const ZeroDivision: string := "integer division or modulo by zero"

  /** `total_batches`: `len(df) // batch_size` plus one for a partial batch. */
  function TotalBatches(n: nat, batchSize: nat): nat
    requires batchSize > 0
  {
    n / batchSize + (if n % batchSize > 0 then 1 else 0)
  }

  /** Euclidean division is determined by quotient and remainder. */
  lemma DivOf(m: nat, d: nat, q: nat, r: nat)
    requires d > 0 && m == q * d + r && r < d
    ensures m / d == q
  {
    var q', r' := m / d, m % d;
    assert m == q' * d + r';
    if q' < q {
      MulMono(q' + 1, q, d);
      MulSucc(q', d);
    } else if q < q' {
      MulMono(q + 1, q', d);
      MulSucc(q, d);
    }
  }

  /** The number of batches logged is the number of batches the loop runs. */
  lemma TotalBatchesCount(rows: seq<LabelRow>, batchSize: nat)
    requires batchSize > 0
    ensures TotalBatches(|rows|, batchSize) == |Chunks(rows, batchSize)|
  {
    var n := |rows|;
    var q, r := n / batchSize, n % batchSize;
    assert n == q * batchSize + r;
    if r > 0 {
      MulSucc(q, batchSize);
      DivOf(n + batchSize - 1, batchSize, q + 1, r - 1);
    } else {
      DivOf(n + batchSize - 1, batchSize, q, batchSize - 1);
    }
  }

  /** The model's input for a batch: one record per row, in order. */
  function PrepareAll(batch: seq<LabelRow>): (ds: seq<ConversationData>)
    ensures |ds| == |batch|
    ensures forall k :: 0 <= k < |batch| ==> ds[k] == PrepareConversationData(batch[k])
  {
    seq(|batch|, k requires 0 <= k < |batch| => PrepareConversationData(batch[k]))
  }

  /** What a batch adds: the model's results, or nothing when the call
      raised. */
  function BatchOutput<R>(batch: seq<LabelRow>, ask: seq<ConversationData> -> Result<seq<R>, string>): seq<R>
  {
    var r := ask(PrepareAll(batch));
    if r.Success? then r.value else []
  }

  /** What `process_batch` returns: a zero batch size raises, a negative one
      runs no batch, and otherwise the outputs of the consecutive batches
      are concatenated in order. */
  function Processed<R>(rows: seq<LabelRow>, batchSize: int, ask: seq<ConversationData> -> Result<seq<R>, string>)
    : (r: Result<seq<R>, string>)
    ensures r.Failure? <==> batchSize == 0
    ensures r.Failure? ==> r.error == ZeroDivision
    ensures batchSize < 0 ==> r == Success([])
  {
    if batchSize == 0 then Failure(ZeroDivision)
    else if batchSize < 0 then Success([])
    else
      var batches := Chunks(rows, batchSize);
      Success(Flatten(seq(|batches|, k requires 0 <= k < |batches| => BatchOutput(batches[k], ask))))
  }

  /** `process_batch`, with the model as `ask`. */
  method ProcessBatch<R>(rows: seq<LabelRow>, batchSize: int, ask: seq<ConversationData> -> Result<seq<R>, string>)
    returns (r: Result<seq<R>, string>)
    ensures r == Processed(rows, batchSize, ask)
  {
    if batchSize == 0 {
      return Failure(ZeroDivision);
    }
    if batchSize < 0 {
      return Success([]);
    }
    ghost var batches := Chunks(rows, batchSize);
    ghost var outputs := seq(|batches|, k requires 0 <= k < |batches| => BatchOutput(batches[k], ask));
    var allResults: seq<R> := [];
    var i := 0;
    ghost var k := 0;
    while i < |rows|
      invariant k <= |batches| && i == k * batchSize
      invariant allResults == Flatten(outputs[..k])
      decreases |rows| - i
    {
      ChunkStartCovers(rows, batchSize, k);
      BatchAt(rows, batchSize, k);
      var batch := rows[i..Min(i + batchSize, |rows|)];
      assert batch == batches[k];
      var conversationData := PrepareAll(batch);
      var batchResults := ask(conversationData);
      if batchResults.Success? {
        allResults := allResults + batchResults.value;
      }
      assert allResults == Flatten(outputs[..k]) + outputs[k];
      FlattenSnoc(outputs, k + 1);
      i, k := i + batchSize, k + 1;
    }
    ChunkEndCovers(rows, batchSize, k);
    assert outputs[..k] == outputs;
    r := Success(allResults);
  }

  /** Batch k starts where the loop index stands after k batches. */
  lemma BatchAt(rows: seq<LabelRow>, batchSize: nat, k: nat)
    requires batchSize > 0 && k < |Chunks(rows, batchSize)|
    ensures k * batchSize < |rows| && Chunks(rows, batchSize)[k] == rows[k * batchSize..Min(k * batchSize + batchSize, |rows|)]
  {
    ChunkAt(rows, batchSize, k);
    MulSucc(k, batchSize);
  }

  /** While the loop index is inside the rows, a batch remains. */
  lemma ChunkStartCovers(rows: seq<LabelRow>, batchSize: nat, k: nat)
    requires batchSize > 0 && k * batchSize < |rows|
    ensures k < |Chunks(rows, batchSize)|
  {
    CeilDivBounds(|rows|, batchSize);
    var q := CeilDiv(|rows|, batchSize);
    if k >= q {
      MulMono(q, k, batchSize);
    }
  }

  /** Once the loop index passes the rows, every batch has been run. */
  lemma ChunkEndCovers(rows: seq<LabelRow>, batchSize: nat, k: nat)
    requires batchSize > 0 && k <= |Chunks(rows, batchSize)| && k * batchSize >= |rows|
    ensures k == |Chunks(rows, batchSize)|
  {
    if k < CeilDiv(|rows|, batchSize) {
      ChunkStart(|rows|, batchSize, k);
    }
  }

  /** The model applied one conversation at a time. */
  function MapAll<A, B>(xs: seq<A>, f: A -> B): (ys: seq<B>)
    ensures |ys| == |xs|
    ensures forall j :: 0 <= j < |xs| ==> ys[j] == f(xs[j])
  {
    seq(|xs|, j requires 0 <= j < |xs| => f(xs[j]))
  }

  lemma MapAllAppend<A, B>(a: seq<A>, b: seq<A>, f: A -> B)
    ensures MapAll(a + b, f) == MapAll(a, f) + MapAll(b, f)
  {
  }

  /** Concatenating per-part results is mapping over the concatenation. */
  lemma {:induction false} FlattenMapAll<A, B>(xss: seq<seq<A>>, yss: seq<seq<B>>, f: A -> B)
    requires |yss| == |xss| && forall k :: 0 <= k < |xss| ==> yss[k] == MapAll(xss[k], f)
    ensures Flatten(yss) == MapAll(Flatten(xss), f)
    decreases |xss|
  {
    if |xss| > 0 {
      var m := |xss| - 1;
      FlattenMapAll(xss[..m], yss[..m], f);
      MapAllAppend(Flatten(xss[..m]), xss[m], f);
    }
  }

  /** When the model answers every conversation on its own and never
      raises, batching does not show in the output: it holds one result
      per row, in row order, whatever the batch size. */
  lemma BatchingTransparent<R>(rows: seq<LabelRow>, batchSize: nat, ask: seq<ConversationData> -> Result<seq<R>, string>,
                               answer: ConversationData -> R)
    requires batchSize > 0
    requires forall ds :: ask(ds) == Success(MapAll(ds, answer))
    ensures Processed(rows, batchSize, ask) == Success(MapAll(rows, (row: LabelRow) => answer(PrepareConversationData(row))))
  {
    var f := (row: LabelRow) => answer(PrepareConversationData(row));
    var batches := Chunks(rows, batchSize);
    var outputs := seq(|batches|, k requires 0 <= k < |batches| => BatchOutput(batches[k], ask));
    forall k | 0 <= k < |batches| ensures outputs[k] == MapAll(batches[k], f) {
      assert ask(PrepareAll(batches[k])) == Success(MapAll(PrepareAll(batches[k]), answer));
    }
    FlattenMapAll(batches, outputs, f);
    ChunksFlatten(rows, batchSize);
  }

  /** An empty part drops out of a concatenation. */
  lemma FlattenSkip<T>(xss: seq<seq<T>>, k: nat)
    requires k < |xss| && xss[k] == []
    ensures Flatten(xss) == Flatten(xss[..k]) + Flatten(xss[k + 1..])
  {
    FlattenAppend(xss[..k + 1], xss[k + 1..]);
    assert xss[..k + 1] + xss[k + 1..] == xss;
    FlattenSnoc(xss, k + 1);
    assert Flatten(xss[..k]) + xss[k] == Flatten(xss[..k]);
  }

  /** A batch the model fails on adds nothing, and the batches after it
      still run: the output is the other batches' results, in order. */
  lemma FailedBatchSkipped<R>(rows: seq<LabelRow>, batchSize: nat, ask: seq<ConversationData> -> Result<seq<R>, string>, k: nat)
    requires batchSize > 0 && k < |Chunks(rows, batchSize)|
    requires ask(PrepareAll(Chunks(rows, batchSize)[k])).Failure?
    ensures var batches := Chunks(rows, batchSize);
      var outputs := seq(|batches|, j requires 0 <= j < |batches| => BatchOutput(batches[j], ask));
      Processed(rows, batchSize, ask).value == Flatten(outputs[..k]) + Flatten(outputs[k + 1..])
  {
    var batches := Chunks(rows, batchSize);
    var outputs := seq(|batches|, j requires 0 <= j < |batches| => BatchOutput(batches[j], ask));
    FlattenSkip(outputs, k);
  }
}
