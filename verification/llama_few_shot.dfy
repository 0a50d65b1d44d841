/** The few-shot chat-log assistant of `few_shot_model/llama_few_shot.py`:
    the chat log is cut into chunks of rows, each chunk is rendered as
    text and sent with the question to the model, and the non-empty
    replies are put together into one answer. */
module LlamaFewShot {
  import opened Wrappers
  import opened Slices
  import opened Text
  import opened Turns

  /** One row of the chat-log CSV: its fields, sender and message and
      timestamp first. */
  type ChatRow = seq<string>

  const DefaultChunkSize: int := 10

  /** The errors Python raises here. */
  const ZeroStep: string := "range() arg 3 must not be zero"
  const IndexError: string := "list index out of range"

  /** The chunking of `load_chat_log_chunks` once the rows are read:
      `chat_log[i:i + chunk_size]` for i in `range(0, len(chat_log), chunk_size)`.
      A zero chunk size raises; a negative one gives an empty range. */
  function ChatChunks(log: seq<ChatRow>, chunkSize: int): (r: Result<seq<seq<ChatRow>>, string>)
    ensures r.Failure? <==> chunkSize == 0
    ensures r.Failure? ==> r.error == ZeroStep
    ensures chunkSize < 0 ==> r == Success([])
  {
    if chunkSize == 0 then Failure(ZeroStep)
    else if chunkSize < 0 then Success([])
    else Success(Chunks(log, chunkSize))
  }

  /** The chunks are consecutive slices of the log: put together they give
      the log back, none is empty, none is longer than the chunk size, and
      only the last may be shorter. */
  lemma ChatChunksPartition(log: seq<ChatRow>, chunkSize: int)
    requires chunkSize > 0
    ensures var cs := ChatChunks(log, chunkSize).value;
      Flatten(cs) == log &&
      (forall k :: 0 <= k < |cs| ==> 0 < |cs[k]| <= chunkSize) &&
      (forall k :: 0 <= k < |cs| - 1 ==> |cs[k]| == chunkSize)
  {
    var cs := Chunks(log, chunkSize);
    ChunksFlatten(log, chunkSize);
    forall k | 0 <= k < |cs| ensures 0 < |cs[k]| <= chunkSize && (k < |cs| - 1 ==> |cs[k]| == chunkSize) {
      ChunkAt(log, chunkSize, k);
    }
  }

  predicate HasFields(row: ChatRow)
  {
    |row| >= 3
  }

  /** `f"{row[0]}: {row[1]} (Timestamp: {row[2]})"`. */
  function RowLine(row: ChatRow): string
    requires HasFields(row)
  {
    row[0] + ": " + row[1] + " (Timestamp: " + row[2] + ")"
  }

  /** Every row of the chunk has its three fields. */
  predicate WellFormedChunk(chunk: seq<ChatRow>)
  {
    forall k :: 0 <= k < |chunk| ==> HasFields(chunk[k])
  }

  function RowLines(chunk: seq<ChatRow>): (ls: seq<string>)
    requires WellFormedChunk(chunk)
    ensures |ls| == |chunk|
  {
    seq(|chunk|, k requires 0 <= k < |chunk| => RowLine(chunk[k]))
  }

  /** `format_chat_log_chunk`: the rows' lines joined by newlines; a row
      with fewer than three fields raises. */
  function FormatChatLogChunk(chunk: seq<ChatRow>): (r: Result<string, string>)
    ensures r.Success? <==> WellFormedChunk(chunk)
    ensures r.Failure? ==> r.error == IndexError
  {
    if WellFormedChunk(chunk) then Success(Join("\n", RowLines(chunk))) else Failure(IndexError)
  }

  /** A row with its three fields, none of which holds a newline. */
  predicate SingleLineRow(row: ChatRow)
  {
    HasFields(row) && NoNewline(row[0]) && NoNewline(row[1]) && NoNewline(row[2])
  }

  /** Such a row renders to one line. */
  lemma RowLineNoNewline(row: ChatRow)
    requires SingleLineRow(row)
    ensures NoNewline(RowLine(row))
  {
    NoNewlineAppend(row[0], ": ");
    NoNewlineAppend(row[0] + ": ", row[1]);
    NoNewlineAppend(row[0] + ": " + row[1], " (Timestamp: ");
    NoNewlineAppend(row[0] + ": " + row[1] + " (Timestamp: ", row[2]);
    NoNewlineAppend(row[0] + ": " + row[1] + " (Timestamp: " + row[2], ")");
  }

  /** The chunk text has one line per row, in row order, when no field
      holds a newline. */
  lemma ChunkTextLines(chunk: seq<ChatRow>)
    requires |chunk| > 0
    requires forall k :: 0 <= k < |chunk| ==> SingleLineRow(chunk[k])
    ensures FormatChatLogChunk(chunk).Success?
    ensures Split(FormatChatLogChunk(chunk).value, "\n") == RowLines(chunk)
  {
    var ls := RowLines(chunk);
    forall k, i | 0 <= k < |ls| && 0 <= i < |ls[k]| ensures ls[k][i] != '\n' {
      RowLineNoNewline(chunk[k]);
    }
    SplitJoinChar(ls, '\n');
  }

  const ExamplesIntro: string := "Here are some few-shot examples of similar questions and their answers:\n\n"
  const Instructions: string := "\n\nNow, examine this part of the chat log carefully and answer the question by " +
    "identifying specific details with timestamps and quoting relevant lines if available.\n\n"
  const QuestionIntro: string := "\n\nQuestion: "
  const Closing: string := "\n\nPlease provide a concise answer, including timestamps and direct quotes " +
    "from the chat log where applicable."

  /** The header of chunk i's section (0-based; the section shown is i + 1). */
  function SectionHeader(i: nat): string
  {
    "Chat Log Section " + NatToString(i + 1) + ":\n"
  }

  /** The prompt sent for chunk i. */
  function Prompt(examples: string, i: nat, chunkText: string, question: string): string
  {
    ExamplesIntro + examples + Instructions + SectionHeader(i) + chunkText + QuestionIntro + question + Closing
  }

  /** A part sits at the offset of what precedes it. */
  lemma PartAt(a: string, x: string, b: string)
    ensures OccursAt(a + x + b, x, |a|)
  {
    assert (a + x + b)[|a|..|a| + |x|] == x;
  }

  /** In a concatenation of eight parts, the second, fifth and seventh
      sit at the offsets the parts before them add up to. */
  lemma PartsAt(a: string, x: string, b: string, c: string, y: string, d: string, z: string, e: string)
    ensures var p := a + x + b + c + y + d + z + e;
      OccursAt(p, x, |a|) && OccursAt(p, y, |a + x + b + c|) && OccursAt(p, z, |a + x + b + c + y + d|)
  {
    var p := a + x + b + c + y + d + z + e;
    AppendAssoc(a + x, b + c + y + d + z, e);
    AppendAssoc(a + x, b + c + y + d, z);
    AppendAssoc(a + x, b + c + y, d);
    AppendAssoc(a + x, b + c, y);
    AppendAssoc(a + x, b, c);
    PartAt(a, x, b + c + y + d + z + e);
    AppendAssoc(a + x + b + c + y, d + z, e);
    AppendAssoc(a + x + b + c + y, d, z);
    PartAt(a + x + b + c, y, d + z + e);
    PartAt(a + x + b + c + y + d, z, e);
  }

  /** The prompt carries the examples, the chunk's text and the question,
      each whole and in that order, after the fixed texts before them. */
  lemma PromptCarries(examples: string, i: nat, chunkText: string, question: string)
    ensures var p := Prompt(examples, i, chunkText, question);
      var textAt := |ExamplesIntro + examples + Instructions + SectionHeader(i)|;
      OccursAt(p, examples, |ExamplesIntro|) && OccursAt(p, chunkText, textAt) &&
      OccursAt(p, question, textAt + |chunkText + QuestionIntro|)
    ensures var p := Prompt(examples, i, chunkText, question);
      Contains(p, examples) && Contains(p, chunkText) && Contains(p, question)
  {
    var p := Prompt(examples, i, chunkText, question);
    PartsAt(ExamplesIntro, examples, Instructions, SectionHeader(i), chunkText, QuestionIntro, question, Closing);
    ContainsAt(p, examples, |ExamplesIntro|);
    ContainsAt(p, chunkText, |ExamplesIntro + examples + Instructions + SectionHeader(i)|);
    ContainsAt(p, question, |ExamplesIntro + examples + Instructions + SectionHeader(i) + chunkText + QuestionIntro|);
  }

  /** What `subprocess.run` reports for one prompt. */
  datatype RunResult = RunResult(returnCode: int, stdout: string, stderr: string)

  /** What the loop leaves: the replies collected, and the stripped error
      output when a call failed and ended the loop. */
  datatype Gather = Gather(responses: seq<string>, stopped: Option<string>)

  /** The reply to chunk i whose text is given: `run` applied to that
      chunk's prompt. */
  function Asker(examples: string, question: string, run: string -> RunResult): (nat, string) -> RunResult
  {
    (i: nat, text: string) => run(Prompt(examples, i, text, question))
  }

  /** The loop of `ask_questions` for one question, from chunk i on, with
      the replies `acc` collected before it; `ask` gives the reply for a
      chunk's position and text. A successful call adds its stripped output
      when that is not empty, a failing call ends the loop, and a chunk with
      a short row raises when it is reached. */
  function GatherFrom(chunks: seq<seq<ChatRow>>, ask: (nat, string) -> RunResult, i: nat, acc: seq<string>)
    : Result<Gather, string>
    requires i <= |chunks|
    decreases |chunks| - i
  {
    if i == |chunks| then Success(Gather(acc, None))
    else
      var text := FormatChatLogChunk(chunks[i]);
      if text.Failure? then Failure(text.error)
      else
        var result := ask(i, text.value);
        if result.returnCode != 0 then Success(Gather(acc, Some(Strip(result.stderr))))
        else
          var response := Strip(result.stdout);
          GatherFrom(chunks, ask, i + 1, if response != "" then acc + [response] else acc)
  }

  const NoInformation: string := "No relevant information found in the chat log."

  /** What is printed for one question: the error line when a call failed,
      then the answer. */
  function Printed(g: Gather): (lines: seq<string>)
    ensures |lines| == (if g.stopped.Some? then 2 else 1)
    ensures |g.responses| == 0 ==> lines[|lines| - 1] == NoInformation
    ensures |g.responses| > 0 ==> StartsWith(lines[|lines| - 1], "Answer: ")
    ensures g.stopped.Some? ==> lines[0] == "Error running the model: " + g.stopped.value
  {
    var answer := if |g.responses| > 0 then "Answer: " + Join(" ", g.responses) else NoInformation;
    (if g.stopped.Some? then ["Error running the model: " + g.stopped.value] else []) + [answer]
  }

  /** The answer line is the collected replies joined by single spaces:
      when no reply holds a space, splitting what follows "Answer: " on
      the space gives the replies back, in order. */
  lemma AnswerCarriesResponses(g: Gather)
    requires |g.responses| > 0
    requires forall k, i :: 0 <= k < |g.responses| && 0 <= i < |g.responses[k]| ==> g.responses[k][i] != ' '
    ensures var line := Printed(g)[|Printed(g)| - 1];
      |line| >= 8 && Split(line[8..], " ") == g.responses
  {
    var line := Printed(g)[|Printed(g)| - 1];
    assert line == "Answer: " + Join(" ", g.responses);
    assert line[8..] == Join(" ", g.responses);
    SplitJoinChar(g.responses, ' ');
  }

  /** The output for one question: the printed lines, or the error that
      escapes when a chunk has a short row. */
  function Output(examples: string, question: string, chunks: seq<seq<ChatRow>>, run: string -> RunResult)
    : Result<seq<string>, string>
  {
    var g := GatherFrom(chunks, Asker(examples, question, run), 0, []);
    if g.Failure? then Failure(g.error) else Success(Printed(g.value))
  }

  /** One round of the question loop of `ask_questions`. */
  method AskQuestion(examples: string, question: string, chunks: seq<seq<ChatRow>>, run: string -> RunResult)
    returns (r: Result<seq<string>, string>)
    ensures r == Output(examples, question, chunks, run)
  {
    ghost var ask := Asker(examples, question, run);
    var allResponses: seq<string> := [];
    var stopped: Option<string> := None;
    var i := 0;
    while i < |chunks|
      invariant i <= |chunks|
      invariant GatherFrom(chunks, ask, 0, []) == GatherFrom(chunks, ask, i, allResponses)
      invariant stopped == None
      decreases |chunks| - i
    {
      var text := FormatChatLogChunk(chunks[i]);
      if text.Failure? {
        return Failure(text.error);
      }
      var result := run(Prompt(examples, i, text.value, question));
      assert result == ask(i, text.value);
      if result.returnCode == 0 {
        var response := Strip(result.stdout);
        if response != "" {
          allResponses := allResponses + [response];
        }
      } else {
        stopped := Some(Strip(result.stderr));
        break;
      }
      i := i + 1;
    }
    r := Success(Printed(Gather(allResponses, stopped)));
  }

  /** The replies every chunk would get, for a log whose rows all have
      their three fields. */
  function Replies(chunks: seq<seq<ChatRow>>, ask: (nat, string) -> RunResult): (rs: seq<RunResult>)
    requires forall c :: 0 <= c < |chunks| ==> WellFormedChunk(chunks[c])
    ensures |rs| == |chunks|
  {
    seq(|chunks|, c requires 0 <= c < |chunks| => ask(c, FormatChatLogChunk(chunks[c]).value))
  }

  /** The position of the first failing call, or the number of calls. */
  function FirstFailure(rs: seq<RunResult>): (f: nat)
    ensures f <= |rs|
    ensures forall c :: 0 <= c < f ==> rs[c].returnCode == 0
    ensures f < |rs| ==> rs[f].returnCode != 0
  {
    if |rs| == 0 then 0
    else if rs[0].returnCode != 0 then 0
    else
      var f := 1 + FirstFailure(rs[1..]);
      assert forall c :: 1 <= c < f ==> rs[c] == rs[1..][c - 1];
      f
  }

  /** The stripped, non-empty outputs of the given calls, in order. */
  function NonEmptyOutputs(rs: seq<RunResult>): (out: seq<string>)
    ensures |out| <= |rs|
    ensures forall k :: 0 <= k < |out| ==> out[k] != ""
  {
    if |rs| == 0 then []
    else
      var s := Strip(rs[0].stdout);
      var front: seq<string> := if s != "" then [s] else [];
      var rest := NonEmptyOutputs(rs[1..]);
      front + rest
  }

  /** What the loop should leave for the given replies, in order: the
      non-empty stripped outputs of the calls before the first failing
      one, and that call's stripped error output. */
  function Expected(rs: seq<RunResult>): (g: Gather)
    ensures |g.responses| <= FirstFailure(rs)
    ensures g.stopped.Some? <==> FirstFailure(rs) < |rs|
  {
    var f := FirstFailure(rs);
    Gather(NonEmptyOutputs(rs[..f]), if f < |rs| then Some(Strip(rs[f].stderr)) else None)
  }

  /** A first call that fails leaves nothing collected. */
  lemma ExpectedFails(rs: seq<RunResult>)
    requires |rs| > 0 && rs[0].returnCode != 0
    ensures Expected(rs) == Gather([], Some(Strip(rs[0].stderr)))
  {
  }

  /** A first call that succeeds contributes its output, if not empty,
      ahead of what the later calls give. */
  lemma ExpectedSucceeds(rs: seq<RunResult>)
    requires |rs| > 0 && rs[0].returnCode == 0
    ensures var s := Strip(rs[0].stdout);
      Expected(rs).responses == (if s != "" then [s] else []) + Expected(rs[1..]).responses
    ensures Expected(rs).stopped == Expected(rs[1..]).stopped
  {
    var f := FirstFailure(rs);
    var rest := rs[1..];
    assert f == 1 + FirstFailure(rest);
    assert rs[..f][1..] == rest[..f - 1];
    if f < |rs| {
      assert rs[f] == rest[f - 1];
    }
  }

  /** For a log whose rows all have three fields, the loop collects exactly
      what `Expected` says of the replies the chunks get. */
  lemma GatheredReference(chunks: seq<seq<ChatRow>>, ask: (nat, string) -> RunResult)
    requires forall c :: 0 <= c < |chunks| ==> WellFormedChunk(chunks[c])
    ensures GatherFrom(chunks, ask, 0, []) == Success(Expected(Replies(chunks, ask)))
  {
    var rs := Replies(chunks, ask);
    GatherFromReference(chunks, ask, 0, []);
    assert rs[0..] == rs;
    var g := Expected(rs);
    assert [] + g.responses == g.responses;
  }

  /** One step of the loop on a chunk whose rows all have three fields. */
  lemma GatherFromStep(chunks: seq<seq<ChatRow>>, ask: (nat, string) -> RunResult, i: nat, acc: seq<string>)
    requires i < |chunks| && WellFormedChunk(chunks[i])
    ensures var r := ask(i, FormatChatLogChunk(chunks[i]).value);
      var s := Strip(r.stdout);
      GatherFrom(chunks, ask, i, acc) ==
        if r.returnCode != 0 then Success(Gather(acc, Some(Strip(r.stderr))))
        else GatherFrom(chunks, ask, i + 1, acc + (if s != "" then [s] else []))
  {
    assert acc + [] == acc;
  }

  lemma {:induction false} GatherFromReference(chunks: seq<seq<ChatRow>>, ask: (nat, string) -> RunResult,
                                               i: nat, acc: seq<string>)
    requires i <= |chunks|
    requires forall c :: 0 <= c < |chunks| ==> WellFormedChunk(chunks[c])
    ensures var g := Expected(Replies(chunks, ask)[i..]);
      GatherFrom(chunks, ask, i, acc) == Success(Gather(acc + g.responses, g.stopped))
    decreases |chunks| - i
  {
    var all := Replies(chunks, ask);
    var rs := all[i..];
    if i == |chunks| {
      assert rs == [];
      assert acc + [] == acc;
    } else {
      var r := all[i];
      assert rs[0] == r;
      GatherFromStep(chunks, ask, i, acc);
      if r.returnCode == 0 {
        var s := Strip(r.stdout);
        var front: seq<string> := if s != "" then [s] else [];
        GatherFromReference(chunks, ask, i + 1, acc + front);
        assert rs[1..] == all[i + 1..];
        ExpectedSucceeds(rs);
        var later := Expected(rs[1..]);
        AppendAssoc(acc, front, later.responses);
      } else {
        ExpectedFails(rs);
        assert acc + [] == acc;
      }
    }
  }
}
