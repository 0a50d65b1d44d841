# message-analyzer in Dafny

message-analyzer screens chat conversations for five warning signs:
- Q1: an age was given;
- Q2: an age was asked;
- Q3: a meet-up was requested;
- Q4: a gift or purchase;
- Q5: videos or photos.

A language model is asked about each conversation. The scripts around that call:
- render conversations into prompts;
- parse the model's replies into YES/NO answers and evidence;
- fold per-chunk results into five answer slots;
- prepare the Cornell movie-dialogs corpus as test data;
- score the model's answers against hand labels.

This project models that text and counting logic and proves what it
guarantees. The language model is a function parameter from prompt to reply
(or to a `Result` where the call can raise). The model of each module is in
the file named after it:

| file | module | models |
|---|---|---|
| `prompt_ollama.dfy` | `PromptOllama` | YES/NO and evidence extraction, the five-question pass |
| `model2.dfy` | `Model2` | JSON-span extraction, evidence clean-up, `clean_and_format_response` |
| `split_text.dfy` | `SplitText` | the overlapping chunker `_split_text` and the stall it can fall into |
| `dialogue_analyzer.dfy` | `DialogueAnalyzer` | dialogue formatting, batch records, `compare_results` counters |
| `report.dfy` | `Report` | TP/FP/TN/FN counting, all-cases and yes-only metrics, pooled scoring |
| `test_eval.dfy` | `EvalTest` | `compare_answers`, per-file and pooled accuracy |
| `cmd_client.dfy` | `CmdClient` | `format_answer` and CSV row export |
| `cornell.dfy` | `CornellCorpus` | corpus line parsing, conversation joining, part-file splitting |
| `format_process.dfy` | `FormatProcess` | joining labeled rows with conversations, keeping "Yes" rows |
| `llama_few_shot.dfy` | `LlamaFewShot` | chat-log chunking and formatting, reply gathering |
| `csv_analysis_client.dfy` | `CsvAnalysisClient` | label-row text and batched analysis with failure skipping |
| `evaluation_client.dfy` | `EvaluationClient` | conversation-file formatting and question rendering |

Shared modules model Python's own behaviour:
- `Wrappers`: `Option` and `Result`.
- `Slices`: slicing, `range(0, n, step)` chunking and flattening.
- `Text`: `strip`, `find`, `rfind`, `split`, `join`, `replace`, ASCII case mapping and decimal rendering.
- `PyDict`: an insertion-ordered dict, as an association list whose `Put` overwrites in place.
- `Turns`: the `speaker: text` line.
- `Labels`: the ids Q1..Q5.

Code that loops in the source is a method with a loop. Each such method is
proved equal to a specification function. The properties the scripts rely
on are proved about those functions:
- round trips, e.g. splitting a formatted text gives its lines back;
- counting identities;
- "later results win" rules;
- the error paths.

Raised exceptions are `Failure` or `None` results, carrying Python's message
where one is printed or stored. Examples: "division by zero", "list index out
of range", "range() arg 3 must not be zero".

## Model

| member | source | states |
|---|---|---|
| PromptOllama.Render | src/ml/prompt_ollama.py:60 | the rendered template holds the conversation text verbatim in its slot |
| PromptOllama.ConversationLines | src/ml/prompt_ollama.py:36 | one rendered line per turn |
| PromptOllama.FormatConversation | src/ml/prompt_ollama.py:35-36 | the formatted conversation is empty exactly when there are no turns |
| PromptOllama.FormatConversationLines | src/ml/prompt_ollama.py:35-36 | with newline-free speakers and texts, splitting on "\n" gives back exactly the `speaker: text` lines in turn order: no trailing newline |
| PromptOllama.YesNoAnswer | src/ml/prompt_ollama.py:39-42 | the answer is only ever YES or NO, and YES exactly when the upper-cased reply contains YES |
| PromptOllama.YesNoAnswerIgnoresCase | src/ml/prompt_ollama.py:42 | lower- or upper-casing the reply never changes the answer |
| PromptOllama.YesterdayIsYes | src/ml/prompt_ollama.py:42 | the substring test is not a word test: "yesterday" is a YES |
| PromptOllama.GetEvidence | src/ml/prompt_ollama.py:45-50 | without the "Evidence:" marker the result is exactly "Evidence not found" |
| PromptOllama.GetEvidenceAfterFirstMarker | src/ml/prompt_ollama.py:48-49 | with the first marker ending a prefix, the evidence is the stripped remainder, later markers included |
| PromptOllama.EvidencePieces | src/ml/prompt_ollama.py:70-73 | without "and" the pieces are `[evidence]`; otherwise one stripped piece per split part; no piece contains "and" |
| PromptOllama.EvidencePiecesRebuild | src/ml/prompt_ollama.py:71 | the raw pieces joined with "and" are the evidence again (splits happen inside words too), and the stored pieces are those stripped |
| PromptOllama.QuestionOutcome | src/ml/prompt_ollama.py:59-81 | NO gives the no-evidence text and no pieces; YES gives the evidence parsed from the evidence prompt's reply and its pieces (at least one) |
| PromptOllama.PromptsIssued | src/ml/prompt_ollama.py:60-67 | at least one prompt is sent per question |
| PromptOllama.YesEntries | src/ml/prompt_ollama.py:75 | the evidence table has at most one entry per question |
| PromptOllama.YesEntriesGet | src/ml/prompt_ollama.py:75-80 | a question's id maps to its pieces in the evidence table exactly when it was answered YES, and is absent after NO |
| PromptOllama.Outcomes | src/ml/prompt_ollama.py:58-81 | the results table has the keys Q1..Q5 in prompt-table order, each holding that question's outcome |
| PromptOllama.GetAllAnswers | src/ml/prompt_ollama.py:53-83 | the loop builds exactly that results table and the evidence table of the YES questions, sending the prompts `PromptsIssued` lists |
| PromptOllama.AskQuestion | src/ml/prompt_ollama.py:59-81 | one round sends the YES/NO prompt, and the evidence prompt only after a YES; it adds an evidence entry only after a YES |
| PromptOllama.GetAllPrompts | src/ml/prompt_ollama.py:86-93 | one prompt per question Q1..Q5, in order, each containing the formatted conversation |
| PromptOllama.ConversationAnswers | src/ml/prompt_ollama.py:100-103 | one answer per question Q1..Q5, in order |
| PromptOllama.ConversationAnswersOutcome | src/ml/prompt_ollama.py:100-103 | each answer equals the one the full question pass records, hence YES or NO |
| PromptOllama.AnswerConversation | src/ml/prompt_ollama.py:99-103 | the answers dict built over the prompts is `ConversationAnswers` |
| PromptOllama.AnswerRows | src/ml/prompt_ollama.py:96-105 | one row per conversation, in input order, carrying its id |
| PromptOllama.GetAllAnswersForConversations | src/ml/prompt_ollama.py:96-105 | the loop returns exactly those rows |
| Model2.BraceSpanBraces | src/ml/model2.py:75-82 | when a '{' precedes the last '}', the span runs from the first '{' to the last '}' inclusive |
| Model2.FirstBraced | src/ml/model2.py:73-78 | the chosen part is the first one holding both braces; none is chosen when no part does |
| Model2.ExtractJsonSpan | src/ml/model2.py:71-82 | with a code fence, the span comes from the first fenced part with both braces, and the call fails when there is none; without a fence, it is the span of the whole reply |
| Model2.ReplaceNewlines | src/ml/model2.py:87 | replacing "\n" with " " leaves no newline |
| Model2.PreprocessJsonSingleLine | src/ml/model2.py:85-91 | the text handed to the parser holds no newline after all four replacements |
| Model2.CleanEvidence | src/ml/model2.py:97-102 | without " and ", the cleaned evidence is the quote-stripped evidence |
| Model2.CleanEvidencePieces | src/ml/model2.py:99-101 | the cleaned evidence is the " and "-pieces joined with ". ", and joining them with " and " restores the quote-stripped text |
| Model2.CleanAllEvidence | src/ml/model2.py:95-102 | every question with truthy evidence gets it cleaned; every other question is left unchanged |
| Model2.Defaults | src/ml/model2.py:217-234 | five default entries |
| Model2.TargetOf | src/ml/model2.py:256-257 | an update addresses one of the five entries or none |
| Model2.ApplyUpdate | src/ml/model2.py:258-270 | number and question text never change; instances are extended by the update's list |
| Model2.ApplyToEntries | src/ml/model2.py:254-274 | still five entries, numbers and question texts unchanged |
| Model2.ApplyUpdates | src/ml/model2.py:254-274 | the same after any sequence of updates |
| Model2.CleanAndFormatResponse | src/ml/model2.py:204-280 | the file path is kept and the conversation ids are empty; the entries are the defaults after the updates of every parseable result, in order, each result's questions up to the first one that raises past the inner handler |
| Model2.ApplyResultQuestions | src/ml/model2.py:254-278 | the loop over one result's questions applies them in order and abandons the rest of them at the first element that raises a TypeError or AttributeError |
| Model2.ItemUpdates | src/ml/model2.py:256-270 | an element makes at most one update; a non-dict or ill-typed number makes none, and a bad `instances` value still lets answer and evidence land but adds no instances |
| Model2.EffectiveUpdatesComplete | src/ml/model2.py:254-274 | when every element is a well-typed question, every question is applied, in list order |
| Model2.AbortedTail | src/ml/model2.py:254-278 | once an element aborts, the later elements of that result have no effect |
| Model2.ApplyQuestion | src/ml/model2.py:255-278 | one loop body makes the element's updates, and reports an abort exactly for a malformed element or a bad `instances` value on an addressed entry |
| Model2.ApplyUpdatesAppend | src/ml/model2.py:237-278 | applying two runs of updates in turn is applying their concatenation |
| Model2.LastStep | src/ml/model2.py:257-270 | an update changes only the entry it addresses |
| Model2.AnswerLastWins | src/ml/model2.py:261-262 | an entry's answer is the last truthy answer addressed to it: later results win |
| Model2.AnswerUntouched | src/ml/model2.py:261-262 | with no truthy answer addressed to it, an entry keeps its answer |
| Model2.EvidenceLastWins | src/ml/model2.py:265-266 | an entry's evidence is that of the last update addressed to it carrying non-empty evidence and the answer exactly "YES" |
| Model2.EvidenceUntouched | src/ml/model2.py:265-266 | evidence with any other answer, or empty evidence, never lands |
| Model2.InstancesAccumulate | src/ml/model2.py:269-270 | an entry's instances are its own followed by every instances list addressed to it, in order |
| Model2.UnaddressedKeepsDefaults | src/ml/model2.py:226-234 | an entry no result addresses keeps its number, standard text, NO, the no-evidence text and no instances |
| Model2.UnaddressedUpdateIgnored | src/ml/model2.py:256-257 | a missing, non-numeric or out-of-range number changes nothing |
| Model2.TargetOfThree | src/ml/model2.py:256 | the number "3", bare or as " 3 ", addresses the third entry |
| SplitText.WindowEnd | src/ml/model2.py:115-122 | the window end lies within `chunk_size` of the start, after it, and at `start + chunk_size` when the text ends first |
| SplitText.WindowEndBreak | src/ml/model2.py:116-122 | a window that ends before the text is cut just after its last newline, else after its last ". ", else at `start + chunk_size` |
| SplitText.AsWrittenProgress | src/ml/model2.py:118-125 | the loop as written advances exactly when the window ends more than `chunk_overlap` past the start |
| SplitText.AsWrittenStalls | src/ml/model2.py:113-125 | for a 64,100-character text whose only newline is its 100th character, the first window ends at 100 and the next start is 0 again, so the loop never ends |
| SplitText.NextStart | src/ml/model2.py:125 | the corrected next start is after the start and no later than the end, and is `end - overlap` whenever that advances |
| SplitText.NextStartAgrees | src/ml/model2.py:125 | wherever the loop as written advances, the corrected loop takes the same step |
| SplitText.SplitText | src/ml/model2.py:110-126 | empty text gives no chunks; each chunk is a non-empty `text[s:e]` of at most `chunk_size`; the first window starts at 0 and the last reaches the end; each next window starts after the previous start and no later than its end; the loop stops only when the next start reaches the end of the text, so the number of chunks is fixed |
| SplitText.Covered | src/ml/model2.py:114-125 | the windows cover every character of the text |
| DialogueAnalyzer.FormatDialogue | src/client/dialogue_analyzer.py:21-36 | the `+=` loop builds the header followed by one `speaker: text\n` line per utterance |
| DialogueAnalyzer.DialogueLines | src/client/dialogue_analyzer.py:30-34 | four lines beyond the utterances: the empty first line, the id line, "Dialogue:" and the empty last line |
| DialogueAnalyzer.DialogueIsLineJoin | src/client/dialogue_analyzer.py:30-36 | the formatted dialogue is those lines joined by "\n" |
| DialogueAnalyzer.FormattedDialogueLines | src/client/dialogue_analyzer.py:30-36 | with newline-free ids, speakers and texts, splitting on "\n" gives exactly those lines |
| DialogueAnalyzer.FormattedBatch | src/client/dialogue_analyzer.py:47-49 | one formatted dialogue per conversation |
| DialogueAnalyzer.PrepareBatchPrompt | src/client/dialogue_analyzer.py:38-54 | the loop returns the formatted conversations, in order, joined by "\n" |
| DialogueAnalyzer.BatchPromptIsLineJoin | src/client/dialogue_analyzer.py:52 | the batch prompt is the lines of all dialogues, conversation after conversation, joined by "\n" |
| DialogueAnalyzer.BatchPromptLines | src/client/dialogue_analyzer.py:52 | with newline-free fields, splitting the batch prompt gives those lines back |
| DialogueAnalyzer.Ids | src/client/dialogue_analyzer.py:81 | the ids of the batch, in order |
| DialogueAnalyzer.LabelPairs | src/client/dialogue_analyzer.py:83-86 | each id paired with the conversation's `questions`, or `{}` when it has none |
| DialogueAnalyzer.ProcessBatch | src/client/dialogue_analyzer.py:56-98 | the record always lists the batch's ids; it is a success exactly when the model call and the formatting succeed on a non-empty batch named `batch_<first id>`; an empty batch raises IndexError |
| DialogueAnalyzer.ProcessBatchLabels | src/client/dialogue_analyzer.py:83-86 | `original_labels` maps each id to the labels of the last conversation with it, with no repeated key; with distinct ids each conversation's own labels are found |
| DialogueAnalyzer.AnalyzeBatch | src/client/dialogue_analyzer.py:113-135 | error records pass through unchanged; a success without `analysis` becomes an error keeping its conversations; otherwise labels, analysis and file path are carried |
| DialogueAnalyzer.AnalyzeRawResults | src/client/dialogue_analyzer.py:101-137 | one analyzed entry per record, in order |
| DialogueAnalyzer.Judge | src/client/dialogue_analyzer.py:176-190 | the question's total rises by one, and then either its correct count or the discrepancy list grows |
| DialogueAnalyzer.ScoreLabels | src/client/dialogue_analyzer.py:175-190 | n labels add n to the totals and keep `correct + discrepancies = total` |
| DialogueAnalyzer.ScoreConversations | src/client/dialogue_analyzer.py:170-190 | each conversation adds one to `total_conversations`, scored against the batch's one answer list |
| DialogueAnalyzer.BatchStep | src/client/dialogue_analyzer.py:163-190 | an error batch adds its conversation count to `failed_analyses`; any other batch adds it to `successful_analyses` and its label count to `total_conversations` |
| DialogueAnalyzer.Compared | src/client/dialogue_analyzer.py:163-190 | after all batches, every question's correct count is within its total, and `correct + discrepancies = total` |
| DialogueAnalyzer.ComparedCounts | src/client/dialogue_analyzer.py:164-171 | failed, successful and total counts are the sums over the error batches, the other batches and their labels |
| DialogueAnalyzer.QuestionAccuracy | src/client/dialogue_analyzer.py:194-196 | accuracy is in [0, 1], and accuracy × total = correct (0 with no total) |
| DialogueAnalyzer.Accuracies | src/client/dialogue_analyzer.py:193-196 | one accuracy per question |
| DialogueAnalyzer.CompareResults | src/client/dialogue_analyzer.py:140-198 | None exactly when some batch has a conversation the answers cannot score (KeyError or IndexError); otherwise the counters and accuracies above |
| DialogueAnalyzer.CompareBatch | src/client/dialogue_analyzer.py:163-190 | one batch of the loop is `BatchStep`, and fails exactly when the batch cannot be scored |
| DialogueAnalyzer.ScoreBatch | src/client/dialogue_analyzer.py:170-190 | the loop over a batch's conversations is `ScoreConversations`, and fails exactly when one cannot be scored |
| DialogueAnalyzer.ScoreConversation | src/client/dialogue_analyzer.py:175-190 | the loop over one conversation's labels is `ScoreLabels`, and fails exactly when the labels do not fit the answers |
| Report.MatchRows | evaluation/report.py:204-205 | the merged rows for one labeled row are exactly its pairs with the predicted rows of the same id, each pair as often as that predicted row occurs |
| Report.Merge | evaluation/report.py:204-205 | the inner join holds exactly the pairs of labeled and predicted rows with equal ids; a pair of rows occurring i and j times occurs i × j times |
| Report.YesNoExclusive | evaluation/report.py:90-91 | no cell is both a yes ("yes"-prefix after lower-casing) and a no (exactly "no") |
| Report.Tally | evaluation/report.py:90-107 | total is the number of merged rows, TP+FN ≤ total_yes, FP+TN ≤ total_no, total_yes+total_no ≤ total |
| Report.TallyAppend | evaluation/report.py:211-213 | counting a concatenation gives the sum of the counts |
| Report.TallyFlatten | evaluation/report.py:211-213 | counting all merged files concatenated gives the sum of the per-file counts |
| Report.CalculateMetricsAllCases | evaluation/report.py:46-64 | total 0 raises ZeroDivisionError; otherwise the input counts are echoed unchanged |
| Report.AllCasesMetricsBounds | evaluation/report.py:49-58 | percentages lie in [0, 100]; precision, recall and F1 are 0 when their denominators are |
| Report.AllCasesF1 | evaluation/report.py:52 | with a true positive, F1 is 200·TP / (2TP + FP + FN) |
| Report.F1Harmonic | evaluation/report.py:50-52 | with a true positive, the harmonic mean of precision and recall is 2TP / (2TP + FP + FN) |
| Report.CalculateMetricsYesOnly | evaluation/report.py:67-75 | counts echoed; accuracy 0 without yes cases, else accuracy × total_yes = 100·TP, within [0, 100], independent of FP and TN |
| Report.AnalyzeQuestions | evaluation/report.py:78-125 | an empty frame raises ZeroDivisionError; otherwise the three dicts have keys Q1..Q5 holding each question's counts and metrics |
| Report.AnalysisLookup | evaluation/report.py:105-123 | the entry under each question is that question's tally and the metrics computed from it |
| Report.CreateResultsTables | evaluation/report.py:128-174 | three tables of exactly five rows, Q1..Q5 in order, each echoing the dict entry of its question |
| Report.MergedParts | evaluation/report.py:200-209 | at most one merged frame per file, and none exactly when no file loaded |
| Report.ScoreFiles | evaluation/report.py:188-242 | no files, no loaded file and an empty combined frame lead to their three outcomes; otherwise the combined frame is the concatenation of the merged frames, and every row of the three tables is the counts or the full all-cases and yes-only metrics of its question over that frame |
| Report.ScoredCountsArePerFileSums | evaluation/report.py:211-213 | the pooled counts of each question are the per-file counts summed |
| EvalTest.NormalizeIdempotent | evaluation/test.py:29-30 | normalising twice is normalising once |
| EvalTest.CompareAnswers | evaluation/test.py:27-38 | two answers match exactly when both normalised start with "yes" or the normalised strings are equal |
| EvalTest.CompareAnswersEquivalence | evaluation/test.py:33-38 | the match is reflexive, symmetric and transitive |
| EvalTest.CompareAnswersNormalized | evaluation/test.py:29-30 | surrounding whitespace and case on either side never matter |
| EvalTest.CheckAllAnswersReflexive | evaluation/test.py:41-44 | a prediction identical to its label passes the five-question check |
| EvalTest.CountCorrect | evaluation/test.py:66-69 | at most the number of rows, and equal to it exactly when every row passes |
| EvalTest.CountCorrectAppend | evaluation/test.py:108-109 | correct counts add over concatenated frames |
| EvalTest.Percent | evaluation/test.py:72 | percent × rows = 100 · correct, within [0, 100] |
| EvalTest.WithAllCorrect | evaluation/test.py:66 | the `all_correct` column holds each row's check |
| EvalTest.AnalyzeFile | evaluation/test.py:47-77 | no stats and an empty frame exactly when nothing merges; otherwise rows > 0, correct ≤ rows, accuracy = correct/rows×100 |
| EvalTest.PooledAccuracy | evaluation/test.py:94-114 | overall accuracy is pooled correct over pooled rows of the files with stats, not an average of per-file percentages |
| CmdClient.FormatAnswer | src/client/cmd_client.py:18-25 | "YES - evidence" exactly for answer YES with non-empty evidence other than the no-evidence text; otherwise the answer unchanged, "" when missing |
| CmdClient.FormatAnswerAttaches | src/client/cmd_client.py:23-25 | for an answer that does not itself start with "YES - ", the result starts with "YES - " exactly when evidence was attached |
| CmdClient.Name | src/client/cmd_client.py:72 | the final component of the path holds no '/' and is a suffix of it |
| CmdClient.Stem | src/client/cmd_client.py:72 | the name without its last suffix, where a suffix starts at a dot that is neither first nor last |
| CmdClient.QuestionKey | src/client/cmd_client.py:77 | every question key starts with 'Q' |
| CmdClient.RowPairs | src/client/cmd_client.py:72-77 | the filename assignment, then one assignment per question |
| CmdClient.AssembleRow | src/client/cmd_client.py:70-77 | the loop builds the row dict of those assignments |
| CmdClient.RowContents | src/client/cmd_client.py:72-77 | `filename` always holds the stem; each key holds the answer of the last question with that number; no key repeats |
| CmdClient.CsvRecord | src/client/cmd_client.py:79 | writing fails exactly when a key is outside the header; otherwise the values in header order |
| CmdClient.Columns | src/client/cmd_client.py:79 | each column holds the row's value or "" |
| CmdClient.NumberedRowWritten | src/client/cmd_client.py:63-79 | a row whose question numbers are all 1..5 is written, starting with the stem |
| CmdClient.WriteRow | src/client/cmd_client.py:70-79 | one loop body writes the row's CSV record |
| CmdClient.RecordsOf | src/client/cmd_client.py:69-79 | one record, or a failure, per result |
| CmdClient.Exported | src/client/cmd_client.py:69-79 | no more records than results |
| CmdClient.WriteRows | src/client/cmd_client.py:65-79 | the loop writes `Exported` and fails exactly when some row does not fit |
| CmdClient.ExportedAreRecords | src/client/cmd_client.py:69-79 | each written record is that of the result at its position |
| CmdClient.ExportStopsAtFailure | src/client/cmd_client.py:69-79 | the export stops early exactly when it fails, at the first row that does not fit |
| CornellCorpus.FieldLists | src/data_processing/cornell_movie_dialogs/cornell_movie_dialogs.py:54-55 | one field list per file line |
| CornellCorpus.ParseFields | src/data_processing/cornell_movie_dialogs/cornell_movie_dialogs.py:56-62 | a line is recorded exactly when it has five fields |
| CornellCorpus.ParseLineRoundTrip | src/data_processing/cornell_movie_dialogs/cornell_movie_dialogs.py:55-62 | a recorded line's key and four fields, joined by the separator, are the stripped line again, and no field contains the separator |
| CornellCorpus.LineTableSnoc | src/data_processing/cornell_movie_dialogs/cornell_movie_dialogs.py:56-62 | each five-field line assigns its record under its first field; any other line changes nothing |
| CornellCorpus.LoadLines | src/data_processing/cornell_movie_dialogs/cornell_movie_dialogs.py:50-62 | the first loop builds that table |
| CornellCorpus.LineTableHas | src/data_processing/cornell_movie_dialogs/cornell_movie_dialogs.py:56-57 | every five-field line's key is in the table |
| CornellCorpus.LineTableLast | src/data_processing/cornell_movie_dialogs/cornell_movie_dialogs.py:56-62 | a key holds the record of the last five-field line with it |
| CornellCorpus.LineTableDistinct | src/data_processing/cornell_movie_dialogs/cornell_movie_dialogs.py:57 | no key repeats in the table |
| CornellCorpus.TurnsFor | src/data_processing/cornell_movie_dialogs/cornell_movie_dialogs.py:73-80 | no more turns than ids, and none exactly when no listed id is in the table |
| CornellCorpus.TurnsForSnoc | src/data_processing/cornell_movie_dialogs/cornell_movie_dialogs.py:73-80 | one more listed id adds its turn when it is in the table |
| CornellCorpus.TurnsFromTable | src/data_processing/cornell_movie_dialogs/cornell_movie_dialogs.py:73-80 | every turn is the name and text of a table line the conversation lists |
| CornellCorpus.CollectTurns | src/data_processing/cornell_movie_dialogs/cornell_movie_dialogs.py:72-80 | the inner loop builds `TurnsFor` |
| CornellCorpus.ConversationId | src/data_processing/cornell_movie_dialogs/cornell_movie_dialogs.py:84 | ids start with "conv_" |
| CornellCorpus.ConversationIdInjective | src/data_processing/cornell_movie_dialogs/cornell_movie_dialogs.py:69-84 | distinct file lines give distinct ids |
| CornellCorpus.ConversationAt | src/data_processing/cornell_movie_dialogs/cornell_movie_dialogs.py:70-88 | raises exactly when the fourth field is missing or does not evaluate; otherwise `conv_{i+1}` with its movie and non-empty turns, or dropped when no turn survives |
| CornellCorpus.LoadedFailed | src/data_processing/cornell_movie_dialogs/cornell_movie_dialogs.py:69-71 | once a line has raised, later lines change nothing |
| CornellCorpus.LoadedStops | src/data_processing/cornell_movie_dialogs/cornell_movie_dialogs.py:71 | a line that raises ends the load with its error |
| CornellCorpus.LoadedAdvances | src/data_processing/cornell_movie_dialogs/cornell_movie_dialogs.py:81-88 | a line that does not raise appends its conversation, if any |
| CornellCorpus.LoadConversation | src/data_processing/cornell_movie_dialogs/cornell_movie_dialogs.py:70-88 | one pass of the outer loop is `ConversationAt` |
| CornellCorpus.LoadConversations | src/data_processing/cornell_movie_dialogs/cornell_movie_dialogs.py:47-90 | loading is the line table joined with the conversation lines |
| CornellCorpus.JoinConversations | src/data_processing/cornell_movie_dialogs/cornell_movie_dialogs.py:65-90 | the second loop builds `Loaded` |
| CornellCorpus.LoadedFailure | src/data_processing/cornell_movie_dialogs/cornell_movie_dialogs.py:70-71 | loading fails exactly when some line raises |
| CornellCorpus.LoadedOrigin | src/data_processing/cornell_movie_dialogs/cornell_movie_dialogs.py:69-88 | every loaded conversation is the one built from some line of the file |
| CornellCorpus.LoadedIdsDistinct | src/data_processing/cornell_movie_dialogs/cornell_movie_dialogs.py:84 | no two loaded conversations share an id, gaps from dropped lines notwithstanding |
| CornellCorpus.PathJoin | src/data_processing/cornell_movie_dialogs/cornell_movie_dialogs.py:116-118 | the name is appended after the directory and a separator where one is needed |
| CornellCorpus.PartPathInjective | src/data_processing/cornell_movie_dialogs/cornell_movie_dialogs.py:116-118 | distinct part numbers give distinct file paths |
| Text.ZeroPadValue | src/data_processing/cornell_movie_dialogs/cornell_movie_dialogs.py:117 | the zero-padded part number reads back as the number |
| Text.ZeroPadThree | src/data_processing/cornell_movie_dialogs/cornell_movie_dialogs.py:115-117 | a part number below 1000 is written as exactly three digits: hundreds, tens and units, zero-padded (see also `CornellCorpus.PartNamesSorted`) |
| CornellCorpus.PartNamesSorted | src/data_processing/cornell_movie_dialogs/cornell_movie_dialogs.py:115-117 | for part numbers j < k below 1000, the file name of j sorts before that of k as a string, which is what the padding is for |
| CornellCorpus.PartFiles | src/data_processing/cornell_movie_dialogs/cornell_movie_dialogs.py:102-118 | ceil(n / batch_size) part files, named with the three-digit padded part number of `Text.ZeroPadThree`, so that they sort in part order (`CornellCorpus.PartNamesSorted`) |
| CornellCorpus.PartFileAt | src/data_processing/cornell_movie_dialogs/cornell_movie_dialogs.py:110-113 | part i holds `conversations[i*bs : min((i+1)*bs, n)]` under number i+1 |
| CornellCorpus.SaveSplitConversations | src/data_processing/cornell_movie_dialogs/cornell_movie_dialogs.py:92-123 | batch size 0 raises ZeroDivisionError, a negative size writes nothing, and a positive one writes `PartFiles` |
| CornellCorpus.PartFilesPartition | src/data_processing/cornell_movie_dialogs/cornell_movie_dialogs.py:110-113 | the parts put together are the conversations, in order |
| CornellCorpus.PartFileSizes | src/data_processing/cornell_movie_dialogs/cornell_movie_dialogs.py:102-113 | each part holds 1..batch_size conversations, and every part but the last exactly batch_size |
| CornellCorpus.PartPathsDistinct | src/data_processing/cornell_movie_dialogs/cornell_movie_dialogs.py:116-118 | no two parts share a path |
| FormatProcess.ConvPairs | src/data_processing/cornell_movie_dialogs/format_process.py:31 | one (id, conversation) pair per loaded conversation |
| FormatProcess.LastWithId | src/data_processing/cornell_movie_dialogs/format_process.py:31 | a conversation with the id from the list, or none exactly when no conversation has it |
| FormatProcess.ConvDictGet | src/data_processing/cornell_movie_dialogs/format_process.py:31 | for a repeated id, `conv_dict` holds the last conversation with it |
| FormatProcess.Dialogue | src/data_processing/cornell_movie_dialogs/format_process.py:46-49 | one entry per turn, in order, keeping speaker and text only |
| FormatProcess.QuestionsOf | src/data_processing/cornell_movie_dialogs/format_process.py:50-56 | keys Q1..Q5 in order, each holding its answer cell |
| FormatProcess.FormatRow | src/data_processing/cornell_movie_dialogs/format_process.py:44-57 | the record carries the row id, the dialogue and the questions |
| FormatProcess.KeptIndices | src/data_processing/cornell_movie_dialogs/format_process.py:37-75 | increasing positions of exactly the rows with a loaded id and a case-sensitive "Yes" answer |
| FormatProcess.ProcessedAt | src/data_processing/cornell_movie_dialogs/format_process.py:37-75 | the output is those rows, formatted, in labeled-row order |
| FormatProcess.ProcessData | src/data_processing/cornell_movie_dialogs/format_process.py:29-77 | the loop builds `conv_dict` and then that output |
| LlamaFewShot.ChatChunks | few_shot_model/llama_few_shot.py:22 | chunk size 0 raises ValueError, a negative size gives no chunks |
| LlamaFewShot.ChatChunksPartition | few_shot_model/llama_few_shot.py:22 | the chunks put together are the log; each holds 1..chunk_size rows, every one but the last exactly chunk_size |
| LlamaFewShot.RowLines | few_shot_model/llama_few_shot.py:26 | one line per row |
| LlamaFewShot.FormatChatLogChunk | few_shot_model/llama_few_shot.py:25-26 | formatting fails with IndexError exactly when some row has fewer than three fields |
| LlamaFewShot.ChunkTextLines | few_shot_model/llama_few_shot.py:25-26 | with single-line fields, splitting the chunk text on "\n" gives one `name: text (Timestamp: t)` line per row |
| LlamaFewShot.PromptCarries | few_shot_model/llama_few_shot.py:47-55 | the prompt contains the examples, the chunk text and the question, each whole |
| LlamaFewShot.Printed | few_shot_model/llama_few_shot.py:69-76 | the error line when a call failed, then "Answer: …" when replies were collected, else the no-information message |
| LlamaFewShot.AnswerCarriesResponses | few_shot_model/llama_few_shot.py:74 | the answer line is the replies joined by single spaces: space-free replies split back out in order |
| LlamaFewShot.AskQuestion | few_shot_model/llama_few_shot.py:41-76 | one round of the question loop prints `Output` for the reference gathering |
| LlamaFewShot.Replies | few_shot_model/llama_few_shot.py:58-62 | one reply per chunk |
| LlamaFewShot.FirstFailure | few_shot_model/llama_few_shot.py:64-70 | the position of the first failing call: every earlier call succeeded |
| LlamaFewShot.NonEmptyOutputs | few_shot_model/llama_few_shot.py:65-67 | only non-empty stripped outputs are kept |
| LlamaFewShot.Expected | few_shot_model/llama_few_shot.py:64-70 | replies collected only before the first failure, and the loop stops exactly when some call fails |
| LlamaFewShot.ExpectedFails | few_shot_model/llama_few_shot.py:68-70 | a failing first call collects nothing and stops with its stripped error |
| LlamaFewShot.ExpectedSucceeds | few_shot_model/llama_few_shot.py:64-67 | a succeeding first call adds its stripped output when non-empty, and the rest proceeds as without it |
| LlamaFewShot.GatheredReference | few_shot_model/llama_few_shot.py:43-70 | the loop's gathering equals the reference: non-empty stripped replies in chunk order up to the first failure, then that failure's error |
| CsvAnalysisClient.ConversationLines | src/client/csv_analysis_client.py:28-38 | eleven lines |
| CsvAnalysisClient.PrepareConversationData | src/client/csv_analysis_client.py:18-40 | the id is the row name |
| CsvAnalysisClient.PreparedReadBack | src/client/csv_analysis_client.py:28-40 | with single-line cells, the text splits into those lines, and the row name and five labels read back from it |
| CsvAnalysisClient.TotalBatchesCount | src/client/csv_analysis_client.py:53-56 | `total_batches` is the number of slices the loop visits |
| CsvAnalysisClient.PrepareAll | src/client/csv_analysis_client.py:60-63 | one prepared entry per row of the batch |
| CsvAnalysisClient.Processed | src/client/csv_analysis_client.py:52-73 | batch size 0 raises ZeroDivisionError, a negative size gives no results |
| CsvAnalysisClient.ProcessBatch | src/client/csv_analysis_client.py:42-73 | the loop returns `Processed` |
| CsvAnalysisClient.BatchAt | src/client/csv_analysis_client.py:55-56 | batch k is `rows[k*bs : k*bs + bs]`, cut at the end |
| CsvAnalysisClient.BatchingTransparent | src/client/csv_analysis_client.py:55-68 | when the model answers every entry on its own, batching changes nothing: the results are the per-row answers in row order |
| CsvAnalysisClient.FailedBatchSkipped | src/client/csv_analysis_client.py:66-71 | a failing batch contributes nothing, and the batches before and after it still contribute theirs |
| EvaluationClient.Str | src/client/evaluation.py:89 | `str` of a string is the string |
| EvaluationClient.HasKey | src/client/evaluation.py:83 | `in` raises TypeError exactly on numbers, booleans and null |
| EvaluationClient.Lookup | src/client/evaluation.py:85-86 | subscripting with a key succeeds exactly on an object holding it |
| EvaluationClient.Elements | src/client/evaluation.py:82-85 | iteration yields a list's items and raises exactly on numbers, booleans and null |
| EvaluationClient.TurnText | src/client/evaluation.py:86 | a turn renders exactly when it has both `speaker` and `text` |
| EvaluationClient.FormatConversation | src/client/evaluation.py:77-92 | the nested `+=` loops compute `Formatted`, falling back to `str(data)` on any exception |
| EvaluationClient.ScalarItemFallsBack | src/client/evaluation.py:83-92 | a list holding a number, boolean or null formats as `str(data)` |
| EvaluationClient.FormattedTrimmed | src/client/evaluation.py:88 | the formatted list text neither starts nor ends with whitespace |
| EvaluationClient.FormattedSaved | src/client/evaluation.py:80-88 | for saved conversations, the text is the stripped concatenation of one block per conversation: header, turn lines and a blank line for those with a dialogue, nothing for the rest |
| EvaluationClient.SavedBlock | src/client/evaluation.py:83-87 | a saved conversation renders as its block |
| EvaluationClient.EncodedTurnText | src/client/evaluation.py:86 | a saved turn renders as `speaker: text\n` |
| EvaluationClient.QuestionsBlockLines | src/client/evaluation.py:110-112 | for single-line questions, the block splits into `[Question{i}]. {q}` for i = 1.. in order |
| EvaluationClient.AnalysisPromptCarries | src/client/evaluation.py:115-117 | the prompt holds the conversation and then the question block, each whole, after the template's fixed text |
| EvaluationClient.AnalyzeConversation | src/client/evaluation.py:106-132 | always None, whether or not the pipeline call raises |
| EvaluationClient.AnalyzedTexts | src/client/evaluation.py:148-151 | only non-empty loaded texts reach the analysis |
| EvaluationClient.ProcessFiles | src/client/evaluation.py:145-157 | the loop analyses exactly those texts and collects no result |

## Left out

- Model calls (`ollama.generate`, the transformers pipeline, the `ollama run` subprocess and LlamaModel's methods) are function parameters. Their latency, randomness and errors beyond a `Failure` are not modelled.
- JSON parsing and serialisation (`json.loads`, `json.dumps`, `json.load`) are foreign code. Parsed replies are datatypes (`Model2.QuestionUpdate`, `Model2.ModelResult`, `EvaluationClient.Json`), with `None` for a missing key. A question element of the wrong type is one of the three `Model2.QuestionItem` forms; other wrongly typed values (an answer that is not a string, a `questions` value that is not a list) are not modelled. `str()` of a parsed value is the parameter `show`; only `str()` of a string is pinned down.
- Python `eval` of the id list in `movie_conversations.txt` is the parameter `evalIds`; `None` means eval raises.
- The prompt templates of `src/ml/prompts.py` and `src/ml/prompts1.py` are not part of this model. A template is its text before and after its one `{conversation}` slot.
- `LlamaModel.ask_questions`, `process_folder`, `analysis`, `load_data` and `_create_prompt` in src/ml/model2.py are not modelled. They are a thread pool, file loading and a constant prompt around the modelled chunker and merger. The same holds for `conversation_history`.
- Reading and writing files, globbing, `argparse`, `input()` loops, `print` and `logging` are left out. This covers every `main`, `download_and_extract`, `load_labeled_data`, `load_conversation_file`, `load_few_shot_examples`, `load_all_conversations`, `save_results` and the CSV/JSON writes. Files are given as the lines or rows they hold. A file that fails to load is `None` where the source skips it.
- The batching loop in `main` of src/client/dialogue_analyzer.py and the `timestamp` field of its batch records (a clock reading) are left out.
- `csv.reader` parsing of the chat log is left out; rows are given as lists of fields. `LlamaFewShot.AskQuestion` models one round of the question loop, since the next round repeats it on new input.
- Float formatting (`:.2f%`) and float rounding are left out; metrics are exact reals.
- pandas specifics are left out: NaN cells, non-string cells and the index type. Every cell and row name is a string.
- `Report.Merge`: states which pairs the inner join holds and how many times, not their row order, which no count depends on.
- `CmdClient.Stem`: paths are '/'-separated; Windows separators and `PurePath` normalisation are not modelled.
- `EvaluationClient.QuestionsBlockLines`: proved for any list of single-line questions. That the five fixed question strings are single-line is not proved.
- `LlamaFewShot.Printed`: states the answer line's prefix; the joined replies after it are stated by `AnswerCarriesResponses` for replies without spaces.
- `PromptOllama.PromptsIssued`: states only a lower bound on its own; the exact prompts of each round are stated by `PromptOllama.AskQuestion`.

## Findings

| source | as written | input that shows it | evidently intended | confidence | as-written member | corrected member |
|---|---|---|---|---|---|---|
| src/ml/model2.py:125 | `start = end - self.chunk_overlap` with no check that `start` advances | 64,100 characters whose only newline is the 100th, with chunk size 64000 and overlap 100: the first window is cut at 100, so the next start is 0 again and the loop never ends | every step starts the next window after the previous start | not executed | SplitText.AsWrittenStalls | SplitText.SplitText |
