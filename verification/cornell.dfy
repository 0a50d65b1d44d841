/** Loading the Cornell movie-dialogs corpus: the `movie_lines.txt` table,
    the join of `movie_conversations.txt` against it, and the split of the
    conversations into numbered part files. */
module CornellCorpus {
  import opened Wrappers
  import opened Slices
  import opened Text
  import opened PyDict
  import opened Turns

  /** The field separator of both corpus files. */
  const Separator: string := " +++$+++ "

  /** One record of `movie_lines.txt`, without its line id. */
  datatype MovieLine = MovieLine(characterId: string, movieId: string, characterName: string, text: string)

  /** A loaded conversation: its generated id, its movie, and its turns. */
  datatype Conversation = Conversation(conversationId: string, movieId: string, turns: seq<Turn>)

  /** `line.strip().split(" +++$+++ ")`. */
  function Fields(line: string): seq<string>
  {
    Split(Strip(line), Separator)
  }

  /** The fields of every line of a file, in file order. */
  function FieldLists(lines: seq<string>): (r: seq<seq<string>>)
    ensures |r| == |lines|
  {
    seq(|lines|, k requires 0 <= k < |lines| => Fields(lines[k]))
  }

  /** A line of `movie_lines.txt` is recorded only when it has exactly five
      fields; the first is its key. */
  function ParseFields(parts: seq<string>): (r: Option<(string, MovieLine)>)
    ensures r.Some? <==> |parts| == 5
  {
    if |parts| == 5 then Some((parts[0], MovieLine(parts[1], parts[2], parts[3], parts[4])))
    else None
  }

  /** A recorded line is exactly its five fields put back together with
      the separator, and no field holds the separator. */
  lemma ParseLineRoundTrip(line: string)
    requires ParseFields(Fields(line)).Some?
    ensures var (id, m) := ParseFields(Fields(line)).value;
      var fs := [id, m.characterId, m.movieId, m.characterName, m.text];
      Join(Separator, fs) == Strip(line) && forall k :: 0 <= k < 5 ==> !Contains(fs[k], Separator)
  {
    var parts := Fields(line);
    var (id, m) := ParseFields(parts).value;
    assert [id, m.characterId, m.movieId, m.characterName, m.text] == parts;
    JoinSplit(Strip(line), Separator);
  }

  /** The recorded (key, line) pairs of a file, in file order. */
  function LinePairs(rows: seq<seq<string>>): seq<(string, MovieLine)>
  {
    if |rows| == 0 then []
    else
      var p := ParseFields(rows[|rows| - 1]);
      LinePairs(rows[..|rows| - 1]) + (if p.Some? then [p.value] else [])
  }

  /** The `lines` dict: each recorded line assigned under its key. */
  function LineTable(rows: seq<seq<string>>): Dict<string, MovieLine>
  {
    FromPairs(LinePairs(rows))
  }

  /** One more line assigns its record when it has five fields. */
  lemma LineTableSnoc(rows: seq<seq<string>>, i: nat)
    requires i < |rows|
    ensures var p := ParseFields(rows[i]);
      LineTable(rows[..i + 1]) ==
        if p.Some? then Put(LineTable(rows[..i]), p.value.0, p.value.1) else LineTable(rows[..i])
  {
    assert rows[..i + 1][..i] == rows[..i];
    var ps := LinePairs(rows[..i]);
    var p := ParseFields(rows[i]);
    if p.Some? {
      assert (ps + [p.value])[..|ps|] == ps;
    } else {
      assert ps + [] == ps;
    }
  }

  /** The first loop of `load_conversations`. */
  method LoadLines(fileLines: seq<string>) returns (lines: Dict<string, MovieLine>)
    ensures lines == LineTable(FieldLists(fileLines))
  {
    var rows := FieldLists(fileLines);
    lines := [];
    for i := 0 to |rows|
      invariant lines == LineTable(rows[..i])
    {
      LineTableSnoc(rows, i);
      var parsed := ParseFields(rows[i]);
      if parsed.Some? {
        var (key, record) := parsed.value;
        lines := Put(lines, key, record);
      }
    }
    assert rows[..|rows|] == rows;
  }

  /** A five-field line is in the table under its key. */
  lemma {:induction false} LineTableHas(rows: seq<seq<string>>, j: nat)
    requires j < |rows| && |rows[j]| == 5
    ensures Get(LineTable(rows), rows[j][0]).Some?
    decreases |rows|
  {
    var id := rows[j][0];
    var n := |rows|;
    var init := rows[..n - 1];
    var p := ParseFields(rows[n - 1]);
    LineTableSnoc(rows, n - 1);
    assert rows[..n] == rows;
    if j < n - 1 {
      assert init[j] == rows[j];
      LineTableHas(init, j);
    }
  }

  /** The value found under a key is the record of the last five-field line
      with that key, and the table never holds a key twice. */
  lemma {:induction false} LineTableLast(rows: seq<seq<string>>, j: nat)
    requires j < |rows| && |rows[j]| == 5
    requires forall k :: j < k < |rows| && |rows[k]| == 5 ==> rows[k][0] != rows[j][0]
    ensures Get(LineTable(rows), rows[j][0]) == Some(ParseFields(rows[j]).value.1)
    decreases |rows|
  {
    var id := rows[j][0];
    var n := |rows|;
    var init := rows[..n - 1];
    LineTableSnoc(rows, n - 1);
    assert rows[..n] == rows;
    if j < n - 1 {
      assert init[j] == rows[j];
      LineTableLast(init, j);
    }
  }

  lemma LineTableDistinct(rows: seq<seq<string>>)
    ensures DistinctKeys(LineTable(rows))
  {
    FromPairsGet(LinePairs(rows), "");
  }

  /** The turn a recorded line contributes: its character name and text. */
  function TurnOf(l: MovieLine): Turn
  {
    Turn(l.characterName, l.text)
  }

  /** The turns of a conversation: its listed line ids that are in the
      table, in listed order, each as the line's character name and text. */
  function TurnsFor(table: Dict<string, MovieLine>, ids: seq<string>): (r: seq<Turn>)
    ensures |r| <= |ids|
    ensures |r| == 0 <==> forall k :: 0 <= k < |ids| ==> Get(table, ids[k]) == None
  {
    if |ids| == 0 then []
    else
      var init := TurnsFor(table, ids[..|ids| - 1]);
      var m := Get(table, ids[|ids| - 1]);
      assert forall k :: 0 <= k < |ids| - 1 ==> ids[..|ids| - 1][k] == ids[k];
      init + (if m.Some? then [TurnOf(m.value)] else [])
  }

  /** Turns for a longer id list extend the turns for its prefix. */
  lemma TurnsForSnoc(table: Dict<string, MovieLine>, ids: seq<string>, i: nat)
    requires i < |ids|
    ensures var m := Get(table, ids[i]);
      TurnsFor(table, ids[..i + 1]) == TurnsFor(table, ids[..i]) + (if m.Some? then [TurnOf(m.value)] else [])
  {
    assert ids[..i + 1][..i] == ids[..i];
  }

  /** Every turn is the name and text of a table line listed for the
      conversation. */
  lemma {:induction false} TurnsFromTable(table: Dict<string, MovieLine>, ids: seq<string>, k: nat)
    requires k < |TurnsFor(table, ids)|
    ensures exists j :: 0 <= j < |ids| && Get(table, ids[j]).Some? && TurnsFor(table, ids)[k] == TurnOf(Get(table, ids[j]).value)
    decreases |ids|
  {
    var n := |ids|;
    var init := ids[..n - 1];
    var prev := TurnsFor(table, init);
    var m := Get(table, ids[n - 1]);
    assert TurnsFor(table, ids) == prev + (if m.Some? then [TurnOf(m.value)] else []);
    if k < |prev| {
      TurnsFromTable(table, init, k);
      var j :| 0 <= j < |init| && Get(table, init[j]).Some? && prev[k] == TurnOf(Get(table, init[j]).value);
      assert init[j] == ids[j];
      assert TurnsFor(table, ids)[k] == prev[k];
    } else {
      assert TurnsFor(table, ids)[k] == TurnOf(m.value);
    }
  }

  /** The inner loop of `load_conversations`. */
  method CollectTurns(table: Dict<string, MovieLine>, ids: seq<string>) returns (turns: seq<Turn>)
    ensures turns == TurnsFor(table, ids)
  {
    turns := [];
    for i := 0 to |ids|
      invariant turns == TurnsFor(table, ids[..i])
    {
      TurnsForSnoc(table, ids, i);
      var m := Get(table, ids[i]);
      if m.Some? {
        turns := turns + [TurnOf(m.value)];
      }
    }
    assert ids[..|ids|] == ids;
  }

  /** `f"conv_{i + 1}"` for the conversation on line i of the file. */
  function ConversationId(i: nat): (r: string)
    ensures StartsWith(r, "conv_")
  {
    "conv_" + NatToString(i + 1)
  }

  lemma ConversationIdInjective(i: nat, j: nat)
    requires ConversationId(i) == ConversationId(j)
    ensures i == j
  {
    var a, b := NatToString(i + 1), NatToString(j + 1);
    assert a == ConversationId(i)[5..];
    assert b == ConversationId(j)[5..];
    NatToStringInjective(i + 1, j + 1);
  }

  const IndexErrorMessage: string := "list index out of range"

  /** The conversation on line i of `movie_conversations.txt`, from its
      fields: the line must have a fourth field, which `eval` turns into
      the list of line ids (`evalIds` gives None where `eval` raises); a
      conversation none of whose lines is in the table is dropped. */
  function ConversationAt(table: Dict<string, MovieLine>, parts: seq<string>, i: nat,
                          evalIds: string -> Option<seq<string>>): (r: Result<Option<Conversation>, string>)
    ensures r.Success? <==> |parts| >= 4 && evalIds(parts[3]).Some?
    ensures r.Success? && r.value.Some? ==>
      var c := r.value.value;
      c.conversationId == ConversationId(i) && c.movieId == parts[2] &&
      c.turns == TurnsFor(table, evalIds(parts[3]).value) && |c.turns| > 0
    ensures r.Success? && r.value.None? ==> TurnsFor(table, evalIds(parts[3]).value) == []
  {
    if |parts| < 4 then Failure(IndexErrorMessage)
    else
      match evalIds(parts[3])
      case None => Failure("eval: " + parts[3])
      case Some(ids) =>
        var turns := TurnsFor(table, ids);
        if |turns| > 0 then Success(Some(Conversation(ConversationId(i), parts[2], turns)))
        else Success(None)
  }

  /** The conversations loaded from the first n lines of the file, or the
      error of the first line that raises. */
  function Loaded(table: Dict<string, MovieLine>, rows: seq<seq<string>>, evalIds: string -> Option<seq<string>>, n: nat): Result<seq<Conversation>, string>
    requires n <= |rows|
  {
    if n == 0 then Success([])
    else
      match Loaded(table, rows, evalIds, n - 1)
      case Failure(e) => Failure(e)
      case Success(cs) =>
        match ConversationAt(table, rows[n - 1], n - 1, evalIds)
        case Failure(e) => Failure(e)
        case Success(c) => Success(cs + (if c.Some? then [c.value] else []))
  }

  /** Once a line has raised, loading more lines changes nothing. */
  lemma {:induction false} LoadedFailed(table: Dict<string, MovieLine>, rows: seq<seq<string>>,
                                        evalIds: string -> Option<seq<string>>, n: nat, m: nat)
    requires n <= m <= |rows| && Loaded(table, rows, evalIds, n).Failure?
    ensures Loaded(table, rows, evalIds, m) == Loaded(table, rows, evalIds, n)
    decreases m
  {
    if n < m {
      LoadedFailed(table, rows, evalIds, n, m - 1);
    }
  }

  /** A line that raises ends the load with its error. */
  lemma LoadedStops(table: Dict<string, MovieLine>, rows: seq<seq<string>>,
                    evalIds: string -> Option<seq<string>>, i: nat, cs: seq<Conversation>)
    requires i < |rows| && Loaded(table, rows, evalIds, i) == Success(cs)
    requires ConversationAt(table, rows[i], i, evalIds).Failure?
    ensures Loaded(table, rows, evalIds, |rows|) == Failure(ConversationAt(table, rows[i], i, evalIds).error)
  {
    LoadedFailed(table, rows, evalIds, i + 1, |rows|);
  }

  /** A line that does not raise adds its conversation, if any. */
  lemma LoadedAdvances(table: Dict<string, MovieLine>, rows: seq<seq<string>>,
                       evalIds: string -> Option<seq<string>>, i: nat, cs: seq<Conversation>)
    requires i < |rows| && Loaded(table, rows, evalIds, i) == Success(cs)
    requires ConversationAt(table, rows[i], i, evalIds).Success?
    ensures var c := ConversationAt(table, rows[i], i, evalIds).value;
      Loaded(table, rows, evalIds, i + 1) == Success(cs + (if c.Some? then [c.value] else []))
  {
  }

  /** One pass of the outer loop of `load_conversations`, on the fields of
      line i. */
  method LoadConversation(table: Dict<string, MovieLine>, parts: seq<string>, i: nat, evalIds: string -> Option<seq<string>>)
    returns (r: Result<Option<Conversation>, string>)
    ensures r == ConversationAt(table, parts, i, evalIds)
  {
    if |parts| < 4 {
      return Failure(IndexErrorMessage);
    }
    var ids := evalIds(parts[3]);
    if ids.None? {
      return Failure("eval: " + parts[3]);
    }
    var turns := CollectTurns(table, ids.value);
    if |turns| > 0 {
      r := Success(Some(Conversation(ConversationId(i), parts[2], turns)));
    } else {
      r := Success(None);
    }
  }

  /** `load_conversations` over the lines of the two files. */
  method LoadConversations(lineFile: seq<string>, convLines: seq<string>, evalIds: string -> Option<seq<string>>)
    returns (r: Result<seq<Conversation>, string>)
    ensures r == Loaded(LineTable(FieldLists(lineFile)), FieldLists(convLines), evalIds, |convLines|)
  {
    var table := LoadLines(lineFile);
    r := JoinConversations(table, FieldLists(convLines), evalIds);
  }

  /** The second loop of `load_conversations`, over the fields of each
      line of `movie_conversations.txt`. */
  method JoinConversations(table: Dict<string, MovieLine>, rows: seq<seq<string>>, evalIds: string -> Option<seq<string>>)
    returns (r: Result<seq<Conversation>, string>)
    ensures r == Loaded(table, rows, evalIds, |rows|)
  {
    var conversations := [];
    for i := 0 to |rows|
      invariant Loaded(table, rows, evalIds, i) == Success(conversations)
    {
      var step := LoadConversation(table, rows[i], i, evalIds);
      if step.Failure? {
        LoadedStops(table, rows, evalIds, i, conversations);
        return Failure(step.error);
      }
      LoadedAdvances(table, rows, evalIds, i, conversations);
      if step.value.Some? {
        conversations := conversations + [step.value.value];
      } else {
        conversations := conversations + [];
      }
    }
    r := Success(conversations);
  }

  /** Loading fails exactly when some line lacks a fourth field or its
      list does not evaluate. */
  lemma {:induction false} LoadedFailure(table: Dict<string, MovieLine>, rows: seq<seq<string>>,
                                         evalIds: string -> Option<seq<string>>, n: nat)
    requires n <= |rows|
    ensures Loaded(table, rows, evalIds, n).Failure? <==>
      exists i :: 0 <= i < n && ConversationAt(table, rows[i], i, evalIds).Failure?
    decreases n
  {
    if n > 0 {
      LoadedFailure(table, rows, evalIds, n - 1);
    }
  }

  /** Every loaded conversation is the one built from some line of the
      file, so it has at least one turn and that line's id. */
  lemma {:induction false} LoadedOrigin(table: Dict<string, MovieLine>, rows: seq<seq<string>>,
                                        evalIds: string -> Option<seq<string>>, n: nat, k: nat)
    requires n <= |rows| && Loaded(table, rows, evalIds, n).Success?
    requires k < |Loaded(table, rows, evalIds, n).value|
    ensures exists i :: (0 <= i < n &&
      ConversationAt(table, rows[i], i, evalIds) == Success(Some(Loaded(table, rows, evalIds, n).value[k])))
    decreases n
  {
    var prev := Loaded(table, rows, evalIds, n - 1);
    var c := ConversationAt(table, rows[n - 1], n - 1, evalIds);
    var cs := prev.value;
    if k < |cs| {
      LoadedOrigin(table, rows, evalIds, n - 1, k);
      assert Loaded(table, rows, evalIds, n).value[k] == cs[k];
    }
  }

  /** No two loaded conversations share an id, whatever conversations were
      dropped in between. */
  lemma {:induction false} LoadedIdsDistinct(table: Dict<string, MovieLine>, rows: seq<seq<string>>,
                                             evalIds: string -> Option<seq<string>>, n: nat)
    requires n <= |rows| && Loaded(table, rows, evalIds, n).Success?
    ensures var cs := Loaded(table, rows, evalIds, n).value;
      forall k, l :: 0 <= k < l < |cs| ==> cs[k].conversationId != cs[l].conversationId
    decreases n
  {
    if n > 0 {
      LoadedIdsDistinct(table, rows, evalIds, n - 1);
      var cs := Loaded(table, rows, evalIds, n - 1).value;
      var c := ConversationAt(table, rows[n - 1], n - 1, evalIds);
      if c.value.Some? {
        var last := c.value.value;
        forall k | 0 <= k < |cs|
          ensures cs[k].conversationId != last.conversationId
        {
          LoadedOrigin(table, rows, evalIds, n - 1, k);
          var i :| 0 <= i < n - 1 && ConversationAt(table, rows[i], i, evalIds) == Success(Some(cs[k]));
          if cs[k].conversationId == last.conversationId {
            ConversationIdInjective(i, n - 1);
          }
        }
        var all := cs + [last];
        assert forall k :: 0 <= k < |cs| ==> all[k] == cs[k];
      }
    }
  }

  /** One written part file: its path and the conversations it holds. */
  datatype PartFile = PartFile(path: string, conversations: seq<Conversation>)

  /** `os.path.join(directory, name)` for a relative name: a separator is
      added unless the directory is empty or already ends in one. */
  function PathJoin(directory: string, name: string): (r: string)
    ensures r == JoinPrefix(directory) + name
  {
    if directory == [] || directory[|directory| - 1] == '/' then directory + name
    else directory + "/" + name
  }

  function JoinPrefix(directory: string): string
  {
    if directory == [] || directory[|directory| - 1] == '/' then directory else directory + "/"
  }

  /** `f"conversations_part_{k:03d}.json"` under the output directory. */
  function PartPath(outputDir: string, k: nat): string
  {
    PathJoin(outputDir, PartName(k))
  }

  function PartName(k: nat): string
  {
    "conversations_part_" + ZeroPad(k, 3) + ".json"
  }

  /** The three digits of a part number decide the order of the names:
      the first digit that differs is smaller in the smaller number. */
  lemma DigitsOrder(j: nat, k: nat) returns (t: nat)
    requires j < k < 1000
    ensures t < 3
    ensures forall u :: 0 <= u < t ==> ZeroPad(j, 3)[u] == ZeroPad(k, 3)[u]
    ensures ZeroPad(j, 3)[t] < ZeroPad(k, 3)[t]
  {
    ZeroPadThree(j);
    ZeroPadThree(k);
    ThreeDigits(j);
    ThreeDigits(k);
    var a0, a1, a2 := j / 100, j / 10 % 10, j % 10;
    var b0, b1, b2 := k / 100, k / 10 % 10, k % 10;
    DigitLess(a0, a1, a2, b0, b1, b2);
    if a0 != b0 {
      t := 0;
    } else if a1 != b1 {
      t := 1;
    } else {
      t := 2;
    }
  }

  /** A number below 1000 is its hundreds, tens and units digits. */
  lemma ThreeDigits(n: nat)
    requires n < 1000
    ensures n / 100 < 10 && n == 100 * (n / 100) + 10 * (n / 10 % 10) + n % 10
  {
    var q := n / 10;
    assert n == 10 * q + n % 10;
    assert q == 10 * (q / 10) + q % 10;
    assert q / 10 == n / 100;
  }

  /** Comparing three-digit numbers is comparing their digits in order. */
  lemma DigitLess(a0: nat, a1: nat, a2: nat, b0: nat, b1: nat, b2: nat)
    requires a1 < 10 && a2 < 10 && b1 < 10 && b2 < 10
    requires 100 * a0 + 10 * a1 + a2 < 100 * b0 + 10 * b1 + b2
    ensures a0 < b0 || (a0 == b0 && (a1 < b1 || (a1 == b1 && a2 < b2)))
  {
  }

  /** The padding keeps the files in part order: for part numbers below
      1000, the smaller number's file name sorts first as a string. */
  lemma PartNamesSorted(j: nat, k: nat)
    requires j < k < 1000
    ensures LexLess(PartName(j), PartName(k))
  {
    var t := DigitsOrder(j, k);
    var x, y := PartName(j), PartName(k);
    var dj, dk := ZeroPad(j, 3), ZeroPad(k, 3);
    ZeroPadThree(j);
    ZeroPadThree(k);
    var i := 19 + t;
    assert x[i] == dj[t] && y[i] == dk[t];
    assert x[..i] == y[..i] by {
      forall u | 0 <= u < i ensures x[u] == y[u] {
        if u >= 19 {
          assert x[u] == dj[u - 19] && y[u] == dk[u - 19];
        }
      }
    }
  }

  /** Distinct part numbers name distinct files. */
  lemma PartPathInjective(outputDir: string, j: nat, k: nat)
    requires PartPath(outputDir, j) == PartPath(outputDir, k)
    ensures j == k
  {
    var p := JoinPrefix(outputDir);
    var x, y := PartName(j), PartName(k);
    assert x == (p + x)[|p|..];
    assert y == (p + y)[|p|..];
    assert ZeroPad(j, 3) == x[19..|x| - 5];
    assert ZeroPad(k, 3) == y[19..|y| - 5];
    ZeroPadInjective(j, k, 3);
  }

  /** The part files for a positive batch size: file i holds chunk i of
      the conversations, under part number i + 1. */
  function PartFiles(outputDir: string, conversations: seq<Conversation>, batchSize: nat): (r: seq<PartFile>)
    requires batchSize > 0
    ensures |r| == CeilDiv(|conversations|, batchSize)
  {
    var batches := Chunks(conversations, batchSize);
    seq(|batches|, i requires 0 <= i < |batches| => PartFile(PartPath(outputDir, i + 1), batches[i]))
  }

  /** Part file i holds `conversations[i*bs : min((i+1)*bs, n)]`. */
  lemma PartFileAt(outputDir: string, conversations: seq<Conversation>, batchSize: nat, i: nat)
    requires batchSize > 0 && i < CeilDiv(|conversations|, batchSize)
    ensures 0 <= i * batchSize <= Min((i + 1) * batchSize, |conversations|) <= |conversations|
    ensures PartFiles(outputDir, conversations, batchSize)[i] ==
      PartFile(PartPath(outputDir, i + 1), conversations[i * batchSize..Min((i + 1) * batchSize, |conversations|)])
  {
    ChunkAt(conversations, batchSize, i);
  }

  lemma PartFilesSnoc(outputDir: string, conversations: seq<Conversation>, batchSize: nat, i: nat)
    requires batchSize > 0 && i < CeilDiv(|conversations|, batchSize)
    ensures 0 <= i * batchSize <= Min((i + 1) * batchSize, |conversations|) <= |conversations|
    ensures var spec := PartFiles(outputDir, conversations, batchSize);
      spec[..i] + [PartFile(PartPath(outputDir, i + 1),
                            conversations[i * batchSize..Min((i + 1) * batchSize, |conversations|)])] == spec[..i + 1]
  {
    PartFileAt(outputDir, conversations, batchSize, i);
    var spec := PartFiles(outputDir, conversations, batchSize);
    assert spec[..i + 1] == spec[..i] + [spec[i]];
  }

  /** `save_split_conversations` without the writes: the part files it
      would write, in order. A batch size of 0 raises ZeroDivisionError; a
      negative one writes nothing. */
  method SaveSplitConversations(outputDir: string, conversations: seq<Conversation>, batchSize: int)
    returns (r: Result<seq<PartFile>, string>)
    ensures batchSize == 0 <==> r.Failure?
    ensures batchSize < 0 ==> r == Success([])
    ensures batchSize > 0 ==> r == Success(PartFiles(outputDir, conversations, batchSize))
  {
    if batchSize == 0 {
      return Failure("division by zero");
    }
    if batchSize < 0 {
      return Success([]);
    }
    var n := |conversations|;
    var numFiles := CeilDiv(n, batchSize);
    ghost var spec := PartFiles(outputDir, conversations, batchSize);
    var files: seq<PartFile> := [];
    for i := 0 to numFiles
      invariant files == spec[..i]
    {
      var startIdx := i * batchSize;
      var endIdx := Min((i + 1) * batchSize, n);
      PartFilesSnoc(outputDir, conversations, batchSize, i);
      files := files + [PartFile(PartPath(outputDir, i + 1), conversations[startIdx..endIdx])];
    }
    assert spec[..numFiles] == spec;
    r := Success(files);
  }

  /** The part files put together are the conversations, in order. */
  lemma PartFilesPartition(outputDir: string, conversations: seq<Conversation>, batchSize: nat)
    requires batchSize > 0
    ensures var files := PartFiles(outputDir, conversations, batchSize);
      Flatten(seq(|files|, i requires 0 <= i < |files| => files[i].conversations)) == conversations
  {
    var files := PartFiles(outputDir, conversations, batchSize);
    var batches := seq(|files|, i requires 0 <= i < |files| => files[i].conversations);
    assert batches == Chunks(conversations, batchSize);
    ChunksFlatten(conversations, batchSize);
  }

  /** Each part file holds between one and `batchSize` conversations, and
      only the last may hold fewer. */
  lemma PartFileSizes(outputDir: string, conversations: seq<Conversation>, batchSize: nat, i: nat)
    requires batchSize > 0 && i < CeilDiv(|conversations|, batchSize)
    ensures var f := PartFiles(outputDir, conversations, batchSize)[i];
      0 < |f.conversations| <= batchSize &&
      (i < CeilDiv(|conversations|, batchSize) - 1 ==> |f.conversations| == batchSize)
  {
    ChunkAt(conversations, batchSize, i);
  }

  /** No two part files share a path. */
  lemma PartPathsDistinct(outputDir: string, conversations: seq<Conversation>, batchSize: nat, i: nat, j: nat)
    requires batchSize > 0 && i < j < CeilDiv(|conversations|, batchSize)
    ensures PartFiles(outputDir, conversations, batchSize)[i].path != PartFiles(outputDir, conversations, batchSize)[j].path
  {
    if PartPath(outputDir, i + 1) == PartPath(outputDir, j + 1) {
      PartPathInjective(outputDir, i + 1, j + 1);
    }
  }
}
