/** The overlapping chunker `_split_text` of `src/ml/model2.py`, as
    written and with the evident correction. */
module SplitText {
  import opened Slices
  import opened Text

  /** The chunk size and overlap `LlamaModel` is constructed with. */
  const ChunkSize: nat := 64000
  const ChunkOverlap: nat := 100

  /** The end of the window that starts at `start`. When the window ends
      before the text does, it is cut just after the last newline inside
      it; failing that, just after the '.' of the last ". " inside it;
      failing both, or when the window reaches the end of the text, it is
      `start + chunkSize`. */
  function WindowEnd(text: string, start: nat, chunkSize: nat): (end: nat)
    ensures start <= end <= start + chunkSize
    ensures chunkSize > 0 ==> start < end
    ensures start + chunkSize >= |text| ==> end == start + chunkSize
  {
    var end := start + chunkSize;
    if end < |text| then
      var newline := RFindIn(text, "\n", start, end);
      var splitPoint := if newline == -1 then RFindIn(text, ". ", start, end) else newline;
      if splitPoint != -1 then splitPoint + 1 else end
    else end
  }

  lemma NewlineAt(text: string, j: nat)
    requires j < |text|
    ensures text[j] == '\n' <==> OccursAt(text, "\n", j)
  {
    assert text[j..j + 1] == [text[j]];
  }

  /** No newline in `text[lo..hi]`. */
  predicate NoNewlineIn(text: string, lo: nat, hi: nat)
    requires hi <= |text|
  {
    forall j :: lo <= j < hi ==> text[j] != '\n'
  }

  /** No ". " wholly inside `text[lo..hi]`. */
  predicate NoDotSpaceIn(text: string, lo: nat, hi: nat)
    requires hi <= |text|
  {
    forall j :: lo <= j && j + 2 <= hi ==> !OccursAt(text, ". ", j)
  }

  /** What `RFindIn` says about a missing newline, character by character. */
  lemma NoNewlineFound(text: string, lo: nat, hi: nat)
    requires hi <= |text|
    requires forall j :: lo <= j && j + 1 <= hi ==> !OccursAt(text, "\n", j)
    ensures NoNewlineIn(text, lo, hi)
  {
    forall j | lo <= j < hi ensures text[j] != '\n' {
      NewlineAt(text, j);
    }
  }

  /** Where a window that ends before the text does is cut: just after the
      last newline inside it; failing that, just after the '.' of the last
      ". " inside it; failing both, at `start + chunkSize`. */
  lemma WindowEndBreak(text: string, start: nat, chunkSize: nat)
    requires start + chunkSize < |text|
    ensures var end := WindowEnd(text, start, chunkSize); var w := start + chunkSize;
      // after the last newline of the window
      (start < end && text[end - 1] == '\n' && NoNewlineIn(text, end, w)) ||
      // after the last ". " of a window without newlines
      (NoNewlineIn(text, start, w) && start < end < w &&
        text[end - 1] == '.' && text[end] == ' ' && NoDotSpaceIn(text, end, w)) ||
      // no break point at all
      (end == w && NoNewlineIn(text, start, w) && NoDotSpaceIn(text, start, w))
  {
    var w := start + chunkSize;
    var newline := RFindIn(text, "\n", start, w);
    if newline == -1 {
      NoNewlineFound(text, start, w);
      var dot := RFindIn(text, ". ", start, w);
      if dot != -1 {
        assert text[dot..dot + 2] == ". ";
        assert text[dot] == '.' && text[dot + 1] == ' ';
      }
    } else {
      NewlineAt(text, newline);
      NoNewlineFound(text, newline + 1, w);
    }
  }

  /** The next start as written: `end - chunk_overlap`. */
  function NextStartAsWritten(text: string, start: nat, chunkSize: nat, overlap: nat): int
  {
    WindowEnd(text, start, chunkSize) - overlap
  }

  /** The loop as written makes progress only when the window ends more
      than `overlap` characters after its start; a break point within the
      first `overlap` characters of a window sends `start` back to or
      before where it was, and `start` is all the state the loop has. */
  lemma AsWrittenProgress(text: string, start: nat, chunkSize: nat, overlap: nat)
    ensures NextStartAsWritten(text, start, chunkSize, overlap) > start <==>
      WindowEnd(text, start, chunkSize) > start + overlap
  {
  }

  /** A text of 64100 characters whose only newline is its 100th character. */
  function StallText(): (t: string)
    ensures |t| == 64100
  {
    seq(64100, i => if i == 99 then '\n' else 'x')
  }

  /** With the constructor's constants the loop as written never ends on
      `StallText()`: the first window is cut after the newline at index 99,
      so the next start is 100 - 100 = 0, the start it began with, while
      0 < len(text) keeps the loop going. */
  lemma AsWrittenStalls()
    ensures var t := StallText();
      0 < |t| && ChunkSize < |t| &&
      WindowEnd(t, 0, ChunkSize) == ChunkOverlap &&
      NextStartAsWritten(t, 0, ChunkSize, ChunkOverlap) == 0
  {
    var t := StallText();
    assert OccursAt(t, "\n", 99) by {
      assert t[99..100] == [t[99]];
    }
    forall j | 99 < j && j + 1 <= ChunkSize ensures !OccursAt(t, "\n", j) {
      assert t[j..j + 1] == ['x'];
    }
    assert RFindIn(t, "\n", 0, ChunkSize) == 99;
  }

  /** The corrected next start: `end - overlap` when that is past `start`,
      otherwise `end`, so every step advances. */
  function NextStart(start: nat, end: nat, overlap: nat): (next: nat)
    requires start < end
    ensures start < next <= end
    ensures end > start + overlap ==> next == end - overlap
  {
    if end - overlap > start then end - overlap else end
  }

  /** Where the as-written loop advances, the corrected one takes the very
      same step. */
  lemma NextStartAgrees(text: string, start: nat, chunkSize: nat, overlap: nat)
    requires chunkSize > 0
    requires NextStartAsWritten(text, start, chunkSize, overlap) > start
    ensures NextStart(start, WindowEnd(text, start, chunkSize), overlap) ==
      NextStartAsWritten(text, start, chunkSize, overlap)
  {
  }

  /** Chunk `c` is the text of the window [s, e) that the chunker opens
      at `s`: it is non-empty and at most `chunkSize` long. */
  predicate WindowChunk(text: string, chunkSize: nat, s: nat, e: nat, c: string)
  {
    s < e && s < |text| && e == WindowEnd(text, s, chunkSize) &&
    c == text[s..Min(e, |text|)] && 0 < |c| <= chunkSize
  }

  /** The window after [s, e) opens at the corrected next start, after s
      and no later than e. */
  predicate Step(s: nat, e: nat, s': nat, overlap: nat)
  {
    s < e && s' == NextStart(s, e, overlap) && s < s' <= e
  }

  /** Each window after the first opens at the corrected next start of
      the one before. */
  predicate Chained(starts: seq<nat>, ends: seq<nat>, overlap: nat)
    requires |starts| == |ends|
  {
    forall k :: 0 <= k < |starts| - 1 ==> Step(starts[k], ends[k], starts[k + 1], overlap)
  }

  lemma ChainedSnoc(starts: seq<nat>, ends: seq<nat>, s: nat, e: nat, overlap: nat)
    requires |starts| == |ends| && Chained(starts, ends, overlap)
    requires |starts| > 0 ==> Step(starts[|starts| - 1], ends[|ends| - 1], s, overlap)
    ensures Chained(starts + [s], ends + [e], overlap)
  {
    var ss, es := starts + [s], ends + [e];
    forall k | 0 <= k < |ss| - 1 ensures Step(ss[k], es[k], ss[k + 1], overlap) {
      if k < |starts| - 1 {
        assert ss[k] == starts[k] && es[k] == ends[k] && ss[k + 1] == starts[k + 1];
      }
    }
  }

  /** `_split_text` with the corrected step. Chunk k is `text[s:e]` for
      its window [s, e): the first starts at 0, each window is at most
      `chunkSize` long and ends where `WindowEnd` puts it, each next start
      lies after the previous start and no later than the previous end (so
      no character is skipped), every start is inside the text, and the
      last window reaches the end of the text. The loop stops only when
      the next start would lie at or past the end of the text, every
      earlier start being inside it, so the number of chunks is fixed too.
      Empty text gives no chunks. */
  method SplitText(text: string, chunkSize: nat, overlap: nat)
    returns (chunks: seq<string>, ghost starts: seq<nat>, ghost ends: seq<nat>)
    requires chunkSize > 0
    ensures |text| == 0 <==> chunks == []
    ensures |chunks| == |starts| == |ends|
    ensures forall k :: 0 <= k < |chunks| ==> WindowChunk(text, chunkSize, starts[k], ends[k], chunks[k])
    ensures |chunks| > 0 ==> starts[0] == 0 && ends[|ends| - 1] >= |text|
    ensures forall k :: 0 <= k < |chunks| - 1 ==> Step(starts[k], ends[k], starts[k + 1], overlap)
    ensures |chunks| > 0 ==>
              starts[|chunks| - 1] < ends[|chunks| - 1] && NextStart(starts[|chunks| - 1], ends[|chunks| - 1], overlap) >= |text|
  {
    chunks, starts, ends := [], [], [];
    var start: nat := 0;
    while start < |text|
      invariant |chunks| == |starts| == |ends|
      invariant forall k :: 0 <= k < |chunks| ==> WindowChunk(text, chunkSize, starts[k], ends[k], chunks[k])
      invariant |chunks| == 0 <==> start == 0
      invariant |chunks| > 0 ==> starts[0] == 0 && Step(starts[|starts| - 1], ends[|ends| - 1], start, overlap)
      invariant Chained(starts, ends, overlap)
      invariant |chunks| > 0 && start >= |text| ==> ends[|ends| - 1] >= |text|
      decreases |text| - start
    {
      var end := WindowEnd(text, start, chunkSize);
      var chunk := Slice(text, start, end);
      assert chunk == text[start..Min(end, |text|)];
      assert WindowChunk(text, chunkSize, start, end, chunk);
      ChainedSnoc(starts, ends, start, end, overlap);
      chunks, starts, ends := chunks + [chunk], starts + [start], ends + [end];
      start := NextStart(start, end, overlap);
    }
    if |chunks| > 0 {
      assert Step(starts[|chunks| - 1], ends[|chunks| - 1], start, overlap);
    }
  }

  /** The chunks cover the text: every character lies in some window. */
  lemma Covered(n: nat, starts: seq<nat>, ends: seq<nat>, i: nat) returns (k: nat)
    requires |starts| == |ends| > 0 && starts[0] == 0 && ends[|ends| - 1] >= n && i < n
    requires forall k :: 0 <= k < |starts| - 1 ==> starts[k + 1] <= ends[k]
    ensures k < |starts| && starts[k] <= i < ends[k]
    decreases |starts|
  {
    if i >= starts[|starts| - 1] {
      k := |starts| - 1;
    } else {
      k := Covered(ends[|ends| - 2], starts[..|starts| - 1], ends[..|ends| - 1], i);
    }
  }
}
