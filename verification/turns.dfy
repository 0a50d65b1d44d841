/** One turn of a conversation and the `f"{speaker}: {text}"` line the
    scripts render it as. */
module Turns {

  datatype Turn = Turn(speaker: string, text: string)

  function TurnLine(t: Turn): string
  {
    t.speaker + ": " + t.text
  }

  predicate NoNewline(s: string)
  {
    forall i :: 0 <= i < |s| ==> s[i] != '\n'
  }

  lemma NoNewlineAppend(a: string, b: string)
    requires NoNewline(a) && NoNewline(b)
    ensures NoNewline(a + b)
  {
    forall i | 0 <= i < |a + b| ensures (a + b)[i] != '\n' {
      if i >= |a| {
        assert (a + b)[i] == b[i - |a|];
      }
    }
  }

  /** A turn whose speaker and text hold no newline renders to one line. */
  lemma TurnLineNoNewline(t: Turn)
    requires NoNewline(t.speaker) && NoNewline(t.text)
    ensures NoNewline(TurnLine(t))
  {
    var l := TurnLine(t);
    forall i | 0 <= i < |l| ensures l[i] != '\n' {
      if i < |t.speaker| {
        assert l[i] == t.speaker[i];
      } else if i >= |t.speaker| + 2 {
        assert l[i] == t.text[i - |t.speaker| - 2];
      }
    }
  }
}
