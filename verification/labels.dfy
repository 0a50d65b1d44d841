/** The five questions every part of the analyzer asks of a conversation,
    and a row of five answers to them. */
module Labels {
  /** Q1 age given, Q2 age asked, Q3 meet-up request, Q4 gift or purchase,
      Q5 videos or photos. */
  const QuestionIds: seq<string> := ["Q1", "Q2", "Q3", "Q4", "Q5"]

  /** One answer cell per question, Q1..Q5 in order. */
  type Answers = a: seq<string> | |a| == 5 witness ["", "", "", "", ""]

  lemma QuestionIdsDistinct()
    ensures forall i, j :: 0 <= i < j < 5 ==> QuestionIds[i] != QuestionIds[j]
  {
  }
}
