/**
 * The stand-alone theory page (pages/student/theory-exam.tsx): one answer
 * box per theory question, each showing the stored answer or ''.
 */
module TheoryExam {
  import opened Types
  import opened QuestionNav

  /** The text of every answer box, in question order. */
  function Boxes(qs: seq<TheoryQuestion>, answers: map<int, string>): (r: seq<string>)
    ensures |r| == |qs|
    ensures forall i :: 0 <= i < |qs| ==> r[i] == Displayed(answers, qs[i].id)
  {
    seq(|qs|, i requires 0 <= i < |qs| => Displayed(answers, qs[i].id))
  }

  /**
   * Typing into one box (`handleAnswerChange`) changes the boxes of that
   * question id and no other.
   */
  lemma AnswerChangeTouchesOneBox(qs: seq<TheoryQuestion>, answers: map<int, string>, id: int, text: string)
    ensures forall i :: 0 <= i < |qs| ==>
      Boxes(qs, SetAnswer(answers, id, text))[i] ==
        if qs[i].id == id then text else Boxes(qs, answers)[i]
  {
  }

  /** Before any typing every box is empty. */
  lemma BoxesStartEmpty(qs: seq<TheoryQuestion>)
    ensures forall i :: 0 <= i < |qs| ==> Boxes(qs, map[])[i] == ""
  {
  }
}
