/**
 * The theory-question editor (components/admin/TheoryQuestionForm.tsx):
 * one text field, required on save.
 */
module TheoryForm {
  import opened Types

  /** A new form is empty; an edited question's text is loaded by the effect. */
  function Prefill(questionToEdit: Option<TheoryQuestion>): (text: string)
    ensures questionToEdit.None? ==> text == ""
    ensures questionToEdit.Some? ==> text == questionToEdit.value.question
  {
    match questionToEdit
    case None => ""
    case Some(q) => q.question
  }

  /** `handleSave`: nothing for an empty text, otherwise the question handed to `onSubmit`. */
  function Save(questionToEdit: Option<TheoryQuestion>, text: string, now: int): (r: Option<TheoryQuestion>)
    ensures r.None? <==> text == ""
    ensures r.Some? ==> r.value.question == text && r.value.id == IdOrNow(questionToEdit, (q: TheoryQuestion) => q.id, now)
  {
    if text == "" then None else Some(TheoryQuestion(IdOrNow(questionToEdit, (q: TheoryQuestion) => q.id, now), text))
  }

  /** Opening a question with a non-zero id and saving it unchanged submits that question, unless its text is empty. */
  lemma EditUnchangedRoundTrip(q: TheoryQuestion, now: int)
    requires q.id != 0
    ensures q.question != "" ==> Save(Some(q), Prefill(Some(q)), now) == Some(q)
    ensures q.question == "" ==> Save(Some(q), Prefill(Some(q)), now) == None
  {
  }

  class Form {
    const questionToEdit: Option<TheoryQuestion>
    var questionText: string
    var notification: Option<Notice>
    var closed: bool

    constructor (toEdit: Option<TheoryQuestion>)
      ensures questionToEdit == toEdit && questionText == Prefill(toEdit)
      ensures notification == None && !closed
    {
      questionToEdit := toEdit;
      questionText := if toEdit.Some? then toEdit.value.question else "";
      notification := None;
      closed := false;
    }

    /** `handleSave`. */
    method HandleSave(now: int) returns (submitted: Option<TheoryQuestion>)
      modifies this
      ensures submitted == Save(questionToEdit, old(questionText), now)
      ensures submitted.None? ==> notification == Some(Notice("Error", Error))
      ensures submitted.Some? ==> notification == old(notification)
      ensures questionText == old(questionText) && closed == old(closed)
    {
      if questionText == "" {
        notification := Some(Notice("Error", Error));
        return None;
      }
      submitted := Some(TheoryQuestion(IdOrNow(questionToEdit, (q: TheoryQuestion) => q.id, now), questionText));
    }

    /** `handleSaveAndAdd`: on success a notice and an empty text field. */
    method SaveAndAdd(now: int) returns (submitted: Option<TheoryQuestion>)
      modifies this
      ensures submitted == Save(questionToEdit, old(questionText), now)
      ensures submitted.Some? ==> notification == Some(Notice("Success", Success)) && questionText == ""
      ensures submitted.None? ==> notification == Some(Notice("Error", Error)) && questionText == old(questionText)
      ensures closed == old(closed)
    {
      submitted := HandleSave(now);
      if submitted.Some? {
        notification := Some(Notice("Success", Success));
        questionText := "";
      }
    }

    /** `handleSaveAndClose`: on success the form closes. */
    method SaveAndClose(now: int) returns (submitted: Option<TheoryQuestion>)
      modifies this
      ensures submitted == Save(questionToEdit, old(questionText), now)
      ensures closed == (old(closed) || submitted.Some?)
      ensures submitted.None? ==> notification == Some(Notice("Error", Error))
      ensures submitted.Some? ==> notification == old(notification)
      ensures questionText == old(questionText)
    {
      submitted := HandleSave(now);
      if submitted.Some? {
        closed := true;
      }
    }
  }
}
