/**
 * The objective-question editor (components/admin/ObjectiveQuestionForm.tsx):
 * question text, its options and the correct answer, checked on save.
 */
module ObjectiveForm {
  import opened Types
  import opened QuestionNav
  import ExamPage

  /** Four empty options, as a new form starts. */
  const BlankOptions: seq<string> := ["", "", "", ""]

  /** What the form holds. */
  datatype Fields = Fields(questionText: string, options: seq<string>, correctAnswer: string)

  /** A new form, or the edited question's values loaded by the effect. */
  function Prefill(questionToEdit: Option<Question>): (f: Fields)
    ensures questionToEdit.None? ==> f == Fields("", BlankOptions, "")
    ensures questionToEdit.Some? ==>
      f == Fields(questionToEdit.value.question, questionToEdit.value.options, questionToEdit.value.correct)
  {
    match questionToEdit
    case None => Fields("", BlankOptions, "")
    case Some(q) => Fields(q.question, q.options, q.correct)
  }

  /** Why `handleSave` refuses, in the order it checks. */
  datatype SaveError = MissingField | AnswerNotAnOption

  /** Some option is the empty string. */
  predicate SomeOptionEmpty(options: seq<string>)
  {
    exists i :: 0 <= i < |options| && options[i] == ""
  }

  /** The two checks of `handleSave`. */
  function Check(f: Fields): (r: Option<SaveError>)
    ensures r == Some(MissingField) <==> f.questionText == "" || SomeOptionEmpty(f.options) || f.correctAnswer == ""
    ensures r == Some(AnswerNotAnOption) <==>
      f.questionText != "" && !SomeOptionEmpty(f.options) && f.correctAnswer != "" && f.correctAnswer !in f.options
    ensures r == None <==>
      f.questionText != "" && !SomeOptionEmpty(f.options) && f.correctAnswer != "" && f.correctAnswer in f.options
  {
    if f.questionText == "" || SomeOptionEmpty(f.options) || f.correctAnswer == "" then Some(MissingField)
    else if f.correctAnswer !in f.options then Some(AnswerNotAnOption)
    else None
  }

  datatype Result = Refused(error: SaveError) | Submitted(question: Question)

  /** `handleSave`: an error, or the question handed to `onSubmit`. `now` stands for `Date.now()`. */
  function Save(questionToEdit: Option<Question>, f: Fields, now: int): (r: Result)
    ensures r.Refused? <==> Check(f).Some?
    ensures r.Refused? ==> r.error == Check(f).value
    ensures r.Submitted? ==>
      r.question == Question(IdOrNow(questionToEdit, (q: Question) => q.id, now), f.questionText, f.options, f.correctAnswer)
  {
    match Check(f)
    case Some(e) => Refused(e)
    case None => Submitted(Question(IdOrNow(questionToEdit, (q: Question) => q.id, now), f.questionText, f.options, f.correctAnswer))
  }

  /** A saved question is gradable: choosing its correct option scores it. */
  lemma SavedQuestionIsAnswerable(questionToEdit: Option<Question>, f: Fields, now: int, answers: map<int, string>)
    requires Save(questionToEdit, f, now).Submitted?
    ensures var q := Save(questionToEdit, f, now).question;
      q.correct in q.options && q.question != "" &&
      (forall i :: 0 <= i < |q.options| ==> q.options[i] != "") &&
      ExamPage.IsCorrect(q, SetAnswer(answers, q.id, q.correct))
  {
  }

  /** Opening a valid question with a non-zero id and saving it unchanged submits that question. */
  lemma EditUnchangedRoundTrip(q: Question, now: int)
    requires q.id != 0 && Check(Prefill(Some(q))).None?
    ensures Save(Some(q), Prefill(Some(q)), now) == Submitted(q)
  {
  }

  /** A new form cannot be saved before every field is filled. */
  lemma BlankFormRefused(now: int)
    ensures Save(None, Prefill(None), now) == Refused(MissingField)
  {
  }

  class Form {
    const questionToEdit: Option<Question>
    var questionText: string
    var options: seq<string>
    var correctAnswer: string
    var notification: Option<Notice>
    /** Whether `onClose` has been called. */
    var closed: bool

    function Current(): Fields
      reads this
    {
      Fields(questionText, options, correctAnswer)
    }

    /** The initial state followed by the pre-fill effect. */
    constructor (toEdit: Option<Question>)
      ensures questionToEdit == toEdit && Current() == Prefill(toEdit)
      ensures notification == None && !closed
    {
      questionToEdit := toEdit;
      match toEdit {
        case None =>
          questionText, options, correctAnswer := "", ["", "", "", ""], "";
        case Some(q) =>
          questionText, options, correctAnswer := q.question, q.options, q.correct;
      }
      notification := None;
      closed := false;
    }

    /** `handleOptionChange` for one of the rendered option inputs. */
    method OptionChange(index: nat, value: string)
      requires index < |options|
      modifies this
      ensures options == old(options)[index := value]
      ensures questionText == old(questionText) && correctAnswer == old(correctAnswer)
      ensures notification == old(notification) && closed == old(closed)
    {
      options := options[index := value];
    }

    /** `resetForm`. */
    method Reset()
      modifies this
      ensures Current() == Prefill(None)
      ensures notification == old(notification) && closed == old(closed)
    {
      questionText := "";
      options := ["", "", "", ""];
      correctAnswer := "";
    }

    /** `handleSave`: an error notification, or the question handed to `onSubmit`. */
    method HandleSave(now: int) returns (submitted: Option<Question>)
      modifies this
      ensures submitted.Some? <==> Save(questionToEdit, old(Current()), now).Submitted?
      ensures submitted.Some? ==> submitted.value == Save(questionToEdit, old(Current()), now).question
      ensures submitted.None? ==> notification == Some(Notice("Error", Error))
      ensures submitted.Some? ==> notification == old(notification)
      ensures Current() == old(Current()) && closed == old(closed)
    {
      var outcome := Save(questionToEdit, Current(), now);
      match outcome
      case Refused(_) =>
        notification := Some(Notice("Error", Error));
        submitted := None;
      case Submitted(q) =>
        submitted := Some(q);
    }

    /** `handleSaveAndAdd`: on success a notice and an empty form. */
    method SaveAndAdd(now: int) returns (submitted: Option<Question>)
      modifies this
      ensures submitted.Some? <==> Save(questionToEdit, old(Current()), now).Submitted?
      ensures submitted.Some? ==>
        submitted.value == Save(questionToEdit, old(Current()), now).question &&
        notification == Some(Notice("Success", Success)) && Current() == Prefill(None)
      ensures submitted.None? ==> notification == Some(Notice("Error", Error)) && Current() == old(Current())
      ensures closed == old(closed)
    {
      submitted := HandleSave(now);
      if submitted.Some? {
        notification := Some(Notice("Success", Success));
        Reset();
      }
    }

    /** `handleSaveAndClose`: on success the form closes, keeping its values. */
    method SaveAndClose(now: int) returns (submitted: Option<Question>)
      modifies this
      ensures submitted.Some? <==> Save(questionToEdit, old(Current()), now).Submitted?
      ensures submitted.Some? ==> submitted.value == Save(questionToEdit, old(Current()), now).question
      ensures closed == (old(closed) || submitted.Some?)
      ensures submitted.None? ==> notification == Some(Notice("Error", Error))
      ensures submitted.Some? ==> notification == old(notification)
      ensures Current() == old(Current())
    {
      submitted := HandleSave(now);
      if submitted.Some? {
        closed := true;
      }
    }
  }
}
