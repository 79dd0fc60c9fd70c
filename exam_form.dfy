/**
 * The create/edit exam dialog (components/admin/ExamModal.tsx): subject,
 * class and duration; a new exam always starts as an empty draft.
 */
module ExamForm {
  import opened Types
  import LiveControl

  /** The form's fields. */
  datatype Fields = Fields(subject: string, className: ClassLevel, duration: nat)

  /** A new form ('', the first class, 40 minutes) or the edited exam's values. */
  function Prefill(examToEdit: Option<Exam>): (f: Fields)
    ensures examToEdit.None? ==> f == Fields("", JSS1, 40)
    ensures examToEdit.Some? ==>
      f == Fields(examToEdit.value.subject, examToEdit.value.classLevel, examToEdit.value.durationMinutes)
  {
    match examToEdit
    case None => Fields("", JSS1, 40)
    case Some(e) => Fields(e.subject, e.classLevel, e.durationMinutes)
  }

  datatype Outcome = Refused | Edited(updated: Exam) | Added(created: Exam)

  /**
   * `handleSubmit`: an empty subject is refused; an edit keeps everything
   * but the three fields; a new exam is a draft without questions.
   * `freshId` stands for `crypto.randomUUID()`.
   */
  function Submit(examToEdit: Option<Exam>, f: Fields, freshId: string): (r: Outcome)
    ensures r.Refused? <==> f.subject == ""
    ensures r.Edited? <==> f.subject != "" && examToEdit.Some?
    ensures r.Edited? ==>
      r.updated.id == examToEdit.value.id && r.updated.status == examToEdit.value.status &&
      r.updated.objectiveQuestions == examToEdit.value.objectiveQuestions &&
      r.updated.theoryQuestions == examToEdit.value.theoryQuestions &&
      r.updated.subject == f.subject && r.updated.classLevel == f.className && r.updated.durationMinutes == f.duration
    ensures r.Added? ==>
      r.created == Exam(freshId, f.subject, f.className, Draft, f.duration, [], [])
  {
    if f.subject == "" then Refused
    else if examToEdit.Some? then
      Edited(examToEdit.value.(subject := f.subject, classLevel := f.className, durationMinutes := f.duration))
    else
      Added(Exam(freshId, f.subject, f.className, Draft, f.duration, [], []))
  }

  /** Opening an exam with a subject and submitting unchanged hands back that exam. */
  lemma EditUnchangedRoundTrip(e: Exam, freshId: string)
    requires e.subject != ""
    ensures Submit(Some(e), Prefill(Some(e)), freshId) == Edited(e)
  {
  }

  /** A newly created exam does not await going live until it is published. */
  lemma NewExamNotAwaiting(f: Fields, freshId: string, bank: seq<Exam>, liveExams: seq<Exam>)
    requires Submit(None, f, freshId).Added?
    ensures Submit(None, f, freshId).created !in LiveControl.Awaiting(bank, liveExams)
  {
  }

  class Dialog {
    const examToEdit: Option<Exam>
    var subject: string
    var className: ClassLevel
    var duration: nat
    var notification: Option<Notice>
    var closed: bool

    function Current(): Fields
      reads this
    {
      Fields(subject, className, duration)
    }

    constructor (toEdit: Option<Exam>)
      ensures examToEdit == toEdit && Current() == Prefill(toEdit)
      ensures notification == None && !closed
    {
      examToEdit := toEdit;
      match toEdit {
        case None =>
          subject, className, duration := "", JSS1, 40;
        case Some(e) =>
          subject, className, duration := e.subject, e.classLevel, e.durationMinutes;
      }
      notification := None;
      closed := false;
    }

    /** `handleSubmit`: on success the exam goes to `onEditExam` or `onAddExam` and the dialog closes. */
    method HandleSubmit(freshId: string) returns (outcome: Outcome)
      modifies this
      ensures outcome == Submit(examToEdit, old(Current()), freshId)
      ensures outcome.Refused? ==> notification == Some(Notice("Error", Error)) && closed == old(closed)
      ensures !outcome.Refused? ==> notification == old(notification) && closed
      ensures Current() == old(Current())
    {
      if subject == "" {
        notification := Some(Notice("Error", Error));
        return Refused;
      }
      if examToEdit.Some? {
        outcome := Edited(examToEdit.value.(subject := subject, classLevel := className, durationMinutes := duration));
      } else {
        outcome := Added(Exam(freshId, subject, className, Draft, duration, [], []));
      }
      closed := true;
    }
  }
}
