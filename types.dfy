/**
 * The records of the exam portal (data/types.ts), as Dafny values.
 * JavaScript numbers that hold ids are `int`, durations and scores `nat`.
 */
module Types {

  datatype Option<+T> = None | Some(value: T)

  /**
   * `edited?.id || Date.now()`: the edited record's id, unless there is no
   * record or its id is the falsy 0, when the clock's value is taken.
   */
  function IdOrNow<T>(edited: Option<T>, idOf: T -> int, now: int): (id: int)
    ensures edited.Some? && idOf(edited.value) != 0 ==> id == idOf(edited.value)
    ensures edited.None? || idOf(edited.value) == 0 ==> id == now
  {
    if edited.Some? && idOf(edited.value) != 0 then idOf(edited.value) else now
  }

  /** The six class levels an exam, a result or a student belongs to. */
  datatype ClassLevel = JSS1 | JSS2 | JSS3 | SS1 | SS2 | SS3

  /** The lifecycle of an exam in the bank. */
  datatype Status = Draft | Published

  datatype Term = FirstTerm | SecondTerm | ThirdTerm

  /** A drop-down whose first entry is a sentinel ('All Classes', 'Select Term', ...). */
  datatype Selection<+T> = Sentinel | Pick(value: T)

  /** A filter drop-down admits a value when it shows its "All ..." entry or that value. */
  predicate Admits<T(==)>(sel: Selection<T>, v: T)
  {
    sel.Sentinel? || sel.value == v
  }

  /** An objective (multiple-choice) question. */
  datatype Question = Question(id: int, question: string, options: seq<string>, correct: string)

  /** A free-text question, graded by hand. */
  datatype TheoryQuestion = TheoryQuestion(id: int, question: string)

  datatype Exam = Exam(
    id: string,
    subject: string,
    classLevel: ClassLevel,
    status: Status,
    durationMinutes: nat,
    objectiveQuestions: seq<Question>,
    theoryQuestions: seq<TheoryQuestion>)

  datatype ExamResult = ExamResult(
    id: string,
    studentId: string,
    subject: string,
    classLevel: ClassLevel,
    term: Term,
    ca: int,
    exam: int,
    total: int,
    remark: string)

  /** A roster entry; the optional fields are `undefined` when absent. */
  datatype StudentRecord = StudentRecord(
    id: string,
    name: string,
    regNo: string,
    classLevel: ClassLevel,
    address: Option<string>,
    parentPhone: Option<string>,
    photo: Option<string>)

  /** The logged-in student's profile. */
  datatype Student = Student(id: string, name: string, regNo: string, classLevel: ClassLevel, photo: string)

  datatype AdminRole = AdminStaff | Teacher

  datatype Admin = Admin(id: string, name: string, role: AdminRole, photo: string)

  /** The session's user: a student or an administrator. */
  datatype User = StudentUser(student: Student) | AdminUser(admin: Admin)

  datatype NoticeKind = Success | Error

  /** A toast notification, reduced to its title and its kind. */
  datatype Notice = Notice(title: string, kind: NoticeKind)
}
