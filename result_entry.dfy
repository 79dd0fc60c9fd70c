/**
 * The score-entry table (components/admin/ResultEntryTable.tsx): one row per
 * student with the CA and exam inputs, the running total and its remark.
 */
module ResultEntry {
  import opened Types
  import opened Text
  import opened Helpers

  /**
   * One row's inputs as typed. A field is `None` when it was never set,
   * which happens when a change reaches a student with no entry yet.
   */
  datatype ScoreInput = ScoreInput(ca: Option<string>, exam: Option<string>)

  /** The entry of a row that has none: both inputs empty. */
  const EmptyEntry: ScoreInput := ScoreInput(Some(""), Some(""))

  /** `Number(field) || 0`: `NaN`, `undefined` and the empty string all read as 0. */
  function NumberOr0(field: Option<string>): (n: int)
    ensures field.None? ==> n == 0
    ensures field.Some? && JsNumber(field.value).Some? ==> n == JsNumber(field.value).value
    ensures field.Some? && JsNumber(field.value).None? ==> n == 0
  {
    match field
    case None => 0
    case Some(s) => match JsNumber(s) case Some(v) => v case None => 0
  }

  /** `calculateTotal`. */
  function CalculateTotal(ca: Option<string>, exam: Option<string>): (total: int)
    ensures (ca.None? || JsNumber(ca.value).None?) ==> total == NumberOr0(exam)
    ensures (exam.None? || JsNumber(exam.value).None?) ==> total == NumberOr0(ca)
    ensures ca.Some? && exam.Some? && AllDigits(ca.value) && AllDigits(exam.value) ==>
      total == Value(ca.value) + Value(exam.value)
  {
    NumberOr0(ca) + NumberOr0(exam)
  }

  /** `scores[student.id] || { ca: '', exam: '' }`. */
  function RowEntry(scores: map<string, ScoreInput>, studentId: string): (r: ScoreInput)
    ensures studentId in scores ==> r == scores[studentId]
    ensures studentId !in scores ==> r == EmptyEntry
  {
    if studentId in scores then scores[studentId] else EmptyEntry
  }

  /** The total shown in a row. */
  function RowTotal(scores: map<string, ScoreInput>, studentId: string): (total: int)
    ensures studentId !in scores ==> total == 0
    ensures studentId in scores ==> total == CalculateTotal(scores[studentId].ca, scores[studentId].exam)
  {
    CalculateTotal(RowEntry(scores, studentId).ca, RowEntry(scores, studentId).exam)
  }

  /** The remark shown in a row: the band of the row's total. */
  function RowRemark(scores: map<string, ScoreInput>, studentId: string): (remark: string)
    ensures studentId !in scores ==> remark == "Poor"
    ensures remark == "Excellent" <==> RowTotal(scores, studentId) >= 75
    ensures remark == "Good" <==> 60 <= RowTotal(scores, studentId) < 75
    ensures remark == "Pass" <==> 45 <= RowTotal(scores, studentId) < 60
    ensures remark == "Poor" <==> RowTotal(scores, studentId) < 45
  {
    GetRemark(RowTotal(scores, studentId))
  }

  /** A row nobody has typed into shows 0 and "Poor". */
  lemma UntouchedRow(scores: map<string, ScoreInput>, studentId: string)
    requires studentId !in scores
    ensures RowTotal(scores, studentId) == 0 && RowRemark(scores, studentId) == "Poor"
  {
  }

  /** The two inputs and the largest value each accepts: `max={40}` and `max={60}`. */
  datatype Field = CaField | ExamField

  function MaxScore(f: Field): nat
  {
    match f
    case CaField => 40
    case ExamField => 60
  }

  /**
   * Whether a typed value is within a field's range: `NaN` is compared
   * false both ways, so it is not refused.
   */
  predicate InRange(f: Field, value: string): (ok: bool)
    ensures JsNumber(value).None? ==> ok
    ensures AllDigits(value) ==> (ok <==> Value(value) <= MaxScore(f))
    ensures JsNumber(value).Some? && JsNumber(value).value < 0 ==> !ok
  {
    JsNumber(value).None? || 0 <= JsNumber(value).value <= MaxScore(f)
  }

  /** Every value present in an entry is within its field's range. */
  predicate EntryInRange(e: ScoreInput)
  {
    (e.ca.Some? ==> InRange(CaField, e.ca.value)) && (e.exam.Some? ==> InRange(ExamField, e.exam.value))
  }

  /** Inputs within range give a total between 0 and 100. */
  lemma TotalWithinHundred(e: ScoreInput)
    requires EntryInRange(e)
    ensures 0 <= NumberOr0(e.ca) <= 40 && 0 <= NumberOr0(e.exam) <= 60
    ensures 0 <= CalculateTotal(e.ca, e.exam) <= 100
  {
  }

  /** A row of full marks shows 100 and "Excellent". */
  lemma FullMarksRemark(scores: map<string, ScoreInput>, studentId: string)
    requires studentId in scores && scores[studentId] == ScoreInput(Some("40"), Some("60"))
    ensures RowTotal(scores, studentId) == 100 && RowRemark(scores, studentId) == "Excellent"
  {
    assert Value("40") == 40 by { assert "40"[..1] == "4"; }
    assert Value("60") == 60 by { assert "60"[..1] == "6"; }
  }
}
