/**
 * The result-upload page (pages/admin/upload-result.tsx): pick a class, a
 * term and a subject, load that class with any scores already recorded,
 * type scores, and save one row at a time into the result list.
 */
module UploadResult {
  import opened Types
  import opened Lists
  import opened Text
  import opened Helpers
  import opened ResultEntry

  /** `SUBJECT_OPTIONS[0]`. */
  const SubjectPlaceholder: string := "Select Subject"

  /** A result recorded for this student, class, term and subject. */
  predicate SameKey(r: ExamResult, studentId: string, c: ClassLevel, t: Term, subject: string)
  {
    r.studentId == studentId && r.classLevel == c && r.term == t && r.subject == subject
  }

  function KeyMatcher(studentId: string, c: ClassLevel, t: Term, subject: string): ExamResult -> bool
  {
    (r: ExamResult) => SameKey(r, studentId, c, t, subject)
  }

  /** The pre-loaded entry of one student: the recorded scores as text, or two empty inputs. */
  function ExistingEntry(results: seq<ExamResult>, studentId: string, c: ClassLevel, t: Term, subject: string): (e: ScoreInput)
    ensures e.ca.Some? && e.exam.Some?
  {
    match Find(results, KeyMatcher(studentId, c, t, subject))
    case Some(r) => ScoreInput(Some(IntToString(r.ca)), Some(IntToString(r.exam)))
    case None => EmptyEntry
  }

  /** A pre-loaded entry reads back as the recorded scores, or as 0 and 0. */
  lemma ExistingEntryReadsBack(results: seq<ExamResult>, studentId: string, c: ClassLevel, t: Term, subject: string)
    ensures var e := ExistingEntry(results, studentId, c, t, subject);
      match Find(results, KeyMatcher(studentId, c, t, subject))
      case Some(r) => NumberOr0(e.ca) == r.ca && NumberOr0(e.exam) == r.exam
      case None => NumberOr0(e.ca) == 0 && NumberOr0(e.exam) == 0
  {
    match Find(results, KeyMatcher(studentId, c, t, subject))
    case Some(r) =>
      NumberOfString(r.ca);
      NumberOfString(r.exam);
    case None =>
  }

  /** `DUMMY_DATA.allStudents.filter(s => s.class === selectedClass)`. */
  function StudentsOfClass(students: seq<StudentRecord>, c: ClassLevel): (r: seq<StudentRecord>)
    ensures forall s :: s in r <==> s in students && s.classLevel == c
    ensures IsSubsequence(r, students)
  {
    Filter(students, (s: StudentRecord) => s.classLevel == c)
  }

  /** The pre-load loop of `handleLoadStudents`: one entry per listed student. */
  method PreloadScores(students: seq<StudentRecord>, results: seq<ExamResult>, c: ClassLevel, t: Term, subject: string)
    returns (newScores: map<string, ScoreInput>)
    ensures forall id :: id in newScores <==> exists i :: 0 <= i < |students| && students[i].id == id
    ensures forall i :: 0 <= i < |students| ==>
      newScores[students[i].id] == ExistingEntry(results, students[i].id, c, t, subject)
  {
    newScores := map[];
    for k := 0 to |students|
      invariant forall id :: id in newScores <==> exists i :: 0 <= i < k && students[i].id == id
      invariant forall i :: 0 <= i < k ==>
        newScores[students[i].id] == ExistingEntry(results, students[i].id, c, t, subject)
    {
      var student := students[k];
      var existingResult := Find(results, KeyMatcher(student.id, c, t, subject));
      if existingResult.Some? {
        newScores := newScores[student.id := ScoreInput(Some(IntToString(existingResult.value.ca)), Some(IntToString(existingResult.value.exam)))];
      } else {
        newScores := newScores[student.id := ScoreInput(Some(""), Some(""))];
      }
    }
  }

  /**
   * `handleScoreChange`: a value outside the field's range is refused;
   * otherwise that field of the student's entry is set, the other field is
   * kept (absent when the student had no entry), and no other entry changes.
   */
  function ScoresAfterChange(scores: map<string, ScoreInput>, studentId: string, f: Field, value: string): (r: map<string, ScoreInput>)
    ensures !InRange(f, value) ==> r == scores
    ensures InRange(f, value) ==>
      r.Keys == scores.Keys + {studentId} &&
      (forall k :: k in scores && k != studentId ==> r[k] == scores[k]) &&
      r[studentId].ca == (if f == CaField then Some(value) else if studentId in scores then scores[studentId].ca else None) &&
      r[studentId].exam == (if f == ExamField then Some(value) else if studentId in scores then scores[studentId].exam else None)
  {
    if !InRange(f, value) then scores
    else
      var prev := if studentId in scores then scores[studentId] else ScoreInput(None, None);
      var next := match f
        case CaField => prev.(ca := Some(value))
        case ExamField => prev.(exam := Some(value));
      scores[studentId := next]
  }

  /** Every entry holds only in-range values. */
  predicate AllInRange(scores: map<string, ScoreInput>)
  {
    forall k :: k in scores ==> EntryInRange(scores[k])
  }

  /** Typing keeps every entry in range, so every row total stays within 0..100. */
  lemma ScoreChangeKeepsRange(scores: map<string, ScoreInput>, studentId: string, f: Field, value: string)
    requires AllInRange(scores)
    ensures AllInRange(ScoresAfterChange(scores, studentId, f, value))
    ensures 0 <= RowTotal(ScoresAfterChange(scores, studentId, f, value), studentId) <= 100
  {
    var r := ScoresAfterChange(scores, studentId, f, value);
    TotalWithinHundred(RowEntry(r, studentId));
  }

  /** Pre-loaded entries hold only in-range values when the recorded scores are in range. */
  lemma ExistingEntryInRange(results: seq<ExamResult>, studentId: string, c: ClassLevel, t: Term, subject: string)
    requires forall i :: 0 <= i < |results| ==> 0 <= results[i].ca <= 40 && 0 <= results[i].exam <= 60
    ensures EntryInRange(ExistingEntry(results, studentId, c, t, subject))
  {
    match Find(results, KeyMatcher(studentId, c, t, subject))
    case Some(r) =>
      NumberOfString(r.ca);
      NumberOfString(r.exam);
    case None =>
  }

  /** `!studentScores || (studentScores.ca === '' && studentScores.exam === '')`. */
  predicate NoScoresEntered(scores: map<string, ScoreInput>, studentId: string): (none: bool)
    ensures none <==> RowEntry(scores, studentId) == EmptyEntry
  {
    studentId !in scores || (scores[studentId].ca == Some("") && scores[studentId].exam == Some(""))
  }

  /** The record `handleSaveRow` builds from an entry. */
  function NewResult(id: string, studentId: string, c: ClassLevel, t: Term, subject: string, e: ScoreInput): (r: ExamResult)
    ensures r.id == id && r.studentId == studentId && r.classLevel == c && r.term == t && r.subject == subject
    ensures r.ca == NumberOr0(e.ca) && r.exam == NumberOr0(e.exam)
    ensures r.total == r.ca + r.exam && r.remark == GetRemark(r.total)
  {
    var ca := NumberOr0(e.ca);
    var exam := NumberOr0(e.exam);
    ExamResult(id, studentId, subject, c, t, ca, exam, ca + exam, GetRemark(ca + exam))
  }

  /**
   * The upsert of `handleSaveRow`: the first result with the same key is
   * replaced, keeping its id; without one the record is appended.
   */
  function Upsert(results: seq<ExamResult>, nr: ExamResult): (r: seq<ExamResult>)
    ensures var k := FindIndex(results, KeyMatcher(nr.studentId, nr.classLevel, nr.term, nr.subject));
      (k >= 0 ==> |r| == |results| && r[k] == nr.(id := results[k].id) &&
                  forall i :: 0 <= i < |results| && i != k ==> r[i] == results[i]) &&
      (k == -1 ==> |r| == |results| + 1 && r[..|results|] == results && r[|results|] == nr)
  {
    var k := FindIndex(results, KeyMatcher(nr.studentId, nr.classLevel, nr.term, nr.subject));
    if k > -1 then results[k := nr.(id := results[k].id)] else results + [nr]
  }

  datatype SaveOutcome =
    | NotListed
    | NoScores
    | Saved(results: seq<ExamResult>, stored: ExamResult)

  /**
   * `handleSaveRow`: nothing for a student not on the table, an error for
   * an empty row, otherwise the upserted result list and the stored record.
   * `freshId` stands for `crypto.randomUUID()`.
   */
  function SaveResult(listed: seq<StudentRecord>, scores: map<string, ScoreInput>, results: seq<ExamResult>,
                      c: ClassLevel, t: Term, subject: string, studentId: string, freshId: string): (r: SaveOutcome)
    ensures r.NotListed? <==> forall i :: 0 <= i < |listed| ==> listed[i].id != studentId
    ensures r.NoScores? <==> (exists i :: 0 <= i < |listed| && listed[i].id == studentId) && NoScoresEntered(scores, studentId)
    ensures r.Saved? ==>
      studentId in scores &&
      r.stored.studentId == studentId && r.stored.classLevel == c && r.stored.term == t && r.stored.subject == subject &&
      r.stored.ca == NumberOr0(scores[studentId].ca) && r.stored.exam == NumberOr0(scores[studentId].exam) &&
      r.stored.total == r.stored.ca + r.stored.exam && r.stored.remark == GetRemark(r.stored.total)
  {
    match Find(listed, (s: StudentRecord) => s.id == studentId)
    case None => NotListed
    case Some(student) =>
      if NoScoresEntered(scores, studentId) then NoScores
      else
        var nr := NewResult(freshId, student.id, c, t, subject, scores[studentId]);
        var updated := Upsert(results, nr);
        var k := FindIndex(results, KeyMatcher(student.id, c, t, subject));
        Saved(updated, if k > -1 then nr.(id := results[k].id) else nr)
  }

  /** After a save, looking the key up finds the stored record. */
  lemma SaveThenFind(listed: seq<StudentRecord>, scores: map<string, ScoreInput>, results: seq<ExamResult>,
                     c: ClassLevel, t: Term, subject: string, studentId: string, freshId: string)
    requires SaveResult(listed, scores, results, c, t, subject, studentId, freshId).Saved?
    ensures var o := SaveResult(listed, scores, results, c, t, subject, studentId, freshId);
      Find(o.results, KeyMatcher(studentId, c, t, subject)) == Some(o.stored) &&
      o.stored in o.results
  {
    var o := SaveResult(listed, scores, results, c, t, subject, studentId, freshId);
    var m := KeyMatcher(studentId, c, t, subject);
    var k := FindIndex(results, m);
    if k >= 0 {
      assert o.results[k] == o.stored;
      FindFirst(o.results, m, k);
    } else {
      assert o.results[|results|] == o.stored;
      FindFirst(o.results, m, |results|);
    }
  }

  /** `Find` returns the element at the first matching position. */
  lemma FindFirst<T>(xs: seq<T>, p: T -> bool, k: nat)
    requires k < |xs| && p(xs[k]) && forall i :: 0 <= i < k ==> !p(xs[i])
    ensures Find(xs, p) == Some(xs[k])
  {
  }

  /** A save touches only the record with the saved key; the list grows by at most one. */
  lemma SaveKeepsOtherResults(listed: seq<StudentRecord>, scores: map<string, ScoreInput>, results: seq<ExamResult>,
                              c: ClassLevel, t: Term, subject: string, studentId: string, freshId: string)
    requires SaveResult(listed, scores, results, c, t, subject, studentId, freshId).Saved?
    ensures var o := SaveResult(listed, scores, results, c, t, subject, studentId, freshId);
      |results| <= |o.results| <= |results| + 1 &&
      forall i :: 0 <= i < |results| && !SameKey(results[i], studentId, c, t, subject) ==> o.results[i] == results[i]
  {
  }

  /** No two results share a key. */
  predicate UniqueKeys(results: seq<ExamResult>)
  {
    forall i, j :: 0 <= i < j < |results| ==>
      !SameKey(results[j], results[i].studentId, results[i].classLevel, results[i].term, results[i].subject)
  }

  /** Saving never records a second result for the same key. */
  lemma SaveKeepsKeysUnique(listed: seq<StudentRecord>, scores: map<string, ScoreInput>, results: seq<ExamResult>,
                            c: ClassLevel, t: Term, subject: string, studentId: string, freshId: string)
    requires UniqueKeys(results)
    requires SaveResult(listed, scores, results, c, t, subject, studentId, freshId).Saved?
    ensures UniqueKeys(SaveResult(listed, scores, results, c, t, subject, studentId, freshId).results)
  {
    var o := SaveResult(listed, scores, results, c, t, subject, studentId, freshId);
    var k := FindIndex(results, KeyMatcher(studentId, c, t, subject));
    var r := o.results;
    forall i, j | 0 <= i < j < |r|
      ensures !SameKey(r[j], r[i].studentId, r[i].classLevel, r[i].term, r[i].subject)
    {
      if k == -1 && j == |results| {
        assert !KeyMatcher(studentId, c, t, subject)(results[i]);
      } else if k >= 0 && i == k {
        assert r[j] == results[j];
      } else if k >= 0 && j == k {
        assert r[i] == results[i];
      }
    }
  }

  /** The total and remark a row shows are the ones its save stores. */
  lemma SavedMatchesRow(listed: seq<StudentRecord>, scores: map<string, ScoreInput>, results: seq<ExamResult>,
                        c: ClassLevel, t: Term, subject: string, studentId: string, freshId: string)
    requires SaveResult(listed, scores, results, c, t, subject, studentId, freshId).Saved?
    ensures var o := SaveResult(listed, scores, results, c, t, subject, studentId, freshId);
      o.stored.total == RowTotal(scores, studentId) && o.stored.remark == RowRemark(scores, studentId)
  {
  }

  /**
   * Loading a recorded result and saving it without edits leaves the result
   * list as it was, when the record's total and remark are consistent.
   */
  lemma LoadThenSaveKeepsResults(listed: seq<StudentRecord>, results: seq<ExamResult>,
                                 c: ClassLevel, t: Term, subject: string, studentId: string, freshId: string)
    requires exists i :: 0 <= i < |listed| && listed[i].id == studentId
    requires Find(results, KeyMatcher(studentId, c, t, subject)).Some?
    requires var r := Find(results, KeyMatcher(studentId, c, t, subject)).value;
      r.total == r.ca + r.exam && r.remark == GetRemark(r.total)
    ensures var scores := map[studentId := ExistingEntry(results, studentId, c, t, subject)];
      SaveResult(listed, scores, results, c, t, subject, studentId, freshId) ==
        Saved(results, Find(results, KeyMatcher(studentId, c, t, subject)).value)
  {
    var m := KeyMatcher(studentId, c, t, subject);
    var r := Find(results, m).value;
    var scores := map[studentId := ExistingEntry(results, studentId, c, t, subject)];
    ExistingEntryReadsBack(results, studentId, c, t, subject);
    assert !NoScoresEntered(scores, studentId) by {
      assert |IntToString(r.ca)| >= 1;
    }
    var k := FindIndex(results, m);
    assert results[k] == r by {
      FindFirst(results, m, k);
    }
    var o := SaveResult(listed, scores, results, c, t, subject, studentId, freshId);
    assert o.stored == r;
    assert o.results == results[k := r];
    assert results[k := r] == results;
  }

  /** The table's rows: students whose name or registration number contains the search term. */
  function FilteredStudents(students: seq<StudentRecord>, searchTerm: string): (r: seq<StudentRecord>)
    ensures forall i :: 0 <= i < |r| ==>
      r[i] in students && (MatchesSearch(r[i].name, searchTerm) || MatchesSearch(r[i].regNo, searchTerm))
    ensures forall i :: 0 <= i < |students| ==>
      (MatchesSearch(students[i].name, searchTerm) || MatchesSearch(students[i].regNo, searchTerm) ==> students[i] in r)
    ensures IsSubsequence(r, students)
  {
    Filter(students, (s: StudentRecord) => MatchesSearch(s.name, searchTerm) || MatchesSearch(s.regNo, searchTerm))
  }

  /** An empty search shows every loaded student. */
  lemma EmptySearchShowsAll(students: seq<StudentRecord>)
    ensures FilteredStudents(students, "") == students
  {
    forall i | 0 <= i < |students| ensures MatchesSearch(students[i].name, "") {
      EmptySearchMatches(students[i].name);
    }
    FilterKeepsAll(students, (s: StudentRecord) => MatchesSearch(s.name, "") || MatchesSearch(s.regNo, ""));
  }

  class UploadPage {
    /** `DUMMY_DATA.allStudents`. */
    const allStudents: seq<StudentRecord>
    var selectedClass: Selection<ClassLevel>
    var selectedTerm: Selection<Term>
    var selectedSubject: string
    var searchTerm: string
    var studentsForGrading: seq<StudentRecord>
    var allResults: seq<ExamResult>
    var scores: map<string, ScoreInput>
    var notification: Option<Notice>

    /** The page's initial state over the roster and the recorded results. */
    constructor (students: seq<StudentRecord>, results: seq<ExamResult>)
      ensures allStudents == students && allResults == results
      ensures selectedClass == Sentinel && selectedTerm == Sentinel && selectedSubject == SubjectPlaceholder
      ensures searchTerm == "" && studentsForGrading == [] && scores == map[] && notification == None
    {
      allStudents := students;
      selectedClass := Sentinel;
      selectedTerm := Sentinel;
      selectedSubject := SubjectPlaceholder;
      searchTerm := "";
      studentsForGrading := [];
      allResults := results;
      scores := map[];
      notification := None;
    }

    /** Whether any drop-down still shows its placeholder. */
    predicate IncompleteFilters()
      reads this
    {
      selectedClass.Sentinel? || selectedTerm.Sentinel? || selectedSubject == SubjectPlaceholder
    }

    /**
     * `handleLoadStudents`: with a placeholder still selected, an error and
     * an empty table (the entries are left as they were); otherwise the
     * class's students and one pre-loaded entry each, replacing all others.
     */
    method LoadStudents()
      modifies this
      ensures IncompleteFilters() == old(IncompleteFilters())
      ensures selectedClass == old(selectedClass) && selectedTerm == old(selectedTerm)
      ensures selectedSubject == old(selectedSubject) && searchTerm == old(searchTerm)
      ensures allResults == old(allResults)
      ensures old(IncompleteFilters()) ==>
        notification == Some(Notice("Error", Error)) && studentsForGrading == [] && scores == old(scores)
      ensures !old(IncompleteFilters()) ==>
        notification == old(notification) &&
        studentsForGrading == StudentsOfClass(allStudents, selectedClass.value) &&
        (forall id :: id in scores <==> exists i :: 0 <= i < |studentsForGrading| && studentsForGrading[i].id == id) &&
        (forall i :: 0 <= i < |studentsForGrading| ==>
          scores[studentsForGrading[i].id] ==
            ExistingEntry(allResults, studentsForGrading[i].id, selectedClass.value, selectedTerm.value, selectedSubject))
    {
      if selectedClass.Sentinel? || selectedTerm.Sentinel? || selectedSubject == SubjectPlaceholder {
        notification := Some(Notice("Error", Error));
        studentsForGrading := [];
        return;
      }
      var studentsInClass := StudentsOfClass(allStudents, selectedClass.value);
      studentsForGrading := studentsInClass;
      var newScores := PreloadScores(studentsInClass, allResults, selectedClass.value, selectedTerm.value, selectedSubject);
      scores := newScores;
    }

    /** `handleScoreChange`. */
    method ScoreChange(studentId: string, f: Field, value: string)
      modifies this
      ensures scores == ScoresAfterChange(old(scores), studentId, f, value)
      ensures selectedClass == old(selectedClass) && selectedTerm == old(selectedTerm)
      ensures selectedSubject == old(selectedSubject) && searchTerm == old(searchTerm)
      ensures studentsForGrading == old(studentsForGrading) && allResults == old(allResults)
      ensures notification == old(notification)
    {
      scores := ScoresAfterChange(scores, studentId, f, value);
    }

    /**
     * `handleSaveRow` with a class and a term selected; `freshId` stands
     * for `crypto.randomUUID()`.
     */
    method SaveRow(studentId: string, freshId: string)
      modifies this
      ensures selectedClass == old(selectedClass) && selectedTerm == old(selectedTerm)
      ensures selectedSubject == old(selectedSubject) && searchTerm == old(searchTerm)
      ensures studentsForGrading == old(studentsForGrading) && scores == old(scores)
      ensures old(selectedClass).Sentinel? || old(selectedTerm).Sentinel? ==>
        allResults == old(allResults) && notification == old(notification)
      ensures old(selectedClass).Pick? && old(selectedTerm).Pick? ==>
        match SaveResult(studentsForGrading, scores, old(allResults),
                         selectedClass.value, selectedTerm.value, selectedSubject, studentId, freshId)
        case NotListed => allResults == old(allResults) && notification == old(notification)
        case NoScores => allResults == old(allResults) && notification == Some(Notice("Error", Error))
        case Saved(updated, _) => allResults == updated && notification == Some(Notice("Success", Success))
    {
      if selectedClass.Sentinel? || selectedTerm.Sentinel? {
        return;
      }
      var outcome := SaveResult(studentsForGrading, scores, allResults,
                                selectedClass.value, selectedTerm.value, selectedSubject, studentId, freshId);
      match outcome
      case NotListed =>
      case NoScores =>
        notification := Some(Notice("Error", Error));
      case Saved(updated, _) =>
        allResults := updated;
        notification := Some(Notice("Success", Success));
    }

    /** `filteredStudents`. */
    function Filtered(): seq<StudentRecord>
      reads this
    {
      FilteredStudents(studentsForGrading, searchTerm)
    }
  }
}
