/**
 * The exam bank page (pages/admin/questions.tsx): the session's exam list
 * filtered by class and subject search, ten to a page, with create, edit,
 * delete and publish/unpublish.
 */
module ExamBank {
  import opened Types
  import opened Lists
  import opened Text
  import opened Pagination
  import Auth

  /** `EXAMS_PER_PAGE`. */
  const ExamsPerPage: nat := 10

  /** `filteredExams`: the class drop-down admits the class and the subject contains the search term. */
  function FilteredExams(exams: seq<Exam>, selectedClass: Selection<ClassLevel>, searchTerm: string): (r: seq<Exam>)
    ensures forall e :: e in r <==>
      e in exams && Admits(selectedClass, e.classLevel) && MatchesSearch(e.subject, searchTerm)
    ensures IsSubsequence(r, exams)
  {
    Filter(exams, (e: Exam) => Admits(selectedClass, e.classLevel) && MatchesSearch(e.subject, searchTerm))
  }

  /** With "All Classes" and an empty search every exam is listed. */
  lemma NoFilterListsAll(exams: seq<Exam>)
    ensures FilteredExams(exams, Sentinel, "") == exams
  {
    forall i | 0 <= i < |exams| ensures MatchesSearch(exams[i].subject, "") {
      EmptySearchMatches(exams[i].subject);
    }
    FilterKeepsAll(exams, (e: Exam) => Admits(Sentinel, e.classLevel) && MatchesSearch(e.subject, ""));
  }

  /** `handleEditExam`: every exam with the edited exam's id becomes the edited exam. */
  function ExamsAfterEdit(exams: seq<Exam>, updated: Exam): (r: seq<Exam>)
    ensures |r| == |exams|
    ensures forall i :: 0 <= i < |exams| ==> r[i] == if exams[i].id == updated.id then updated else exams[i]
  {
    ReplaceWhere(exams, (e: Exam) => e.id == updated.id, updated)
  }

  /** `handleDeleteExam`: every exam with that id is removed, the rest keep their order. */
  function ExamsAfterDelete(exams: seq<Exam>, id: string): (r: seq<Exam>)
    ensures forall e :: e in r <==> e in exams && e.id != id
    ensures IsSubsequence(r, exams)
  {
    Filter(exams, (e: Exam) => e.id != id)
  }

  /** `handleStatusChange`: the given exam, with the new status, replaces every exam of its id. */
  function ExamsAfterStatusChange(exams: seq<Exam>, exam: Exam, isPublished: bool): (r: seq<Exam>)
    ensures |r| == |exams|
    ensures forall i :: 0 <= i < |exams| ==>
      r[i] == if exams[i].id == exam.id then exam.(status := if isPublished then Published else Draft) else exams[i]
  {
    ExamsAfterEdit(exams, exam.(status := if isPublished then Published else Draft))
  }

  /** Deleting an exam that was just added with a new id gives the old list back. */
  lemma DeleteUndoesAdd(exams: seq<Exam>, newExam: Exam)
    requires forall i :: 0 <= i < |exams| ==> exams[i].id != newExam.id
    ensures ExamsAfterDelete(Prepend(exams, newExam), newExam.id) == exams
  {
    var added := Prepend(exams, newExam);
    assert Filter(added, (e: Exam) => e.id != newExam.id) ==
           Filter(exams, (e: Exam) => e.id != newExam.id);
    FilterKeepsAll(exams, (e: Exam) => e.id != newExam.id);
  }

  /** Publishing and then unpublishing an exam leaves the same list as unpublishing it directly. */
  lemma StatusLastWins(exams: seq<Exam>, exam: Exam, first: bool, second: bool)
    ensures ExamsAfterStatusChange(ExamsAfterStatusChange(exams, exam, first), exam, second) == ExamsAfterStatusChange(exams, exam, second)
  {
  }

  /** Editing an exam whose id is not in the bank changes nothing. */
  lemma EditAbsentIsNoop(exams: seq<Exam>, updated: Exam)
    requires forall i :: 0 <= i < |exams| ==> exams[i].id != updated.id
    ensures ExamsAfterEdit(exams, updated) == exams
  {
    ReplaceWhereNoMatch(exams, (e: Exam) => e.id == updated.id, updated);
  }

  /**
   * The page's own state; the exam list itself is the session's `allExams`.
   */
  class ExamBankPage {
    const session: Auth.Session
    var selectedClass: Selection<ClassLevel>
    var searchTerm: string
    var currentPage: int
    var selectedExam: Option<Exam>
    var notification: Option<Notice>

    ghost predicate Valid()
      reads this, session
    {
      session.Valid() && currentPage >= 1
    }

    /** The list the table and the pager show. */
    function Filtered(): seq<Exam>
      reads this, session
    {
      FilteredExams(session.allExams, selectedClass, searchTerm)
    }

    /** The rows on the current page. */
    function Paginated(): seq<Exam>
      reads this, session
    {
      PageSlice(Filtered(), currentPage, ExamsPerPage)
    }

    constructor (s: Auth.Session)
      requires s.Valid()
      ensures Valid() && session == s
      ensures selectedClass == Sentinel && searchTerm == "" && currentPage == 1
      ensures selectedExam == None && notification == None
    {
      session := s;
      selectedClass := Sentinel;
      searchTerm := "";
      currentPage := 1;
      selectedExam := None;
      notification := None;
    }

    /** A new class or search term, with the effect that goes back to page 1. */
    method SetFilters(c: Selection<ClassLevel>, term: string)
      requires Valid()
      modifies this
      ensures Valid()
      ensures selectedClass == c && searchTerm == term && currentPage == 1
      ensures selectedExam == old(selectedExam) && notification == old(notification)
    {
      selectedClass := c;
      searchTerm := term;
      currentPage := 1;
    }

    /** The pager's `onPageChange`, reached through `handlePageChange`. */
    method PageChange(page: int)
      requires Valid()
      modifies this
      ensures Valid()
      ensures currentPage == if 1 <= page <= TotalPages(|Filtered()|, ExamsPerPage) then page else old(currentPage)
      ensures selectedClass == old(selectedClass) && searchTerm == old(searchTerm)
      ensures selectedExam == old(selectedExam) && notification == old(notification)
    {
      var target := HandlePageChange(page, TotalPages(|Filtered()|, ExamsPerPage));
      if target.Some? {
        currentPage := target.value;
      }
    }

    method AddExam(newExam: Exam)
      requires Valid()
      modifies this, session
      ensures Valid()
      ensures session.allExams == Prepend(old(session.allExams), newExam)
      ensures notification == Some(Notice("Success", Success))
      ensures session.user == old(session.user) && session.liveExams == old(session.liveExams)
      ensures session.loading == old(session.loading) && session.notification == old(session.notification)
      ensures selectedClass == old(selectedClass) && searchTerm == old(searchTerm) && currentPage == old(currentPage)
      ensures selectedExam == old(selectedExam)
    {
      session.allExams := Prepend(session.allExams, newExam);
      notification := Some(Notice("Success", Success));
    }

    method EditExam(updated: Exam)
      requires Valid()
      modifies this, session
      ensures Valid()
      ensures session.allExams == ExamsAfterEdit(old(session.allExams), updated)
      ensures notification == Some(Notice("Success", Success))
      ensures session.user == old(session.user) && session.liveExams == old(session.liveExams)
      ensures session.loading == old(session.loading) && session.notification == old(session.notification)
      ensures selectedClass == old(selectedClass) && searchTerm == old(searchTerm) && currentPage == old(currentPage)
      ensures selectedExam == old(selectedExam)
    {
      session.allExams := ExamsAfterEdit(session.allExams, updated);
      notification := Some(Notice("Success", Success));
    }

    /** `openDeleteModal`. */
    method OpenDelete(exam: Exam)
      requires Valid()
      modifies this
      ensures Valid()
      ensures selectedExam == Some(exam)
      ensures selectedClass == old(selectedClass) && searchTerm == old(searchTerm) && currentPage == old(currentPage)
      ensures notification == old(notification)
    {
      selectedExam := Some(exam);
    }

    /** `handleDeleteExam`: nothing without a selected exam; the page is not reset. */
    method DeleteExam()
      requires Valid()
      modifies this, session
      ensures Valid()
      ensures old(selectedExam).None? ==>
        session.allExams == old(session.allExams) && notification == old(notification) && selectedExam == None
      ensures old(selectedExam).Some? ==>
        session.allExams == ExamsAfterDelete(old(session.allExams), old(selectedExam).value.id) &&
        notification == Some(Notice("Success", Success)) && selectedExam == None
      ensures session.user == old(session.user) && session.liveExams == old(session.liveExams)
      ensures session.loading == old(session.loading) && session.notification == old(session.notification)
      ensures selectedClass == old(selectedClass) && searchTerm == old(searchTerm) && currentPage == old(currentPage)
    {
      if selectedExam.None? {
        return;
      }
      session.allExams := ExamsAfterDelete(session.allExams, selectedExam.value.id);
      notification := Some(Notice("Success", Success));
      selectedExam := None;
    }

    method StatusChange(exam: Exam, isPublished: bool)
      requires Valid()
      modifies this, session
      ensures Valid()
      ensures session.allExams == ExamsAfterStatusChange(old(session.allExams), exam, isPublished)
      ensures notification == Some(Notice("Status Updated", Success))
      ensures session.user == old(session.user) && session.liveExams == old(session.liveExams)
      ensures session.loading == old(session.loading) && session.notification == old(session.notification)
      ensures selectedClass == old(selectedClass) && searchTerm == old(searchTerm) && currentPage == old(currentPage)
      ensures selectedExam == old(selectedExam)
    {
      session.allExams := ExamsAfterStatusChange(session.allExams, exam, isPublished);
      notification := Some(Notice("Status Updated", Success));
    }
  }
}
