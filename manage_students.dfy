/**
 * The roster page (pages/admin/students.tsx): the page's own copy of the
 * roster, filtered by class and by name or registration number, ten to a
 * page, with add, edit and delete.
 */
module ManageStudents {
  import opened Types
  import opened Lists
  import opened Text
  import opened Pagination

  /** `STUDENTS_PER_PAGE`. */
  const StudentsPerPage: nat := 10

  /** A roster search hit: the name or the registration number contains the term. */
  predicate SearchHit(s: StudentRecord, searchTerm: string)
  {
    MatchesSearch(s.name, searchTerm) || MatchesSearch(s.regNo, searchTerm)
  }

  /** `filteredStudents`. */
  function FilteredStudents(students: seq<StudentRecord>, selectedClass: Selection<ClassLevel>, searchTerm: string): (r: seq<StudentRecord>)
    ensures forall s :: s in r <==> s in students && Admits(selectedClass, s.classLevel) && SearchHit(s, searchTerm)
    ensures IsSubsequence(r, students)
  {
    Filter(students, (s: StudentRecord) => Admits(selectedClass, s.classLevel) && SearchHit(s, searchTerm))
  }

  /** Picking one class lists a part of what "All Classes" lists for the same search. */
  lemma ClassNarrows(students: seq<StudentRecord>, c: ClassLevel, searchTerm: string)
    ensures forall s :: s in FilteredStudents(students, Pick(c), searchTerm) ==>
      s in FilteredStudents(students, Sentinel, searchTerm) && s.classLevel == c
  {
  }

  /** With "All Classes" and an empty search every student is listed. */
  lemma NoFilterListsAll(students: seq<StudentRecord>)
    ensures FilteredStudents(students, Sentinel, "") == students
  {
    forall i | 0 <= i < |students| ensures MatchesSearch(students[i].name, "") {
      EmptySearchMatches(students[i].name);
    }
    FilterKeepsAll(students, (s: StudentRecord) => Admits(Sentinel, s.classLevel) && SearchHit(s, ""));
  }

  /** `handleEditStudent`: every record with the edited id becomes the edited record. */
  function StudentsAfterEdit(students: seq<StudentRecord>, updated: StudentRecord): (r: seq<StudentRecord>)
    ensures |r| == |students|
    ensures forall i :: 0 <= i < |students| ==> r[i] == if students[i].id == updated.id then updated else students[i]
  {
    ReplaceWhere(students, (s: StudentRecord) => s.id == updated.id, updated)
  }

  /** `handleDeleteStudent`: every record with that id is removed. */
  function StudentsAfterDelete(students: seq<StudentRecord>, id: string): (r: seq<StudentRecord>)
    ensures forall s :: s in r <==> s in students && s.id != id
    ensures IsSubsequence(r, students)
  {
    Filter(students, (s: StudentRecord) => s.id != id)
  }

  /** Editing keeps every id where it was. */
  lemma EditKeepsIds(students: seq<StudentRecord>, updated: StudentRecord)
    ensures forall i :: 0 <= i < |students| ==> StudentsAfterEdit(students, updated)[i].id == students[i].id
  {
  }

  /** Deleting a student who was just added with a new id gives the old roster back. */
  lemma DeleteUndoesAdd(students: seq<StudentRecord>, newStudent: StudentRecord)
    requires forall i :: 0 <= i < |students| ==> students[i].id != newStudent.id
    ensures StudentsAfterDelete(Prepend(students, newStudent), newStudent.id) == students
  {
    var added := Prepend(students, newStudent);
    assert Filter(added, (s: StudentRecord) => s.id != newStudent.id) ==
           Filter(students, (s: StudentRecord) => s.id != newStudent.id);
    FilterKeepsAll(students, (s: StudentRecord) => s.id != newStudent.id);
  }

  class StudentsPage {
    var students: seq<StudentRecord>
    var selectedClass: Selection<ClassLevel>
    var searchTerm: string
    var currentPage: int
    var selectedStudent: Option<StudentRecord>
    var notification: Option<Notice>

    ghost predicate Valid()
      reads this
    {
      currentPage >= 1
    }

    function Filtered(): seq<StudentRecord>
      reads this
    {
      FilteredStudents(students, selectedClass, searchTerm)
    }

    function Paginated(): seq<StudentRecord>
      reads this
    {
      PageSlice(Filtered(), currentPage, StudentsPerPage)
    }

    /** `useState(DUMMY_DATA.allStudents)` and the other initial values. */
    constructor (roster: seq<StudentRecord>)
      ensures Valid()
      ensures students == roster && selectedClass == Sentinel && searchTerm == "" && currentPage == 1
      ensures selectedStudent == None && notification == None
    {
      students := roster;
      selectedClass := Sentinel;
      searchTerm := "";
      currentPage := 1;
      selectedStudent := None;
      notification := None;
    }

    /** A new class or search term, with the effect that goes back to page 1. */
    method SetFilters(c: Selection<ClassLevel>, term: string)
      requires Valid()
      modifies this
      ensures Valid()
      ensures selectedClass == c && searchTerm == term && currentPage == 1
      ensures students == old(students) && selectedStudent == old(selectedStudent) && notification == old(notification)
    {
      selectedClass := c;
      searchTerm := term;
      currentPage := 1;
    }

    /** The pager's `onPageChange`, reached through `handlePageChange`. */
    method PageChange(page: int)
      requires Valid()
      modifies this
      ensures Valid()
      ensures currentPage == if 1 <= page <= TotalPages(|Filtered()|, StudentsPerPage) then page else old(currentPage)
      ensures students == old(students) && selectedClass == old(selectedClass) && searchTerm == old(searchTerm)
      ensures selectedStudent == old(selectedStudent) && notification == old(notification)
    {
      var target := HandlePageChange(page, TotalPages(|Filtered()|, StudentsPerPage));
      if target.Some? {
        currentPage := target.value;
      }
    }

    method AddStudent(newStudent: StudentRecord)
      requires Valid()
      modifies this
      ensures Valid()
      ensures students == Prepend(old(students), newStudent)
      ensures notification == Some(Notice("Success", Success))
      ensures selectedClass == old(selectedClass) && searchTerm == old(searchTerm) && currentPage == old(currentPage)
      ensures selectedStudent == old(selectedStudent)
    {
      students := Prepend(students, newStudent);
      notification := Some(Notice("Success", Success));
    }

    method EditStudent(updated: StudentRecord)
      requires Valid()
      modifies this
      ensures Valid()
      ensures students == StudentsAfterEdit(old(students), updated)
      ensures notification == Some(Notice("Success", Success))
      ensures selectedClass == old(selectedClass) && searchTerm == old(searchTerm) && currentPage == old(currentPage)
      ensures selectedStudent == old(selectedStudent)
    {
      students := StudentsAfterEdit(students, updated);
      notification := Some(Notice("Success", Success));
    }

    /** `openDeleteModal`. */
    method OpenDelete(student: StudentRecord)
      requires Valid()
      modifies this
      ensures Valid()
      ensures selectedStudent == Some(student)
      ensures students == old(students) && selectedClass == old(selectedClass) && searchTerm == old(searchTerm)
      ensures currentPage == old(currentPage) && notification == old(notification)
    {
      selectedStudent := Some(student);
    }

    /** `handleDeleteStudent`: nothing without a selected student; the page is not reset. */
    method DeleteStudent()
      requires Valid()
      modifies this
      ensures Valid()
      ensures old(selectedStudent).None? ==>
        students == old(students) && notification == old(notification) && selectedStudent == None
      ensures old(selectedStudent).Some? ==>
        students == StudentsAfterDelete(old(students), old(selectedStudent).value.id) &&
        notification == Some(Notice("Success", Success)) && selectedStudent == None
      ensures selectedClass == old(selectedClass) && searchTerm == old(searchTerm) && currentPage == old(currentPage)
    {
      if selectedStudent.None? {
        return;
      }
      students := StudentsAfterDelete(students, selectedStudent.value.id);
      notification := Some(Notice("Success", Success));
      selectedStudent := None;
    }
  }
}
