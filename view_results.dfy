/**
 * The admin's result browser (pages/admin/results.tsx): every recorded
 * result joined with its student's name and registration number, filtered
 * by class, term, subject and search, fifteen to a page.
 */
module ViewResults {
  import opened Types
  import opened Lists
  import opened Text
  import opened Pagination

  /** `RESULTS_PER_PAGE`. */
  const ResultsPerPage: nat := 15

  /** A result with the name and registration number the table shows. */
  datatype JoinedResult = JoinedResult(result: ExamResult, studentName: string, regNo: string)

  /** The join of one result: its student's name and number, or 'Unknown' and 'N/A'. */
  function JoinOne(students: seq<StudentRecord>, result: ExamResult): (j: JoinedResult)
    ensures j.result == result
    ensures (forall i :: 0 <= i < |students| ==> students[i].id != result.studentId) ==>
      j.studentName == "Unknown" && j.regNo == "N/A"
    ensures (exists i :: 0 <= i < |students| && students[i].id == result.studentId) ==>
      exists i :: 0 <= i < |students| && students[i].id == result.studentId &&
        j.studentName == students[i].name && j.regNo == students[i].regNo &&
        forall k :: 0 <= k < i ==> students[k].id != result.studentId
  {
    match Find(students, (s: StudentRecord) => s.id == result.studentId)
    case Some(s) => JoinedResult(result, s.name, s.regNo)
    case None => JoinedResult(result, "Unknown", "N/A")
  }

  /** `joinedResults`: one joined row per result, in the same order. */
  function Join(results: seq<ExamResult>, students: seq<StudentRecord>): (r: seq<JoinedResult>)
    ensures |r| == |results|
    ensures forall i :: 0 <= i < |results| ==> r[i] == JoinOne(students, results[i])
  {
    seq(|results|, i requires 0 <= i < |results| => JoinOne(students, results[i]))
  }

  /** The four conditions of the filter. */
  predicate Keep(j: JoinedResult, c: Selection<ClassLevel>, t: Selection<Term>, subject: Selection<string>, searchTerm: string)
  {
    Admits(c, j.result.classLevel) && Admits(t, j.result.term) && Admits(subject, j.result.subject) &&
    (MatchesSearch(j.studentName, searchTerm) || MatchesSearch(j.regNo, searchTerm))
  }

  /** `filteredResults`. */
  function FilteredResults(results: seq<ExamResult>, students: seq<StudentRecord>,
                           c: Selection<ClassLevel>, t: Selection<Term>, subject: Selection<string>, searchTerm: string): (r: seq<JoinedResult>)
    ensures forall j :: j in r <==> j in Join(results, students) && Keep(j, c, t, subject, searchTerm)
    ensures IsSubsequence(r, Join(results, students))
  {
    Filter(Join(results, students), (j: JoinedResult) => Keep(j, c, t, subject, searchTerm))
  }

  /** With every drop-down on its "All ..." entry and no search, every result is listed. */
  lemma NoFilterListsAll(results: seq<ExamResult>, students: seq<StudentRecord>)
    ensures FilteredResults(results, students, Sentinel, Sentinel, Sentinel, "") == Join(results, students)
    ensures |FilteredResults(results, students, Sentinel, Sentinel, Sentinel, "")| == |results|
  {
    var joined := Join(results, students);
    forall i | 0 <= i < |joined| ensures MatchesSearch(joined[i].studentName, "") {
      EmptySearchMatches(joined[i].studentName);
    }
    FilterKeepsAll(joined, (j: JoinedResult) => Keep(j, Sentinel, Sentinel, Sentinel, ""));
  }

  /** A listed result satisfies every selected value. */
  lemma ListedMatchesSelection(results: seq<ExamResult>, students: seq<StudentRecord>,
                               c: ClassLevel, t: Term, subject: string, searchTerm: string)
    ensures forall j :: j in FilteredResults(results, students, Pick(c), Pick(t), Pick(subject), searchTerm) ==>
      j.result in results && j.result.classLevel == c && j.result.term == t && j.result.subject == subject
  {
    var joined := Join(results, students);
    forall j | j in joined ensures j.result in results {
      var i :| 0 <= i < |joined| && joined[i] == j;
    }
  }

  class ResultsView {
    const results: seq<ExamResult>
    const students: seq<StudentRecord>
    var selectedClass: Selection<ClassLevel>
    var selectedTerm: Selection<Term>
    var selectedSubject: Selection<string>
    var searchTerm: string
    var currentPage: int

    /**
     * The current page is always one the pager can reach: page 1, or a
     * page in bounds for the filtered list.
     */
    ghost predicate Valid()
      reads this
    {
      currentPage == 1 || 1 <= currentPage <= TotalPages(|Filtered()|, ResultsPerPage)
    }

    function Filtered(): seq<JoinedResult>
      reads this
    {
      FilteredResults(results, students, selectedClass, selectedTerm, selectedSubject, searchTerm)
    }

    /** `paginatedResults`. */
    function Paginated(): seq<JoinedResult>
      reads this
    {
      PageSlice(Filtered(), currentPage, ResultsPerPage)
    }

    /** The page over `DUMMY_DATA.studentResults` and `DUMMY_DATA.allStudents`. */
    constructor (allResults: seq<ExamResult>, allStudents: seq<StudentRecord>)
      ensures Valid()
      ensures results == allResults && students == allStudents
      ensures selectedClass == Sentinel && selectedTerm == Sentinel && selectedSubject == Sentinel
      ensures searchTerm == "" && currentPage == 1
    {
      results := allResults;
      students := allStudents;
      selectedClass := Sentinel;
      selectedTerm := Sentinel;
      selectedSubject := Sentinel;
      searchTerm := "";
      currentPage := 1;
    }

    /** New filter values, with the effect that goes back to page 1. */
    method SetFilters(c: Selection<ClassLevel>, t: Selection<Term>, subject: Selection<string>, term: string)
      requires Valid()
      modifies this
      ensures Valid()
      ensures selectedClass == c && selectedTerm == t && selectedSubject == subject && searchTerm == term
      ensures currentPage == 1
    {
      selectedClass := c;
      selectedTerm := t;
      selectedSubject := subject;
      searchTerm := term;
      currentPage := 1;
    }

    /** The pager's `onPageChange`, reached through `handlePageChange`. */
    method PageChange(page: int)
      requires Valid()
      modifies this
      ensures Valid()
      ensures currentPage == if 1 <= page <= TotalPages(|Filtered()|, ResultsPerPage) then page else old(currentPage)
      ensures selectedClass == old(selectedClass) && selectedTerm == old(selectedTerm)
      ensures selectedSubject == old(selectedSubject) && searchTerm == old(searchTerm)
    {
      var target := HandlePageChange(page, TotalPages(|Filtered()|, ResultsPerPage));
      if target.Some? {
        currentPage := target.value;
      }
    }
  }

  /** In a reachable state past page 1 the rows shown are never empty. */
  lemma ShownPageNonEmpty(v: ResultsView)
    requires v.Valid() && v.currentPage > 1
    ensures |v.Paginated()| >= 1
  {
    InBoundsPageNonEmpty(v.Filtered(), ResultsPerPage, v.currentPage);
  }
}
