/**
 * The student's own result page (pages/student/results.tsx): the result
 * list filtered by class and term.
 */
module StudentResults {
  import opened Types
  import opened Lists

  /**
   * `filteredResults`: the results the two drop-downs admit. Every recorded
   * result takes part, whoever the logged-in student is.
   */
  function FilteredResults(results: seq<ExamResult>, c: Selection<ClassLevel>, t: Selection<Term>): (r: seq<ExamResult>)
    ensures forall x :: x in r <==> x in results && Admits(c, x.classLevel) && Admits(t, x.term)
    ensures IsSubsequence(r, results)
  {
    Filter(results, (x: ExamResult) => Admits(c, x.classLevel) && Admits(t, x.term))
  }

  /** The page opens on "All Classes" and "All Results", which list everything. */
  lemma DefaultsListAll(results: seq<ExamResult>)
    ensures FilteredResults(results, Sentinel, Sentinel) == results
  {
    FilterKeepsAll(results, (x: ExamResult) => Admits(Sentinel, x.classLevel) && Admits(Sentinel, x.term));
  }

  /** Narrowing the term never lists a result that the wider term filter hides. */
  lemma TermNarrows(results: seq<ExamResult>, c: Selection<ClassLevel>, t: Term)
    ensures forall x :: x in FilteredResults(results, c, Pick(t)) ==> x in FilteredResults(results, c, Sentinel) && x.term == t
  {
  }
}
