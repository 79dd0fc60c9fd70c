/**
 * The student dashboard (pages/student/dashboard.tsx): which live exams a
 * student sees, and the quick statistics of idle mode.
 */
module Dashboard {
  import opened Types
  import opened Lists

  /** `myLiveExams`: the live exams of the student's class; nothing for no user or an admin. */
  function MyLiveExams(user: Option<User>, liveExams: seq<Exam>): (r: seq<Exam>)
    ensures !(user.Some? && user.value.StudentUser?) ==> r == []
    ensures user.Some? && user.value.StudentUser? ==>
      (forall e :: e in r <==> e in liveExams && e.classLevel == user.value.student.classLevel) &&
      (forall e :: multiset(r)[e] ==
         if e.classLevel == user.value.student.classLevel then multiset(liveExams)[e] else 0) &&
      IsSubsequence(r, liveExams)
  {
    match user
    case Some(StudentUser(s)) =>
      FilterCounts(liveExams, (e: Exam) => e.classLevel == s.classLevel);
      Filter(liveExams, (e: Exam) => e.classLevel == s.classLevel)
    case _ => []
  }

  /** Exam mode (`myLiveExams.length > 0`) exactly when a live exam is for the student's class. */
  lemma ExamModeIff(s: Student, liveExams: seq<Exam>)
    ensures |MyLiveExams(Some(StudentUser(s)), liveExams)| > 0 <==>
      exists i :: 0 <= i < |liveExams| && liveExams[i].classLevel == s.classLevel
  {
    var r := MyLiveExams(Some(StudentUser(s)), liveExams);
    if |r| > 0 {
      assert r[0] in r;
    }
  }

  /**
   * Once an exam goes live every student of its class sees it: the ticked
   * ids of the go-live dialog are not consulted here.
   */
  lemma ClassmatesSeeLiveExam(s: Student, liveExams: seq<Exam>, e: Exam)
    requires e.classLevel == s.classLevel
    ensures e in MyLiveExams(Some(StudentUser(s)), liveExams + [e])
  {
    assert (liveExams + [e])[|liveExams|] == e;
  }

  /** The idle-mode statistics: the most recent result and how many there are. */
  datatype Stats = Stats(lastResult: Option<ExamResult>, totalExams: nat)

  /**
   * The statistics effect for a student: the last entry and the length of
   * the whole result list (not only this student's results); an empty list
   * keeps the initial `null` and 0.
   */
  function QuickStats(user: Option<User>, allResults: seq<ExamResult>): (r: Stats)
    ensures r.lastResult.None? <==> !(user.Some? && user.value.StudentUser?) || allResults == []
    ensures r.lastResult.Some? ==> r.lastResult.value == allResults[|allResults| - 1] && r.totalExams == |allResults|
    ensures r.lastResult.None? ==> r.totalExams == 0
  {
    if user.Some? && user.value.StudentUser? && |allResults| > 0 then
      Stats(Some(allResults[|allResults| - 1]), |allResults|)
    else
      Stats(None, 0)
  }
}
