/**
 * The go-live dialog (components/admin/GoLiveModal.tsx): which students of
 * the exam's class are ticked, and what confirming does to the live list.
 */
module GoLive {
  import opened Types
  import opened Lists

  /** `DUMMY_DATA.allStudents.filter(s => s.class === exam.class)`. */
  function StudentsInClass(students: seq<StudentRecord>, exam: Exam): (r: seq<StudentRecord>)
    ensures forall s :: s in r <==> s in students && s.classLevel == exam.classLevel
    ensures IsSubsequence(r, students)
  {
    Filter(students, (s: StudentRecord) => s.classLevel == exam.classLevel)
  }

  /** The ticked ids when the dialog opens: every student of the exam's class, in roster order. */
  function InitialSelection(students: seq<StudentRecord>, exam: Exam): (r: seq<string>)
    ensures forall id :: id in r <==>
      exists s :: s in students && s.classLevel == exam.classLevel && s.id == id
    ensures |r| == |StudentsInClass(students, exam)|
    ensures forall i :: 0 <= i < |r| ==> r[i] == StudentsInClass(students, exam)[i].id
  {
    var inClass := StudentsInClass(students, exam);
    var ids := seq(|inClass|, i requires 0 <= i < |inClass| => inClass[i].id);
    assert forall id :: id in ids ==> exists s :: s in inClass && s.id == id by {
      forall id | id in ids ensures exists s :: s in inClass && s.id == id {
        var i :| 0 <= i < |ids| && ids[i] == id;
        assert inClass[i] in inClass;
      }
    }
    assert forall s :: s in students && s.classLevel == exam.classLevel ==> s.id in ids by {
      forall s | s in students && s.classLevel == exam.classLevel ensures s.id in ids {
        var k :| 0 <= k < |students| && students[k] == s;
        assert s in inClass;
        var i :| 0 <= i < |inClass| && inClass[i] == s;
        assert ids[i] == s.id;
      }
    }
    ids
  }

  /** `handleToggleStudent`: untick a ticked id (every copy), tick an unticked one at the end. */
  function Toggle(ids: seq<string>, id: string): (r: seq<string>)
    ensures forall x :: x in r <==> if x == id then id !in ids else x in ids
    ensures id !in ids ==> r == ids + [id]
    ensures id in ids ==> IsSubsequence(r, ids) && |r| == |ids| - multiset(ids)[id]
  {
    if id in ids then
      FilterOutLength(ids, (x: string) => x != id, id);
      Filter(ids, (x: string) => x != id)
    else ids + [id]
  }

  /** Toggling the same student twice restores who is ticked. */
  lemma ToggleTwice(ids: seq<string>, id: string)
    ensures forall x :: x in Toggle(Toggle(ids, id), id) <==> x in ids
  {
  }

  /** Toggling never ticks a student twice. */
  lemma ToggleKeepsNoDuplicates(ids: seq<string>, id: string)
    requires NoDuplicates(ids)
    ensures NoDuplicates(Toggle(ids, id))
  {
    if id in ids {
      FilterNoDuplicates(ids, (x: string) => x != id);
    }
  }

  /** The dialog opens without repeats when the roster's ids are distinct. */
  lemma InitialSelectionNoDuplicates(students: seq<StudentRecord>, exam: Exam)
    requires forall i, j :: 0 <= i < j < |students| ==> students[i].id != students[j].id
    ensures NoDuplicates(InitialSelection(students, exam))
  {
    DistinctIdsInClass(students, exam);
  }

  lemma {:induction false} DistinctIdsInClass(students: seq<StudentRecord>, exam: Exam)
    requires forall i, j :: 0 <= i < j < |students| ==> students[i].id != students[j].id
    ensures var r := StudentsInClass(students, exam);
            forall i, j :: 0 <= i < j < |r| ==> r[i].id != r[j].id
  {
    if students != [] {
      var first, rest := students[0], students[1..];
      DistinctIdsInClass(rest, exam);
      var fr := StudentsInClass(rest, exam);
      if first.classLevel == exam.classLevel {
        var r := StudentsInClass(students, exam);
        assert r == [first] + fr;
        assert forall x :: x in rest ==> x.id != first.id by {
          forall x | x in rest ensures x.id != first.id {
            var k :| 0 <= k < |rest| && rest[k] == x;
            assert students[k + 1] == x;
          }
        }
        assert forall j :: 0 <= j < |fr| ==> fr[j] in rest;
      }
    }
  }

  /** What `handleConfirmGoLive` produces. */
  datatype GoLiveResult = GoLiveResult(liveExams: seq<Exam>, notice: Notice, studentCount: nat)

  /**
   * `handleConfirmGoLive`: the exam goes to the end of the live list,
   * without a duplicate check; the ticked ids only feed the notification's
   * count and are not stored.
   */
  function ConfirmGoLive(liveExams: seq<Exam>, exam: Exam, selected: seq<string>): (r: GoLiveResult)
    ensures |r.liveExams| == |liveExams| + 1
    ensures r.liveExams[..|liveExams|] == liveExams && r.liveExams[|liveExams|] == exam
    ensures r.notice == Notice("Exam is LIVE!", Success) && r.studentCount == |selected|
  {
    GoLiveResult(liveExams + [exam], Notice("Exam is LIVE!", Success), |selected|)
  }

  /** Going live twice lists the exam twice. */
  lemma GoLiveTwiceDuplicates(liveExams: seq<Exam>, exam: Exam, selected: seq<string>)
    ensures var twice := ConfirmGoLive(ConfirmGoLive(liveExams, exam, selected).liveExams, exam, selected).liveExams;
            |twice| == |liveExams| + 2 && twice[|liveExams|] == twice[|liveExams| + 1] == exam
  {
  }

  /** The live list does not depend on who was ticked. */
  lemma SelectionNotStored(liveExams: seq<Exam>, exam: Exam, a: seq<string>, b: seq<string>)
    ensures ConfirmGoLive(liveExams, exam, a).liveExams == ConfirmGoLive(liveExams, exam, b).liveExams
  {
  }
}
