/**
 * The admin's live-exam control panel (components/admin/LiveExamControl.tsx):
 * which published exams still await going live, and stopping a live exam.
 */
module LiveControl {
  import opened Types
  import opened Lists

  /** `liveExams.some(live => live.id === id)`. */
  predicate IsLive(liveExams: seq<Exam>, id: string)
  {
    exists i :: 0 <= i < |liveExams| && liveExams[i].id == id
  }

  /** The awaiting list's filter: published and not live under the same id. */
  predicate AwaitsGoLive(liveExams: seq<Exam>, e: Exam)
  {
    e.status == Published && !IsLive(liveExams, e.id)
  }

  /** `publishedExams`: the bank's awaiting exams, in bank order. */
  function Awaiting(bank: seq<Exam>, liveExams: seq<Exam>): (r: seq<Exam>)
    ensures forall e :: e in r <==> e in bank && AwaitsGoLive(liveExams, e)
    ensures IsSubsequence(r, bank)
  {
    Filter(bank, (e: Exam) => AwaitsGoLive(liveExams, e))
  }

  /** An exam is never both live and awaiting. */
  lemma AwaitingDisjointFromLive(bank: seq<Exam>, liveExams: seq<Exam>)
    ensures forall i, j :: 0 <= i < |Awaiting(bank, liveExams)| && 0 <= j < |liveExams| ==>
      Awaiting(bank, liveExams)[i].id != liveExams[j].id
  {
  }

  /** `handleStopLive`: drop every live exam with the stopped exam's id. */
  function StopLive(liveExams: seq<Exam>, id: string): (r: seq<Exam>)
    ensures !IsLive(r, id)
    ensures forall e :: e in r <==> e in liveExams && e.id != id
    ensures forall e :: multiset(r)[e] == if e.id == id then 0 else multiset(liveExams)[e]
    ensures IsSubsequence(r, liveExams)
  {
    FilterCounts(liveExams, (e: Exam) => e.id != id);
    Filter(liveExams, (e: Exam) => e.id != id)
  }

  /** Stopping an exam that is not live changes nothing. */
  lemma StopNotLiveIsNoop(liveExams: seq<Exam>, id: string)
    requires !IsLive(liveExams, id)
    ensures StopLive(liveExams, id) == liveExams
  {
    FilterKeepsAll(liveExams, (e: Exam) => e.id != id);
  }

  /** Going live removes a published exam from the awaiting list. */
  lemma GoLiveLeavesAwaiting(bank: seq<Exam>, liveExams: seq<Exam>, e: Exam)
    ensures e !in Awaiting(bank, liveExams + [e])
  {
    assert (liveExams + [e])[|liveExams|] == e;
  }

  /** After a stop, a published bank exam with that id awaits going live again. */
  lemma StopReturnsToAwaiting(bank: seq<Exam>, liveExams: seq<Exam>, e: Exam)
    requires e in bank && e.status == Published
    ensures e in Awaiting(bank, StopLive(liveExams, e.id))
  {
  }
}
