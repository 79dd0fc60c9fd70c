/**
 * The single-section objective exam (pages/student/exam.tsx): start,
 * answer, navigate, and a submit that grades by exact string equality and
 * runs at most once, whether a click or the five-minute timer calls it.
 */
module ExamPage {
  import opened Types
  import opened QuestionNav
  import opened Countdown

  /** `EXAM_DURATION_SECONDS`. */
  const ExamDurationSeconds: nat := 5 * 60

  /** `currentAnswers[q.id] === q.correct`: an unanswered question is wrong. */
  predicate IsCorrect(q: Question, answers: map<int, string>): (ok: bool)
    ensures q.id !in answers ==> !ok
    ensures ok ==> Displayed(answers, q.id) == q.correct
  {
    q.id in answers && answers[q.id] == q.correct
  }

  /** How many of `qs` are answered correctly. */
  function NumCorrect(qs: seq<Question>, answers: map<int, string>): (n: nat)
    ensures n <= |qs|
  {
    if qs == [] then 0
    else NumCorrect(qs[..|qs| - 1], answers) + if IsCorrect(qs[|qs| - 1], answers) then 1 else 0
  }

  /** Full marks exactly when every question is answered correctly. */
  lemma {:induction false} FullMarksIff(qs: seq<Question>, answers: map<int, string>)
    ensures NumCorrect(qs, answers) == |qs| <==> forall i :: 0 <= i < |qs| ==> IsCorrect(qs[i], answers)
  {
    if qs != [] {
      var init := qs[..|qs| - 1];
      FullMarksIff(init, answers);
      if forall i :: 0 <= i < |qs| ==> IsCorrect(qs[i], answers) {
        assert forall i :: 0 <= i < |init| ==> IsCorrect(init[i], answers) by {
          forall i | 0 <= i < |init| ensures IsCorrect(init[i], answers) {
            assert init[i] == qs[i];
          }
        }
      }
    }
  }

  /** No marks exactly when no question is answered correctly. */
  lemma {:induction false} NoMarksIff(qs: seq<Question>, answers: map<int, string>)
    ensures NumCorrect(qs, answers) == 0 <==> forall i :: 0 <= i < |qs| ==> !IsCorrect(qs[i], answers)
  {
    if qs != [] {
      var init := qs[..|qs| - 1];
      NoMarksIff(init, answers);
      if forall i :: 0 <= i < |qs| ==> !IsCorrect(qs[i], answers) {
        assert forall i :: 0 <= i < |init| ==> !IsCorrect(init[i], answers) by {
          forall i | 0 <= i < |init| ensures !IsCorrect(init[i], answers) {
            assert init[i] == qs[i];
          }
        }
      }
    }
  }

  /** The grading loop of `handleSubmit`: `correctCount++` per correct answer. */
  method CountCorrect(qs: seq<Question>, answers: map<int, string>) returns (correctCount: nat)
    ensures correctCount == NumCorrect(qs, answers)
    ensures correctCount <= |qs|
  {
    correctCount := 0;
    for i := 0 to |qs|
      invariant correctCount == NumCorrect(qs[..i], answers)
    {
      assert qs[..i + 1][..i] == qs[..i];
      if qs[i].id in answers && answers[qs[i].id] == qs[i].correct {
        correctCount := correctCount + 1;
      }
    }
    assert qs[..|qs|] == qs;
  }

  datatype Score = Score(correct: nat, total: nat)

  /** The page's flags and score, the part `handleSubmit` writes. */
  datatype Outcome = Outcome(examStarted: bool, examFinished: bool, score: Score)

  /** `handleSubmit`: once finished, nothing; otherwise grade and finish. */
  function SubmitStep(o: Outcome, qs: seq<Question>, answers: map<int, string>): (r: Outcome)
    ensures r.examFinished
    ensures o.examFinished ==> r == o
    ensures !o.examFinished ==> r == Outcome(false, true, Score(NumCorrect(qs, answers), |qs|))
  {
    if o.examFinished then o else Outcome(false, true, Score(NumCorrect(qs, answers), |qs|))
  }

  /** A second submit leaves the score of the first. */
  lemma SubmitIdempotent(o: Outcome, qs: seq<Question>, answers: map<int, string>, later: map<int, string>)
    ensures SubmitStep(SubmitStep(o, qs, answers), qs, later) == SubmitStep(o, qs, answers)
  {
  }

  /** The score of a first submit is a valid fraction of the questions. */
  lemma SubmitScoreBounded(o: Outcome, qs: seq<Question>, answers: map<int, string>)
    requires !o.examFinished
    ensures SubmitStep(o, qs, answers).score.correct <= SubmitStep(o, qs, answers).score.total == |qs|
  {
  }

  class ExamSession {
    /** The objective questions; their source in the data is not part of this model. */
    const questions: seq<Question>
    const timer: Timer
    var examStarted: bool
    var examFinished: bool
    var index: nat
    var answers: map<int, string>
    var score: Score

    ghost predicate Valid()
      reads this, timer
    {
      timer.Valid() && timer.duration == ExamDurationSeconds &&
      InRange(index, |questions|) && score.correct <= score.total
    }

    function State(): Outcome
      reads this
    {
      Outcome(examStarted, examFinished, score)
    }

    constructor (qs: seq<Question>)
      ensures Valid() && fresh(timer)
      ensures questions == qs && !examStarted && !examFinished
      ensures index == 0 && answers == map[] && score == Score(0, 0)
      ensures timer.secondsLeft == ExamDurationSeconds && timer.timeUpCalls == 0
    {
      questions := qs;
      timer := new Timer(ExamDurationSeconds);
      examStarted := false;
      examFinished := false;
      index := 0;
      answers := map[];
      score := Score(0, 0);
    }

    /** `handleSubmit`. */
    method Submit()
      requires Valid()
      modifies this
      ensures Valid()
      ensures State() == SubmitStep(old(State()), questions, old(answers))
      ensures index == old(index) && answers == old(answers)
    {
      if examFinished {
        return;
      }
      var correctCount := CountCorrect(questions, answers);
      score := Score(correctCount, |questions|);
      examStarted := false;
      examFinished := true;
    }

    /** `handleStartExam`: a clean start; the score and the timer are left alone. */
    method Start()
      requires Valid()
      modifies this
      ensures Valid()
      ensures examStarted && !examFinished && index == 0 && answers == map[]
      ensures score == old(score)
    {
      examStarted := true;
      examFinished := false;
      index := 0;
      answers := map[];
    }

    /** `handleSelectAnswer`. */
    method SelectAnswer(questionId: int, option: string)
      requires Valid()
      modifies this
      ensures Valid()
      ensures answers == SetAnswer(old(answers), questionId, option)
      ensures State() == old(State()) && index == old(index)
    {
      answers := answers[questionId := option];
    }

    /** `handleNext`. */
    method Next()
      requires Valid()
      modifies this
      ensures Valid()
      ensures index == NextIndex(old(index), |questions|)
      ensures State() == old(State()) && answers == old(answers)
    {
      if index < |questions| - 1 {
        index := index + 1;
      }
    }

    /** `handleBack`. */
    method Back()
      requires Valid()
      modifies this
      ensures Valid()
      ensures index == BackIndex(old(index))
      ensures State() == old(State()) && answers == old(answers)
    {
      if index > 0 {
        index := index - 1;
      }
    }

    /** One second of the never-paused five-minute timer; expiry submits. */
    method ClockTick() returns (timeUp: bool)
      requires Valid()
      modifies this, timer
      ensures Valid()
      ensures timer.secondsLeft == TickStep(old(timer.secondsLeft), false).left
      ensures timeUp == TickStep(old(timer.secondsLeft), false).timeUp
      ensures timer.timeUpCalls == old(timer.timeUpCalls) + if timeUp then 1 else 0
      ensures State() == if timeUp then SubmitStep(old(State()), questions, old(answers)) else old(State())
      ensures index == old(index) && answers == old(answers)
    {
      timeUp := timer.Tick(false);
      if timeUp {
        Submit();
      }
    }
  }
}
