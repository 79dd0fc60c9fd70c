/**
 * One student's attempt at a live exam (pages/student/take-exam.tsx): the
 * Fisher-Yates shuffle of the objective questions, the exam lookup, the
 * objective phase with its navigation and answers, and the countdown whose
 * expiry submits the objectives.
 */
module TakeExam {
  import opened Types
  import opened Lists
  import opened QuestionNav
  import opened Countdown

  // ----- Fisher-Yates shuffle -------------------------------------------

  /**
   * The random draws of one shuffle: at the k-th turn of the loop the
   * unshuffled prefix has `n - k` elements and `Math.floor(Math.random() *
   * currentIndex)` picks one of them.
   */
  predicate ValidChoices(choices: seq<nat>, n: nat)
  {
    |choices| == n && forall k :: 0 <= k < n ==> choices[k] < n - k
  }

  /** `[array[i], array[j]] = [array[j], array[i]]`. */
  function Swap<T>(s: seq<T>, i: nat, j: nat): (r: seq<T>)
    requires i < |s| && j < |s|
    ensures |r| == |s|
  {
    s[i := s[j]][j := s[i]]
  }

  /** A swap moves elements and loses none. */
  lemma SwapPermutes<T>(s: seq<T>, i: nat, j: nat)
    requires i < |s| && j < |s|
    ensures multiset(Swap(s, i, j)) == multiset(s)
  {
  }

  /**
   * The turns of the shuffle loop from the `k`-th on, applied to `cur`: turn
   * `k` swaps the last unshuffled position `|cur| - 1 - k` with the drawn
   * `choices[k]`.
   */
  function ShuffleFrom<T>(cur: seq<T>, choices: seq<nat>, k: nat): (r: seq<T>)
    requires k <= |cur| && ValidChoices(choices, |cur|)
    ensures |r| == |cur|
    decreases |cur| - k
  {
    if k == |cur| then cur
    else ShuffleFrom(Swap(cur, |cur| - 1 - k, choices[k]), choices, k + 1)
  }

  /** Every turn keeps the same elements, so the remaining turns do too. */
  lemma {:induction false} ShuffleFromPermutes<T>(cur: seq<T>, choices: seq<nat>, k: nat)
    requires k <= |cur| && ValidChoices(choices, |cur|)
    ensures multiset(ShuffleFrom(cur, choices, k)) == multiset(cur)
    decreases |cur| - k
  {
    if k < |cur| {
      var next := Swap(cur, |cur| - 1 - k, choices[k]);
      SwapPermutes(cur, |cur| - 1 - k, choices[k]);
      ShuffleFromPermutes(next, choices, k + 1);
      assert ShuffleFrom(cur, choices, k) == ShuffleFrom(next, choices, k + 1);
    }
  }

  /** The shuffled list: every turn done, from the first. */
  function Shuffled<T>(s: seq<T>, choices: seq<nat>): (r: seq<T>)
    requires ValidChoices(choices, |s|)
    ensures |r| == |s|
  {
    ShuffleFrom(s, choices, 0)
  }

  /** A shuffle is a permutation: the same length and the same elements, each as often. */
  lemma ShuffledIsPermutation<T>(s: seq<T>, choices: seq<nat>)
    requires ValidChoices(choices, |s|)
    ensures |Shuffled(s, choices)| == |s|
    ensures multiset(Shuffled(s, choices)) == multiset(s)
    ensures forall x :: x in s <==> x in Shuffled(s, choices)
  {
    var r := Shuffled(s, choices);
    ShuffleFromPermutes(s, choices, 0);
    forall x
      ensures x in s <==> x in r
    {
      assert x in s <==> x in multiset(s);
      assert x in r <==> x in multiset(r);
    }
  }

  /** `shuffleArray`: the loop counting `currentIndex` down, swapping in place. */
  method ShuffleInPlace<T>(a: array<T>, choices: seq<nat>)
    requires ValidChoices(choices, a.Length)
    modifies a
    ensures a[..] == Shuffled(old(a[..]), choices)
  {
    ghost var original := a[..];
    var currentIndex := a.Length;
    while currentIndex != 0
      invariant 0 <= currentIndex <= a.Length
      invariant ShuffleFrom(a[..], choices, a.Length - currentIndex) == Shuffled(original, choices)
    {
      ghost var before := a[..];
      var randomIndex := choices[a.Length - currentIndex];
      currentIndex := currentIndex - 1;
      // The right-hand side is read in full before either cell is written.
      var picked, current := a[randomIndex], a[currentIndex];
      a[currentIndex] := picked;
      a[randomIndex] := current;
      assert a[..] == Swap(before, currentIndex, randomIndex);
    }
  }

  /** `shuffleArray([...questions])`: shuffles a copy and leaves `s` itself alone. */
  method ShuffledCopy<T>(s: seq<T>, choices: seq<nat>) returns (r: seq<T>)
    requires ValidChoices(choices, |s|)
    ensures r == Shuffled(s, choices)
    ensures |r| == |s| && multiset(r) == multiset(s)
  {
    var a := new T[|s|](i requires 0 <= i < |s| => s[i]);
    assert a[..] == s;
    ShuffleInPlace(a, choices);
    r := a[..];
    ShuffledIsPermutation(s, choices);
  }

  // ----- Phases -----------------------------------------------------------

  datatype Phase = Objectives | Checkpoint | Theory

  /** The two fields `submitObjectives` writes. */
  datatype Progress = Progress(phase: Phase, timerPaused: bool)

  /** `submitObjectives`: lock the objectives and pause the timer, once. */
  function SubmitStep(p: Progress): (r: Progress)
    ensures r.phase != Objectives
    ensures p.phase == Objectives ==> r == Progress(Checkpoint, true)
    ensures p.phase != Objectives ==> r == p
  {
    if p.phase != Objectives then p else Progress(Checkpoint, true)
  }

  /** A second submit, whether a click or a timer expiry, changes nothing. */
  lemma SubmitIdempotent(p: Progress)
    ensures SubmitStep(SubmitStep(p)) == SubmitStep(p)
  {
  }

  /** `exam ? exam.durationMinutes * 60 : 0`. */
  function ExamDuration(exam: Option<Exam>): (seconds: nat)
    ensures seconds % 60 == 0
    ensures seconds / 60 == if exam.Some? then exam.value.durationMinutes else 0
  {
    if exam.Some? then exam.value.durationMinutes * 60 else 0
  }

  /** `DUMMY_DATA.allExamBank.find(e => e.id === id)`. */
  function FindExam(bank: seq<Exam>, id: string): (r: Option<Exam>)
    ensures r.Some? ==> r.value in bank && r.value.id == id
    ensures r.None? <==> forall i :: 0 <= i < |bank| ==> bank[i].id != id
  {
    Find(bank, (e: Exam) => e.id == id)
  }

  /** What the loading effect does with the link. */
  datatype LoadOutcome =
    | Loaded
      /** 'Invalid or missing exam link.' as an error, and a redirect to the dashboard. */
    | InvalidLink(notice: Notice, redirect: string)

  /** The attempt page's state, with the countdown hook it drives. */
  class Attempt {
    const timer: Timer
    var exam: Option<Exam>
    var isLoading: bool
    var phase: Phase
    var timerPaused: bool
    var index: nat
    var answers: map<int, string>
    var shuffled: seq<Question>

    ghost predicate Valid()
      reads this, timer
    {
      && timer.Valid()
      && timer.duration == ExamDuration(exam)
      && InRange(index, |shuffled|)
      && (phase != Objectives ==> timerPaused)
      && (isLoading ==> exam.None? && shuffled == [] && index == 0)
    }

    /** The `paused` argument the page passes to the timer. */
    function TimerPausedFlag(): bool
      reads this
    {
      isLoading || timerPaused
    }

    /** A fresh page: loading, nothing shuffled, the timer at `examDuration` 0. */
    constructor ()
      ensures Valid() && fresh(timer)
      ensures exam.None? && isLoading && phase == Objectives && !timerPaused
      ensures index == 0 && answers == map[] && shuffled == []
      ensures timer.secondsLeft == 0 && timer.timeUpCalls == 0
    {
      timer := new Timer(0);
      exam := None;
      isLoading := true;
      phase := Objectives;
      timerPaused := false;
      index := 0;
      answers := map[];
      shuffled := [];
    }

    /**
     * The loading effect: look the link's id up in the bank; if found,
     * shuffle a copy of its objective questions, otherwise report the bad
     * link. Either way loading ends and the timer takes the exam's duration.
     */
    method Load(bank: seq<Exam>, id: string, choices: seq<nat>) returns (outcome: LoadOutcome)
      requires Valid() && isLoading
      requires FindExam(bank, id).Some? ==>
                 ValidChoices(choices, |FindExam(bank, id).value.objectiveQuestions|)
      modifies this, timer
      ensures Valid() && !isLoading
      ensures exam == FindExam(bank, id)
      ensures outcome.InvalidLink? <==> exam.None?
      ensures outcome.InvalidLink? ==>
                outcome == InvalidLink(Notice("Error", Error), "/student/dashboard") && shuffled == []
      ensures exam.Some? ==> shuffled == Shuffled(exam.value.objectiveQuestions, choices)
      ensures exam.Some? ==> multiset(shuffled) == multiset(exam.value.objectiveQuestions)
      ensures phase == old(phase) && timerPaused == old(timerPaused)
      ensures index == old(index) && answers == old(answers)
      ensures timer.secondsLeft == ExamDuration(exam) && timer.timeUpCalls == old(timer.timeUpCalls)
    {
      var found := FindExam(bank, id);
      if found.Some? {
        exam := found;
        shuffled := ShuffledCopy(found.value.objectiveQuestions, choices);
        outcome := Loaded;
      } else {
        outcome := InvalidLink(Notice("Error", Error), "/student/dashboard");
      }
      isLoading := false;
      timer.SetDuration(ExamDuration(exam));
    }

    /** `submitObjectives`, shared by the last question's button and the timer. */
    method SubmitObjectives()
      requires Valid()
      modifies this
      ensures Valid()
      ensures Progress(phase, timerPaused) == SubmitStep(old(Progress(phase, timerPaused)))
      ensures exam == old(exam) && isLoading == old(isLoading) && index == old(index)
      ensures answers == old(answers) && shuffled == old(shuffled)
    {
      if phase != Objectives {
        return;
      }
      timerPaused := true;
      phase := Checkpoint;
    }

    /** `handleSelectAnswer`; the page does not check the phase. */
    method SelectAnswer(questionId: int, option: string)
      requires Valid()
      modifies this
      ensures Valid()
      ensures answers == SetAnswer(old(answers), questionId, option)
      ensures exam == old(exam) && isLoading == old(isLoading) && phase == old(phase)
      ensures timerPaused == old(timerPaused) && index == old(index) && shuffled == old(shuffled)
    {
      answers := answers[questionId := option];
    }

    /** `handleNext`: forward, only with an exam and not past the last question. */
    method Next()
      requires Valid()
      modifies this
      ensures Valid()
      ensures index == if exam.Some? then NextIndex(old(index), |shuffled|) else old(index)
      ensures exam == old(exam) && isLoading == old(isLoading) && phase == old(phase)
      ensures timerPaused == old(timerPaused) && answers == old(answers) && shuffled == old(shuffled)
    {
      if exam.Some? && index < |shuffled| - 1 {
        index := index + 1;
      }
    }

    /** `handleBack`: back, not before the first question. */
    method Back()
      requires Valid()
      modifies this
      ensures Valid()
      ensures index == BackIndex(old(index))
      ensures exam == old(exam) && isLoading == old(isLoading) && phase == old(phase)
      ensures timerPaused == old(timerPaused) && answers == old(answers) && shuffled == old(shuffled)
    {
      if index > 0 {
        index := index - 1;
      }
    }

    /**
     * One second of the timer, paused while loading or once the objectives
     * are in; its expiry calls `submitObjectives`.
     */
    method ClockTick() returns (timeUp: bool)
      requires Valid()
      modifies this, timer
      ensures Valid()
      ensures timer.secondsLeft == TickStep(old(timer.secondsLeft), old(TimerPausedFlag())).left
      ensures timeUp == TickStep(old(timer.secondsLeft), old(TimerPausedFlag())).timeUp
      ensures timer.timeUpCalls == old(timer.timeUpCalls) + if timeUp then 1 else 0
      ensures Progress(phase, timerPaused) ==
                if timeUp then SubmitStep(old(Progress(phase, timerPaused))) else old(Progress(phase, timerPaused))
      ensures timeUp ==> phase == Checkpoint && timerPaused
      ensures exam == old(exam) && isLoading == old(isLoading) && index == old(index)
      ensures answers == old(answers) && shuffled == old(shuffled)
    {
      timeUp := timer.Tick(isLoading || timerPaused);
      if timeUp {
        SubmitObjectives();
      }
    }
  }

  /**
   * After the objectives are in, the timer is paused: further seconds
   * change nothing and never call `onTimeUp` again.
   */
  method TimerFrozenAfterSubmit(a: Attempt)
    requires a.Valid() && a.phase != Objectives
    modifies a, a.timer
    ensures a.Valid() && a.timer.secondsLeft == old(a.timer.secondsLeft)
    ensures a.timer.timeUpCalls == old(a.timer.timeUpCalls)
    ensures a.phase == old(a.phase)
  {
    var fired := a.ClockTick();
    assert !fired;
  }
}
