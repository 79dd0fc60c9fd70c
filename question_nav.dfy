/**
 * The two things every exam page does with its questions: record an answer
 * under a question id, and step an index through the question list
 * without wrapping (pages/student/take-exam.tsx, pages/student/exam.tsx,
 * pages/student/theory-exam.tsx).
 */
module QuestionNav {

  /** `setAnswers(prev => ({ ...prev, [id]: answer }))`. */
  function SetAnswer(answers: map<int, string>, id: int, answer: string): (r: map<int, string>)
    ensures r.Keys == answers.Keys + {id}
    ensures r[id] == answer
    ensures forall k :: k in answers && k != id ==> r[k] == answers[k]
  {
    answers[id := answer]
  }

  /** Two writes to the same question: the last one wins. */
  lemma SetAnswerLastWins(answers: map<int, string>, id: int, first: string, second: string)
    ensures SetAnswer(SetAnswer(answers, id, first), id, second) == SetAnswer(answers, id, second)
  {
  }

  /** Writes to different questions do not interfere. */
  lemma SetAnswerCommutes(answers: map<int, string>, i: int, a: string, j: int, b: string)
    requires i != j
    ensures SetAnswer(SetAnswer(answers, i, a), j, b) == SetAnswer(SetAnswer(answers, j, b), i, a)
  {
  }

  /** `answers[id] || ''`: what the answer box shows. */
  function Displayed(answers: map<int, string>, id: int): (r: string)
    ensures id !in answers ==> r == ""
    ensures id in answers ==> r == answers[id]
  {
    if id in answers then answers[id] else ""
  }

  /** After a write, the box shows what was written. */
  lemma DisplayedAfterSet(answers: map<int, string>, id: int, answer: string, other: int)
    ensures Displayed(SetAnswer(answers, id, answer), id) == answer
    ensures other != id ==> Displayed(SetAnswer(answers, id, answer), other) == Displayed(answers, other)
  {
  }

  /** An index into a list of `n` questions, or 0 when the list is empty. */
  predicate InRange(index: nat, n: nat)
  {
    index == 0 || index < n
  }

  /** `handleNext`: one step forward unless already on the last question. */
  function NextIndex(index: nat, n: nat): (r: nat)
    ensures r == index + 1 <==> index + 1 < n
    ensures r == index <==> index + 1 >= n
  {
    if index < n - 1 then index + 1 else index
  }

  /** `handleBack`: one step back unless already on the first question. */
  function BackIndex(index: nat): (r: nat)
    ensures r == index - 1 <==> index > 0
    ensures r == index <==> index == 0
  {
    if index > 0 then index - 1 else index
  }

  /**
   * Navigation keeps the index in range, moves by at most one, and stops at
   * the ends instead of wrapping around.
   */
  lemma NavigationClamped(index: nat, n: nat)
    requires InRange(index, n)
    ensures InRange(NextIndex(index, n), n) && InRange(BackIndex(index), n)
    ensures NextIndex(index, n) == index + 1 <==> index + 1 < n
    ensures NextIndex(index, n) == index <==> index + 1 >= n
    ensures BackIndex(index) == index - 1 <==> index > 0
    ensures BackIndex(index) == index <==> index == 0
  {
  }

  /** From any index, enough steps forward reach the last question. */
  lemma {:induction false} NextReachesLast(index: nat, n: nat, k: nat)
    requires index < n && index + k >= n - 1
    ensures Iterate(index, n, k) == n - 1
    decreases k
  {
    if k > 0 && index < n - 1 {
      NextReachesLast(NextIndex(index, n), n, k - 1);
    } else if k > 0 {
      StaysOnLast(n, k);
    }
  }

  /** `k` presses of Next. */
  function Iterate(index: nat, n: nat, k: nat): nat
    decreases k
  {
    if k == 0 then index else Iterate(NextIndex(index, n), n, k - 1)
  }

  lemma {:induction false} StaysOnLast(n: nat, k: nat)
    requires n >= 1
    ensures Iterate(n - 1, n, k) == n - 1
    decreases k
  {
    if k > 0 {
      StaysOnLast(n, k - 1);
    }
  }
}
