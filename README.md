# Exam portal core, modelled in Dafny

This project models the client-side logic of a small Next.js school exam
portal. Students log in, take timed objective exams from a shuffled
question list, and browse their results. Administrators do four things:
- keep a bank of exams and a student roster;
- put exams live for a class and stop them;
- enter CA and exam scores;
- browse the recorded results.

The modules follow the repository's files, one module per source file:

| module | source file | flavour of the model |
|---|---|---|
| `Types` | data/types.ts | datatypes |
| `Lists`, `Text` | the JavaScript array and string built-ins the pages call | functions and lemmas |
| `QuestionNav` | the answer map and clamped navigation of the three exam pages | functions and lemmas |
| `Countdown` | hooks/useTimer.ts | a `Timer` class with a `Tick` method, plus a pure tick function and its closed form |
| `TakeExam` | pages/student/take-exam.tsx | in-place Fisher–Yates on an `array`, plus an `Attempt` class |
| `Helpers` | utils/helpers.ts | one function |
| `ExamPage` | pages/student/exam.tsx | a counting loop, plus an `ExamSession` class |
| `TheoryExam` | pages/student/theory-exam.tsx | functions |
| `GoLive` | components/admin/GoLiveModal.tsx | functions |
| `LiveControl` | components/admin/LiveExamControl.tsx | functions |
| `Dashboard` | pages/student/dashboard.tsx | functions |
| `Auth` | contexts/AuthContext.tsx | a `Session` class |
| `ResultEntry` | components/admin/ResultEntryTable.tsx | functions |
| `UploadResult` | pages/admin/upload-result.tsx | a pre-load `for` loop, an `UploadPage` class, upsert functions |
| `Pagination` | components/shared/Pagination.tsx | functions, plus the page-number `while` loop |
| `ExamBank` | pages/admin/questions.tsx | list functions plus an `ExamBankPage` class over the session |
| `ManageStudents` | pages/admin/students.tsx | list functions plus a `StudentsPage` class |
| `ViewResults` | pages/admin/results.tsx | join/filter functions plus a `ResultsView` class |
| `StudentResults` | pages/student/results.tsx | functions |
| `ObjectiveForm`, `TheoryForm`, `ExamForm`, `StudentForm` | the four admin forms | a pure save/submit function, plus a small class for the form state |

How the model treats the host:
- React state that a page replaces as a whole is a class field, and each handler is a method.
- A field the page keeps is a `const`.
- The outside world enters as parameters:
  - Randomness is a sequence of `choices` (each `choices[k] < n - k`).
  - `crypto.randomUUID()` is a `freshId` parameter; `Date.now()` is `now`.
  - `URL.createObjectURL` is `previewUrl`.
- One timer interval firing is one call of `Tick`.
- A notification is reduced to its title and kind.
- A router push is a returned route string.

The model follows the code as written, including these points:
- The timer started at 0 never fires: the guard `secondsLeft <= 0` stops the interval before the updater runs.
- Going live appends the exam with no duplicate check.
- The go-live dialog's selected student ids are used only for the notification count.
- The student dashboard's "total exams" counts the whole result list, not only that student's results.
- The student result page never filters by student.
- The awaiting list of the live control panel is computed from the fixture bank (`DUMMY_DATA.allExamBank`), not from the session's `allExams`. A status change on the exam-bank page therefore does not move an exam into or out of the awaiting list, and the model keeps the two lists apart (`LiveControl.Awaiting` takes the bank as an argument; `Auth.Session.examBank` is a constant).

## Model

| member | source | states |
|---|---|---|
| Types.IdOrNow | components/admin/ObjectiveQuestionForm.tsx:60 | `edited?.id \|\| Date.now()`: an edited record with a non-zero id keeps it; no record, or the falsy id 0, takes the clock value |
| Lists.Filter | pages/admin/questions.tsx:43-49 | every kept element is in the input and satisfies the predicate, every input element satisfying it is kept, the result is an order-preserving subsequence of the input and never longer (how many copies are kept is `FilterCounts`) |
| Lists.FilterCounts | pages/admin/questions.tsx:43-49 | `filter` keeps every copy of a kept element and no copy of a dropped one: each element occurs as often as in the input when the predicate holds, otherwise not at all |
| Lists.FilterOutLength | components/admin/GoLiveModal.tsx:28-29 | removing every copy of one value shortens the list by the number of its copies |
| Lists.FilterKeepsAll | pages/admin/questions.tsx:43-49 | a filter whose predicate holds for every element returns the list unchanged |
| Lists.FilterKeepsNone | pages/admin/questions.tsx:43-49 | a filter whose predicate holds nowhere returns the empty list |
| Lists.Prepend | pages/admin/questions.tsx:91 | `[x, ...xs]`: one element longer, `x` first, then the old list unchanged |
| Lists.FindIndex | pages/admin/upload-result.tsx:125-130 | `findIndex` is -1 exactly when nothing matches, otherwise the first matching index |
| Lists.Find | pages/admin/upload-result.tsx:65-70 | `find` is absent exactly when nothing matches, otherwise the element at the first matching position |
| Lists.ReplaceWhere | pages/admin/questions.tsx:95-100 | `map(x => match ? y : x)` keeps the length and replaces exactly the matching positions |
| Lists.ReplaceWhereNoMatch | pages/admin/questions.tsx:95-100 | a replacement where nothing matches leaves the list unchanged |
| Lists.SliceIndex | pages/admin/results.tsx:76-80 | a JavaScript slice index is clamped into 0..length, with in-range indexes unchanged |
| Lists.Slice | pages/admin/results.tsx:76-80 | `slice(s, e)` from a non-negative start has at most e-s elements, each the source element at offset s+k, and equals `xs[s..e]` when in range |
| Lists.FilterNoDuplicates | components/admin/GoLiveModal.tsx:26-34 | filtering a list without repeats leaves a list without repeats |
| Lists.Distinct | pages/admin/upload-result.tsx:18-21 | `[...new Set(xs)]` holds each value of `xs` once and no other value |
| Lists.SubjectOptions | pages/admin/upload-result.tsx:18-21 | the subject drop-down starts with the placeholder and then lists every subject of the bank once, and nothing else |
| Text.NatToString | pages/admin/upload-result.tsx:72-75 | `String(n)` of a natural number is a non-empty digit string |
| Text.ValueOfNatToString | pages/admin/upload-result.tsx:72-75 | reading the printed digits back gives the number |
| Text.IntToString | pages/admin/upload-result.tsx:72-75 | `String(n)` of any integer is non-empty |
| Text.JsNumber | components/admin/ResultEntryTable.tsx:30-32 | `Number(s)` of a digit string is its value, and of the empty string 0 |
| Text.NumberOfString | pages/admin/upload-result.tsx:72-75 | `Number(String(n)) === n` for every integer n |
| Text.NumberOfNegative | pages/admin/upload-result.tsx:72-75 | a minus sign before a non-empty digit string reads as the negated value |
| Text.NatToStringShort | hooks/useTimer.ts:50-53 | numbers below 10 print as one digit; numbers 10 to 99 print as two |
| Text.ValueLeadingZero | hooks/useTimer.ts:50-53 | a leading '0' does not change a digit string's value |
| Text.PadStart2 | hooks/useTimer.ts:50-53 | `padStart(2, '0')` yields at least two characters, and leaves longer strings as they are |
| Text.PadStart2Value | hooks/useTimer.ts:50-53 | padding a non-empty digit string keeps it a digit string of the same value |
| Text.LowerChar | pages/admin/questions.tsx:46 | `toLowerCase` maps each of A-Z to its own lower-case letter (code + 32) and leaves every other character alone |
| Text.Lower | pages/admin/questions.tsx:46 | lower-casing keeps the length and folds each character by `LowerChar` |
| Text.LowerIdem | pages/admin/questions.tsx:46 | lower-casing twice equals lower-casing once |
| Text.MatchesSearchIgnoresCase | pages/admin/questions.tsx:46 | the search ignores case: lower-casing the field and the term first gives the same answer |
| Text.ContainsEmpty | pages/admin/questions.tsx:46 | every string `includes('')` |
| Text.Contains | pages/admin/questions.tsx:46 | `includes` finds only needles no longer than the text, and a needle as long as the text only when the two are equal |
| Text.MatchesSearch | pages/admin/questions.tsx:46 | a case-insensitive match needs a term no longer than the field, and the empty term matches every field |
| Text.EmptySearchMatches | pages/admin/questions.tsx:46 | an empty search term matches every field |
| Countdown.TickStep | hooks/useTimer.ts:17-36 | one second: nothing happens while paused or at 0; at 1 the timer reaches 0 and `onTimeUp` fires; above 1 it counts down with no callback. `onTimeUp` fires exactly when the timer is unpaused with one second left |
| Countdown.RunSpec | hooks/useTimer.ts:17-36 | closed form of any sequence of seconds: the time left is the duration minus the unpaused seconds, floored at 0, and `onTimeUp` has fired once exactly when a positive duration has run out, otherwise never |
| Countdown.RunFiresAtMostOnce | hooks/useTimer.ts:27-36 | `onTimeUp` fires at most once, the time left never grows, and it fired exactly when a positive duration reached 0 |
| Countdown.RunFromZeroNeverFires | hooks/useTimer.ts:19 | a timer started at 0 stays at 0 and never calls `onTimeUp` |
| Countdown.Running | hooks/useTimer.ts:27-36 | k unpaused seconds |
| Countdown.UnpausedRunning | hooks/useTimer.ts:27-36 | k unpaused seconds count as k running seconds |
| Countdown.ExpiresOnce | hooks/useTimer.ts:17-36 | from duration D ≥ 1, any k ≥ D unpaused seconds leave 0 with exactly one call |
| Countdown.Timer.constructor | hooks/useTimer.ts:9 | the timer starts at the duration with no call made |
| Countdown.Timer.Tick | hooks/useTimer.ts:17-36 | one interval firing: the new time left and the callback as `TickStep` says; the call count grows by one exactly when `onTimeUp` fires; 0 ≤ time left ≤ duration is kept |
| Countdown.Timer.SetDuration | hooks/useTimer.ts:13-15 | a changed duration restarts the count at the new duration; an unchanged one changes nothing |
| Countdown.Timer.FormattedTime | hooks/useTimer.ts:56-58 | the displayed time parses back to the seconds left |
| Countdown.FormatTimeRoundTrip | hooks/useTimer.ts:47-54 | `formatTime` output, read as minutes ':' two-digit seconds, gives back the input |
| Countdown.ParseParts | hooks/useTimer.ts:47-54 | a string whose parts around the colon are two digit strings reads as that many minutes and seconds |
| Countdown.ParseJoined | hooks/useTimer.ts:47-54 | minutes, a colon and two-digit seconds joined read back as minutes times 60 plus seconds |
| Countdown.FormatTimeLength | hooks/useTimer.ts:47-54 | below 6000 seconds the formatted time has exactly five characters |
| Countdown.FormatTime | hooks/useTimer.ts:47-54 | the display has at least five characters with the colon third from the end |
| QuestionNav.SetAnswer | pages/student/take-exam.tsx:106-108 | recording an answer sets that question's entry and leaves every other entry as it was |
| QuestionNav.SetAnswerLastWins | pages/student/theory-exam.tsx:31-36 | of two writes to the same question, the last wins |
| QuestionNav.SetAnswerCommutes | pages/student/theory-exam.tsx:31-36 | writes to different questions do not interfere |
| QuestionNav.Displayed | pages/student/theory-exam.tsx:84 | an unanswered question displays as '', an answered one as its answer |
| QuestionNav.DisplayedAfterSet | pages/student/theory-exam.tsx:31-36 | after a write the box shows what was written, and every other box is unchanged |
| QuestionNav.NavigationClamped | pages/student/take-exam.tsx:109-119 | Next moves forward exactly when not on the last question, and Back moves back exactly when not on the first; the index stays in range with no wrap-around |
| QuestionNav.NextReachesLast | pages/student/take-exam.tsx:109-114 | enough presses of Next from any index reach the last question |
| QuestionNav.StaysOnLast | pages/student/take-exam.tsx:109-114 | Next on the last question stays there |
| QuestionNav.NextIndex | pages/student/take-exam.tsx:109-114 | Next steps forward exactly when a later question exists, and otherwise stays |
| QuestionNav.BackIndex | pages/student/take-exam.tsx:116-119 | Back steps back exactly when not on the first question, and otherwise stays |
| TakeExam.Swap | pages/student/take-exam.tsx:25-26 | a swap keeps the length |
| TakeExam.SwapPermutes | pages/student/take-exam.tsx:25-26 | a swap keeps the multiset of elements |
| TakeExam.ShuffleFrom | pages/student/take-exam.tsx:19-27 | whatever turns of the loop remain, applying them keeps the length |
| TakeExam.ShuffleFromPermutes | pages/student/take-exam.tsx:19-27 | whatever turns of the loop remain, applying them keeps the multiset of elements |
| TakeExam.ShuffledIsPermutation | pages/student/take-exam.tsx:15-29 | the shuffled list has the same length, the same multiset and the same members as the input |
| TakeExam.Shuffled | pages/student/take-exam.tsx:15-29 | the shuffle keeps the length of the list |
| TakeExam.ShuffleInPlace | pages/student/take-exam.tsx:15-29 | the in-place loop, counting `currentIndex` down and swapping it with a drawn index in range, leaves the array equal to the shuffle of its old contents (every access in bounds) |
| TakeExam.ShuffledCopy | pages/student/take-exam.tsx:68-69 | shuffling a copy returns a permutation of the questions, and the exam's own list is a value left unchanged |
| TakeExam.SubmitStep | pages/student/take-exam.tsx:85-91 | `submitObjectives` is a no-op outside the objectives phase; otherwise it pauses the timer and moves to the checkpoint |
| TakeExam.SubmitIdempotent | pages/student/take-exam.tsx:85-91 | submitting twice is submitting once |
| TakeExam.FindExam | pages/student/take-exam.tsx:59-72 | the exam lookup is absent exactly when no bank exam has the id, and otherwise returns a bank exam with that id |
| TakeExam.ExamDuration | pages/student/take-exam.tsx:98 | the timer runs for whole minutes: the exam's `durationMinutes` times 60, or 0 without an exam |
| TakeExam.Attempt.constructor | pages/student/take-exam.tsx:36-48 | the page opens loading, in the objectives phase, with no exam, no answers and a zero-length timer |
| TakeExam.Attempt.Load | pages/student/take-exam.tsx:59-80 | an unknown id leaves no exam and yields an error notice and a redirect to the dashboard; a known one stores a shuffled permutation of its objective questions; loading ends and the timer is reset to durationMinutes·60 (0 without an exam) |
| TakeExam.Attempt.SubmitObjectives | pages/student/take-exam.tsx:85-91 | phase and pause flag follow `SubmitStep`; nothing else changes |
| TakeExam.Attempt.SelectAnswer | pages/student/take-exam.tsx:106-108 | the answer map gets that entry, with no phase check; nothing else changes |
| TakeExam.Attempt.Next | pages/student/take-exam.tsx:109-114 | with an exam loaded the index moves as `NextIndex` says; without one it stays |
| TakeExam.Attempt.Back | pages/student/take-exam.tsx:115-119 | the index moves as `BackIndex` says |
| TakeExam.Attempt.ClockTick | pages/student/take-exam.tsx:98-103 | one timer second, paused while loading or once `timerPaused` is set; on expiry the objectives are submitted |
| TakeExam.TimerFrozenAfterSubmit | pages/student/take-exam.tsx:98-103 | after the objectives are in, further seconds change neither the time left nor the call count |
| Helpers.GetRemark | utils/helpers.ts:4-9 | 'Excellent' exactly for totals ≥ 75, 'Good' exactly for 60..74, 'Pass' exactly for 45..59, 'Poor' exactly below 45 |
| Helpers.RemarkIsLabel | utils/helpers.ts:4-9 | every total gets one of the four labels |
| Helpers.RemarkMonotone | utils/helpers.ts:4-9 | a higher total never gets a lower band |
| ExamPage.IsCorrect | pages/student/exam.tsx:50-52 | an unanswered question is never correct, and a correct one shows its correct option |
| ExamPage.NumCorrect | pages/student/exam.tsx:46-55 | the number of correct answers never exceeds the number of questions |
| ExamPage.FullMarksIff | pages/student/exam.tsx:46-55 | full marks exactly when every question's answer equals its correct option |
| ExamPage.NoMarksIff | pages/student/exam.tsx:46-55 | zero exactly when no question is answered correctly |
| ExamPage.CountCorrect | pages/student/exam.tsx:46-55 | the grading loop counts the questions whose recorded answer equals `correct` exactly |
| ExamPage.SubmitStep | pages/student/exam.tsx:41-62 | a submit after the exam has finished changes nothing; a first submit stops the exam, finishes it and records (correct, number of questions) |
| ExamPage.SubmitIdempotent | pages/student/exam.tsx:41-62 | a second submit keeps the first score, whatever the answers have become |
| ExamPage.SubmitScoreBounded | pages/student/exam.tsx:50-55 | a first submit's score satisfies 0 ≤ correct ≤ total = number of questions |
| ExamPage.ExamSession.constructor | pages/student/exam.tsx:16-29 | not started, not finished, index 0, no answers, a five-minute timer |
| ExamPage.ExamSession.Submit | pages/student/exam.tsx:41-62 | the flags and score follow `SubmitStep` |
| ExamPage.ExamSession.Start | pages/student/exam.tsx:76-82 | started, not finished, index 0, no answers |
| ExamPage.ExamSession.SelectAnswer | pages/student/exam.tsx:84-89 | sets that question's answer only |
| ExamPage.ExamSession.Next | pages/student/exam.tsx:91-95 | clamped forward step |
| ExamPage.ExamSession.Back | pages/student/exam.tsx:97-101 | clamped backward step |
| ExamPage.ExamSession.ClockTick | pages/student/exam.tsx:70-73 | one second of the never-paused timer; the `onTimeUp` call count grows by one exactly on expiry, and then the exam is submitted |
| TheoryExam.Boxes | pages/student/theory-exam.tsx:84 | one box per theory question, showing its stored answer or '' |
| TheoryExam.AnswerChangeTouchesOneBox | pages/student/theory-exam.tsx:31-36 | typing an answer changes the boxes of that question id and no other box |
| TheoryExam.BoxesStartEmpty | pages/student/theory-exam.tsx:84 | before any typing every box is empty |
| GoLive.InitialSelection | components/admin/GoLiveModal.tsx:19-24 | the ticked ids are exactly the ids of the students whose class is the exam's class, one per such student, in roster order |
| GoLive.StudentsInClass | components/admin/GoLiveModal.tsx:19-21 | the dialog lists exactly the roster's students of the exam's class, in roster order |
| GoLive.Toggle | components/admin/GoLiveModal.tsx:26-34 | toggling removes every copy of a ticked id, keeping the rest in order (length drops by its count), and appends an unticked one at the end; every other id keeps its state |
| GoLive.ToggleTwice | components/admin/GoLiveModal.tsx:26-34 | toggling the same id twice restores who is ticked |
| GoLive.ToggleKeepsNoDuplicates | components/admin/GoLiveModal.tsx:26-34 | toggling never ticks an id twice |
| GoLive.InitialSelectionNoDuplicates | components/admin/GoLiveModal.tsx:19-24 | with distinct roster ids, the initial selection has no repeats |
| GoLive.DistinctIdsInClass | components/admin/GoLiveModal.tsx:19-24 | the students of one class have distinct ids when the roster does |
| GoLive.ConfirmGoLive | components/admin/GoLiveModal.tsx:36-50 | the exam is appended at the end of the live list (length + 1, old entries kept); the notice is "Exam is LIVE!" with the number of ticked students |
| GoLive.GoLiveTwiceDuplicates | components/admin/GoLiveModal.tsx:41 | going live twice lists the exam twice: there is no duplicate check |
| GoLive.SelectionNotStored | components/admin/GoLiveModal.tsx:41-48 | the new live list does not depend on which students were ticked |
| LiveControl.Awaiting | components/admin/LiveExamControl.tsx:20-24 | the awaiting list holds exactly the published bank exams whose id is not live, in bank order |
| LiveControl.AwaitingDisjointFromLive | components/admin/LiveExamControl.tsx:23 | no awaiting exam shares an id with a live one |
| LiveControl.StopLive | components/admin/LiveExamControl.tsx:34-36 | stop removes every live entry with that id and keeps the others in order, each as many times as it was live |
| LiveControl.StopNotLiveIsNoop | components/admin/LiveExamControl.tsx:34-36 | stopping an id that is not live changes nothing |
| LiveControl.GoLiveLeavesAwaiting | components/admin/LiveExamControl.tsx:20-24 | an exam that has gone live is not awaiting |
| LiveControl.StopReturnsToAwaiting | components/admin/LiveExamControl.tsx:20-36 | after a stop, a published bank exam with that id awaits again |
| Dashboard.MyLiveExams | pages/student/dashboard.tsx:121-128 | for a student, exactly the live exams of their class in their original order, each as many times as it is live; nothing with no user or with an admin |
| Dashboard.ExamModeIff | pages/student/dashboard.tsx:147 | exam mode is shown exactly when some live exam is for the student's class |
| Dashboard.ClassmatesSeeLiveExam | pages/student/dashboard.tsx:121-128 | every student of an exam's class sees it once it goes live; no exemption list is consulted |
| Dashboard.QuickStats | pages/student/dashboard.tsx:108-118 | for a student with results, the last result and the length of the list; otherwise none and 0 |
| Auth.Decide | contexts/AuthContext.tsx:59-81 | a student logs in exactly with the stored student's regNo, an admin exactly with 'ADMIN-001'; every other attempt fails |
| Auth.RoleMustMatch | contexts/AuthContext.tsx:62-71 | the admin branch never logs in a student, nor the student branch an admin |
| Auth.Session.constructor | contexts/AuthContext.tsx:42-48 | no user, no live exams, the bank as `allExams` |
| Auth.Session.StartLogin | contexts/AuthContext.tsx:60 | loading starts; nothing else changes |
| Auth.Session.FinishLogin | contexts/AuthContext.tsx:59-81 | a student login sets that user and leaves the live list; an admin login sets that user, empties the live list and reloads the bank; a failed login keeps the user and raises "Login Failed"; loading ends in every case |
| Auth.Session.Logout | contexts/AuthContext.tsx:83-87 | no user, no live exams, route '/login' |
| Auth.Session.ConfirmGoLive | components/admin/GoLiveModal.tsx:36-50 | the session's live list and notice follow `GoLive.ConfirmGoLive` |
| Auth.Session.StopLive | components/admin/LiveExamControl.tsx:27-37 | the session's live list loses that id; notice "Exam Stopped" |
| Auth.AdminLoginClearsLive | contexts/AuthContext.tsx:65-71 | after an admin login no exam is live and every published bank exam awaits going live |
| ResultEntry.NumberOr0 | components/admin/ResultEntryTable.tsx:30-32 | `Number(x) \|\| 0`: an absent field, NaN and '' read as 0; a number reads as itself |
| ResultEntry.CalculateTotal | components/admin/ResultEntryTable.tsx:30-32 | a NaN or absent field adds nothing, and two digit strings add up to the sum of their values |
| ResultEntry.RowEntry | components/admin/ResultEntryTable.tsx:50-51 | a student with no entry is shown with two empty inputs |
| ResultEntry.RowTotal | components/admin/ResultEntryTable.tsx:50-51 | a row with no entry totals 0; otherwise the total of its two inputs |
| ResultEntry.RowRemark | components/admin/ResultEntryTable.tsx:50-52 | a row with no entry is 'Poor'; the remark is `getRemark(total)`: 'Excellent' exactly at 75 or more, 'Good' exactly for 60..74, 'Pass' exactly for 45..59, 'Poor' exactly below 45 |
| ResultEntry.InRange | pages/admin/upload-result.tsx:83-86 | a NaN value is let through, a negative number is refused, and a digit string is accepted exactly up to 40 for CA and 60 for the exam |
| ResultEntry.UntouchedRow | components/admin/ResultEntryTable.tsx:50-52 | a row with no entry shows total 0 and remark 'Poor' |
| ResultEntry.TotalWithinHundred | components/admin/ResultEntryTable.tsx:62-76 | inputs within 0..40 and 0..60 give a total within 0..100 |
| ResultEntry.FullMarksRemark | components/admin/ResultEntryTable.tsx:50-52 | 40 and 60 show 100 and 'Excellent' |
| UploadResult.StudentsOfClass | pages/admin/upload-result.tsx:57-59 | the table lists exactly the roster's students of the selected class, in roster order |
| UploadResult.ExistingEntry | pages/admin/upload-result.tsx:65-78 | a pre-loaded entry has both fields present |
| UploadResult.ExistingEntryReadsBack | pages/admin/upload-result.tsx:63-80 | a pre-loaded entry reads back as the recorded ca and exam, or as 0 and 0 when nothing is recorded |
| UploadResult.PreloadScores | pages/admin/upload-result.tsx:63-80 | the loop leaves exactly one entry per listed student: the stringified scores of that student's matching result, or two empty strings |
| UploadResult.ScoresAfterChange | pages/admin/upload-result.tsx:83-95 | a value out of its field's range is refused and changes nothing; otherwise only that field of that student's entry changes (the other field absent when there was no entry) |
| UploadResult.ScoreChangeKeepsRange | pages/admin/upload-result.tsx:83-95 | score changes keep every entry in range, so the row total stays within 0..100 |
| UploadResult.ExistingEntryInRange | pages/admin/upload-result.tsx:63-80 | pre-loaded entries are in range when the recorded scores are |
| UploadResult.NewResult | pages/admin/upload-result.tsx:107-122 | the new record carries the row's key, ca and exam as numbers, total = ca + exam and the remark of the total |
| UploadResult.Upsert | pages/admin/upload-result.tsx:124-139 | a record with the same key is replaced in place keeping its id, with the length unchanged and every other record kept; otherwise the record is appended |
| UploadResult.NoScoresEntered | pages/admin/upload-result.tsx:102 | nothing was entered exactly when the row shows two empty inputs, whether it has no entry or an entry of two empty strings |
| UploadResult.SaveResult | pages/admin/upload-result.tsx:97-145 | nothing happens exactly when the student is not listed; an error exactly when no score was entered; otherwise the stored record has the key, the scores, total = ca + exam and the remark of the total |
| UploadResult.SaveThenFind | pages/admin/upload-result.tsx:124-139 | after a save, looking up the key finds the stored record |
| UploadResult.FindFirst | pages/admin/upload-result.tsx:65-70 | `find` yields the element at the first matching position |
| UploadResult.SaveKeepsOtherResults | pages/admin/upload-result.tsx:124-139 | a save changes no record with a different key and grows the list by at most one |
| UploadResult.SaveKeepsKeysUnique | pages/admin/upload-result.tsx:124-139 | saving never creates a second record for the same key |
| UploadResult.SavedMatchesRow | pages/admin/upload-result.tsx:107-110 | the stored total and remark are the ones the row shows |
| UploadResult.LoadThenSaveKeepsResults | pages/admin/upload-result.tsx:63-139 | loading a consistent recorded result and saving it unedited leaves the result list unchanged |
| UploadResult.FilteredStudents | pages/admin/upload-result.tsx:148-153 | the table keeps exactly the students whose name or regNo contains the search term, ignoring ASCII case, in order |
| UploadResult.EmptySearchShowsAll | pages/admin/upload-result.tsx:148-153 | an empty search shows every loaded student |
| UploadResult.UploadPage.constructor | pages/admin/upload-result.tsx:28-36 | every drop-down on its placeholder, an empty table and no entries |
| UploadResult.UploadPage.LoadStudents | pages/admin/upload-result.tsx:47-81 | a placeholder selection raises an error and empties the table, leaving the entries; otherwise the class's students, each with its pre-loaded entry, and no other entry |
| UploadResult.UploadPage.ScoreChange | pages/admin/upload-result.tsx:83-95 | the entries follow `ScoresAfterChange`; nothing else changes |
| UploadResult.UploadPage.SaveRow | pages/admin/upload-result.tsx:97-145 | the result list and the notice follow `SaveResult`: unchanged and silent for an unlisted student, an error for an empty row, "Success" and the upserted list otherwise |
| Pagination.TotalPages | components/shared/Pagination.tsx:19 | `ceil(items / perPage)`: the pages cover every item, the last page is non-empty, and there are no pages only for no items |
| Pagination.OnePageNoPager | components/shared/Pagination.tsx:21-23 | the pager is drawn exactly when there are more items than fit on one page |
| Pagination.HandlePageChange | components/shared/Pagination.tsx:25-30 | a page is forwarded, unchanged, exactly when it lies in 1..totalPages |
| Pagination.PageNumbers | components/shared/Pagination.tsx:32-35 | the page numbers are exactly 1..totalPages in ascending order |
| Pagination.ButtonsStayInBounds | components/shared/Pagination.tsx:42-62 | from a page in bounds, an enabled arrow and every number button report a page in bounds |
| Pagination.PageSlice | pages/admin/questions.tsx:56-60 | a page shows at most `perPage` items, the k-th being the item at `(page-1)·perPage + k` |
| Pagination.PageSliceLength | pages/admin/questions.tsx:56-60 | a page starting inside the list holds `perPage` items, or the rest of the list when fewer are left |
| Pagination.PageOfIndex | pages/admin/questions.tsx:56-60 | index i lies at offset i mod perPage of block i div perPage, and that block is one of the pages |
| Pagination.EveryItemOnItsPage | pages/admin/questions.tsx:56-60 | item i appears on page i div perPage + 1, which is in bounds, at offset i mod perPage |
| Pagination.InBoundsPageNonEmpty | pages/admin/questions.tsx:56-60 | every in-bounds page shows at least one item |
| ExamBank.FilteredExams | pages/admin/questions.tsx:43-49 | an exam is listed exactly when the class drop-down admits its class and its subject contains the search term, ignoring ASCII case; the list is an order-preserving subsequence |
| ExamBank.NoFilterListsAll | pages/admin/questions.tsx:43-49 | 'All Classes' with an empty search lists every exam |
| ExamBank.ExamsAfterEdit | pages/admin/questions.tsx:95-100 | exams with the edited id become the edited exam; the length and every other exam are kept |
| ExamBank.ExamsAfterDelete | pages/admin/questions.tsx:102-109 | exactly the exams with other ids remain, in order |
| ExamBank.ExamsAfterStatusChange | pages/admin/questions.tsx:111-124 | exams with that id become the given exam with status Published exactly when the flag is set (else Draft); the others are kept |
| ExamBank.DeleteUndoesAdd | pages/admin/questions.tsx:90-109 | deleting a just-added exam with a new id restores the list |
| ExamBank.StatusLastWins | pages/admin/questions.tsx:111-124 | of two status changes to the same exam, the last wins |
| ExamBank.EditAbsentIsNoop | pages/admin/questions.tsx:95-100 | editing an id that is not in the bank changes nothing |
| ExamBank.ExamBankPage.constructor | pages/admin/questions.tsx:28-32 | 'All Classes', an empty search, page 1, no selection |
| ExamBank.ExamBankPage.SetFilters | pages/admin/questions.tsx:51-53 | a new class or search term resets the page to 1 |
| ExamBank.ExamBankPage.PageChange | components/shared/Pagination.tsx:25-30 | the page changes only to a page in bounds |
| ExamBank.ExamBankPage.AddExam | pages/admin/questions.tsx:90-93 | the session's exam list gets the new exam first (`Prepend`); notice "Success"; the session's live list, user, loading flag and notification, the selection, the filters and the page are untouched |
| ExamBank.ExamBankPage.EditExam | pages/admin/questions.tsx:95-100 | the exam list follows `ExamsAfterEdit`; notice "Success"; the session's live list, user, loading flag and notification, the selection, the filters and the page are untouched |
| ExamBank.ExamBankPage.OpenDelete | pages/admin/questions.tsx:79-82 | the exam becomes the selection |
| ExamBank.ExamBankPage.DeleteExam | pages/admin/questions.tsx:102-109 | with no selection nothing happens; otherwise the selected id is deleted, notice "Success", and the selection is cleared; the session's live list, user, loading flag and notification, the filters and the page are untouched |
| ExamBank.ExamBankPage.StatusChange | pages/admin/questions.tsx:111-124 | the exam list follows `ExamsAfterStatusChange`; notice "Status Updated"; the session's live list, user, loading flag and notification, the selection, the filters and the page are untouched |
| ManageStudents.FilteredStudents | pages/admin/students.tsx:44-51 | a student is listed exactly when the class drop-down admits their class and their name or regNo contains the search term, ignoring ASCII case; order is kept |
| ManageStudents.ClassNarrows | pages/admin/students.tsx:44-51 | picking a class lists only students that 'All Classes' lists, all of that class |
| ManageStudents.NoFilterListsAll | pages/admin/students.tsx:44-51 | 'All Classes' with an empty search lists the whole roster |
| ManageStudents.StudentsAfterEdit | pages/admin/students.tsx:100-105 | records with the edited id become the edited record; the length and every other record are kept |
| ManageStudents.StudentsAfterDelete | pages/admin/students.tsx:107-112 | exactly the records with other ids remain, in order |
| ManageStudents.EditKeepsIds | pages/admin/students.tsx:100-105 | editing keeps every id in its place |
| ManageStudents.DeleteUndoesAdd | pages/admin/students.tsx:95-112 | deleting a just-added student with a new id restores the roster |
| ManageStudents.StudentsPage.constructor | pages/admin/students.tsx:30-33 | the fixture roster, 'All Classes', an empty search, page 1 |
| ManageStudents.StudentsPage.SetFilters | pages/admin/students.tsx:53-55 | a filter change resets the page to 1 |
| ManageStudents.StudentsPage.PageChange | components/shared/Pagination.tsx:25-30 | the page changes only to a page in bounds |
| ManageStudents.StudentsPage.AddStudent | pages/admin/students.tsx:95-98 | the roster follows `Prepend`; notice "Success" |
| ManageStudents.StudentsPage.EditStudent | pages/admin/students.tsx:100-105 | the roster follows `StudentsAfterEdit`; notice "Success" |
| ManageStudents.StudentsPage.OpenDelete | pages/admin/students.tsx:84-87 | the student becomes the selection |
| ManageStudents.StudentsPage.DeleteStudent | pages/admin/students.tsx:107-112 | with no selection nothing happens; otherwise the selected id is deleted and the selection cleared |
| ViewResults.JoinOne | pages/admin/results.tsx:48-55 | a result keeps its fields and gets its first matching student's name and regNo, or 'Unknown' and 'N/A' |
| ViewResults.Join | pages/admin/results.tsx:48-55 | the join keeps the number and order of the results |
| ViewResults.FilteredResults | pages/admin/results.tsx:58-67 | a joined row is kept exactly when class, term and subject each match or show 'All …', and the name or regNo contains the search term; order is kept |
| ViewResults.NoFilterListsAll | pages/admin/results.tsx:58-67 | with every filter on 'All …' and no search, the list is the whole joined result list, unchanged |
| ViewResults.ListedMatchesSelection | pages/admin/results.tsx:58-67 | every listed row has the selected class, term and subject |
| ViewResults.ResultsView.constructor | pages/admin/results.tsx:28-32 | every drop-down on 'All …', an empty search, page 1 |
| ViewResults.ResultsView.SetFilters | pages/admin/results.tsx:70-73 | a filter change resets the page to 1 |
| ViewResults.ResultsView.PageChange | components/shared/Pagination.tsx:25-30 | the page changes only to a page in bounds |
| ViewResults.ShownPageNonEmpty | pages/admin/results.tsx:76-80 | past page 1 the page on show is never empty |
| StudentResults.FilteredResults | pages/student/results.tsx:40-48 | a result is kept exactly when the class drop-down and the term drop-down admit it; student id is not consulted; order is kept |
| StudentResults.DefaultsListAll | pages/student/results.tsx:29-30 | the default filters list every result |
| StudentResults.TermNarrows | pages/student/results.tsx:40-48 | picking a term lists only results the default term filter lists, all of that term |
| ObjectiveForm.Prefill | components/admin/ObjectiveQuestionForm.tsx:26-32 | a new form is '', four empty options, ''; an edited question's text, options and correct answer are loaded |
| ObjectiveForm.Check | components/admin/ObjectiveQuestionForm.tsx:50-57 | refused as incomplete exactly when the text, an option or the answer is empty; refused as not an option exactly when complete but the answer is none of the options; otherwise accepted |
| ObjectiveForm.Save | components/admin/ObjectiveQuestionForm.tsx:48-68 | refused exactly when the checks fail; otherwise the question has the entered text and options, an answer among the options and the edited id |
| ObjectiveForm.SavedQuestionIsAnswerable | components/admin/ObjectiveQuestionForm.tsx:54-66 | a saved question is one a student can answer correctly by choosing one of its options |
| ObjectiveForm.EditUnchangedRoundTrip | components/admin/ObjectiveQuestionForm.tsx:26-66 | opening a valid question and saving unchanged submits that question |
| ObjectiveForm.BlankFormRefused | components/admin/ObjectiveQuestionForm.tsx:20-22 | a fresh form cannot be saved |
| ObjectiveForm.Form.constructor | components/admin/ObjectiveQuestionForm.tsx:20-32 | the fields are the pre-filled ones |
| ObjectiveForm.Form.OptionChange | components/admin/ObjectiveQuestionForm.tsx:34-38 | only option i changes; the length is kept |
| ObjectiveForm.Form.Reset | components/admin/ObjectiveQuestionForm.tsx:41-45 | empty text, four empty options, empty answer |
| ObjectiveForm.Form.HandleSave | components/admin/ObjectiveQuestionForm.tsx:48-68 | a question is submitted exactly when `Save` accepts; otherwise an error notice |
| ObjectiveForm.Form.SaveAndAdd | components/admin/ObjectiveQuestionForm.tsx:71-77 | the form resets only on success |
| ObjectiveForm.Form.SaveAndClose | components/admin/ObjectiveQuestionForm.tsx:80-85 | the form closes only on success, keeping its values and its notification; a refusal leaves it open with an error notice |
| TheoryForm.Prefill | components/admin/TheoryQuestionForm.tsx:23-27 | a new form is empty, an edited question's text is loaded |
| TheoryForm.Save | components/admin/TheoryQuestionForm.tsx:35-49 | refused exactly when the text is empty; otherwise the entered text with the edited id |
| TheoryForm.EditUnchangedRoundTrip | components/admin/TheoryQuestionForm.tsx:23-49 | opening a question and saving unchanged submits it, unless its text is empty |
| TheoryForm.Form.constructor | components/admin/TheoryQuestionForm.tsx:20-27 | the text is the pre-filled one |
| TheoryForm.Form.HandleSave | components/admin/TheoryQuestionForm.tsx:35-49 | the submission is `Save`'s; an error notice on refusal |
| TheoryForm.Form.SaveAndAdd | components/admin/TheoryQuestionForm.tsx:52-58 | the text is cleared only on success |
| TheoryForm.Form.SaveAndClose | components/admin/TheoryQuestionForm.tsx:61-66 | the form closes only on success, keeping its text and its notification; a refusal leaves it open with an error notice |
| ExamForm.Prefill | components/admin/ExamModal.tsx:25-37 | a new form is '', JSS 1, 40 minutes; an edited exam's values are loaded |
| ExamForm.Submit | components/admin/ExamModal.tsx:39-68 | an empty subject is refused; an edit keeps id, status and both question lists and replaces subject, class and duration; a new exam is a Draft with no questions |
| ExamForm.EditUnchangedRoundTrip | components/admin/ExamModal.tsx:31-53 | opening an exam and submitting unchanged hands back that exam |
| ExamForm.NewExamNotAwaiting | components/admin/ExamModal.tsx:54-64 | a newly created exam does not await going live |
| ExamForm.Dialog.constructor | components/admin/ExamModal.tsx:25-37 | the fields are the pre-filled ones |
| ExamForm.Dialog.HandleSubmit | components/admin/ExamModal.tsx:39-68 | the outcome is `Submit`'s; on success the dialog closes, on refusal an error notice |
| StudentForm.OrEmpty | components/admin/StudentModal.tsx:40-49 | `value \|\| ''` for an optional field |
| StudentForm.OrUndefined | components/admin/StudentModal.tsx:75-77 | `value \|\| undefined`: the empty string becomes absent |
| StudentForm.OptionalFieldRoundTrip | components/admin/StudentModal.tsx:40-89 | an optional field survives the dialog unless it held '' |
| StudentForm.Prefill | components/admin/StudentModal.tsx:40-49 | a new dialog is empty on JSS 1; an edited record's fields are loaded |
| StudentForm.Submit | components/admin/StudentModal.tsx:60-95 | refused exactly when name or regNo is empty; an edit keeps the record's id, an addition takes a fresh id; empty optional fields become absent |
| StudentForm.EditUnchangedRoundTrip | components/admin/StudentModal.tsx:40-79 | opening a record and submitting unchanged hands it back, with '' optional fields absent |
| StudentForm.Dialog.constructor | components/admin/StudentModal.tsx:28-49 | the fields are the pre-filled ones |
| StudentForm.Dialog.FileChange | components/admin/StudentModal.tsx:51-58 | a chosen file replaces the preview; no file changes nothing |
| StudentForm.Dialog.HandleSubmit | components/admin/StudentModal.tsx:60-95 | the outcome is `Submit`'s; on success the dialog closes, on refusal an error notice |

## Left out

- Rendering, styling and the presentational components are not modelled; neither are the auth guards that redirect a wrong user (they are effects of JSX and the router).
- The interval, `clearInterval` and React's effect ordering are not modelled. One call of `Countdown.Timer.Tick` stands for one interval firing. The `onTimeUp` identity in the effect's dependencies is not modelled either.
- The login `setTimeout` delay is modelled only as the split into `Auth.Session.StartLogin` and `Auth.Session.FinishLogin`.
- `Math.random`, `crypto.randomUUID`, `Date.now` and `URL.createObjectURL` are parameters. The uniformity of the shuffle is not claimed.
- `showNotification` keeps only the title and kind, not the message text. Router pushes are returned route strings. `console.log` and `alert` are not modelled.
- `showNotification` and `hideNotification` have no body in the repository (contexts/AuthContext.tsx:56-57), so as written no notice is ever stored and the context's `notification` stays null. Each model `notification` field instead records the notice a handler asks for. Pages and forms keep that field locally rather than in the session, so `Auth.Session.notification` holds only the notices the session's own handlers request.
- Text.JsNumber: decimals, exponents, whitespace, '+' signs and hexadecimal strings are all treated as NaN, while `Number` accepts them. Scores are whole numbers.
- Text.Lower: ASCII letters only; Unicode case mapping is not modelled.
- ExamForm.Submit: the duration is a natural number. A typed duration that `parseInt` reads as NaN or a negative number is not modelled.
- UploadResult.UploadPage.SaveRow: when the class or term drop-down shows its placeholder at save time, the model saves nothing and leaves the state unchanged. The page would still save a record whose class or term is the placeholder text, which the model's enumerations cannot hold.
- `DUMMY_DATA.studentResults = updatedResults` writes to a shared module object. The model keeps only the page's own result list.
- `DUMMY_DATA.questions`, which the single-section exam and theory pages read, is not part of this model's data. `ExamPage.ExamSession` takes its questions as a constructor argument and the theory page its questions as a parameter.
- theory-exam.tsx's submit handler only alerts and redirects, so it is not modelled.
- take-exam.tsx's `handleProceedToTheory`, `handleFinalSubmit` and `handleTheoryChange` have no body in the repository, so no checkpoint-to-theory transition is modelled. The `Theory` phase exists but nothing enters it.
- The fixture data's stored remarks (a total of 50 marked 'Good', among others) disagree with `getRemark`. They are not asserted consistent.
- Student classes are modelled as the six-valued class enumeration. The type declares them as strings, but every writer takes them from that list of six.
