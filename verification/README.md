# Quiz session model

A Dafny model of the session logic of the timed quiz component `QuizApp`. The
player starts a game, answers questions against a 30-second countdown, and
loses one of three lives for each wrong answer or timeout. A correct answer
earns the question's points plus a streak bonus and a time bonus. The game ends
after the last question or when the last life is lost. The end screen then
shows the score and how many answers were correct.

The component declares ten React state hooks (QuizApp.jsx:8-17). Seven of them
(lines 11-17) make up the session, and the model collects them in one immutable
`Session` value. The other three hold the fetched document and the loading and
error flags; they are left out. Each event becomes a pure function from the
session before the event to the session after it:

- `QuizSession.StartQuiz` is `startQuiz`, and `QuizSession.Initial` is the
  first render's session.
- `QuizSession.HandleAnswer` is `handleAnswer`. `None` is the `null` answer
  given on a timeout.
- `QuizSession.Tick` is one firing of the countdown interval, together with
  the effect run that this firing triggers. When the firing takes the timer
  to 0, that effect run answers with `null` at once (QuizApp.jsx:29-30), so
  the same `Tick` also carries the timeout answer.
- `QuizSession.Step` delivers a button press or a second of the countdown.
  It gates them as the rendered screens do: the start button appears only on
  the start and end screens, and option buttons appear only while playing.
- `QuizSession.Run` delivers a whole sequence of events.

`handleAnswer` reads `streak`, `timer` and `lives` from the render that created
it. Its own `setLives` call is therefore not visible to its `lives > 1` test
(QuizApp.jsx:79), which tests the lives before this answer's miss. A miss on
the last life ends the game even with questions left, and a miss with two
lives moves on with one; `MissOnLastLifeEnds` and `MissWithTwoLivesAdvances`
state these two cases.

Modules:

- `QuizTypes` (quiz_types.dfy): the question, answer record, phase and session
  data.
- `AnswerLog` (answer_log.dfy): counts over the answer log.
- `QuizSession` (quiz_session.dfy): the transitions.
- `TransitionFacts` (transition_facts.dfy): what one transition does.
- `SessionInvariant` (session_invariant.dfy): the invariant of every reachable
  session and its consequences.

The question list is `quizData?.questions`, modelled as
`Option<seq<Question>>`. With no list (`None`), an answer changes nothing.
`handleAnswer` throws when it reads a question at an index the list does not
have, and the model returns `Err(MissingQuestion)` there. On an empty list the
component actually fails earlier: the question screen's rendering reads
`questions[0].question` (QuizApp.jsx:121, 146) before any button or effect
can call `handleAnswer`. Rendering is not modelled, so on an empty list the
model faults later than the component.

The invariant-based results assume a non-empty list. From the first render,
no sequence of events then faults, lives stay in 0..3, and lives reach 0 only
on the end screen. The streak always equals the run of correct answers at the
end of the log. While playing, the log holds one record per question already
shown, in order, and the timer is between 1 and 30.

## Model

| member | source | states |
|---|---|---|
| QuizSession.StartQuiz | QuizApp.jsx:46-54 | starting gives the playing screen at question 0 with score 0, 3 lives, streak 0, 30 seconds and an empty log |
| QuizSession.Initial | QuizApp.jsx:11-17 | the first render shows the start screen over exactly the counters a new game begins with, so pressing "Start Quiz" changes only the screen |
| QuizSession.StreakBonus | QuizApp.jsx:63 | the streak bonus is 5 times the floor of half the streak: a multiple of 5, b/5 the largest k with 2k at most the streak |
| QuizSession.TimeBonus | QuizApp.jsx:64 | the time bonus is 2 times the floor of a tenth of the timer: a multiple of 2, b/2 the largest k with 10k at most the timer |
| QuizSession.Answered | QuizApp.jsx:62-77 | recording an answer appends exactly its record and keeps the earlier ones; a hit keeps lives, raises the streak by one and adds the question's points plus the streak and time bonuses of the session before the answer; a miss costs one life, zeroes the streak and keeps the score; phase, index and timer are untouched |
| QuizSession.HandleAnswer | QuizApp.jsx:56-85 | no list means no change; a fault happens exactly when the current index is outside the list; otherwise exactly one record for the current question is appended, earlier records kept, lives fall by one exactly when that record is a miss, and the session either moves to the next existing question in the same phase or ends on this one |
| QuizSession.Tick | QuizApp.jsx:23-33 | outside the game nothing changes; while playing with more than one second left only the timer falls, by one; the firing that empties the timer is the timeout answer on a timer of 0; a tick that records no answer changes nothing but the timer and never raises it |
| QuizSession.Step | QuizApp.jsx:205-210 | the start button starts a game from the start or end screen; on those screens every other event is ignored; no event leads back to the start screen from anywhere else |
| AnswerLog.CorrectCount | QuizApp.jsx:172 | the end screen's correct count is at most the number of records, and equals it exactly when every record is correct |
| AnswerLog.MissCount | QuizApp.jsx:172 | the records the end screen's filter drops: at most the number of records, and 0 exactly when every record is correct |
| AnswerLog.TrailingRun | QuizApp.jsx:62-70 | the streak measure: the last n records are all correct and, unless the whole log is correct, the record just before them is a miss |
| AnswerLog.CountsPartitionLog | QuizApp.jsx:172 | correct count plus miss count equals the length of the log |
| AnswerLog.CountsAfterAppend | QuizApp.jsx:72-77 | appending one record raises exactly one of the correct and miss counts, by one |
| AnswerLog.TrailingRunAfterAppend | QuizApp.jsx:62-70 | a correct record lengthens the trailing run by one; a miss resets it to 0 |
| TransitionFacts.StartQuizResets | QuizApp.jsx:46-54 | starting gives the same session whatever came before, including a finished game ("Play Again") |
| TransitionFacts.CorrectAnswerScores | QuizApp.jsx:60-66 | a correct answer adds points + floor(streak/2)*5 + floor(timer/10)*2, using the pre-answer streak and timer; the streak grows by 1 and lives are unchanged |
| TransitionFacts.MissCostsALife | QuizApp.jsx:60-70 | a wrong answer or timeout costs exactly one life, resets the streak to 0 and leaves the score unchanged |
| TransitionFacts.AnswerAppendsRecord | QuizApp.jsx:72-77 | the log after an answer is the old log plus exactly one record {question, selected answer, correct answer, whether they match} |
| TransitionFacts.AnswerAdvancesOrEnds | QuizApp.jsx:79-84 | the session advances, with index + 1 and the timer back at 30, exactly when this is not the last question and the answer was right or the pre-answer lives exceeded 1; otherwise the phase becomes end and the index stays |
| TransitionFacts.MissOnLastLifeEnds | QuizApp.jsx:79-84 | a miss with one life left ends the game with 0 lives even when questions remain |
| TransitionFacts.MissWithTwoLivesAdvances | QuizApp.jsx:79-84 | a miss with two lives left and questions remaining moves on, still playing, with one life |
| TransitionFacts.AnswerWithoutQuestionsIsNoOp | QuizApp.jsx:57 | without a question list an answer leaves the session unchanged |
| TransitionFacts.EmptyQuestionListFaults | QuizApp.jsx:59-60 | with an empty list, `handleAnswer` on a started game reads a missing question |
| TransitionFacts.CountdownRunsOut | QuizApp.jsx:25-31 | from t seconds, t - 1 firings leave the session unchanged except for a timer of 1, and firing t is at once the timeout answer on a timer of 0 |
| TransitionFacts.ScoringExample | QuizApp.jsx:62-65 | a correct 10-point answer on a streak of 4 with 25 seconds left adds 24 |
| TransitionFacts.ThreeCorrectAnswersScore53 | QuizApp.jsx:46-84 | three correct 10-point answers given at once score 53 and end the game with three records |
| SessionInvariant.InitialSatisfiesInv | QuizApp.jsx:11-17 | the first render's session satisfies the invariant |
| SessionInvariant.StartQuizKeepsInv | QuizApp.jsx:46-54 | starting from a start or end screen session gives a session satisfying the invariant |
| SessionInvariant.AppendKeepsLogFollowing | QuizApp.jsx:72-77 | the log's i-th record stays the record of the i-th question after the next question's record is appended |
| SessionInvariant.CorrectPointsAfterAppend | QuizApp.jsx:62-65 | the base points earned grow by the question's points exactly when the appended record is correct |
| SessionInvariant.HitCountersMatchLog | QuizApp.jsx:62-66 | after a hit, lives still equal 3 minus the misses, the streak is the new trailing run, and the score still covers the base points |
| SessionInvariant.MissCountersMatchLog | QuizApp.jsx:67-70 | after a miss, lives equal 3 minus the new miss count, the trailing run is 0, and the score still covers the base points |
| SessionInvariant.AnsweredCountersMatchLog | QuizApp.jsx:62-77 | recording an answer keeps lives, streak, timer bound and score floor in step with the log |
| SessionInvariant.HandleAnswerKeepsInv | QuizApp.jsx:56-85 | an answer to an unanswered current question with a life left never faults and keeps the invariant, whatever the timer shows: index below the question count and equal to the log length, lives = 3 minus misses and at least 1 while playing, streak = trailing run; on the end screen, lives at least 0 and the game ended on the last question or at 0 lives |
| SessionInvariant.TickKeepsInv | QuizApp.jsx:23-33 | a countdown firing, timeout answer included, never faults and keeps the invariant, so no game plays on with the timer at 0 |
| SessionInvariant.StepKeepsInv | QuizApp.jsx:205-210 | every event the shown screen can deliver keeps the invariant and never faults |
| SessionInvariant.RunKeepsInv | QuizApp.jsx:46-85 | any sequence of events from an invariant session never faults and ends in an invariant session |
| SessionInvariant.ReachableSessionsAreSound | QuizApp.jsx:46-85 | from the first render with a non-empty list, every reachable session has lives in 0..3, lives 0 only at end, streak equal to the trailing run of correct records, log length equal to the index and a timer in 1..30 while playing, and no more records than questions |
| SessionInvariant.CorrectCountBounded | QuizApp.jsx:172 | the end screen's correct count is at most the number of records, which is at most the number of questions, and equals the records less the lives lost |
| SessionInvariant.CorrectPointsNonNegative | QuizApp.jsx:65 | with non-negative question points, the points of the correctly answered questions are non-negative |
| SessionInvariant.ScoreCoversCorrectPoints | QuizApp.jsx:62-65 | in every session reachable from the first render, the score is at least the points of the correctly answered questions, and never negative when no question has negative points |

## Left out

- Fetching the quiz over HTTP and the loading and error flags (QuizApp.jsx:19-21, 35-44) are network I/O. The question list is a parameter instead, and `None` stands for a document without `questions`.
- Real-time scheduling with `setInterval`/`clearInterval` and React's effect and batching machinery are left out. The countdown is an explicit `Second` event, and sub-second timing offsets are not modelled.
- Two answers delivered from the same render, such as a double click before React re-renders, are left out. Both would read the same stale state. The model delivers events one at a time, each seeing the previous event's result.
- All rendering, icons, styling, the quiz title and the floating-point progress bar (QuizApp.jsx:87-211) are display only. The one exception: which controls each screen offers is kept in `Step`.
- Faults raised while rendering are not modelled. The question screen reads `questions[currentQuestion].question` (QuizApp.jsx:121, 146), so on an empty list the component fails as soon as the game starts. `Step` and `Run` only fault at the first answer or timeout, later than the component does.
- `Choose` accepts any string, not only the current question's options. This is a superset of what the buttons can send, and the invariant holds for all of it.
- Question shape is not validated, as in the source: `correctAnswer` need not be among `options`.
- `points` is assumed to be an integer. The JSON document could hold a non-integer or a string; a string would turn line 65's `+` into concatenation. JavaScript number precision, which is exact only up to 2^53, is not modelled either: scores are unbounded integers.
- main.jsx is build configuration, not program logic; app.jsx is a wrapper with no behaviour.
