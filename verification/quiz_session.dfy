/**
 The quiz component's session transitions as pure functions from the session
 before an event to the session after it.

 React reads `streak`, `timer` and `lives` in `handleAnswer` from the render in
 which the handler was created, so every test and bonus below reads the session
 as it was before the answer, never a value set earlier in the same answer.
 */
module QuizSession {
  import opened QuizTypes

  /** `Math.floor(streak / 2) * 5`: five points for every two answers of the
      streak so far. */
  function StreakBonus(streak: int): (b: int)
    ensures b % 5 == 0
    ensures 2 * (b / 5) <= streak < 2 * (b / 5) + 2
  {
    (streak / 2) * 5
  }

  /** `Math.floor(timer / 10) * 2`: two points for every full ten seconds
      left. */
  function TimeBonus(timer: int): (b: int)
    ensures b % 2 == 0
    ensures 10 * (b / 2) <= timer < 10 * (b / 2) + 10
  {
    (timer / 10) * 2
  }

  /** `startQuiz`: a fresh game, whatever session came before. */
  function StartQuiz(prior: Session): (r: Session)
    ensures r.phase == Playing && r.currentQuestion == 0 && r.score == 0
    ensures r.lives == StartingLives && r.streak == 0
    ensures r.timer == SecondsPerQuestion && r.answers == []
  {
    Session(Playing, 0, 0, StartingLives, [], SecondsPerQuestion, 0)
  }

  /** The session of the page's first render, from the `useState` initial
      values: the start screen over exactly the counters that "Start Quiz"
      sets, so pressing it only changes the screen. */
  function Initial(): (s: Session)
    ensures s.phase == Start
    ensures forall prior :: StartQuiz(prior) == s.(phase := Playing)
  {
    Session(Start, 0, 0, StartingLives, [], SecondsPerQuestion, 0)
  }

  /** Whether `selected` is the right answer; `None` (a timeout) never is. */
  predicate IsCorrect(q: Question, selected: Option<string>)
  {
    selected == Some(q.correctAnswer)
  }

  /** The record an answer to question `q` appends to the log. */
  function RecordFor(q: Question, selected: Option<string>): AnswerRecord
  {
    AnswerRecord(q.question, selected, q.correctAnswer, IsCorrect(q, selected))
  }

  /** The score, streak, lives and log after answering `q`, before the
      session moves on or ends. */
  function Answered(q: Question, s: Session, selected: Option<string>): (r: Session)
    ensures |r.answers| == |s.answers| + 1
    ensures r.answers[..|s.answers|] == s.answers
    ensures r.answers[|s.answers|] == RecordFor(q, selected)
    ensures r.phase == s.phase && r.currentQuestion == s.currentQuestion && r.timer == s.timer
    ensures IsCorrect(q, selected) ==> r.lives == s.lives && r.streak == s.streak + 1
    ensures IsCorrect(q, selected) ==>
      r.score == s.score + q.points + StreakBonus(s.streak) + TimeBonus(s.timer)
    ensures !IsCorrect(q, selected) ==> r.lives == s.lives - 1 && r.streak == 0 && r.score == s.score
  {
    if IsCorrect(q, selected) then
      s.(score := s.score + q.points + StreakBonus(s.streak) + TimeBonus(s.timer),
         streak := s.streak + 1,
         answers := s.answers + [RecordFor(q, selected)])
    else
      s.(lives := s.lives - 1,
         streak := 0,
         answers := s.answers + [RecordFor(q, selected)])
  }

  /** `handleAnswer(selected)`. `questions` is `quizData?.questions`: `None`
      when there is no question list, in which case nothing happens. */
  function HandleAnswer(questions: Option<seq<Question>>, s: Session, selected: Option<string>): (r: Result<Session>)
    ensures questions.None? ==> r == Ok(s)
    ensures questions.Some? ==> (r.Err? <==> s.currentQuestion >= |questions.value|)
    ensures r.Ok? && questions.Some? ==>
      && |r.value.answers| == |s.answers| + 1
      && r.value.answers[..|s.answers|] == s.answers
      && r.value.answers[|s.answers|].question == questions.value[s.currentQuestion].question
      && r.value.lives == s.lives - (if r.value.answers[|s.answers|].isCorrect then 0 else 1)
    ensures r.Ok? && questions.Some? ==>
      || (r.value.phase == s.phase && r.value.currentQuestion == s.currentQuestion + 1 < |questions.value|)
      || (r.value.phase == End && r.value.currentQuestion == s.currentQuestion)
  {
    match questions
    case None => Ok(s)
    case Some(qs) =>
      if s.currentQuestion >= |qs| then Err(MissingQuestion)
      else
        var q := qs[s.currentQuestion];
        var answered := Answered(q, s, selected);
        if s.currentQuestion < |qs| - 1 && (IsCorrect(q, selected) || s.lives > 1) then
          Ok(answered.(currentQuestion := s.currentQuestion + 1, timer := SecondsPerQuestion))
        else
          Ok(answered.(phase := End))
  }

  /** One second of the countdown: the interval fires and lowers the timer,
      and the effect run that this triggers answers with `null` at once when
      the timer has reached 0. Outside the game nothing happens. */
  function Tick(questions: Option<seq<Question>>, s: Session): (r: Result<Session>)
    ensures s.phase != Playing ==> r == Ok(s)
    ensures s.phase == Playing && s.timer > 1 ==> r == Ok(s.(timer := s.timer - 1))
    ensures s.phase == Playing && s.timer == 1 ==> r == HandleAnswer(questions, s.(timer := 0), None)
    ensures s.phase == Playing && s.timer == 0 ==> r == HandleAnswer(questions, s, None)
    ensures r.Ok? && |r.value.answers| == |s.answers| ==>
      r.value == s.(timer := r.value.timer) && r.value.timer <= s.timer
  {
    if s.phase == Playing && s.timer > 0 then
      var counted := s.(timer := s.timer - 1);
      if counted.timer == 0 then HandleAnswer(questions, counted, None) else Ok(counted)
    else if s.timer == 0 && s.phase == Playing then HandleAnswer(questions, s, None)
    else Ok(s)
  }

  /** What the player or the clock can do. */
  datatype Event =
    | PressStart             // "Start Quiz" or "Play Again"
    | Choose(option: string) // an option button of the current question
    | Second                 // one firing of the countdown interval

  /** Delivers an event the way the rendered screen does: the start button
      exists only on the start and end screens, option buttons only while
      playing; the countdown is driven by the effect itself. */
  function Step(questions: Option<seq<Question>>, s: Session, e: Event): (r: Result<Session>)
    ensures e == PressStart && s.phase != Playing ==> r == Ok(StartQuiz(s))
    ensures s.phase != Playing && e != PressStart ==> r == Ok(s)
    ensures r.Ok? && r.value.phase == Start ==> r.value == s
  {
    match e
    case PressStart => if s.phase == Playing then Ok(s) else Ok(StartQuiz(s))
    case Choose(option) => if s.phase == Playing then HandleAnswer(questions, s, Some(option)) else Ok(s)
    case Second => Tick(questions, s)
  }

  /** Delivers the events in order, stopping at the first fault. */
  function Run(questions: Option<seq<Question>>, s: Session, events: seq<Event>): Result<Session>
    decreases |events|
  {
    if events == [] then Ok(s)
    else
      match Step(questions, s, events[0])
      case Err(f) => Err(f)
      case Ok(t) => Run(questions, t, events[1..])
  }

  /** `n` consecutive seconds of the countdown. */
  function Seconds(n: nat): (es: seq<Event>)
    ensures |es| == n
    ensures forall i :: 0 <= i < n ==> es[i] == Second
  {
    if n == 0 then [] else [Second] + Seconds(n - 1)
  }
}
