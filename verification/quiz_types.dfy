/**
 The data of a quiz session: the fetched questions, one record per answered
 question, and the session counters the quiz component keeps in its state hooks.
 */
module QuizTypes {

  /** A value that may be absent; `None` stands for JavaScript's `null`. */
  datatype Option<+T> = None | Some(value: T)

  /** One entry of the fetched quiz document's `questions` array. */
  datatype Question = Question(
    question: string,
    options: seq<string>,
    correctAnswer: string,
    points: int)

  /** One entry of the answer log; `selectedAnswer` is `None` on a timeout. */
  datatype AnswerRecord = AnswerRecord(
    question: string,
    selectedAnswer: Option<string>,
    correctAnswer: string,
    isCorrect: bool)

  /** The screen the component shows: 'start', 'playing' or 'end'. */
  datatype Phase = Start | Playing | End

  /** The seven state hooks (of the component's ten) that make up a quiz
      session; the fetched data and the loading and error flags are not here. */
  datatype Session = Session(
    phase: Phase,
    currentQuestion: nat,
    score: int,
    lives: int,
    answers: seq<AnswerRecord>,
    timer: int,
    streak: int)

  /** Reading a property of `questions[currentQuestion]` when that entry does
      not exist throws; this is the only fault the transitions raise. */
  datatype Fault = MissingQuestion

  datatype Result<+T> = Ok(value: T) | Err(fault: Fault)

  const StartingLives: int := 3
  const SecondsPerQuestion: int := 30
}
