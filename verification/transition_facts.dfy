/**
 What one call of each transition does to the session.
 */
module TransitionFacts {
  import opened QuizTypes
  import opened QuizSession

  /** "Start Quiz" and "Play Again" give the same fresh session whatever
      came before, including a finished game. */
  lemma StartQuizResets(prior: Session, other: Session)
    ensures StartQuiz(prior) == StartQuiz(other)
  {
  }

  /** A correct answer earns the question's points plus the streak and time
      bonuses of the session before the answer, lengthens the streak and
      costs no life. */
  lemma CorrectAnswerScores(qs: seq<Question>, s: Session, selected: Option<string>)
    requires s.currentQuestion < |qs|
    requires selected == Some(qs[s.currentQuestion].correctAnswer)
    ensures HandleAnswer(Some(qs), s, selected).Ok?
    ensures HandleAnswer(Some(qs), s, selected).value.score
      == s.score + qs[s.currentQuestion].points + (s.streak / 2) * 5 + (s.timer / 10) * 2
    ensures HandleAnswer(Some(qs), s, selected).value.streak == s.streak + 1
    ensures HandleAnswer(Some(qs), s, selected).value.lives == s.lives
  {
  }

  /** A wrong answer or a timeout costs exactly one life, breaks the streak
      and leaves the score alone. */
  lemma MissCostsALife(qs: seq<Question>, s: Session, selected: Option<string>)
    requires s.currentQuestion < |qs|
    requires selected != Some(qs[s.currentQuestion].correctAnswer)
    ensures HandleAnswer(Some(qs), s, selected).Ok?
    ensures HandleAnswer(Some(qs), s, selected).value.lives == s.lives - 1
    ensures HandleAnswer(Some(qs), s, selected).value.streak == 0
    ensures HandleAnswer(Some(qs), s, selected).value.score == s.score
  {
  }

  /** Every answer appends exactly the record of this question to the log
      and keeps the earlier records. */
  lemma AnswerAppendsRecord(qs: seq<Question>, s: Session, selected: Option<string>)
    requires s.currentQuestion < |qs|
    ensures HandleAnswer(Some(qs), s, selected).Ok?
    ensures var q := qs[s.currentQuestion];
      HandleAnswer(Some(qs), s, selected).value.answers
        == s.answers + [AnswerRecord(q.question, selected, q.correctAnswer, selected == Some(q.correctAnswer))]
  {
  }

  /** The session moves to the next question, with a full timer, exactly when
      this is not the last question and the answer was right or the player
      had more than one life before answering; otherwise the game ends on
      this question. */
  lemma AnswerAdvancesOrEnds(qs: seq<Question>, s: Session, selected: Option<string>)
    requires s.currentQuestion < |qs|
    ensures HandleAnswer(Some(qs), s, selected).Ok?
    ensures var r := HandleAnswer(Some(qs), s, selected).value;
      var advance := s.currentQuestion < |qs| - 1
        && (selected == Some(qs[s.currentQuestion].correctAnswer) || s.lives > 1);
      if advance then
        r.phase == s.phase && r.currentQuestion == s.currentQuestion + 1 && r.timer == SecondsPerQuestion
      else
        r.phase == End && r.currentQuestion == s.currentQuestion && r.timer == s.timer
  {
  }

  /** A miss on the last life ends the game even with questions left, because
      the test reads the lives the player had before the miss. */
  lemma MissOnLastLifeEnds(qs: seq<Question>, s: Session, selected: Option<string>)
    requires s.currentQuestion < |qs| - 1
    requires s.lives == 1
    requires selected != Some(qs[s.currentQuestion].correctAnswer)
    ensures HandleAnswer(Some(qs), s, selected).Ok?
    ensures HandleAnswer(Some(qs), s, selected).value.phase == End
    ensures HandleAnswer(Some(qs), s, selected).value.lives == 0
  {
  }

  /** A miss with two lives left moves on to the next question with one. */
  lemma MissWithTwoLivesAdvances(qs: seq<Question>, s: Session, selected: Option<string>)
    requires s.phase == Playing
    requires s.currentQuestion < |qs| - 1
    requires s.lives == 2
    requires selected != Some(qs[s.currentQuestion].correctAnswer)
    ensures HandleAnswer(Some(qs), s, selected).Ok?
    ensures HandleAnswer(Some(qs), s, selected).value.phase == Playing
    ensures HandleAnswer(Some(qs), s, selected).value.lives == 1
  {
  }

  /** Without a question list an answer changes nothing. */
  lemma AnswerWithoutQuestionsIsNoOp(s: Session, selected: Option<string>)
    ensures HandleAnswer(None, s, selected) == Ok(s)
  {
  }

  /** With an empty question list, `handleAnswer` on a started game reads a
      question that does not exist. (In the component the question screen's
      own rendering faults first; rendering is not modelled.) */
  lemma EmptyQuestionListFaults(prior: Session, selected: Option<string>)
    ensures HandleAnswer(Some([]), StartQuiz(prior), selected) == Err(MissingQuestion)
  {
  }

  /** From `t` seconds left, `t - 1` seconds of countdown bring the timer to
      1 and change nothing else; the next second empties it and is at once
      the timeout answer. */
  lemma {:induction false} CountdownRunsOut(questions: Option<seq<Question>>, s: Session, t: nat)
    requires s.phase == Playing && s.timer == t && t >= 1
    ensures Run(questions, s, Seconds(t - 1)) == Ok(s.(timer := 1))
    ensures Run(questions, s, Seconds(t)) == HandleAnswer(questions, s.(timer := 0), None)
    decreases t
  {
    if t == 1 {
      assert s.(timer := 1) == s;
      assert Seconds(1)[1..] == [];
    } else {
      var s1 := s.(timer := t - 1);
      assert Step(questions, s, Second) == Ok(s1);
      assert Seconds(t - 1)[1..] == Seconds(t - 2);
      assert Seconds(t)[1..] == Seconds(t - 1);
      CountdownRunsOut(questions, s1, t - 1);
      assert s1.(timer := 1) == s.(timer := 1);
      assert s1.(timer := 0) == s.(timer := 0);
    }
  }

  /** For instance: a 10-point question answered correctly on a streak of four
      with 25 seconds left earns 10 + 10 + 4. */
  lemma ScoringExample(s: Session)
    requires s.streak == 4 && s.timer == 25 && s.currentQuestion == 0
    ensures HandleAnswer(Some([Question("q", ["a", "b"], "a", 10)]), s, Some("a")).value.score == s.score + 24
  {
  }

  /** Three 10-point questions answered correctly at once score 16, 16 and 21. */
  lemma ThreeCorrectAnswersScore53()
    ensures var q := Question("q", ["a", "b"], "a", 10);
      var r := Run(Some([q, q, q]), Initial(), [PressStart, Choose("a"), Choose("a"), Choose("a")]);
      r.Ok? && r.value.score == 53 && r.value.phase == End && |r.value.answers| == 3
  {
  }
}
