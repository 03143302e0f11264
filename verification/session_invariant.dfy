/**
 The invariant of every session the quiz can reach from the page's first
 render with a non-empty question list, and its consequences: lives stay in
 0..3 and reach 0 only on the end screen, the streak is the run of correct
 answers at the end of the log, and the log records the questions in order.
 */
module SessionInvariant {
  import opened QuizTypes
  import opened AnswerLog
  import opened QuizSession

  /** The points of the correctly answered questions, without bonuses. */
  function CorrectPoints(qs: seq<Question>, log: seq<AnswerRecord>): int
    requires |log| <= |qs|
  {
    if log == [] then 0
    else
      var last := if log[|log| - 1].isCorrect then qs[|log| - 1].points else 0;
      CorrectPoints(qs, log[..|log| - 1]) + last
  }

  /** The i-th record was made by answering the i-th question. */
  predicate LogFollowsQuestions(qs: seq<Question>, log: seq<AnswerRecord>)
  {
    && |log| <= |qs|
    && forall i :: 0 <= i < |log| ==>
         && log[i].question == qs[i].question
         && log[i].correctAnswer == qs[i].correctAnswer
         && log[i].isCorrect == (log[i].selectedAnswer == Some(qs[i].correctAnswer))
  }

  /** What the counters owe to the log, in every phase after the first start. */
  predicate CountersMatchLog(qs: seq<Question>, s: Session)
  {
    && LogFollowsQuestions(qs, s.answers)
    && s.lives == StartingLives - MissCount(s.answers)
    && s.streak == TrailingRun(s.answers)
    && 0 <= s.timer <= SecondsPerQuestion
    && s.score >= CorrectPoints(qs, s.answers)
  }

  /** A game in progress whose current question exists and has not yet been
      answered, with a life left. */
  predicate Answerable(qs: seq<Question>, s: Session)
  {
    && s.phase == Playing
    && CountersMatchLog(qs, s)
    && s.currentQuestion < |qs|
    && |s.answers| == s.currentQuestion
    && s.lives >= 1
  }

  predicate Inv(qs: seq<Question>, s: Session)
  {
    && |qs| > 0
    && match s.phase
       case Start => s == Initial()
       case Playing => Answerable(qs, s) && s.timer >= 1
       case End =>
         && CountersMatchLog(qs, s)
         && |s.answers| == s.currentQuestion + 1
         && s.lives >= 0
         && (|s.answers| == |qs| || s.lives == 0)
  }

  /** The first render, before any button is pressed. */
  lemma InitialSatisfiesInv(qs: seq<Question>)
    requires |qs| > 0
    ensures Inv(qs, Initial())
  {
  }

  /** Starting a game from the start or end screen gives an invariant session. */
  lemma StartQuizKeepsInv(qs: seq<Question>, s: Session)
    requires Inv(qs, s)
    ensures Inv(qs, StartQuiz(s))
  {
  }

  /** Answering the next question keeps the log in step with the questions. */
  lemma AppendKeepsLogFollowing(qs: seq<Question>, log: seq<AnswerRecord>, selected: Option<string>)
    requires LogFollowsQuestions(qs, log) && |log| < |qs|
    ensures LogFollowsQuestions(qs, log + [RecordFor(qs[|log|], selected)])
  {
    var log' := log + [RecordFor(qs[|log|], selected)];
    forall i | 0 <= i < |log'|
      ensures log'[i].question == qs[i].question
      ensures log'[i].correctAnswer == qs[i].correctAnswer
      ensures log'[i].isCorrect == (log'[i].selectedAnswer == Some(qs[i].correctAnswer))
    {
      if i < |log| {
        assert log'[i] == log[i];
      }
    }
  }

  /** A correct answer to the next question adds its points to the total. */
  lemma CorrectPointsAfterAppend(qs: seq<Question>, log: seq<AnswerRecord>, rec: AnswerRecord)
    requires |log| < |qs|
    ensures CorrectPoints(qs, log + [rec])
      == CorrectPoints(qs, log) + (if rec.isCorrect then qs[|log|].points else 0)
  {
    assert (log + [rec])[..|log|] == log;
  }

  /** Recording an answer to the current question keeps the counters in step
      with the log. */
  lemma AnsweredCountersMatchLog(qs: seq<Question>, s: Session, selected: Option<string>)
    requires CountersMatchLog(qs, s) && |s.answers| < |qs|
    ensures CountersMatchLog(qs, Answered(qs[|s.answers|], s, selected))
  {
    var q := qs[|s.answers|];
    var rec := RecordFor(q, selected);
    var a := Answered(q, s, selected);
    AppendKeepsLogFollowing(qs, s.answers, selected);
    assert a.answers == s.answers + [rec] && a.timer == s.timer;
    if rec.isCorrect {
      HitCountersMatchLog(qs, s, rec);
      assert a.lives == s.lives && a.streak == s.streak + 1;
      assert a.score == s.score + q.points + StreakBonus(s.streak) + TimeBonus(s.timer);
    } else {
      MissCountersMatchLog(qs, s, rec);
      assert a.lives == s.lives - 1 && a.streak == 0 && a.score == s.score;
    }
  }

  /** Proof helper: the bonuses of a non-negative streak and timer are never
      negative. */
  lemma BonusesNonNegative(streak: int, timer: int)
    requires streak >= 0 && timer >= 0
    ensures StreakBonus(streak) >= 0 && TimeBonus(timer) >= 0
  {
  }

  lemma HitCountersMatchLog(qs: seq<Question>, s: Session, rec: AnswerRecord)
    requires CountersMatchLog(qs, s) && |s.answers| < |qs| && rec.isCorrect
    ensures var gain := qs[|s.answers|].points + StreakBonus(s.streak) + TimeBonus(s.timer);
      && StartingLives - MissCount(s.answers + [rec]) == s.lives
      && TrailingRun(s.answers + [rec]) == s.streak + 1
      && CorrectPoints(qs, s.answers + [rec]) <= s.score + gain
  {
    CountsAfterAppend(s.answers, rec);
    TrailingRunAfterAppend(s.answers, rec);
    CorrectPointsAfterAppend(qs, s.answers, rec);
    BonusesNonNegative(s.streak, s.timer);
  }

  lemma MissCountersMatchLog(qs: seq<Question>, s: Session, rec: AnswerRecord)
    requires CountersMatchLog(qs, s) && |s.answers| < |qs| && !rec.isCorrect
    ensures StartingLives - MissCount(s.answers + [rec]) == s.lives - 1
    ensures TrailingRun(s.answers + [rec]) == 0
    ensures CorrectPoints(qs, s.answers + [rec]) <= s.score
  {
    CountsAfterAppend(s.answers, rec);
    TrailingRunAfterAppend(s.answers, rec);
    CorrectPointsAfterAppend(qs, s.answers, rec);
  }

  /** An answer while playing never faults and keeps the invariant, whatever
      the timer shows. */
  lemma HandleAnswerKeepsInv(qs: seq<Question>, s: Session, selected: Option<string>)
    requires Answerable(qs, s)
    ensures HandleAnswer(Some(qs), s, selected).Ok?
    ensures Inv(qs, HandleAnswer(Some(qs), s, selected).value)
  {
    var q := qs[s.currentQuestion];
    var answered := Answered(q, s, selected);
    AnsweredCountersMatchLog(qs, s, selected);
    assert |answered.answers| == s.currentQuestion + 1;
    assert answered.lives == s.lives - (if IsCorrect(q, selected) then 0 else 1);
    var r := HandleAnswer(Some(qs), s, selected).value;
    if s.currentQuestion < |qs| - 1 && (IsCorrect(q, selected) || s.lives > 1) {
      assert r == answered.(currentQuestion := s.currentQuestion + 1, timer := SecondsPerQuestion);
      assert CountersMatchLog(qs, r);
    } else {
      assert r == answered.(phase := End);
    }
  }

  /** One second of the countdown, timeout included, keeps the invariant and
      never faults; in particular no session plays on with the timer at 0. */
  lemma TickKeepsInv(qs: seq<Question>, s: Session)
    requires Inv(qs, s)
    ensures Tick(Some(qs), s).Ok?
    ensures Inv(qs, Tick(Some(qs), s).value)
  {
    if s.phase == Playing && s.timer == 1 {
      HandleAnswerKeepsInv(qs, s.(timer := 0), None);
    }
  }

  /** Every event the screens can deliver keeps the invariant and never faults. */
  lemma StepKeepsInv(qs: seq<Question>, s: Session, e: Event)
    requires Inv(qs, s)
    ensures Step(Some(qs), s, e).Ok?
    ensures Inv(qs, Step(Some(qs), s, e).value)
  {
    match e
    case PressStart =>
      if s.phase != Playing {
        StartQuizKeepsInv(qs, s);
      }
    case Choose(option) =>
      if s.phase == Playing {
        HandleAnswerKeepsInv(qs, s, Some(option));
      }
    case Second =>
      TickKeepsInv(qs, s);
  }

  lemma {:induction false} RunKeepsInv(qs: seq<Question>, s: Session, events: seq<Event>)
    requires Inv(qs, s)
    ensures Run(Some(qs), s, events).Ok?
    ensures Inv(qs, Run(Some(qs), s, events).value)
    decreases |events|
  {
    if events != [] {
      StepKeepsInv(qs, s, events[0]);
      RunKeepsInv(qs, Step(Some(qs), s, events[0]).value, events[1..]);
    }
  }

  /** In every session reachable from the first render: no fault, lives in
      0..3 and 0 only on the end screen, the streak is the trailing run of
      correct answers, and while playing the log has one record per question
      already shown and the timer has not run out. */
  lemma ReachableSessionsAreSound(qs: seq<Question>, events: seq<Event>)
    requires |qs| > 0
    ensures Run(Some(qs), Initial(), events).Ok?
    ensures var s := Run(Some(qs), Initial(), events).value;
      && 0 <= s.lives <= StartingLives
      && (s.lives == 0 ==> s.phase == End)
      && s.streak == TrailingRun(s.answers)
      && (s.phase == Playing ==> |s.answers| == s.currentQuestion < |qs|)
      && (s.phase == Playing ==> 1 <= s.timer <= SecondsPerQuestion)
      && |s.answers| <= |qs|
  {
    InitialSatisfiesInv(qs);
    RunKeepsInv(qs, Initial(), events);
  }

  /** The end screen's "You answered n out of N": n never exceeds the number
      of questions and equals the answers given less the lives lost. */
  lemma CorrectCountBounded(qs: seq<Question>, s: Session)
    requires Inv(qs, s)
    ensures CorrectCount(s.answers) <= |s.answers| <= |qs|
    ensures s.phase != Start ==>
      CorrectCount(s.answers) == |s.answers| - (StartingLives - s.lives)
  {
    CountsPartitionLog(s.answers);
  }

  /** With non-negative question points, so are the base points earned. */
  lemma {:induction false} CorrectPointsNonNegative(qs: seq<Question>, log: seq<AnswerRecord>)
    requires |log| <= |qs|
    requires forall i :: 0 <= i < |qs| ==> qs[i].points >= 0
    ensures CorrectPoints(qs, log) >= 0
    decreases |log|
  {
    if log != [] {
      CorrectPointsNonNegative(qs, log[..|log| - 1]);
    }
  }

  /** In every reachable session the score is at least the points of the
      correctly answered questions, since the bonuses never subtract; so with
      non-negative question points the score is never negative. */
  lemma ScoreCoversCorrectPoints(qs: seq<Question>, events: seq<Event>)
    requires |qs| > 0
    ensures Run(Some(qs), Initial(), events).Ok?
    ensures var s := Run(Some(qs), Initial(), events).value;
      && |s.answers| <= |qs|
      && s.score >= CorrectPoints(qs, s.answers)
      && ((forall i :: 0 <= i < |qs| ==> qs[i].points >= 0) ==> s.score >= 0)
  {
    InitialSatisfiesInv(qs);
    RunKeepsInv(qs, Initial(), events);
    var s := Run(Some(qs), Initial(), events).value;
    if forall i :: 0 <= i < |qs| ==> qs[i].points >= 0 {
      CorrectPointsNonNegative(qs, s.answers);
    }
  }
}
