/**
 Counting over the answer log: how many answers were correct, how many were
 missed, and how long the run of correct answers at its end is.
 */
module AnswerLog {
  import opened QuizTypes

  /** The end screen's `answers.filter(a => a.isCorrect).length`. */
  function CorrectCount(log: seq<AnswerRecord>): (n: nat)
    ensures n <= |log|
    ensures n == |log| <==> forall i :: 0 <= i < |log| ==> log[i].isCorrect
  {
    if log == [] then 0
    else (if log[0].isCorrect then 1 else 0) + CorrectCount(log[1..])
  }

  /** The number of wrong or timed-out answers in the log: the records the
      end screen's filter drops. */
  function MissCount(log: seq<AnswerRecord>): (n: nat)
    ensures n <= |log|
    ensures n == 0 <==> forall i :: 0 <= i < |log| ==> log[i].isCorrect
  {
    if log == [] then 0
    else (if log[0].isCorrect then 0 else 1) + MissCount(log[1..])
  }

  /** The number of consecutive correct answers at the end of the log. */
  function TrailingRun(log: seq<AnswerRecord>): (n: nat)
    ensures n <= |log|
    ensures forall i :: |log| - n <= i < |log| ==> log[i].isCorrect
    ensures n < |log| ==> !log[|log| - 1 - n].isCorrect
  {
    if log == [] then 0
    else if log[|log| - 1].isCorrect then TrailingRun(log[..|log| - 1]) + 1
    else 0
  }

  /** Every record is either a hit or a miss. */
  lemma {:induction false} CountsPartitionLog(log: seq<AnswerRecord>)
    ensures CorrectCount(log) + MissCount(log) == |log|
  {
    if log != [] {
      CountsPartitionLog(log[1..]);
    }
  }

  /** Appending one record adds it to exactly one of the two counts. */
  lemma {:induction false} CountsAfterAppend(log: seq<AnswerRecord>, rec: AnswerRecord)
    ensures CorrectCount(log + [rec]) == CorrectCount(log) + (if rec.isCorrect then 1 else 0)
    ensures MissCount(log + [rec]) == MissCount(log) + (if rec.isCorrect then 0 else 1)
  {
    if log != [] {
      assert (log + [rec])[1..] == log[1..] + [rec];
      CountsAfterAppend(log[1..], rec);
    }
  }

  /** A correct answer lengthens the trailing run by one; a miss ends it. */
  lemma TrailingRunAfterAppend(log: seq<AnswerRecord>, rec: AnswerRecord)
    ensures TrailingRun(log + [rec]) == (if rec.isCorrect then TrailingRun(log) + 1 else 0)
  {
    assert (log + [rec])[..|log|] == log;
  }
}
