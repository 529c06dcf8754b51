/**
 * How both quizzes compare a typed answer with the expected one
 * (src/app/quick-quiz/page.tsx:111, src/app/quiz/page.tsx:107).
 */
module Answers {
  import opened Text

  /** The user's answer is trimmed and lower-cased; the expected answer is only lower-cased. */
  predicate IsCorrectAnswer(userAnswer: string, answer: string) {
    ToLower(Trim(userAnswer)) == ToLower(answer)
  }

  /** Surrounding whitespace and letter case of the user's answer never change the verdict. */
  lemma AnswerNormalisation(userAnswer: string, answer: string)
    ensures IsCorrectAnswer(Trim(userAnswer), answer) == IsCorrectAnswer(userAnswer, answer)
    ensures IsCorrectAnswer(ToLower(userAnswer), answer) == IsCorrectAnswer(userAnswer, answer)
  {
    TrimIdempotent(userAnswer);
    TrimToLower(userAnswer);
    ToLowerIdempotent(Trim(userAnswer));
  }

  /** The expected answer, typed exactly, is accepted whenever it has no surrounding whitespace. */
  lemma ExpectedAnswerAccepted(answer: string)
    requires answer == [] || (!IsSpace(answer[0]) && !IsSpace(answer[|answer| - 1]))
    ensures IsCorrectAnswer(answer, answer)
  {
    TrimNoSpace(answer);
  }

  /** An empty answer matches only an empty expected answer. */
  lemma EmptyAnswer(answer: string)
    ensures IsCorrectAnswer("", answer) <==> answer == ""
  {
    assert Trim("") == "" && ToLower("") == "";
    assert |ToLower(answer)| == |answer|;
  }
}
