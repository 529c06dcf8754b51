/**
 * The shapes of the application's records (src/types/index.ts), the signed-in user as the pages
 * see it, and the browser's local storage slot that holds one serialised value.
 */
module Records {
  import opened Wrappers

  datatype QuestionType = Calculation | FillInTheBlank | SingleChoice

  datatype Difficulty = Easy | Medium | Hard

  /** A catalogue question; for single-choice questions `answer` is the text of the right option. */
  datatype QuizQuestion = QuizQuestion(
    id: string,
    text: string,
    topic: string,
    questionType: QuestionType,
    answer: string,
    options: Option<seq<string>>,
    correctOptionIndex: Option<int>,
    explanation: string,
    difficulty: Option<Difficulty>)

  /** One answered quick-quiz question; the time taken is kept in whole milliseconds. */
  datatype AnsweredQuizQuestion = AnsweredQuizQuestion(
    question: QuizQuestion, userAnswer: string, isCorrect: bool, scoreAwarded: int, timeTakenMs: int)

  /** One graded themed-quiz question. */
  datatype AnsweredThemedQuizQuestion = AnsweredThemedQuizQuestion(
    question: QuizQuestion, userAnswerText: string, isCorrect: bool)

  /** The signed-in user: `displayName` is "" where the account has none. */
  datatype User = User(uid: string, displayName: string, email: Option<string>)

  datatype LeaderboardEntry = LeaderboardEntry(userId: string, displayName: string, score: int, timestamp: int)

  /** A history item: an identifier, a creation time in epoch milliseconds and its payload. */
  datatype Entry<P> = Entry(id: string, timestamp: int, data: P)

  /** The payload of a solved (or wrongly answered) problem. */
  datatype ProblemData = ProblemData(
    problemImageUri: Option<string>,
    problemStatement: Option<string>,
    solution: string,
    knowledgePoints: Option<string>,
    userId: Option<string>,
    userAttempt: Option<string>,
    isIncorrectAttempt: Option<bool>)

  type ProblemHistoryItem = Entry<ProblemData>

  /** The payload of a knowledge-point summary. */
  datatype KnowledgeData = KnowledgeData(knowledgePoints: string)

  type KnowledgeNookHistoryItem = Entry<KnowledgeData>

  datatype Flashcard = Flashcard(id: string, term: string, definition: string, details: Option<string>, imageUrl: Option<string>)

  datatype FlashcardSet = FlashcardSet(id: string, title: string, description: Option<string>, cards: seq<Flashcard>)

  /** A local-storage slot: nothing stored, text that does not parse, or a parsed value. */
  datatype Cached<T> = Absent | Corrupt | Present(value: T)

  /** JavaScript truthiness of an optional string: absent and empty are both false. */
  predicate Truthy(s: Option<string>) {
    s.Some? && s.value != ""
  }

  /** JavaScript's `s || fallback` for an optional string: the empty string counts as missing. */
  function OrElse(s: Option<string>, fallback: string): (r: string)
    ensures r == fallback || (s.Some? && r == s.value && r != "")
    ensures s.Some? && s.value != "" ==> r == s.value
  {
    if s.Some? && s.value != "" then s.value else fallback
  }
}
