/**
 * The timed quick quiz (src/app/quick-quiz/page.tsx): ten questions, thirty seconds each, one
 * hundred points for a right answer plus a speed bonus for answers within ten seconds.
 *
 * Scoring, answer checking and the records the page builds are functions; the page's state is the
 * class `QuickQuizSession`, whose methods are the page's handlers run one after another. The clock,
 * the random draw and the random id suffix are parameters; remote writes are returned to the caller.
 */
module QuickQuiz {
  import opened Wrappers
  import opened Text
  import opened Records
  import opened Sequences
  import QuestionBank
  import opened Answers

  datatype QuizState = Idle | Playing | QuestionAnswered | Finished

  const ScoreCorrect: nat := 100
  const MaxTimeBonusSeconds: nat := 10
  const ScoreTimeBonusPerSecond: nat := 10

  /** Milliseconds per question before an automatic timeout. */
  const TimeLimitMs: nat := QuestionBank.TimePerQuickQuizQuestion * 1000

  /** The highest award for one question: a right answer given at once. */
  const MaxAward: nat := ScoreCorrect + MaxTimeBonusSeconds * ScoreTimeBonusPerSecond

  // ---------------------------------------------------------------------------
  // Grading one answer
  // ---------------------------------------------------------------------------

  /** Time charged for an answer: the full limit on a timeout, otherwise the elapsed time, never negative. */
  function TimeTakenMs(timeout: bool, now: int, startTime: int): (ms: nat)
    ensures timeout ==> ms == TimeLimitMs
    ensures !timeout ==> ms >= now - startTime && (now >= startTime ==> ms == now - startTime)
    ensures !timeout && now < startTime ==> ms == 0
  {
    if timeout then TimeLimitMs else if now - startTime > 0 then now - startTime else 0
  }

  /**
   * Points for an answer taking `ms` milliseconds: nothing if wrong; otherwise one hundred, plus
   * `floor((10 - t) * 10)` for `t = ms / 1000` seconds when `t <= 10`.
   */
  function Award(isCorrect: bool, ms: nat): (points: nat)
    ensures !isCorrect ==> points == 0
    ensures isCorrect ==> ScoreCorrect <= points <= MaxAward
    ensures isCorrect && ms > MaxTimeBonusSeconds * 1000 ==> points == ScoreCorrect
    ensures isCorrect && ms <= MaxTimeBonusSeconds * 1000 ==>
      (points - ScoreCorrect) * 100 <= MaxTimeBonusSeconds * 1000 - ms < (points - ScoreCorrect + 1) * 100
  {
    if !isCorrect then 0
    else if ms <= MaxTimeBonusSeconds * 1000 then ScoreCorrect + (MaxTimeBonusSeconds * 1000 - ms) / 100
    else ScoreCorrect
  }

  /** A faster right answer never earns fewer points. */
  lemma AwardMonotone(ms1: nat, ms2: nat)
    requires ms1 <= ms2
    ensures Award(true, ms1) >= Award(true, ms2)
  {
    if ms2 <= MaxTimeBonusSeconds * 1000 {
      var b1, b2 := Award(true, ms1) - ScoreCorrect, Award(true, ms2) - ScoreCorrect;
      assert b2 * 100 <= MaxTimeBonusSeconds * 1000 - ms1 < (b1 + 1) * 100;
    }
  }

  /**
   * One submitted answer: a timeout is wrong whatever was typed; the typed answer is kept
   * untrimmed.
   */
  function Grade(q: QuizQuestion, userAnswer: string, timeout: bool, now: int, startTime: int): (a: AnsweredQuizQuestion)
    ensures a.question == q && a.userAnswer == userAnswer
    ensures a.isCorrect <==> !timeout && IsCorrectAnswer(userAnswer, q.answer)
    ensures timeout ==> !a.isCorrect && a.scoreAwarded == 0 && a.timeTakenMs == TimeLimitMs
    ensures 0 <= a.scoreAwarded <= MaxAward && a.timeTakenMs >= 0
    ensures a.isCorrect <==> a.scoreAwarded > 0
    ensures a.timeTakenMs == TimeTakenMs(timeout, now, startTime)
    ensures a.scoreAwarded == Award(a.isCorrect, a.timeTakenMs)
  {
    var ms := TimeTakenMs(timeout, now, startTime);
    var correct := !timeout && IsCorrectAnswer(userAnswer, q.answer);
    AnsweredQuizQuestion(q, userAnswer, correct, Award(correct, ms), ms)
  }

  // ---------------------------------------------------------------------------
  // Records written for the signed-in user
  // ---------------------------------------------------------------------------

  /** What the error book shows as the user's attempt: the trimmed answer, or a note that there was none. */
  function AttemptText(userAnswer: string, timeout: bool): (t: string)
    ensures t != []
    ensures Trim(userAnswer) != [] ==> t == Trim(userAnswer)
    ensures Trim(userAnswer) == [] ==> t == if timeout then "(超時未作答)" else "(未作答)"
  {
    OrElse(Some(Trim(userAnswer)), if timeout then "(超時未作答)" else "(未作答)")
  }

  /**
   * The error-book record for a wrong answer, written as `quiz-err-<now>-<tag>` where `tag` is the
   * random suffix: the question text, the right answer with its explanation, and the attempt.
   */
  function ErrorRecord(a: AnsweredQuizQuestion, timeout: bool, uid: string, now: int, tag: string): (item: ProblemHistoryItem)
    ensures item.id == "quiz-err-" + IntToString(now) + "-" + tag
    ensures item.timestamp == now
    ensures item.data.isIncorrectAttempt == Some(true) && item.data.userId == Some(uid)
    ensures item.data.problemStatement == Some(a.question.text)
    ensures item.data.solution == "正確答案：" + a.question.answer + "。解析：" + a.question.explanation
    ensures item.data.userAttempt == Some(AttemptText(a.userAnswer, timeout))
    ensures item.data.problemImageUri.None? && item.data.knowledgePoints.None?
  {
    Entry("quiz-err-" + IntToString(now) + "-" + tag, now,
      ProblemData(None, Some(a.question.text),
        "正確答案：" + a.question.answer + "。解析：" + a.question.explanation,
        None, Some(uid), Some(AttemptText(a.userAnswer, timeout)), Some(true)))
  }

  /** A record is written exactly for a wrong answer of a signed-in user. */
  function ErrorRecordFor(user: Option<User>, a: AnsweredQuizQuestion, timeout: bool, now: int, tag: string): (r: Option<ProblemHistoryItem>)
    ensures r.Some? <==> !a.isCorrect && user.Some?
    ensures r.Some? ==> r.value == ErrorRecord(a, timeout, user.value.uid, now, tag)
  {
    if !a.isCorrect && user.Some? then Some(ErrorRecord(a, timeout, user.value.uid, now, tag)) else None
  }

  /** `email.split('@')[0]`: the text before the first '@'. */
  function BeforeAt(email: string): (r: string)
    ensures |r| <= |email| && r == email[..|r|] && '@' !in r
    ensures |r| < |email| ==> email[|r|] == '@'
  {
    if email == [] || email[0] == '@' then [] else [email[0]] + BeforeAt(email[1..])
  }

  /** The leaderboard name: the display name, else the e-mail's local part, else "匿名玩家"; never empty. */
  function DisplayName(user: User): (name: string)
    ensures name != []
    ensures user.displayName != [] ==> name == user.displayName
    ensures user.displayName == [] && user.email.Some? && BeforeAt(user.email.value) != [] ==>
      name == BeforeAt(user.email.value)
    ensures user.displayName == [] && (user.email.None? || BeforeAt(user.email.value) == []) ==> name == "匿名玩家"
  {
    var local := if user.email.Some? then Some(BeforeAt(user.email.value)) else None;
    OrElse(Some(user.displayName), OrElse(local, "匿名玩家"))
  }

  function LeaderboardEntryFor(user: User, score: int, now: int): (e: LeaderboardEntry)
    ensures e.userId == user.uid && e.displayName == DisplayName(user) && e.score == score && e.timestamp == now
  {
    LeaderboardEntry(user.uid, DisplayName(user), score, now)
  }

  /** A score is sent to the leaderboard only for a signed-in user with a positive score. */
  function Submission(user: Option<User>, score: int, now: int): (s: Option<LeaderboardEntry>)
    ensures s.Some? <==> user.Some? && score > 0
    ensures s.Some? ==> s.value == LeaderboardEntryFor(user.value, score, now)
  {
    if user.Some? && score > 0 then Some(LeaderboardEntryFor(user.value, score, now)) else None
  }

  // ---------------------------------------------------------------------------
  // Totals over the answer log
  // ---------------------------------------------------------------------------

  function TotalAwarded(answers: seq<AnsweredQuizQuestion>): int {
    if answers == [] then 0 else TotalAwarded(answers[..|answers| - 1]) + answers[|answers| - 1].scoreAwarded
  }

  function AnsweredIds(answers: seq<AnsweredQuizQuestion>): (ids: seq<string>)
    ensures |ids| == |answers| && forall i :: 0 <= i < |answers| ==> ids[i] == answers[i].question.id
  {
    seq(|answers|, i requires 0 <= i < |answers| => answers[i].question.id)
  }

  predicate AwardsInRange(answers: seq<AnsweredQuizQuestion>) {
    forall i :: 0 <= i < |answers| ==> 0 <= answers[i].scoreAwarded <= MaxAward
  }

  /** Appending one answer adds exactly its award to the total. */
  lemma TotalAwardedAppend(answers: seq<AnsweredQuizQuestion>, a: AnsweredQuizQuestion)
    ensures TotalAwarded(answers + [a]) == TotalAwarded(answers) + a.scoreAwarded
  {
    assert (answers + [a])[..|answers|] == answers;
  }

  /** The total lies between nothing and the best award for every answer. */
  lemma {:induction false} TotalAwardedBounds(answers: seq<AnsweredQuizQuestion>)
    requires AwardsInRange(answers)
    ensures 0 <= TotalAwarded(answers) <= MaxAward * |answers|
  {
    if answers != [] {
      TotalAwardedBounds(answers[..|answers| - 1]);
    }
  }

  /** The answers shown for review at the end: the wrong ones, in the order given. */
  function IncorrectAnswers(answers: seq<AnsweredQuizQuestion>): (r: seq<AnsweredQuizQuestion>)
    ensures forall i :: 0 <= i < |r| ==> r[i] in answers && !r[i].isCorrect
    ensures forall i :: 0 <= i < |answers| && !answers[i].isCorrect ==> answers[i] in r
  {
    var wrong := (a: AnsweredQuizQuestion) => !a.isCorrect;
    FilterMembers(answers, wrong);
    Filter(answers, wrong)
  }

  // ---------------------------------------------------------------------------
  // The session
  // ---------------------------------------------------------------------------

  /**
   * `score`, `count` and `ids` are the total award, the length and the question ids of an answer
   * log of bank questions, each award within range, at most ten answers.
   */
  ghost predicate LogOf(bank: seq<QuizQuestion>, answers: seq<AnsweredQuizQuestion>, score: int, count: nat, ids: seq<string>) {
    && (forall i :: 0 <= i < |answers| ==> answers[i].question in bank)
    && AwardsInRange(answers)
    && score == TotalAwarded(answers)
    && count == |answers| <= QuestionBank.TotalQuickQuizQuestions
    && ids == AnsweredIds(answers)
  }

  /** Appending a graded bank question below the limit keeps the log consistent. */
  lemma LogAppend(bank: seq<QuizQuestion>, answers: seq<AnsweredQuizQuestion>, score: int, count: nat, ids: seq<string>,
                  a: AnsweredQuizQuestion)
    requires LogOf(bank, answers, score, count, ids) && count < QuestionBank.TotalQuickQuizQuestions
    requires a.question in bank && 0 <= a.scoreAwarded <= MaxAward
    ensures LogOf(bank, answers + [a], score + a.scoreAwarded, count + 1, ids + [a.question.id])
  {
    TotalAwardedAppend(answers, a);
    assert AnsweredIds(answers + [a]) == ids + [a.question.id];
  }

  class QuickQuizSession {
    const bank: seq<QuizQuestion>
    var state: QuizState
    var current: Option<QuizQuestion>
    var userAnswer: string
    var score: int
    var answeredCount: nat
    var answeredIds: seq<string>
    var answers: seq<AnsweredQuizQuestion>
    /** Seconds left on the countdown of the current question. */
    var timeLeft: nat
    /** The clock reading when the current question was shown. */
    var questionStartTime: int

    /**
     * Outside the idle screen the score, the count and the id list are exactly those of the
     * answer log; a question is on screen while playing or showing feedback; a running countdown
     * has between one and thirty seconds left; and a finished quiz has ten answers unless the
     * bank is empty.
     */
    ghost predicate Valid()
      reads this
    {
      && InBank()
      && (state != Idle ==> LogOf(bank, answers, score, answeredCount, answeredIds))
      && (state == Playing ==>
            && current.Some? && answeredCount < QuestionBank.TotalQuickQuizQuestions
            && 1 <= timeLeft <= QuestionBank.TimePerQuickQuizQuestion)
      && (state == QuestionAnswered ==>
            current.Some? && answers != [] && answers[|answers| - 1].question == current.value)
      && (state == Finished ==> answeredCount == QuestionBank.TotalQuickQuizQuestions || bank == [])
    }

    /** The question on screen comes from the bank. */
    ghost predicate InBank()
      reads this
    {
      current.Some? ==> current.value in bank
    }

    constructor(bank: seq<QuizQuestion>)
      ensures Valid()
      ensures this.bank == bank && state == Idle && current.None? && userAnswer == []
      ensures score == 0 && answeredCount == 0 && answeredIds == [] && answers == []
      ensures timeLeft == QuestionBank.TimePerQuickQuizQuestion && questionStartTime == 0
    {
      this.bank := bank;
      state := Idle;
      current := None;
      userAnswer := [];
      score := 0;
      answeredCount := 0;
      answeredIds := [];
      answers := [];
      timeLeft := QuestionBank.TimePerQuickQuizQuestion;
      questionStartTime := 0;
    }

    /**
     * `loadNextQuestion` followed by the countdown effect it triggers: a fresh question not yet
     * answered while fewer than ten have been answered, its countdown restarted at thirty seconds;
     * otherwise the quiz is finished and a positive score is sent for a signed-in user.
     */
    method LoadNextQuestion(user: Option<User>, pick: nat, now: int) returns (submission: Option<LeaderboardEntry>)
      requires InBank() && LogOf(bank, answers, score, answeredCount, answeredIds)
      modifies this
      ensures Valid()
      ensures userAnswer == [] && score == old(score) && answeredCount == old(answeredCount)
      ensures answeredIds == old(answeredIds) && answers == old(answers)
      ensures var next := QuestionBank.RandomQuestion(bank, answeredIds, pick);
        if next.Some? && answeredCount < QuestionBank.TotalQuickQuizQuestions then
          && state == Playing && current == next && submission.None?
          && timeLeft == QuestionBank.TimePerQuickQuizQuestion && questionStartTime == now
        else
          && state == Finished && current == old(current) && submission == Submission(user, score, now)
          && timeLeft == old(timeLeft) && questionStartTime == old(questionStartTime)
    {
      userAnswer := [];
      var next := QuestionBank.RandomQuestion(bank, answeredIds, pick);
      if next.Some? && answeredCount < QuestionBank.TotalQuickQuizQuestions {
        current := next;
        state := Playing;
        timeLeft := QuestionBank.TimePerQuickQuizQuestion;
        questionStartTime := now;
        submission := None;
      } else {
        state := Finished;
        submission := Submission(user, score, now);
      }
    }

    /**
     * `startQuiz`: a new quiz with a clean score, count, id list and answer log; with a non-empty
     * bank it always shows a first question.
     */
    method Start(user: Option<User>, pick: nat, now: int) returns (submission: Option<LeaderboardEntry>)
      requires Valid()
      modifies this
      ensures Valid()
      ensures score == 0 && answeredCount == 0 && answeredIds == [] && answers == [] && userAnswer == []
      ensures bank != [] ==>
        && state == Playing && current == QuestionBank.RandomQuestion(bank, [], pick)
        && timeLeft == QuestionBank.TimePerQuickQuizQuestion && questionStartTime == now
      ensures bank == [] ==> state == Finished
      ensures submission.None?
    {
      score := 0;
      answeredCount := 0;
      answeredIds := [];
      answers := [];
      submission := LoadNextQuestion(user, pick, now);
    }

    /** `handleAnswerChange`: the typed answer, kept as typed. */
    method SetAnswer(text: string)
      requires Valid()
      modifies this
      ensures Valid()
      ensures userAnswer == text
      ensures state == old(state) && current == old(current) && score == old(score)
      ensures answeredCount == old(answeredCount) && answeredIds == old(answeredIds) && answers == old(answers)
      ensures timeLeft == old(timeLeft) && questionStartTime == old(questionStartTime)
    {
      userAnswer := text;
    }

    /**
     * `handleAnswerSubmit(timeout)`: only while a question is being played. The answer is graded,
     * its award added to the score, the count raised by one and the question's id and the graded
     * answer appended; a wrong answer of a signed-in user yields an error-book record.
     */
    method Submit(user: Option<User>, timeout: bool, now: int, tag: string) returns (record: Option<ProblemHistoryItem>)
      requires Valid()
      modifies this
      ensures Valid()
      ensures old(state) != Playing || old(current).None? ==>
        unchanged(this) && record.None?
      ensures old(state) == Playing && old(current).Some? ==>
        var a := Grade(old(current).value, old(userAnswer), timeout, now, old(questionStartTime));
        && state == QuestionAnswered && current == old(current) && userAnswer == old(userAnswer)
        && score == old(score) + a.scoreAwarded
        && answeredCount == old(answeredCount) + 1
        && answeredIds == old(answeredIds) + [a.question.id]
        && answers == old(answers) + [a]
        && timeLeft == old(timeLeft) && questionStartTime == old(questionStartTime)
        && record == ErrorRecordFor(user, a, timeout, now, tag)
    {
      if state != Playing || current.None? {
        return None;
      }
      var a := Grade(current.value, userAnswer, timeout, now, questionStartTime);
      RecordAnswer(a);
      record := ErrorRecordFor(user, a, timeout, now, tag);
    }

    /** The state updates of a submit: feedback is shown and the graded answer joins the log. */
    method RecordAnswer(a: AnsweredQuizQuestion)
      requires Valid() && state == Playing && current == Some(a.question) && 0 <= a.scoreAwarded <= MaxAward
      modifies this
      ensures Valid()
      ensures && state == QuestionAnswered && current == old(current) && userAnswer == old(userAnswer)
              && score == old(score) + a.scoreAwarded
              && answeredCount == old(answeredCount) + 1
              && answeredIds == old(answeredIds) + [a.question.id]
              && answers == old(answers) + [a]
              && timeLeft == old(timeLeft) && questionStartTime == old(questionStartTime)
    {
      var answers', score', ids' := answers + [a], score + a.scoreAwarded, answeredIds + [a.question.id];
      LogAppend(bank, answers, score, answeredCount, answeredIds, a);
      assert answers'[|answers'| - 1] == a;
      state, score, answeredCount, answeredIds, answers := QuestionAnswered, score', answeredCount + 1, ids', answers';
    }

    /**
     * One second of the countdown while a question is played: the last second times the question
     * out, which submits it; any other second takes one off the clock. The interval calls the submit
     * handler of the render that loaded the question, whose typed answer was still empty: a timeout
     * grades and records the empty answer, whatever has been typed since.
     */
    method Tick(user: Option<User>, now: int, tag: string) returns (record: Option<ProblemHistoryItem>)
      requires Valid()
      modifies this
      ensures Valid()
      ensures old(state) != Playing ==> unchanged(this) && record.None?
      ensures old(state) == Playing && old(timeLeft) > 1 ==>
        && timeLeft == old(timeLeft) - 1 && state == Playing && record.None?
        && current == old(current) && userAnswer == old(userAnswer) && score == old(score) && answers == old(answers)
        && answeredCount == old(answeredCount) && answeredIds == old(answeredIds)
        && questionStartTime == old(questionStartTime)
      ensures old(state) == Playing && old(timeLeft) <= 1 ==>
        var a := Grade(old(current).value, "", true, now, old(questionStartTime));
        && timeLeft == 0 && state == QuestionAnswered
        && current == old(current) && userAnswer == old(userAnswer)
        && score == old(score)
        && answeredCount == old(answeredCount) + 1
        && answeredIds == old(answeredIds) + [old(current).value.id]
        && answers == old(answers) + [a]
        && questionStartTime == old(questionStartTime)
        && record == ErrorRecordFor(user, a, true, now, tag)
    {
      record := None;
      if state == Playing {
        if timeLeft <= 1 {
          var a := Grade(current.value, "", true, now, questionStartTime);
          RecordAnswer(a);
          record := ErrorRecordFor(user, a, true, now, tag);
          timeLeft := 0;
        } else {
          timeLeft := timeLeft - 1;
        }
      }
    }

    /**
     * What runs two seconds after a submit: the next question while fewer than ten are answered,
     * otherwise the end of the quiz, sending a positive final score for a signed-in user.
     */
    method Continue(user: Option<User>, pick: nat, now: int) returns (submission: Option<LeaderboardEntry>)
      requires Valid() && state == QuestionAnswered
      modifies this
      ensures Valid()
      ensures score == old(score) && answeredCount == old(answeredCount) && answers == old(answers)
      ensures answeredIds == old(answeredIds)
      ensures old(answeredCount) < QuestionBank.TotalQuickQuizQuestions ==>
        && state == Playing && submission.None? && current == QuestionBank.RandomQuestion(bank, answeredIds, pick)
        && userAnswer == [] && timeLeft == QuestionBank.TimePerQuickQuizQuestion && questionStartTime == now
      ensures old(answeredCount) >= QuestionBank.TotalQuickQuizQuestions ==>
        && state == Finished && submission == Submission(user, score, now)
        && current == old(current) && userAnswer == old(userAnswer)
        && timeLeft == old(timeLeft) && questionStartTime == old(questionStartTime)
    {
      if answeredCount < QuestionBank.TotalQuickQuizQuestions {
        submission := LoadNextQuestion(user, pick, now);
      } else {
        state := Finished;
        submission := Submission(user, score, now);
      }
    }

    /** `resetQuiz`: back to the start screen; the score, count and id list are left as they were. */
    method Reset()
      requires Valid()
      modifies this
      ensures Valid()
      ensures state == Idle && current.None? && answers == []
      ensures userAnswer == old(userAnswer) && score == old(score) && answeredCount == old(answeredCount)
      ensures answeredIds == old(answeredIds)
      ensures timeLeft == old(timeLeft) && questionStartTime == old(questionStartTime)
    {
      state := Idle;
      current := None;
      answers := [];
    }
  }

  /** A finished quiz scores at most the best award for each of its ten questions. */
  lemma FinalScoreBounds(s: QuickQuizSession)
    requires s.Valid() && s.state == Finished
    ensures 0 <= s.score <= MaxAward * QuestionBank.TotalQuickQuizQuestions
  {
    TotalAwardedBounds(s.answers);
  }

  // ---------------------------------------------------------------------------
  // startQuiz as written
  // ---------------------------------------------------------------------------

  /** What `startQuiz` as written does: its resets do not reach the `loadNextQuestion` of the same render. */
  datatype StartOutcome = StartOutcome(state: QuizState, submission: Option<LeaderboardEntry>)

  /**
   * `startQuiz` as written: `loadNextQuestion` reads the count, score and id list of the render in
   * which the button was pressed, before the resets to zero take effect.
   */
  function StartAsWritten(bank: seq<QuizQuestion>, user: Option<User>, renderedCount: nat, renderedScore: int,
                          renderedIds: seq<string>, pick: nat, now: int): (o: StartOutcome)
    ensures renderedCount >= QuestionBank.TotalQuickQuizQuestions ==>
      o == StartOutcome(Finished, Submission(user, renderedScore, now))
    ensures renderedCount < QuestionBank.TotalQuickQuizQuestions && bank != [] ==> o == StartOutcome(Playing, None)
  {
    var next := QuestionBank.RandomQuestion(bank, renderedIds, pick);
    if next.Some? && renderedCount < QuestionBank.TotalQuickQuizQuestions then StartOutcome(Playing, None)
    else StartOutcome(Finished, Submission(user, renderedScore, now))
  }

  /**
   * Playing again after a full quiz: "再玩一次" only resets the screen, so the count is still ten
   * and the new quiz ends at once, sending the previous score to the leaderboard a second time.
   */
  lemma PlayAgainEndsAtOnce(bank: seq<QuizQuestion>, user: User, s: QuickQuizSession, pick: nat, now: int)
    requires s.Valid() && s.state == Finished && s.bank == bank && bank != [] && s.score > 0
    ensures var o := StartAsWritten(bank, Some(user), s.answeredCount, s.score, s.answeredIds, pick, now);
      o.state == Finished && o.submission == Some(LeaderboardEntryFor(user, s.score, now))
  {
  }
}
