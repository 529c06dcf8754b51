/**
 * The themed quiz (src/app/quiz/page.tsx): five shuffled questions of one topic, answered one
 * after another and graded together, with the last result per topic kept in local storage.
 */
module ThemedQuiz {
  import opened Wrappers
  import opened Text
  import opened Records
  import opened Answers
  import QuestionBank

  datatype QuizStep = TopicSelection | InProgress | Results

  const QuestionsPerThemedQuiz: nat := 5

  datatype TopicProgress = TopicProgress(score: int, totalQuestions: int, isPerfect: bool)

  datatype QuizResults = QuizResults(score: nat, answeredQuestions: seq<AnsweredThemedQuizQuestion>)

  // ---------------------------------------------------------------------------
  // Grading
  // ---------------------------------------------------------------------------

  /** `userAnswers[id] || ""`: an answer never given counts as the empty answer. */
  function AnswerText(userAnswers: map<string, string>, id: string): (t: string)
    ensures id in userAnswers ==> t == userAnswers[id]
    ensures id !in userAnswers ==> t == ""
  {
    if id in userAnswers then userAnswers[id] else ""
  }

  /** A chosen option must be exactly the expected text; a typed answer is compared trimmed and lower-cased. */
  predicate IsCorrect(q: QuizQuestion, text: string) {
    if q.questionType == SingleChoice then text == q.answer else IsCorrectAnswer(text, q.answer)
  }

  function Grade(q: QuizQuestion, userAnswers: map<string, string>): (a: AnsweredThemedQuizQuestion)
    ensures a.question == q && a.userAnswerText == AnswerText(userAnswers, q.id)
    ensures a.isCorrect <==> IsCorrect(q, AnswerText(userAnswers, q.id))
  {
    var text := AnswerText(userAnswers, q.id);
    AnsweredThemedQuizQuestion(q, text, IsCorrect(q, text))
  }

  /** A question left unanswered is graded as the empty answer: right only if the expected answer is empty. */
  lemma UnansweredIsWrong(q: QuizQuestion, userAnswers: map<string, string>)
    requires q.id !in userAnswers
    ensures Grade(q, userAnswers).isCorrect <==> q.answer == ""
  {
    assert AnswerText(userAnswers, q.id) == "";
    EmptyAnswer(q.answer);
  }

  /** The per-question verdicts of a quiz, in quiz order. */
  function GradeAll(quiz: seq<QuizQuestion>, userAnswers: map<string, string>): (r: seq<AnsweredThemedQuizQuestion>)
    ensures |r| == |quiz| && forall i :: 0 <= i < |quiz| ==> r[i] == Grade(quiz[i], userAnswers)
  {
    seq(|quiz|, i requires 0 <= i < |quiz| => Grade(quiz[i], userAnswers))
  }

  /** How many verdicts are right. */
  function CorrectCount(answered: seq<AnsweredThemedQuizQuestion>): nat {
    if answered == [] then 0
    else CorrectCount(answered[..|answered| - 1]) + (if answered[|answered| - 1].isCorrect then 1 else 0)
  }

  /** The score is at most the number of questions, and equal to it exactly when every answer is right. */
  lemma {:induction false} CorrectCountBounds(answered: seq<AnsweredThemedQuizQuestion>)
    ensures CorrectCount(answered) <= |answered|
    ensures CorrectCount(answered) == |answered| <==> forall i :: 0 <= i < |answered| ==> answered[i].isCorrect
  {
    if answered != [] {
      var init := answered[..|answered| - 1];
      CorrectCountBounds(init);
      assert forall i :: 0 <= i < |init| ==> init[i] == answered[i];
    }
  }

  /** No right answer gives a score of zero. */
  lemma {:induction false} CorrectCountZero(answered: seq<AnsweredThemedQuizQuestion>)
    ensures CorrectCount(answered) == 0 <==> forall i :: 0 <= i < |answered| ==> !answered[i].isCorrect
  {
    if answered != [] {
      var init := answered[..|answered| - 1];
      CorrectCountZero(init);
      assert forall i :: 0 <= i < |init| ==> init[i] == answered[i];
    }
  }

  /** `submitQuiz`'s grading pass: one verdict per question, adding one to the score per right answer. */
  method ScoreQuiz(quiz: seq<QuizQuestion>, userAnswers: map<string, string>) returns (score: nat, answered: seq<AnsweredThemedQuizQuestion>)
    ensures answered == GradeAll(quiz, userAnswers)
    ensures score == CorrectCount(answered)
  {
    score := 0;
    answered := [];
    var i := 0;
    while i < |quiz|
      invariant 0 <= i <= |quiz|
      invariant answered == GradeAll(quiz[..i], userAnswers)
      invariant score == CorrectCount(answered)
    {
      var a := Grade(quiz[i], userAnswers);
      if a.isCorrect {
        score := score + 1;
      }
      assert (answered + [a])[..|answered|] == answered;
      answered := answered + [a];
      i := i + 1;
      assert quiz[..i][..i - 1] == quiz[..i - 1];
    }
    assert quiz[..i] == quiz;
  }

  /** Perfect means a non-empty quiz with every answer right. */
  predicate IsPerfect(score: nat, total: nat) {
    score == total && total > 0
  }

  lemma PerfectMeansAllCorrect(quiz: seq<QuizQuestion>, userAnswers: map<string, string>)
    ensures var answered := GradeAll(quiz, userAnswers);
      IsPerfect(CorrectCount(answered), |quiz|) <==>
        |quiz| > 0 && forall i :: 0 <= i < |quiz| ==> IsCorrect(quiz[i], AnswerText(userAnswers, quiz[i].id))
  {
    var answered := GradeAll(quiz, userAnswers);
    CorrectCountBounds(answered);
  }

  /** Recording a topic's result overwrites that topic's entry and no other. */
  function WithProgress(progress: map<string, TopicProgress>, topic: string, p: TopicProgress): (r: map<string, TopicProgress>)
    ensures r.Keys == progress.Keys + {topic} && r[topic] == p
    ensures forall t :: t in progress && t != topic ==> r[t] == progress[t]
  {
    progress[topic := p]
  }

  // ---------------------------------------------------------------------------
  // Error-book records
  // ---------------------------------------------------------------------------

  /** The record for a wrong answer: `themedquiz-err-<now>-<question id>`, the untrimmed attempt or "(未作答)". */
  function ErrorRecord(a: AnsweredThemedQuizQuestion, uid: string, now: int): (item: ProblemHistoryItem)
    ensures item.timestamp == now && item.data.isIncorrectAttempt == Some(true) && item.data.userId == Some(uid)
    ensures item.data.problemStatement == Some(a.question.text)
    ensures item.data.userAttempt == Some(OrElse(Some(a.userAnswerText), "(未作答)"))
    ensures item.id == "themedquiz-err-" + IntToString(now) + "-" + a.question.id
    ensures item.data.solution == "正確答案：" + a.question.answer + "。\n解析：" + a.question.explanation
    ensures item.data.problemImageUri.None? && item.data.knowledgePoints.None?
  {
    Entry("themedquiz-err-" + IntToString(now) + "-" + a.question.id, now,
      ProblemData(None, Some(a.question.text),
        "正確答案：" + a.question.answer + "。\n解析：" + a.question.explanation,
        None, Some(uid), Some(OrElse(Some(a.userAnswerText), "(未作答)")), Some(true)))
  }

  /** The records for the wrong answers, in quiz order; `nows[i]` is the clock when answer `i` is recorded. */
  function ErrorRecords(answered: seq<AnsweredThemedQuizQuestion>, uid: string, nows: seq<int>): seq<ProblemHistoryItem>
    requires |nows| == |answered|
  {
    if answered == [] then []
    else
      var n := |answered| - 1;
      ErrorRecords(answered[..n], uid, nows[..n]) + (if answered[n].isCorrect then [] else [ErrorRecord(answered[n], uid, nows[n])])
  }

  /** One record per wrong answer: as many records as the quiz lost points, each flagged as an incorrect attempt. */
  lemma {:induction false} ErrorRecordsCount(answered: seq<AnsweredThemedQuizQuestion>, uid: string, nows: seq<int>)
    requires |nows| == |answered|
    ensures |ErrorRecords(answered, uid, nows)| + CorrectCount(answered) == |answered|
    ensures forall k :: 0 <= k < |ErrorRecords(answered, uid, nows)| ==>
      ErrorRecords(answered, uid, nows)[k].data.isIncorrectAttempt == Some(true)
  {
    if answered != [] {
      var n := |answered| - 1;
      ErrorRecordsCount(answered[..n], uid, nows[..n]);
    }
  }

  /** Every record is the record of a wrong answer. */
  lemma {:induction false} ErrorRecordsSound(answered: seq<AnsweredThemedQuizQuestion>, uid: string, nows: seq<int>)
    requires |nows| == |answered|
    ensures forall k :: 0 <= k < |ErrorRecords(answered, uid, nows)| ==>
      exists i :: 0 <= i < |answered| && !answered[i].isCorrect && ErrorRecords(answered, uid, nows)[k] == ErrorRecord(answered[i], uid, nows[i])
  {
    if answered != [] {
      var n := |answered| - 1;
      var init, nInit := answered[..n], nows[..n];
      ErrorRecordsSound(init, uid, nInit);
      var r, rInit := ErrorRecords(answered, uid, nows), ErrorRecords(init, uid, nInit);
      var tail := if answered[n].isCorrect then [] else [ErrorRecord(answered[n], uid, nows[n])];
      assert r == rInit + tail;
      forall k | 0 <= k < |ErrorRecords(answered, uid, nows)|
        ensures exists i :: 0 <= i < |answered| && !answered[i].isCorrect && ErrorRecords(answered, uid, nows)[k] == ErrorRecord(answered[i], uid, nows[i])
      {
        if k < |rInit| {
          assert r[k] == rInit[k];
          var i :| 0 <= i < |init| && !init[i].isCorrect && rInit[k] == ErrorRecord(init[i], uid, nInit[i]);
          assert answered[i] == init[i] && nows[i] == nInit[i];
          assert 0 <= i < |answered| && !answered[i].isCorrect && r[k] == ErrorRecord(answered[i], uid, nows[i]);
        } else {
          assert r[k] == tail[k - |rInit|];
          assert 0 <= n < |answered| && !answered[n].isCorrect && r[k] == ErrorRecord(answered[n], uid, nows[n]);
        }
      }
    } else {
      assert ErrorRecords(answered, uid, nows) == [];
    }
  }

  /** Every wrong answer has its record. */
  lemma {:induction false} ErrorRecordsComplete(answered: seq<AnsweredThemedQuizQuestion>, uid: string, nows: seq<int>)
    requires |nows| == |answered|
    ensures forall i :: 0 <= i < |answered| && !answered[i].isCorrect ==>
      ErrorRecord(answered[i], uid, nows[i]) in ErrorRecords(answered, uid, nows)
  {
    if answered != [] {
      var n := |answered| - 1;
      var init, nInit := answered[..n], nows[..n];
      ErrorRecordsComplete(init, uid, nInit);
      var r, rInit := ErrorRecords(answered, uid, nows), ErrorRecords(init, uid, nInit);
      forall i | 0 <= i < |answered| && !answered[i].isCorrect
        ensures ErrorRecord(answered[i], uid, nows[i]) in r
      {
        if i < n {
          assert answered[i] == init[i] && nows[i] == nInit[i];
          assert ErrorRecord(init[i], uid, nInit[i]) in rInit;
        }
      }
    }
  }

  /** The loop of `submitQuiz` that saves a record for each wrong answer of a signed-in user. */
  method CollectErrorRecords(answered: seq<AnsweredThemedQuizQuestion>, uid: string, nows: seq<int>) returns (records: seq<ProblemHistoryItem>)
    requires |nows| == |answered|
    ensures records == ErrorRecords(answered, uid, nows)
  {
    records := [];
    var i := 0;
    while i < |answered|
      invariant 0 <= i <= |answered|
      invariant records == ErrorRecords(answered[..i], uid, nows[..i])
    {
      if !answered[i].isCorrect {
        records := records + [ErrorRecord(answered[i], uid, nows[i])];
      }
      i := i + 1;
      assert answered[..i][..i - 1] == answered[..i - 1] && nows[..i][..i - 1] == nows[..i - 1];
    }
    assert answered[..i] == answered && nows[..i] == nows;
  }

  /** The progress map read from local storage: what was stored if it parses, otherwise nothing. */
  function LoadedProgress(stored: Cached<map<string, TopicProgress>>): (r: map<string, TopicProgress>)
    ensures stored.Present? ==> r == stored.value
    ensures !stored.Present? ==> r == map[]
  {
    if stored.Present? then stored.value else map[]
  }

  // ---------------------------------------------------------------------------
  // The session
  // ---------------------------------------------------------------------------

  class ThemedQuizSession {
    const bank: seq<QuizQuestion>
    var step: QuizStep
    var availableTopics: seq<string>
    var selectedTopic: Option<string>
    var currentQuiz: seq<QuizQuestion>
    var currentQuestionIndex: int
    var userAnswers: map<string, string>
    var quizResults: Option<QuizResults>
    var topicProgress: map<string, TopicProgress>
    /** The progress map last written to local storage. */
    var storedProgress: Option<map<string, TopicProgress>>

    /**
     * A quiz in progress has between one and five questions of the selected topic and an index
     * within them; results show a score no larger than the number of graded questions.
     */
    ghost predicate Valid()
      reads this
    {
      && (step == InProgress ==>
            && selectedTopic.Some?
            && 0 < |currentQuiz| <= QuestionsPerThemedQuiz
            && 0 <= currentQuestionIndex < |currentQuiz|
            && forall i :: 0 <= i < |currentQuiz| ==> currentQuiz[i].topic == selectedTopic.value)
      && (step == Results ==> quizResults.Some?)
      && (quizResults.Some? ==>
            quizResults.value.score == CorrectCount(quizResults.value.answeredQuestions) <= |quizResults.value.answeredQuestions|)
    }

    /** The page as first shown, after its mount effect: the topic list, and the stored progress if it parses. */
    constructor(bank: seq<QuizQuestion>, stored: Cached<map<string, TopicProgress>>)
      ensures Valid()
      ensures this.bank == bank && step == TopicSelection && availableTopics == QuestionBank.AvailableTopics(bank)
      ensures selectedTopic.None? && currentQuiz == [] && currentQuestionIndex == 0 && userAnswers == map[]
      ensures quizResults.None? && topicProgress == LoadedProgress(stored) && storedProgress.None?
    {
      this.bank := bank;
      step := TopicSelection;
      availableTopics := QuestionBank.AvailableTopics(bank);
      selectedTopic := None;
      currentQuiz := [];
      currentQuestionIndex := 0;
      userAnswers := map[];
      quizResults := None;
      topicProgress := LoadedProgress(stored);
      storedProgress := None;
    }

    /**
     * `startQuiz(topic)`: draw the topic's questions; with none, report failure and change nothing;
     * otherwise start at the first question with no answers and no results.
     */
    method StartQuiz(topic: string, draws: seq<nat>) returns (started: bool)
      requires Valid()
      modifies this
      ensures Valid()
      ensures var questions := QuestionBank.ThemedQuestions(bank, topic, QuestionsPerThemedQuiz, draws);
        started <==> questions != []
      ensures !started ==> unchanged(this)
      ensures started ==>
        && step == InProgress && selectedTopic == Some(topic)
        && currentQuiz == QuestionBank.ThemedQuestions(bank, topic, QuestionsPerThemedQuiz, draws)
        && currentQuestionIndex == 0 && userAnswers == map[] && quizResults.None?
        && topicProgress == old(topicProgress) && storedProgress == old(storedProgress)
        && availableTopics == old(availableTopics)
    {
      var questions := QuestionBank.ThemedQuestions(bank, topic, QuestionsPerThemedQuiz, draws);
      if |questions| == 0 {
        return false;
      }
      selectedTopic := Some(topic);
      currentQuiz := questions;
      currentQuestionIndex := 0;
      userAnswers := map[];
      quizResults := None;
      step := InProgress;
      started := true;
    }

    /** `handleAnswerChange(id, answer)`: that question's answer is replaced; every other answer stays. */
    method AnswerChange(questionId: string, answer: string)
      requires Valid()
      modifies this
      ensures Valid()
      ensures userAnswers == old(userAnswers)[questionId := answer]
      ensures forall id :: id in old(userAnswers) && id != questionId ==> userAnswers[id] == old(userAnswers)[id]
      ensures step == old(step) && currentQuiz == old(currentQuiz) && currentQuestionIndex == old(currentQuestionIndex)
      ensures selectedTopic == old(selectedTopic) && quizResults == old(quizResults)
      ensures topicProgress == old(topicProgress) && storedProgress == old(storedProgress)
      ensures availableTopics == old(availableTopics)
    {
      userAnswers := userAnswers[questionId := answer];
    }

    /**
     * `submitQuiz`: grade every question, record the topic's result (overwriting only that topic)
     * and store it, show the results, and return the error-book records of a signed-in user.
     */
    method SubmitQuiz(user: Option<User>, nows: seq<int>) returns (records: seq<ProblemHistoryItem>)
      requires Valid() && |nows| == |currentQuiz|
      modifies this
      ensures Valid()
      ensures var answered := GradeAll(old(currentQuiz), old(userAnswers));
        && Graded(old(selectedTopic), old(topicProgress), old(storedProgress), old(currentQuiz), answered)
        && records == (if user.Some? then ErrorRecords(answered, user.value.uid, nows) else [])
      ensures selectedTopic == old(selectedTopic) && currentQuiz == old(currentQuiz)
      ensures currentQuestionIndex == old(currentQuestionIndex) && userAnswers == old(userAnswers)
      ensures availableTopics == old(availableTopics)
    {
      var score, answered := ScoreQuiz(currentQuiz, userAnswers);
      ShowResults(score, answered);
      if user.Some? {
        records := CollectErrorRecords(answered, user.value.uid, nows);
      } else {
        records := [];
      }
    }

    /**
     * The state after grading: the results step showing the score and verdicts, and the selected
     * topic's progress entry replaced and stored.
     */
    ghost predicate Graded(topic: Option<string>, progress: map<string, TopicProgress>,
                           stored: Option<map<string, TopicProgress>>, quiz: seq<QuizQuestion>,
                           answered: seq<AnsweredThemedQuizQuestion>)
      reads this
    {
      var score := CorrectCount(answered);
      && step == Results
      && quizResults == Some(QuizResults(score, answered))
      && (Truthy(topic) ==>
            && topicProgress == WithProgress(progress, topic.value, TopicProgress(score, |quiz|, IsPerfect(score, |quiz|)))
            && storedProgress == Some(topicProgress))
      && (!Truthy(topic) ==> topicProgress == progress && storedProgress == stored)
    }

    method ShowResults(score: nat, answered: seq<AnsweredThemedQuizQuestion>)
      requires Valid() && score == CorrectCount(answered)
      modifies this
      ensures Valid()
      ensures Graded(old(selectedTopic), old(topicProgress), old(storedProgress), old(currentQuiz), answered)
      ensures selectedTopic == old(selectedTopic) && currentQuiz == old(currentQuiz)
      ensures currentQuestionIndex == old(currentQuestionIndex) && userAnswers == old(userAnswers)
      ensures availableTopics == old(availableTopics)
    {
      CorrectCountBounds(answered);
      var perfect := IsPerfect(score, |currentQuiz|);
      if Truthy(selectedTopic) {
        topicProgress := WithProgress(topicProgress, selectedTopic.value, TopicProgress(score, |currentQuiz|, perfect));
        storedProgress := Some(topicProgress);
      }
      quizResults := Some(QuizResults(score, answered));
      step := Results;
    }

    /** `goToNextQuestion`: the next question while there is one, otherwise the quiz is submitted. */
    method GoToNextQuestion(user: Option<User>, nows: seq<int>) returns (records: seq<ProblemHistoryItem>)
      requires Valid() && |nows| == |currentQuiz|
      modifies this
      ensures Valid()
      ensures old(currentQuestionIndex) < |old(currentQuiz)| - 1 ==>
        && currentQuestionIndex == old(currentQuestionIndex) + 1 && records == []
        && step == old(step) && userAnswers == old(userAnswers) && quizResults == old(quizResults)
        && topicProgress == old(topicProgress) && storedProgress == old(storedProgress)
      ensures old(currentQuestionIndex) >= |old(currentQuiz)| - 1 ==>
        var answered := GradeAll(old(currentQuiz), old(userAnswers));
        && Graded(old(selectedTopic), old(topicProgress), old(storedProgress), old(currentQuiz), answered)
        && records == (if user.Some? then ErrorRecords(answered, user.value.uid, nows) else [])
        && currentQuestionIndex == old(currentQuestionIndex)
      ensures selectedTopic == old(selectedTopic) && currentQuiz == old(currentQuiz)
      ensures userAnswers == old(userAnswers) && availableTopics == old(availableTopics)
    {
      if currentQuestionIndex < |currentQuiz| - 1 {
        currentQuestionIndex := currentQuestionIndex + 1;
        records := [];
      } else {
        records := SubmitQuiz(user, nows);
      }
    }

    /** `restartQuiz`: a fresh draw of the same topic, if one is selected (a non-empty topic name). */
    method RestartQuiz(draws: seq<nat>) returns (started: bool)
      requires Valid()
      modifies this
      ensures Valid()
      ensures !Truthy(old(selectedTopic)) ==> unchanged(this) && !started
      ensures Truthy(old(selectedTopic)) ==>
        var questions := QuestionBank.ThemedQuestions(bank, old(selectedTopic).value, QuestionsPerThemedQuiz, draws);
        && (started <==> questions != [])
        && (started ==> step == InProgress && currentQuiz == questions && currentQuestionIndex == 0
                        && userAnswers == map[] && quizResults.None?
                        && selectedTopic == old(selectedTopic)
                        && topicProgress == old(topicProgress) && storedProgress == old(storedProgress)
                        && availableTopics == old(availableTopics))
        && (!started ==> unchanged(this))
    {
      if Truthy(selectedTopic) {
        started := StartQuiz(selectedTopic.value, draws);
      } else {
        started := false;
      }
    }

    /** `selectAnotherTopic`: back to the topic list with no topic, quiz, answers or results; the index is left as it was. */
    method SelectAnotherTopic()
      requires Valid()
      modifies this
      ensures Valid()
      ensures step == TopicSelection && selectedTopic.None? && currentQuiz == [] && userAnswers == map[]
      ensures quizResults.None? && currentQuestionIndex == old(currentQuestionIndex)
      ensures topicProgress == old(topicProgress) && storedProgress == old(storedProgress)
      ensures availableTopics == old(availableTopics)
    {
      step := TopicSelection;
      selectedTopic := None;
      currentQuiz := [];
      userAnswers := map[];
      quizResults := None;
    }
  }
}
