# Gongzi math buddy: a verified model of its quiz, history and timer logic

This project models the pieces of a Next.js/React study application that follow precise rules. It
leaves out the pages' markup and their Firebase and AI calls. The pieces modelled are:

- **Question bank selection**:
  - a random question that avoids the answered ids, or repeats once every question is answered;
  - a shuffled selection of one topic's questions;
  - the topic list.
- **Quick quiz**: a timed ten-question quiz.
  - Its states: idle, playing, question answered, finished.
  - Answer checking, and the speed bonus, scored in milliseconds.
  - The running score, count and answer log.
  - The end of the quiz.
  - The error-book record and the leaderboard entry.
- **Themed quiz**: five questions of one topic.
  - Answers are kept in a map and graded together.
  - Single-choice answers need an exact match.
  - The result of the last attempt is kept per topic, and the error-book records follow from it.
- **History panels**: the problem history (cache of 10, ids `temp-…`, full list at `/history`) and
  the knowledge-point history (cache of 15, ids `temp-knook-…`, full list at `/knowledge`).
  - One generic class, `HistoryStore.HistoryPanel`, covers both panels; only the constants differ.
  - Loading falls back from the remote store to the local cache.
  - New items are inserted optimistically: prepended, de-duplicated by id, sorted newest first.
  - The cache is bounded, and a temporary id is replaced by the one the remote store assigns.
  - Items are deleted by id, and the sidebar shows a slice of the list.
- **Error book**: its own load fallback, then the wrongly answered items, newest first, and the
  payload for the error-pattern analyser.
- **Focus timer**: a pomodoro state machine shared by the whole application.
  - Start, pause, reset and the duration setters.
  - The one-second tick and the switch between focus and break.
  - Settings read from local storage and checked on load.
- **Timer card**: the `mm:ss` display, the hours/minutes/seconds phrase and the duration inputs.
- **Flashcards**: wrapping next/previous navigation, a shuffle that restarts the deck, and a reset
  to the original order when the set changes.

Functions and whole-value datatypes model pure computations. The stateful pages are classes:

- `QuickQuiz.QuickQuizSession`, `ThemedQuiz.ThemedQuizSession`, `HistoryStore.HistoryPanel`,
  `FocusTimer.FocusTimerProvider` and `Flashcards.FlashcardDeck`.
- Their fields are the page's state variables. Their methods are the page's handlers and effects,
  run one after another.
- Each method's postcondition ties the new state to a function of the old state. The properties
  are proved about those functions.

Some inputs become explicit parameters:

| source | becomes |
|---|---|
| `Date.now()` | a `now` parameter, in epoch milliseconds |
| `Math.random()` | an index draw (`pick`) or a list of draws (`draws`); lemmas show that every possible outcome is reachable |
| the random id suffix | a `tag` parameter |
| local storage | `Records.Cached`: nothing stored, unparsable text, or a parsed value |
| a remote load | `HistoryList.RemoteList`: the items, or a failure |
| a remote save | the returned id, as an `Option` |
| a remote write the page would make | returned from the method to its caller |

Two load paths behave differently from what one might expect, and the model follows the code:

- **History panels, unparsable cache, signed-in user.** In both history panels the second
  `JSON.parse`, on the fallback path after the remote load, is outside any `try`. So for a signed-in
  user an unparsable cache makes the load reject, and the list stays as it was (`HistoryList.Load`
  returns `Aborted`). For a user who is not signed in, the parse is inside a `try` and an unparsable
  cache gives the empty list.
- **Error book, empty remote list.** The history panels fall back to the cache when the remote list
  is empty or the load fails. The error book reads the cache only when the remote load fails, not
  when it returns an empty list. `ErrorLog.EmptyRemoteDiffersFromPanel` shows the two rules diverge.

## Model

| member | source | states |
|---|---|---|
| Text.Trim | src/app/quick-quiz/page.tsx:111 | `trim()` removes exactly the leading and trailing ECMAScript whitespace: the result is a slice with whitespace only outside it and none at its ends |
| Text.TrimIdempotent | src/app/quick-quiz/page.tsx:111 | trimming twice is trimming once |
| Text.ToLower | src/app/quick-quiz/page.tsx:111 | `toLowerCase()` keeps the length and lower-cases every ASCII capital, leaving every other character in place |
| Text.ToLowerIdempotent | src/app/quick-quiz/page.tsx:111 | after lower-casing no capital is left, so lower-casing again changes nothing |
| Text.TrimToLower | src/app/quiz/page.tsx:107 | trimming and lower-casing commute |
| Text.NatToString | src/components/sidebar-features/focus-timer.tsx:33 | `toString()` of a non-negative integer is a non-empty string of digits without a leading zero |
| Text.NatToStringValue | src/components/sidebar-features/focus-timer.tsx:33 | that numeral denotes the number it was made from |
| Text.IntToString | src/contexts/focus-timer-context.tsx:108 | a negative integer gets a minus sign before the numeral of its magnitude; a non-negative one gets none |
| Text.PadStart2 | src/components/sidebar-features/focus-timer.tsx:33 | `padStart(2, '0')` gives length max(2, \|s\|), with `s` as its suffix and zeros in front; it never truncates |
| Text.PadStart2Digits | src/components/sidebar-features/focus-timer.tsx:33 | padding a numeral with zeros keeps the number it denotes |
| Text.ParseInt | src/contexts/focus-timer-context.tsx:59 | `parseInt(s, 10)` is `NaN` exactly when no digit follows the leading whitespace and optional sign |
| Text.IntToStringRoundTrip | src/contexts/focus-timer-context.tsx:57-128 | what `toString()` writes, `parseInt` reads back as the same integer |
| Sequences.Filter | src/app/errors/page.tsx:123 | `filter(keep)` yields no more elements than the input has |
| Sequences.FilterMembers | src/app/errors/page.tsx:123 | `filter(keep)` yields elements of the input that satisfy `keep`, and every input element that satisfies it |
| Sequences.FilterSubsequence | src/app/errors/page.tsx:123 | filtering keeps the kept elements in their original order |
| Sequences.FilterMultiset | src/app/errors/page.tsx:123 | each kept element occurs as often as in the input; each dropped one not at all |
| Sequences.FilterPrefix | src/lib/question-bank.ts:108-111 | filtering a prefix gives a prefix of the filtered sequence |
| Sequences.FilterKeepsDistinctKeys | src/lib/question-bank.ts:102 | filtering a sequence without repeated keys leaves none |
| Sequences.WithoutKey | src/components/math-solver/problem-history.tsx:140 | `filter(x => x.id !== k)` keeps the other elements, in order, and removes exactly the key `k` from the key set |
| Sequences.WithoutKeyLength | src/components/math-solver/problem-history.tsx:104 | on distinct keys, dropping a key removes one element if the key occurs, none otherwise |
| Sequences.DedupeBy | src/components/math-solver/problem-history.tsx:105-106 | the `new Set` / `find` idiom keeps one element per key: keys distinct, the same key set, a subsequence of the input, the first element kept |
| Sequences.DedupeDistinct | src/components/math-solver/problem-history.tsx:105-106 | a sequence already free of repeated keys is its own de-duplication |
| Sequences.DedupePrefix | src/lib/question-bank.ts:108-111 | de-duplicating a prefix gives a prefix of the de-duplicated sequence |
| Sequences.PermutationKeys | src/components/math-solver/problem-history.tsx:107 | sorting or shuffling keeps the set of keys |
| Sequences.IndexFromDraw | src/lib/question-bank.ts:91 | `Math.floor(Math.random() * n)` is always an index below `n`, and every such index is a possible draw |
| Sequences.PermuteByDraws | src/lib/question-bank.ts:104 | a shuffle keeps the length and the multiset of the elements |
| Sequences.EveryPermutationReachable | src/lib/question-bank.ts:104 | every rearrangement of the input is the outcome of some draws |
| Sequences.PermutationKeepsDistinctKeys | src/lib/question-bank.ts:104 | a rearrangement of a sequence without repeated keys has none |
| Records.OrElse | src/app/errors/page.tsx:155 | `s \|\| fallback` is `s` when it is a non-empty string and the fallback otherwise |
| Answers.AnswerNormalisation | src/app/quick-quiz/page.tsx:111 | surrounding whitespace and letter case of the user's answer never change the verdict |
| Answers.ExpectedAnswerAccepted | src/app/quiz/page.tsx:107 | the expected answer, typed exactly, is accepted when it has no surrounding whitespace |
| QuestionBank.Available | src/lib/question-bank.ts:86 | the candidates are exactly the bank questions whose id is not answered |
| QuestionBank.RandomQuestion | src/lib/question-bank.ts:85-95 | nothing only for an empty bank; always a bank question; an unanswered one whenever one exists |
| QuestionBank.RandomQuestionReachesAvailable | src/lib/question-bank.ts:93-94 | every unanswered question is a possible outcome |
| QuestionBank.RandomQuestionReachesRepeat | src/lib/question-bank.ts:87-91 | once every question is answered, every bank question is a possible outcome |
| QuestionBank.OfTopic | src/lib/question-bank.ts:102 | the topic's questions: all of them and only them |
| QuestionBank.SliceEnd | src/lib/question-bank.ts:105 | `slice(0, count)` ends at min(count, n) for a non-negative count, never past the end |
| QuestionBank.ThemedQuestions | src/lib/question-bank.ts:101-106 | min(count, number of topic questions) questions, all of the topic, drawn without repetition from the topic's questions |
| QuestionBank.ThemedQuestionsReachable | src/lib/question-bank.ts:101-106 | every ordering of the topic's questions, cut at `count`, is a possible outcome |
| QuestionBank.ThemedQuestionsDistinct | src/lib/question-bank.ts:101-106 | a bank without repeated ids gives a quiz without repeated questions |
| QuestionBank.Topics | src/lib/question-bank.ts:109 | the topic of each question, in bank order |
| QuestionBank.AvailableTopics | src/lib/question-bank.ts:108-111 | each topic once; a string is listed iff some question has that topic; the first question's topic first |
| QuestionBank.AvailableTopicsPrefix | src/lib/question-bank.ts:108-111 | topics appear in first-occurrence order: a prefix of the bank lists a prefix of the topics |
| QuickQuiz.TimeTakenMs | src/app/quick-quiz/page.tsx:105 | a timeout is charged the full 30 s; otherwise the elapsed time, never negative |
| QuickQuiz.Award | src/app/quick-quiz/page.tsx:112-116 | a wrong answer earns 0; a right one 100 plus floor((10 − t) × 10) for t ≤ 10 s, else exactly 100; so 100..200 |
| QuickQuiz.AwardMonotone | src/app/quick-quiz/page.tsx:114-115 | a faster right answer never earns fewer points |
| QuickQuiz.Grade | src/app/quick-quiz/page.tsx:105-125 | right iff not timed out and trim+lower-case of the answer equals the lower-cased answer; a timeout scores 0 with 30 s; the stored answer is untrimmed; the time is `TimeTakenMs` and the points are `Award` of the verdict and that time, so points iff right |
| QuickQuiz.AttemptText | src/app/quick-quiz/page.tsx:133 | the trimmed answer if non-empty, else "(超時未作答)" on timeout, else "(未作答)" |
| QuickQuiz.ErrorRecord | src/app/quick-quiz/page.tsx:129-139 | id `quiz-err-<now>-<tag>`: question text, answer with explanation, the attempt text, flagged incorrect, owned by the user, no image or knowledge points |
| QuickQuiz.ErrorRecordFor | src/app/quick-quiz/page.tsx:128 | a record exactly for a wrong answer of a signed-in user |
| QuickQuiz.BeforeAt | src/app/quick-quiz/page.tsx:174 | `split('@')[0]` is the longest prefix without '@' |
| QuickQuiz.DisplayName | src/app/quick-quiz/page.tsx:174 | display name, else the e-mail's local part, else "匿名玩家"; never empty |
| QuickQuiz.LeaderboardEntryFor | src/app/quick-quiz/page.tsx:175-180 | the entry carries the user's id and name, the score and the time |
| QuickQuiz.Submission | src/app/quick-quiz/page.tsx:162-163 | a score is sent only for a signed-in user with a positive score |
| QuickQuiz.AnsweredIds | src/app/quick-quiz/page.tsx:124 | the id list holds the answered questions' ids in answer order |
| QuickQuiz.TotalAwardedAppend | src/app/quick-quiz/page.tsx:122 | one more answer adds exactly its award to the total |
| QuickQuiz.TotalAwardedBounds | src/app/quick-quiz/page.tsx:122 | the total lies between 0 and 200 per answer |
| QuickQuiz.IncorrectAnswers | src/app/quick-quiz/page.tsx:207 | the review list holds exactly the wrong answers |
| QuickQuiz.LogAppend | src/app/quick-quiz/page.tsx:122-126 | appending a graded bank question below ten keeps score, count and ids equal to those of the log |
| QuickQuiz.QuickQuizSession.constructor | src/app/quick-quiz/page.tsx:36-45 | the initial state: idle, no question, zero score and count, empty lists, 30 s |
| QuickQuiz.QuickQuizSession.LoadNextQuestion | src/app/quick-quiz/page.tsx:73-86 | a fresh random question while fewer than ten are answered, countdown restarted; otherwise finished, with the leaderboard submission |
| QuickQuiz.QuickQuizSession.Start | src/app/quick-quiz/page.tsx:88-94 | a new quiz with zero score, count, ids and log; with a non-empty bank it shows a first question |
| QuickQuiz.QuickQuizSession.SetAnswer | src/app/quick-quiz/page.tsx:96-98 | only the typed answer changes |
| QuickQuiz.QuickQuizSession.Submit | src/app/quick-quiz/page.tsx:100-139 | no-op unless playing with a question; otherwise answered state, score + award, count + 1, id and graded answer appended, and the error record for a signed-in user's wrong answer |
| QuickQuiz.QuickQuizSession.RecordAnswer | src/app/quick-quiz/page.tsx:103-126 | the submit's state updates, keeping the session invariant |
| QuickQuiz.QuickQuizSession.Tick | src/app/quick-quiz/page.tsx:52-66 | one second off the countdown while playing, nothing else changed; the last second submits as a timeout the empty answer the interval's closure holds: the graded answer joins the log with no points, the id list grows by the question's id, the typed text and the question stay, and the error record is that of the graded answer |
| QuickQuiz.QuickQuizSession.Continue | src/app/quick-quiz/page.tsx:157-166 | below ten answers the next question with the answer cleared and the 30-second countdown restarted at `now`; at ten finished, with the leaderboard submission of the final score and the question, answer and clock left as they were; score, count, ids and log unchanged |
| QuickQuiz.QuickQuizSession.Reset | src/app/quick-quiz/page.tsx:201-205 | back to idle with no question and an empty log; score, count and ids left as they were |
| QuickQuiz.FinalScoreBounds | src/app/quick-quiz/page.tsx:30-32 | a finished quiz scores between 0 and 2000 |
| QuickQuiz.StartAsWritten | src/app/quick-quiz/page.tsx:73-94 | `startQuiz` as written: `loadNextQuestion` sees the count, score and ids of the render before the resets |
| QuickQuiz.PlayAgainEndsAtOnce | src/app/quick-quiz/page.tsx:201-205 | after a finished quiz and a reset, starting again finishes at once and resubmits the old score |
| ThemedQuiz.AnswerText | src/app/quiz/page.tsx:102 | `userAnswers[id] \|\| ""`: a missing answer is the empty answer |
| ThemedQuiz.Grade | src/app/quiz/page.tsx:101-112 | right iff exact match for single choice, else trim+lower-case match |
| ThemedQuiz.UnansweredIsWrong | src/app/quiz/page.tsx:102-108 | an unanswered question is right only if its expected answer is empty |
| ThemedQuiz.GradeAll | src/app/quiz/page.tsx:101 | one verdict per question, in quiz order |
| ThemedQuiz.CorrectCountBounds | src/app/quiz/page.tsx:100-113 | 0 ≤ score ≤ length, and score = length iff every answer is right |
| ThemedQuiz.CorrectCountZero | src/app/quiz/page.tsx:100-113 | the score is 0 iff no answer is right |
| ThemedQuiz.ScoreQuiz | src/app/quiz/page.tsx:100-113 | the grading loop gives the verdicts and the number of right ones |
| ThemedQuiz.PerfectMeansAllCorrect | src/app/quiz/page.tsx:115 | perfect iff the quiz is non-empty and every answer is right |
| ThemedQuiz.WithProgress | src/app/quiz/page.tsx:117-124 | recording a topic's result overwrites that topic's entry only |
| ThemedQuiz.ErrorRecord | src/app/quiz/page.tsx:135-143 | the record's id is `themedquiz-err-<now>-<question id>`; it carries the question text, the answer and explanation as its solution, the untrimmed attempt or "(未作答)", the time, the user and the incorrect flag, and no image or knowledge points |
| ThemedQuiz.ErrorRecordsCount | src/app/quiz/page.tsx:132-150 | one record per wrong answer: records + right answers = questions |
| ThemedQuiz.ErrorRecordsSound | src/app/quiz/page.tsx:132-150 | every record is the record of a wrong answer |
| ThemedQuiz.ErrorRecordsComplete | src/app/quiz/page.tsx:132-150 | every wrong answer has its record |
| ThemedQuiz.CollectErrorRecords | src/app/quiz/page.tsx:133-150 | the saving loop produces exactly the records of the wrong answers, in order |
| ThemedQuiz.LoadedProgress | src/app/quiz/page.tsx:55-62 | the stored map if it parses, otherwise the empty map |
| ThemedQuiz.ThemedQuizSession.constructor | src/app/quiz/page.tsx:53-63 | the topic list and the stored progress on mount |
| ThemedQuiz.ThemedQuizSession.StartQuiz | src/app/quiz/page.tsx:65-80 | no questions: nothing changes; otherwise in progress at index 0 with no answers or results |
| ThemedQuiz.ThemedQuizSession.AnswerChange | src/app/quiz/page.tsx:82-84 | the answer map is updated at one key only |
| ThemedQuiz.ThemedQuizSession.SubmitQuiz | src/app/quiz/page.tsx:98-159 | results show the score and verdicts; only the selected topic's progress is replaced and stored; a signed-in user's wrong answers yield records |
| ThemedQuiz.ThemedQuizSession.ShowResults | src/app/quiz/page.tsx:115-130 | the results step after grading; the progress entry is replaced and stored only when the selected topic is a non-empty string, as `if (selectedTopic)` tests |
| ThemedQuiz.ThemedQuizSession.GoToNextQuestion | src/app/quiz/page.tsx:90-96 | the index grows by one below the last question, with step, answers, results, progress and stored progress unchanged; on the last one the quiz is submitted with the results, progress and records `SubmitQuiz` states; the topic, quiz and answers stay |
| ThemedQuiz.ThemedQuizSession.RestartQuiz | src/app/quiz/page.tsx:161-165 | a fresh draw of the selected topic that keeps the topic, the progress and the topic list; nothing when no topic or the empty topic is selected |
| ThemedQuiz.ThemedQuizSession.SelectAnotherTopic | src/app/quiz/page.tsx:167-173 | back to topic selection with no topic, quiz, answers or results; the question index is left as it was |
| HistoryList.InsertDesc | src/components/math-solver/problem-history.tsx:91 | one insertion step of the sort: one more element, the same multiset |
| HistoryList.InsertDescSorted | src/components/math-solver/problem-history.tsx:91 | inserting into a newest-first list keeps it newest first |
| HistoryList.SortDesc | src/components/math-solver/problem-history.tsx:91 | `sort((a, b) => b.timestamp - a.timestamp)` gives a newest-first permutation |
| HistoryList.SortDescSorted | src/components/math-solver/problem-history.tsx:118 | sorting a newest-first list changes nothing |
| HistoryList.InsertDescStable | src/components/math-solver/problem-history.tsx:91 | one insertion step keeps items of equal timestamp in their relative order |
| HistoryList.SortDescStable | src/components/math-solver/problem-history.tsx:107 | items of equal timestamp keep their relative order |
| HistoryList.FilterSortedDesc | src/components/math-solver/problem-history.tsx:140 | filtering keeps a list newest first |
| HistoryList.Cap | src/components/math-solver/problem-history.tsx:39-43 | the cache holds the first min(cap, n) items |
| HistoryList.Displayed | src/components/math-solver/problem-history.tsx:176 | the full list on the panel's page, the first two items elsewhere |
| HistoryList.Load | src/components/math-solver/problem-history.tsx:49-97 | waits while sign-in is pending; remote items when there are any; otherwise the cache, where an unparsable cache rejects for a signed-in user and is empty for an anonymous one; always sorted newest first |
| HistoryList.LoadPrefersRemote | src/components/math-solver/problem-history.tsx:62-64 | non-empty remote items make the cache irrelevant |
| HistoryList.LoadEmptyIsFailure | src/components/math-solver/problem-history.tsx:65-77 | an empty remote answer and a failed load lead to the same list |
| HistoryList.LoadCachedList | src/components/math-solver/problem-history.tsx:72-77 | a newest-first cached list is loaded unchanged when the remote load fails |
| HistoryList.OptimisticId | src/components/math-solver/problem-history.tsx:101 | an item keeps its id, or gets the prefix followed by the time |
| HistoryList.Optimistic | src/components/math-solver/problem-history.tsx:101 | only the id of the item may change |
| HistoryList.Insert | src/components/math-solver/problem-history.tsx:103-107 | the optimistic insert yields a newest-first list |
| HistoryList.InsertUnique | src/components/math-solver/problem-history.tsx:104-107 | after insert the ids are distinct, the new item is present, and it is the only item with its id |
| HistoryList.InsertKeys | src/components/math-solver/problem-history.tsx:104-106 | the ids are the old ids plus the new one |
| HistoryList.InsertKeeps | src/components/math-solver/problem-history.tsx:104-106 | every older item with another id is kept; the list grows by one exactly for a new id |
| HistoryList.RenameIds | src/components/math-solver/problem-history.tsx:118 | only items with the temporary id are renamed |
| HistoryList.Rename | src/components/math-solver/problem-history.tsx:118 | the renamed list, re-sorted newest first |
| HistoryList.RenameInPlace | src/components/math-solver/problem-history.tsx:118 | on a newest-first list renaming moves no item |
| HistoryList.RenameAbsent | src/components/math-solver/problem-history.tsx:118 | when the temporary item has gone, renaming changes nothing |
| HistoryList.Remove | src/components/math-solver/problem-history.tsx:134-140 | an empty id does nothing; otherwise exactly that id leaves and the rest stay in order, each item as often as before |
| HistoryList.RemoveSorted | src/components/math-solver/problem-history.tsx:139-143 | deleting keeps the list newest first |
| HistoryList.CacheReloads | src/components/math-solver/problem-history.tsx:39-47 | the capped cache is reloaded as written |
| HistoryList.InsertThenDelete | src/components/math-solver/problem-history.tsx:99-143 | deleting the item just inserted leaves exactly the other old ids |
| HistoryStore.HistoryPanel.constructor | src/components/math-solver/problem-history.tsx:31-33 | an empty list, loading, and whatever the browser stores |
| HistoryStore.HistoryPanel.LoadHistory | src/components/math-solver/problem-history.tsx:49-97 | a load that yields a list shows it and stops loading; otherwise the list stays and the panel keeps loading |
| HistoryStore.HistoryPanel.InsertItem | src/components/math-solver/problem-history.tsx:99-114 | the optimistic insert with distinct ids, the capped cache, and the item to save for a signed-in user |
| HistoryStore.HistoryPanel.ResolveId | src/components/math-solver/problem-history.tsx:115-125 | a truthy remote id renames and re-sorts; no id or a vanished item changes nothing |
| HistoryStore.HistoryPanel.Delete | src/components/math-solver/problem-history.tsx:130-158 | an empty id does nothing; otherwise the id leaves the list, the cache is rewritten, and the remote delete is requested for a signed-in user |
| HistoryStore.HistoryPanel.Visible | src/components/math-solver/problem-history.tsx:176 | the whole list on the panel's page, otherwise its first items |
| ProblemHistory.Mount | src/components/math-solver/problem-history.tsx:22-24 | a problem panel: cache of 10, sidebar of 2, `temp-` ids, full list at `/history` |
| KnowledgeNookHistory.Mount | src/components/knowledge-nook/knowledge-nook-history.tsx:25-27 | a knowledge-point panel: cache of 15, sidebar of 2, `temp-knook-` ids, full list at `/knowledge` |
| ErrorLog.CachedOrEmpty | src/app/errors/page.tsx:103-110 | an absent or unparsable cache is the empty list |
| ErrorLog.Source | src/app/errors/page.tsx:97-121 | a signed-in user gets the remote items even when empty; the cache only on failure or without a user |
| ErrorLog.ErrorBook | src/app/errors/page.tsx:123-124 | exactly the items flagged incorrect, each as often as loaded, newest first |
| ErrorLog.FetchErrorLog | src/app/errors/page.tsx:90-127 | nothing while sign-in is pending; otherwise the error book of the source list and whether the remote load failed |
| ErrorLog.RemoteCacheIgnored | src/app/errors/page.tsx:97-99 | a successful remote load makes the cache irrelevant |
| ErrorLog.EmptyRemoteDiffersFromPanel | src/app/errors/page.tsx:97-111 | on an empty remote answer the error book shows nothing while the history panel shows the cache |
| ErrorLog.QuickQuizRecordListed | src/app/errors/page.tsx:123 | a quick-quiz error record appears in the error book |
| ErrorLog.ThemedQuizRecordListed | src/app/errors/page.tsx:123 | a themed-quiz error record appears in the error book |
| ErrorLog.ProblemText | src/app/errors/page.tsx:154 | the statement, else "圖片題目" with an image, else "未知題目"; never empty |
| ErrorLog.PayloadItem | src/app/errors/page.tsx:153-158 | the attempt defaults to "未作答"; the solution and knowledge points are passed on |
| ErrorLog.AnalysisPayload | src/app/errors/page.tsx:138-158 | an empty error book is not sent; otherwise one payload item per error, in order |
| ErrorLog.QuickQuizRecordPayload | src/app/errors/page.tsx:153-158 | a quick-quiz record reaches the analyser with its question and its own attempt text |
| ErrorLog.ThemedQuizRecordPayload | src/app/errors/page.tsx:153-158 | a themed-quiz record reaches the analyser with its question and its attempt |
| FocusTimer.Initial | src/contexts/focus-timer-context.tsx:38-47 | 25 min focus, 5 min break, stopped in focus mode, nothing counted |
| FocusTimer.StoredDuration | src/contexts/focus-timer-context.tsx:57-69 | a stored duration is adopted iff it parses to a positive integer, else the default stays |
| FocusTimer.StoredTotal | src/contexts/focus-timer-context.tsx:71-75 | a stored total is adopted if ≥ 0, else 0; nothing stored keeps the current total |
| FocusTimer.LoadedSettings | src/contexts/focus-timer-context.tsx:50-103 | durations and total from storage, and the time left set to the current mode's duration |
| FocusTimer.SettingsRoundTrip | src/contexts/focus-timer-context.tsx:106-128 | what the persisting effects write is read back unchanged |
| FocusTimer.LoadedSettingsSane | src/contexts/focus-timer-context.tsx:57-75 | whatever storage holds, the durations are positive and the total non-negative |
| FocusTimer.WithFocusMinutes | src/contexts/focus-timer-context.tsx:139-146 | the focus duration becomes m × 60; the time left too only when stopped in focus mode; nothing else |
| FocusTimer.WithBreakMinutes | src/contexts/focus-timer-context.tsx:148-155 | the break duration becomes m × 60; the time left too only when stopped in break mode; nothing else |
| FocusTimer.WithProblemSolved | src/contexts/focus-timer-context.tsx:157-159 | exactly one more problem, nothing else |
| FocusTimer.Started | src/contexts/focus-timer-context.tsx:161-167 | running; a used-up time is refilled with the mode's duration |
| FocusTimer.Paused | src/contexts/focus-timer-context.tsx:169-171 | only `isRunning` changes |
| FocusTimer.ResetTo | src/contexts/focus-timer-context.tsx:173-182 | stopped; `true` enters focus mode with the focus duration, `false` keeps the mode with its duration |
| FocusTimer.ResetIdempotent | src/contexts/focus-timer-context.tsx:173-182 | resetting twice is resetting once |
| FocusTimer.Ticked | src/contexts/focus-timer-context.tsx:204-219 | a second off, floored at 0, and a second of focus time only in focus mode |
| FocusTimer.Settled | src/contexts/focus-timer-context.tsx:185-201 | on expiry the mode flips, its duration loads and the timer stops |
| FocusTimer.TicksCountDown | src/contexts/focus-timer-context.tsx:204-219 | n seconds count the time down by n and, in focus mode, add n to the total |
| FocusTimer.FocusSessionEnds | src/contexts/focus-timer-context.tsx:185-219 | a focus session run out adds all its seconds and stops in break mode |
| FocusTimer.BreakEnds | src/contexts/focus-timer-context.tsx:185-219 | a break run out adds nothing and stops in focus mode |
| FocusTimer.SaneInvariant | src/contexts/focus-timer-context.tsx:139-219 | every handler and the clock keep durations positive and times non-negative |
| FocusTimer.FocusTimerProvider.Stored | src/contexts/focus-timer-context.tsx:106-128 | the strings the persisting effects write for a sane state are read back on the next mount as the same focus and break durations and total focus time |
| FocusTimer.FocusTimerProvider.constructor | src/contexts/focus-timer-context.tsx:38-47 | the initial state |
| FocusTimer.FocusTimerProvider.LoadSettings | src/contexts/focus-timer-context.tsx:50-103 | the new state is `LoadedSettings` of the old |
| FocusTimer.FocusTimerProvider.SetFocusDuration | src/contexts/focus-timer-context.tsx:139-146 | the new state is `WithFocusMinutes` of the old |
| FocusTimer.FocusTimerProvider.SetBreakDuration | src/contexts/focus-timer-context.tsx:148-155 | the new state is `WithBreakMinutes` of the old |
| FocusTimer.FocusTimerProvider.IncrementProblemsSolved | src/contexts/focus-timer-context.tsx:157-159 | the new state is `WithProblemSolved` of the old |
| FocusTimer.FocusTimerProvider.StartTimer | src/contexts/focus-timer-context.tsx:161-167 | the new state is `Started` of the old |
| FocusTimer.FocusTimerProvider.PauseTimer | src/contexts/focus-timer-context.tsx:169-171 | the new state is `Paused` of the old |
| FocusTimer.FocusTimerProvider.ResetTimer | src/contexts/focus-timer-context.tsx:173-182 | the new state is `ResetTo` of the old |
| FocusTimer.FocusTimerProvider.Tick | src/contexts/focus-timer-context.tsx:204-219 | the new state is `Ticked` of the old |
| FocusTimer.FocusTimerProvider.Settle | src/contexts/focus-timer-context.tsx:185-201 | the new state is `Settled` of the old |
| TimeFormat.FormatTime | src/components/sidebar-features/focus-timer.tsx:30-34 | below 100 minutes the display is five characters with ':' in the middle |
| TimeFormat.FormatTimeDenotes | src/components/sidebar-features/focus-timer.tsx:30-34 | the display reads back as minutes and seconds below 60 that make up the input |
| TimeFormat.PartsDiffer | src/components/sidebar-features/focus-timer.tsx:43-46 | hour, minute and second parts can never be mistaken for each other |
| TimeFormat.TotalTimeParts | src/components/sidebar-features/focus-timer.tsx:42-46 | hours iff h > 0; minutes iff m > 0 or h > 0; seconds iff s > 0 or the only unit; in that order |
| TimeFormat.FormatTotalTime | src/components/sidebar-features/focus-timer.tsx:36-49 | a non-positive total is "0秒"; otherwise the parts of its hours, minutes and seconds joined by spaces |
| TimeFormat.TotalTimeDecomposes | src/components/sidebar-features/focus-timer.tsx:38-40 | hours, minutes and seconds make up the total, minutes and seconds below 60 |
| TimeFormat.SecondsShownWhenPositive | src/components/sidebar-features/focus-timer.tsx:45-46 | for a positive total the seconds are shown iff there are some |
| TimeFormat.TotalTimeOneHour | src/components/sidebar-features/focus-timer.tsx:43-48 | 3600 shows as "1小時 0分鐘" |
| TimeFormat.TotalTimeAllParts | src/components/sidebar-features/focus-timer.tsx:43-48 | 3661 shows as "1小時 1分鐘 1秒" |
| TimeFormat.TotalTimeSecondsOnly | src/components/sidebar-features/focus-timer.tsx:37-48 | 59 shows as "59秒" and −5 as "0秒" |
| TimeFormat.DurationInput | src/components/sidebar-features/focus-timer.tsx:52-64 | the setter is called iff the input parses to a positive integer, with that integer |
| TimeFormat.DurationInputAccepts | src/components/sidebar-features/focus-timer.tsx:52-64 | every positive number typed is accepted as written |
| TimeFormat.DurationInputKeepsTimerSane | src/components/sidebar-features/focus-timer.tsx:52-64 | through the inputs the timer only receives durations that keep it sane |
| Numbers.JsRem | src/app/flashcards/page.tsx:37 | JavaScript `%` has the sign of the dividend: Euclidean for a non-negative dividend, negated otherwise |
| Numbers.RemNumber | src/app/flashcards/page.tsx:37 | `x % n` is `NaN` iff x is `NaN` or n is 0 |
| Flashcards.FindSet | src/app/flashcards/page.tsx:20-22 | `find` gives the first set with the id, and nothing iff no set has it |
| Flashcards.NextIndex | src/app/flashcards/page.tsx:37 | `(i + 1) % n` stays in [0, n) for n > 0 and is `NaN` for an empty deck |
| Flashcards.PrevIndex | src/app/flashcards/page.tsx:42 | `(i - 1 + n) % n` stays in [0, n) for n > 0 and is `NaN` for an empty deck |
| Flashcards.NextPrevInverse | src/app/flashcards/page.tsx:35-43 | next then previous, and previous then next, return to the same card |
| Flashcards.NextTimesWraps | src/app/flashcards/page.tsx:37 | k presses of next from card i land on card (i + k) mod n |
| Flashcards.FlashcardDeck.constructor | src/app/flashcards/page.tsx:16-29 | the first set selected, its cards in order, index 0 |
| Flashcards.FlashcardDeck.SetChange | src/app/flashcards/page.tsx:24-33 | a change to an existing set resets the deck to its cards in original order at index 0; otherwise the deck stays |
| Flashcards.FlashcardDeck.NextCard | src/app/flashcards/page.tsx:35-38 | the next index, nothing without a set; the index stays in range |
| Flashcards.FlashcardDeck.PreviousCard | src/app/flashcards/page.tsx:40-43 | the previous index, nothing without a set; the index stays in range |
| Flashcards.FlashcardDeck.ShuffleCards | src/app/flashcards/page.tsx:45-50 | a permutation of the set's cards from index 0, nothing without a set |
| Flashcards.FlashcardDeck.CurrentCard | src/app/flashcards/page.tsx:52 | the card at the current index when a set with cards is selected, none without a set |
| Flashcards.ShuffleReachesEveryOrder | src/app/flashcards/page.tsx:47 | every order of the set's cards is a possible shuffle |

## Left out

- Firestore, Firebase Auth, the AI flows and toasts are not modelled. Remote reads are results
  passed in (`RemoteList`, `Option` id); remote writes are values the methods return. Console
  logging is dropped.
- Static data (the question bank and the flashcard sets) is a parameter, not the catalogue itself.
- `setInterval` and `setTimeout` are not modelled as timers. Their callbacks are methods the caller
  runs (`QuickQuizSession.Tick`, `QuickQuizSession.Continue`, `FocusTimerProvider.Tick`). Cancelling
  a countdown when the page changes is therefore not modelled.
- React's batching and stale closures are modelled in two places only: `startQuiz` (see Findings)
  and the timeout of `QuickQuizSession.Tick`, which grades the empty answer held by the closure of
  the render that loaded the question. One consequence is left out: the two-second continuation of
  the quick quiz calls the `loadNextQuestion` of the submitting render, whose id list lacks the
  question just answered. `QuickQuizSession.Continue` uses the current list.
- QuickQuiz.TimeTakenMs: the time taken is kept in whole milliseconds, and `QuickQuiz.Award` uses
  exact integer arithmetic, `(10000 - ms) / 100`. The source computes `Math.floor((10 - ms / 1000) * 10)`
  in binary64, where rounding gives one point less at some whole-millisecond times (6900, 7400,
  7900, 8300, 8400, 8800, 8900, 9300, 9400, 9800 and 9900 ms). Those lower awards are not modelled.
- Floating point in general is not modelled: the timer card's `focusDuration / 60` display and the
  percentages the quiz pages show with `toFixed`.
- Text.ParseInt: its contract states only when the result is `NaN`; the value read is stated for
  the numerals `toString` writes (`Text.IntToStringRoundTrip`), not for arbitrary digit strings.
- Text.ToLower: only 'A'..'Z' are lower-cased. Full Unicode case mapping is not modelled.
- JSON parsing of local storage is the three-way `Cached` value. A stored value that parses to the
  wrong shape is not modelled.
- A failed `localStorage.setItem` (quota) is not modelled; the cached value is always written.
- HistoryStore.HistoryPanel.InsertItem: the insert effect re-runs when the user or the client flag
  changes; the model runs it once per new item and takes the client flag as set. The panels'
  `isLoading` rendering and `isClient` flag are not modelled.
- HistoryStore.HistoryPanel.ResolveId: the cache is not rewritten after the rename, as in the
  source. A save that rejects is modelled as no id.
- Flashcards.FlashcardDeck.SetChange: React compares the selected set object by reference; the
  model compares set values, which agree because the id selects the same object.
- Flashcards.FlashcardDeck.ShuffleCards: the biased comparator `Math.random() - 0.5` is modelled as
  an arbitrary permutation chosen by the draws; its distribution is not modelled.
- QuestionBank.ThemedQuestions: likewise, the comparator `0.5 - Math.random()` becomes the draws.
  With an inconsistent comparator the engine's result is only some permutation.
- ThemedQuiz.ErrorRecord: the clock is read once per saved record (`nows[i]`); the id and the
  timestamp of one record are modelled as reading the same clock value.
- The loading, `isSubmittingToLeaderboard` and `isAnalyzing` flags and every other UI-only state
  are not modelled.
- The error-pattern analysis result and its chart are not modelled: they come from a remote model.

## Findings

| source | as written | input that shows it | evidently intended | confidence | as-written member | corrected member |
|---|---|---|---|---|---|---|
| src/app/quick-quiz/page.tsx:88-94 | `startQuiz` resets the score, count and ids with state setters, then calls the `loadNextQuestion` of the same render, which still reads the old count; `resetQuiz` (201-205) does not reset the count | finish a ten-question quiz with a positive score while signed in, press "play again", then "start": the count read is 10, so the new quiz finishes at once and the old score is sent to the leaderboard again | starting a quiz always shows a first question when the bank is not empty, and submits nothing | not executed | QuickQuiz.PlayAgainEndsAtOnce | QuickQuiz.QuickQuizSession.Start |
