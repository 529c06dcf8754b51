/**
 * The error book (src/app/errors/page.tsx): the problem history, loaded from the remote store or
 * the local cache, reduced to the wrongly answered items, newest first; and the items handed to
 * the error-pattern analyser. The analyser itself is a remote call and is not modelled; the payload
 * it would receive is.
 */
module ErrorLog {
  import opened Wrappers
  import opened Records
  import opened Sequences
  import opened HistoryList
  import QuickQuiz
  import ThemedQuiz

  /** What the page shows after a fetch: the error book, and whether the remote load failed. */
  datatype ErrorLogView = ErrorLogView(errorLog: seq<ProblemHistoryItem>, fetchError: bool)

  /** The local cache as a list: nothing stored and text that does not parse both give the empty list. */
  function CachedOrEmpty(cache: Cached<seq<ProblemHistoryItem>>): (r: seq<ProblemHistoryItem>)
    ensures r == if cache.Present? then cache.value else []
  {
    match cache
    case Present(items) => items
    case _ => []
  }

  /**
   * The list `fetchErrorLog` starts from. A signed-in user gets the remote items, even when there
   * are none; the cache is read only when the remote load fails, or when nobody is signed in.
   */
  function Source(signedIn: bool, remote: RemoteList<ProblemHistoryItem>, cache: Cached<seq<ProblemHistoryItem>>): (r: seq<ProblemHistoryItem>)
    ensures signedIn && remote.Fetched? ==> r == remote.items
    ensures !(signedIn && remote.Fetched?) ==> r == CachedOrEmpty(cache)
  {
    if signedIn && remote.Fetched? then remote.items else CachedOrEmpty(cache)
  }

  /** `item.isIncorrectAttempt === true`: a missing flag does not count. */
  predicate IsIncorrect(item: ProblemHistoryItem) {
    item.data.isIncorrectAttempt == Some(true)
  }

  /** The wrongly answered items, newest first; items of equal time keep their order. */
  function ErrorBook(loaded: seq<ProblemHistoryItem>): (r: seq<ProblemHistoryItem>)
    ensures SortedDesc(r)
    ensures forall i :: 0 <= i < |r| ==> r[i] in loaded && IsIncorrect(r[i])
    ensures forall i :: 0 <= i < |loaded| && IsIncorrect(loaded[i]) ==> loaded[i] in r
    ensures multiset(r) == multiset(Filter(loaded, IsIncorrect))
  {
    var incorrect := Filter(loaded, IsIncorrect);
    var r := SortDesc(incorrect);
    FilterMembers(loaded, IsIncorrect);
    assert forall i :: 0 <= i < |r| ==> r[i] in multiset(incorrect);
    assert forall i :: 0 <= i < |loaded| && IsIncorrect(loaded[i]) ==> loaded[i] in multiset(r) by {
      forall i | 0 <= i < |loaded| && IsIncorrect(loaded[i]) ensures loaded[i] in multiset(r) {
        assert loaded[i] in incorrect;
      }
    }
    r
  }

  /** `fetchErrorLog`: nothing while sign-in is pending; otherwise the error book of the source list. */
  function FetchErrorLog(authLoading: bool, signedIn: bool, remote: RemoteList<ProblemHistoryItem>,
                         cache: Cached<seq<ProblemHistoryItem>>): (r: Option<ErrorLogView>)
    ensures r.None? <==> authLoading
    ensures r.Some? ==> r.value.fetchError == (signedIn && remote.Failed?)
    ensures r.Some? ==> r.value.errorLog == ErrorBook(Source(signedIn, remote, cache))
  {
    if authLoading then None
    else Some(ErrorLogView(ErrorBook(Source(signedIn, remote, cache)), signedIn && remote.Failed?))
  }

  /** For a signed-in user whose remote load succeeds, the cache plays no part, even when the remote list is empty. */
  lemma RemoteCacheIgnored(items: seq<ProblemHistoryItem>, cache1: Cached<seq<ProblemHistoryItem>>, cache2: Cached<seq<ProblemHistoryItem>>)
    ensures FetchErrorLog(false, true, Fetched(items), cache1) == FetchErrorLog(false, true, Fetched(items), cache2)
  {
  }

  /**
   * Where the error book and the history panel part ways: with an empty remote answer the panel
   * shows the cached items, the error book shows none of them.
   */
  lemma EmptyRemoteDiffersFromPanel(cached: seq<ProblemHistoryItem>)
    requires cached != []
    ensures FetchErrorLog(false, true, Fetched([]), Present(cached)).value.errorLog == []
    ensures Load(false, true, Fetched([]), Present(cached)) == Loaded(SortDesc(cached))
  {
    assert Filter([], IsIncorrect) == [];
  }

  /** A wrong quick-quiz answer saved to the history shows up in the error book. */
  lemma QuickQuizRecordListed(loaded: seq<ProblemHistoryItem>, a: AnsweredQuizQuestion, timeout: bool, uid: string, now: int, tag: string)
    requires QuickQuiz.ErrorRecord(a, timeout, uid, now, tag) in loaded
    ensures QuickQuiz.ErrorRecord(a, timeout, uid, now, tag) in ErrorBook(loaded)
  {
    var e := QuickQuiz.ErrorRecord(a, timeout, uid, now, tag);
    var i :| 0 <= i < |loaded| && loaded[i] == e;
  }

  /** A wrong themed-quiz answer saved to the history shows up in the error book. */
  lemma ThemedQuizRecordListed(loaded: seq<ProblemHistoryItem>, a: AnsweredThemedQuizQuestion, uid: string, now: int)
    requires ThemedQuiz.ErrorRecord(a, uid, now) in loaded
    ensures ThemedQuiz.ErrorRecord(a, uid, now) in ErrorBook(loaded)
  {
    var e := ThemedQuiz.ErrorRecord(a, uid, now);
    var i :| 0 <= i < |loaded| && loaded[i] == e;
  }

  // ---------------------------------------------------------------------------
  // The analysis payload
  // ---------------------------------------------------------------------------

  datatype AnalysisItem = AnalysisItem(problem: string, userAttempt: string, correctSolution: string, knowledgePoints: Option<string>)

  /** The problem as the analyser sees it: its statement, else a note that it was a picture, else a note that it is unknown. */
  function ProblemText(d: ProblemData): (t: string)
    ensures Truthy(d.problemStatement) ==> t == d.problemStatement.value
    ensures !Truthy(d.problemStatement) ==> t == if Truthy(d.problemImageUri) then "圖片題目" else "未知題目"
    ensures t != ""
  {
    OrElse(d.problemStatement, if Truthy(d.problemImageUri) then "圖片題目" else "未知題目")
  }

  function PayloadItem(item: ProblemHistoryItem): (p: AnalysisItem)
    ensures p.problem == ProblemText(item.data)
    ensures p.userAttempt == OrElse(item.data.userAttempt, "未作答") && p.userAttempt != ""
    ensures p.correctSolution == item.data.solution && p.knowledgePoints == item.data.knowledgePoints
  {
    AnalysisItem(ProblemText(item.data), OrElse(item.data.userAttempt, "未作答"), item.data.solution, item.data.knowledgePoints)
  }

  /** `handleAnalyzeErrors`: an empty error book is not sent; otherwise one payload item per error, in order. */
  function AnalysisPayload(log: seq<ProblemHistoryItem>): (r: Option<seq<AnalysisItem>>)
    ensures r.None? <==> log == []
    ensures r.Some? ==> |r.value| == |log| && forall i :: 0 <= i < |log| ==> r.value[i] == PayloadItem(log[i])
  {
    if log == [] then None
    else Some(seq(|log|, i requires 0 <= i < |log| => PayloadItem(log[i])))
  }

  /** A quick-quiz record reaches the analyser with its question text and the attempt the quiz wrote, never the default. */
  lemma QuickQuizRecordPayload(a: AnsweredQuizQuestion, timeout: bool, uid: string, now: int, tag: string)
    requires a.question.text != ""
    ensures var p := PayloadItem(QuickQuiz.ErrorRecord(a, timeout, uid, now, tag));
      p.problem == a.question.text && p.userAttempt == QuickQuiz.AttemptText(a.userAnswer, timeout)
  {
  }

  /** A themed-quiz record reaches the analyser with its question text and the attempt as typed, or the quiz's own note. */
  lemma ThemedQuizRecordPayload(a: AnsweredThemedQuizQuestion, uid: string, now: int)
    requires a.question.text != ""
    ensures var p := PayloadItem(ThemedQuiz.ErrorRecord(a, uid, now));
      p.problem == a.question.text && p.userAttempt == OrElse(Some(a.userAnswerText), "(未作答)")
  {
  }
}
