/**
 * Question selection from the question bank (src/lib/question-bank.ts). The bank itself is static
 * data and is passed in; `Math.random()` becomes an explicit draw.
 */
module QuestionBank {
  import opened Wrappers
  import opened Records
  import opened Sequences

  /** Questions per quick quiz. */
  const TotalQuickQuizQuestions: nat := 10
  /** Seconds allowed per quick-quiz question. */
  const TimePerQuickQuizQuestion: nat := 30

  function QuestionId(q: QuizQuestion): string { q.id }

  function Unanswered(answered: seq<string>): QuizQuestion -> bool {
    (q: QuizQuestion) => q.id !in answered
  }

  function HasTopic(topic: string): QuizQuestion -> bool {
    (q: QuizQuestion) => q.topic == topic
  }

  /** The questions whose id has not been answered yet, in bank order. */
  function Available(bank: seq<QuizQuestion>, answered: seq<string>): (r: seq<QuizQuestion>)
    ensures forall i :: 0 <= i < |r| ==> r[i] in bank && r[i].id !in answered
    ensures forall i :: 0 <= i < |bank| && bank[i].id !in answered ==> bank[i] in r
  {
    FilterMembers(bank, Unanswered(answered));
    Filter(bank, Unanswered(answered))
  }

  /**
   * `getRandomQuestion(answered)`: a random question not yet answered; once every question has
   * been answered, a random question of the whole bank; `None` only for an empty bank.
   * `pick` is the random draw, reduced to an index into the candidates.
   */
  function RandomQuestion(bank: seq<QuizQuestion>, answered: seq<string>, pick: nat): (r: Option<QuizQuestion>)
    ensures r.None? <==> bank == []
    ensures r.Some? ==> r.value in bank
    ensures (exists i :: 0 <= i < |bank| && bank[i].id !in answered) ==> r.Some? && r.value.id !in answered
  {
    var available := Available(bank, answered);
    if available == [] then
      if bank == [] then None else Some(bank[IndexFromDraw(|bank|, pick)])
    else
      Some(available[IndexFromDraw(|available|, pick)])
  }

  /** Every question not yet answered is a possible outcome. */
  lemma RandomQuestionReachesAvailable(bank: seq<QuizQuestion>, answered: seq<string>, q: QuizQuestion) returns (pick: nat)
    requires q in bank && q.id !in answered
    ensures RandomQuestion(bank, answered, pick) == Some(q)
  {
    var available := Available(bank, answered);
    var i :| 0 <= i < |bank| && bank[i] == q;
    assert q in available;
    pick :| 0 <= pick < |available| && available[pick] == q;
  }

  /** When every question has been answered, every question of the bank is a possible outcome. */
  lemma RandomQuestionReachesRepeat(bank: seq<QuizQuestion>, answered: seq<string>, q: QuizQuestion) returns (pick: nat)
    requires forall i :: 0 <= i < |bank| ==> bank[i].id in answered
    requires q in bank
    ensures RandomQuestion(bank, answered, pick) == Some(q)
  {
    var available := Available(bank, answered);
    FilterNone(bank, Unanswered(answered));
    pick :| 0 <= pick < |bank| && bank[pick] == q;
  }

  /** The questions of one topic, in bank order. */
  function OfTopic(bank: seq<QuizQuestion>, topic: string): (r: seq<QuizQuestion>)
    ensures forall i :: 0 <= i < |r| ==> r[i] in bank && r[i].topic == topic
    ensures forall i :: 0 <= i < |bank| && bank[i].topic == topic ==> bank[i] in r
  {
    FilterMembers(bank, HasTopic(topic));
    Filter(bank, HasTopic(topic))
  }

  /** Where `xs.slice(0, count)` ends on a sequence of length `n`: a negative count counts from the end. */
  function SliceEnd(n: nat, count: int): (e: nat)
    ensures e <= n
    ensures count >= 0 ==> e == if count < n then count else n
  {
    if count >= 0 then (if count < n then count else n)
    else if n + count > 0 then n + count else 0
  }

  /**
   * `getThemedQuizQuestions(topic, count)`: the topic's questions, shuffled (the random comparator
   * becomes the draws), then the first `count` of them.
   */
  function ThemedQuestions(bank: seq<QuizQuestion>, topic: string, count: int, draws: seq<nat>): (r: seq<QuizQuestion>)
    ensures var n := |OfTopic(bank, topic)|;
      count >= 0 ==> |r| == if count < n then count else n
    ensures forall i :: 0 <= i < |r| ==> r[i].topic == topic && r[i] in bank
    ensures multiset(r) <= multiset(OfTopic(bank, topic))
  {
    var pool := OfTopic(bank, topic);
    var shuffled := PermuteByDraws(pool, draws);
    var r := shuffled[..SliceEnd(|shuffled|, count)];
    PrefixMembers(shuffled, pool, |r|);
    r
  }

  /** Every selection a fair shuffle could make is a possible outcome: any ordering of the topic's questions, cut at `count`. */
  lemma ThemedQuestionsReachable(bank: seq<QuizQuestion>, topic: string, count: int, p: seq<QuizQuestion>) returns (draws: seq<nat>)
    requires multiset(p) == multiset(OfTopic(bank, topic))
    ensures ThemedQuestions(bank, topic, count, draws) == p[..SliceEnd(|p|, count)]
  {
    draws := EveryPermutationReachable(OfTopic(bank, topic), p);
  }

  /** A bank without repeated ids yields a themed quiz without repeated questions. */
  lemma ThemedQuestionsDistinct(bank: seq<QuizQuestion>, topic: string, count: int, draws: seq<nat>)
    requires DistinctKeys(bank, QuestionId)
    ensures DistinctKeys(ThemedQuestions(bank, topic, count, draws), QuestionId)
  {
    var pool := OfTopic(bank, topic);
    FilterKeepsDistinctKeys(bank, HasTopic(topic), QuestionId);
    var shuffled := PermuteByDraws(pool, draws);
    PermutationKeepsDistinctKeys(pool, shuffled, QuestionId);
  }

  /** The topic of every question, in bank order. */
  function Topics(bank: seq<QuizQuestion>): (r: seq<string>)
    ensures |r| == |bank| && forall i :: 0 <= i < |bank| ==> r[i] == bank[i].topic
  {
    seq(|bank|, i requires 0 <= i < |bank| => bank[i].topic)
  }

  function Identity(t: string): string { t }

  /** `Array.from(new Set(bank.map(q => q.topic)))`: each topic once, in order of first appearance. */
  function AvailableTopics(bank: seq<QuizQuestion>): (r: seq<string>)
    ensures forall i, j :: 0 <= i < j < |r| ==> r[i] != r[j]
    ensures forall i :: 0 <= i < |bank| ==> bank[i].topic in r
    ensures forall i :: 0 <= i < |r| ==> exists j :: 0 <= j < |bank| && bank[j].topic == r[i]
    ensures bank != [] ==> r != [] && r[0] == bank[0].topic
  {
    var topics := Topics(bank);
    var r := DedupeBy(topics, Identity);
    TopicsKept(topics, r);
    r
  }

  /** Every topic of the bank is listed, and every listed topic is one of the bank's. */
  lemma TopicsKept(topics: seq<string>, r: seq<string>)
    requires KeysOf(r, Identity) == KeysOf(topics, Identity)
    ensures forall i :: 0 <= i < |topics| ==> topics[i] in r
    ensures forall i :: 0 <= i < |r| ==> r[i] in topics
  {
    forall i | 0 <= i < |topics| ensures topics[i] in r {
      assert Identity(topics[i]) in KeysOf(topics, Identity);
    }
    forall i | 0 <= i < |r| ensures r[i] in topics {
      assert Identity(r[i]) in KeysOf(r, Identity);
    }
  }

  /** Topics keep the order in which they first appear: the topics of a prefix of the bank are a prefix of the list. */
  lemma AvailableTopicsPrefix(bank: seq<QuizQuestion>, i: nat)
    requires i <= |bank|
    ensures var p := AvailableTopics(bank[..i]);
      |p| <= |AvailableTopics(bank)| && p == AvailableTopics(bank)[..|p|]
  {
    assert Topics(bank[..i]) == Topics(bank)[..i];
    DedupePrefix(Topics(bank), Identity, i);
  }
}
