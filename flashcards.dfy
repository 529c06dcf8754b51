/**
 * The flashcard page (src/app/flashcards/page.tsx): a selected set, the cards in the order shown,
 * and the index of the card on screen. The sets are static data and are passed in; the random
 * comparator of the shuffle becomes the draws of `PermuteByDraws`.
 *
 * The index is a JavaScript number: `% 0` on an empty deck gives `NaN`.
 */
module Flashcards {
  import opened Wrappers
  import opened Records
  import opened Sequences
  import opened Numbers

  /** `i` is the index of the first set with that id. */
  predicate FirstWithId(sets: seq<FlashcardSet>, i: int, id: string) {
    0 <= i < |sets| && sets[i].id == id && forall j :: 0 <= j < i ==> sets[j].id != id
  }

  /** `sets.find(set => set.id === id)`: the first set with that id. */
  function FindSet(sets: seq<FlashcardSet>, id: Option<string>): (r: Option<FlashcardSet>)
    ensures r.None? <==> id.None? || forall i :: 0 <= i < |sets| ==> sets[i].id != id.value
    ensures r.Some? ==> exists i :: FirstWithId(sets, i, id.value) && sets[i] == r.value
  {
    if id.None? || sets == [] then None
    else if sets[0].id == id.value then
      assert FirstWithId(sets, 0, id.value);
      Some(sets[0])
    else
      var r := FindSet(sets[1..], id);
      assert r.Some? ==> exists i :: FirstWithId(sets, i, id.value) && sets[i] == r.value by {
        if r.Some? {
          var i :| FirstWithId(sets[1..], i, id.value) && sets[1..][i] == r.value;
          assert forall j :: 1 <= j < i + 1 ==> sets[j].id == sets[1..][j - 1].id;
          assert FirstWithId(sets, i + 1, id.value);
        }
      }
      assert r.None? ==> forall i :: 1 <= i < |sets| ==> sets[i].id != id.value by {
        assert forall i :: 1 <= i < |sets| ==> sets[i] == sets[1..][i - 1];
      }
      r
  }

  /** `(i + 1) % n`. */
  function NextIndex(i: JsNumber, n: nat): (r: JsNumber)
    ensures i.Num? && n > 0 && i.value >= 0 ==> r.Num? && 0 <= r.value < n
    ensures r.NaN? <==> i.NaN? || n == 0
  {
    if i.Num? then RemNumber(Num(i.value + 1), n) else NaN
  }

  /** `(i - 1 + n) % n`. */
  function PrevIndex(i: JsNumber, n: nat): (r: JsNumber)
    ensures i.Num? && n > 0 && i.value >= 0 ==> r.Num? && 0 <= r.value < n
    ensures r.NaN? <==> i.NaN? || n == 0
  {
    if i.Num? then RemNumber(Num(i.value - 1 + n), n) else NaN
  }

  /** Inside the deck, the previous card of the next card, and the next card of the previous one, is the card itself. */
  lemma NextPrevInverse(i: int, n: nat)
    requires 0 <= i < n
    ensures PrevIndex(NextIndex(Num(i), n), n) == Num(i)
    ensures NextIndex(PrevIndex(Num(i), n), n) == Num(i)
  {
    ModSmall(i + 1, n);
    var j := if i + 1 < n then i + 1 else 0;
    assert NextIndex(Num(i), n) == Num(j);
    ModSmall(j - 1 + n, n);
    ModSmall(i - 1 + n, n);
    var p := if i > 0 then i - 1 else n - 1;
    assert PrevIndex(Num(i), n) == Num(p);
    ModSmall(p + 1, n);
  }

  /** `k` presses of next. */
  function NextTimes(i: JsNumber, n: nat, k: nat): JsNumber
    decreases k
  {
    if k == 0 then i else NextIndex(NextTimes(i, n, k - 1), n)
  }

  /** Next walks round the deck: `k` presses from card `i` land on card `(i + k) % n`, so `n` presses come back. */
  lemma {:induction false} NextTimesWraps(i: int, n: nat, k: nat)
    requires 0 <= i < n
    ensures NextTimes(Num(i), n, k) == Num((i + k) % n)
    decreases k
  {
    if k == 0 {
      ModSmall(i, n);
    } else {
      var a: nat := i + k - 1;
      NextTimesWraps(i, n, k - 1);
      var j := a % n;
      ModSucc(a, n);
      assert NextTimes(Num(i), n, k) == NextIndex(Num(j), n);
      assert NextIndex(Num(j), n) == Num((j + 1) % n);
      assert a + 1 == i + k;
    }
  }

  class FlashcardDeck {
    /** The available sets. */
    const sets: seq<FlashcardSet>
    var selectedSetId: Option<string>
    var currentCardIndex: JsNumber
    var shuffledCards: seq<Flashcard>

    /** The set the selected id names, if any. */
    function SelectedSet(): Option<FlashcardSet>
      reads this
    {
      FindSet(sets, selectedSetId)
    }

    /** While a deck has cards the index points into it, and the cards shown are the selected set's cards in some order. */
    predicate Valid()
      reads this
    {
      && (|shuffledCards| > 0 ==> currentCardIndex.Num? && 0 <= currentCardIndex.value < |shuffledCards|)
      && (SelectedSet().Some? ==> multiset(shuffledCards) == multiset(SelectedSet().value.cards))
    }

    /** The page on first render, after the effect that loads the first set. */
    constructor (sets: seq<FlashcardSet>)
      ensures Valid()
      ensures this.sets == sets && selectedSetId == (if sets == [] then None else Some(sets[0].id))
      ensures currentCardIndex == Num(0)
      ensures shuffledCards == if SelectedSet().Some? then SelectedSet().value.cards else []
    {
      this.sets := sets;
      selectedSetId := if sets == [] then None else Some(sets[0].id);
      currentCardIndex := Num(0);
      shuffledCards := [];
      new;
      var selected := FindSet(sets, selectedSetId);
      if selected.Some? {
        shuffledCards := selected.value.cards;
      }
    }

    /**
     * `handleSetChange` and the effect it triggers: when the selected set changes to a set that
     * exists, its cards in their original order from the first card; otherwise the deck stays.
     */
    method SetChange(setId: string)
      requires Valid()
      modifies this
      ensures Valid()
      ensures selectedSetId == Some(setId)
      ensures var before, after := FindSet(sets, old(selectedSetId)), SelectedSet();
        if after != before && after.Some? then shuffledCards == after.value.cards && currentCardIndex == Num(0)
        else shuffledCards == old(shuffledCards) && currentCardIndex == old(currentCardIndex)
    {
      var before := SelectedSet();
      selectedSetId := Some(setId);
      var after := SelectedSet();
      if after != before && after.Some? {
        shuffledCards := after.value.cards;
        currentCardIndex := Num(0);
      }
    }

    /** `handleNextCard`: nothing without a selected set. */
    method NextCard()
      requires Valid()
      modifies this
      ensures Valid()
      ensures selectedSetId == old(selectedSetId) && shuffledCards == old(shuffledCards)
      ensures currentCardIndex == if SelectedSet().Some? then NextIndex(old(currentCardIndex), |shuffledCards|) else old(currentCardIndex)
    {
      if SelectedSet().Some? {
        currentCardIndex := NextIndex(currentCardIndex, |shuffledCards|);
      }
    }

    /** `handlePreviousCard`: nothing without a selected set. */
    method PreviousCard()
      requires Valid()
      modifies this
      ensures Valid()
      ensures selectedSetId == old(selectedSetId) && shuffledCards == old(shuffledCards)
      ensures currentCardIndex == if SelectedSet().Some? then PrevIndex(old(currentCardIndex), |shuffledCards|) else old(currentCardIndex)
    {
      if SelectedSet().Some? {
        currentCardIndex := PrevIndex(currentCardIndex, |shuffledCards|);
      }
    }

    /** `handleShuffleCards`: the selected set's cards in a new order, from the first card; nothing without a selected set. */
    method ShuffleCards(draws: seq<nat>)
      requires Valid()
      modifies this
      ensures Valid()
      ensures selectedSetId == old(selectedSetId)
      ensures SelectedSet().None? ==> shuffledCards == old(shuffledCards) && currentCardIndex == old(currentCardIndex)
      ensures SelectedSet().Some? ==> shuffledCards == PermuteByDraws(SelectedSet().value.cards, draws) && currentCardIndex == Num(0)
    {
      var selected := SelectedSet();
      if selected.Some? {
        shuffledCards := PermuteByDraws(selected.value.cards, draws);
        currentCardIndex := Num(0);
      }
    }

    /** The card on screen: none without a selected set, or when the index points nowhere. */
    function CurrentCard(): (c: Option<Flashcard>)
      reads this
      requires Valid()
      ensures SelectedSet().Some? && shuffledCards != [] ==> c.Some? && c.value in shuffledCards
      ensures SelectedSet().None? ==> c.None?
      ensures c.Some? ==> currentCardIndex.Num? && 0 <= currentCardIndex.value < |shuffledCards|
                          && c.value == shuffledCards[currentCardIndex.value]
    {
      if SelectedSet().None? then None
      else if currentCardIndex.Num? && 0 <= currentCardIndex.value < |shuffledCards| then Some(shuffledCards[currentCardIndex.value])
      else None
    }
  }

  /** Every order of the selected set's cards is one a shuffle can produce. */
  lemma ShuffleReachesEveryOrder(cards: seq<Flashcard>, order: seq<Flashcard>) returns (draws: seq<nat>)
    requires multiset(order) == multiset(cards)
    ensures PermuteByDraws(cards, draws) == order
  {
    draws := EveryPermutationReachable(cards, order);
  }
}
