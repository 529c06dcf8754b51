/**
 * The list operations behind both history panels (src/components/math-solver/problem-history.tsx
 * and src/components/knowledge-nook/knowledge-nook-history.tsx): loading with a fallback to the
 * local cache, optimistic insertion, id replacement, deletion, the bounded cache and the display
 * slice. Items are `Entry<P>` for any payload `P`.
 *
 * Sorting is `Array.prototype.sort` with the comparator `(a, b) => b.timestamp - a.timestamp`;
 * ECMAScript requires that sort to be stable, so it is modelled by a stable insertion sort.
 */
module HistoryList {
  import opened Wrappers
  import opened Text
  import opened Records
  import opened Sequences

  function ById<P>(e: Entry<P>): string { e.id }

  /** Newest first. */
  predicate SortedDesc<P>(xs: seq<Entry<P>>) {
    forall i, j :: 0 <= i < j < |xs| ==> xs[i].timestamp >= xs[j].timestamp
  }

  // ---------------------------------------------------------------------------
  // Stable sort, newest first
  // ---------------------------------------------------------------------------

  /** Places `e` after every element at least as new as it, before the first older one. */
  function InsertDesc<P>(s: seq<Entry<P>>, e: Entry<P>): (r: seq<Entry<P>>)
    ensures multiset(r) == multiset(s) + multiset{e} && |r| == |s| + 1
    ensures r[0] == e || (s != [] && r[0] == s[0])
  {
    if s == [] then [e]
    else if s[0].timestamp >= e.timestamp then
      assert s == [s[0]] + s[1..];
      [s[0]] + InsertDesc(s[1..], e)
    else [e] + s
  }

  /** Inserting into a newest-first list keeps it newest first. */
  lemma {:induction false} InsertDescSorted<P>(s: seq<Entry<P>>, e: Entry<P>)
    requires SortedDesc(s)
    ensures SortedDesc(InsertDesc(s, e))
  {
    if s != [] && s[0].timestamp >= e.timestamp {
      InsertDescSorted(s[1..], e);
      var rest := InsertDesc(s[1..], e);
      forall i | 0 <= i < |rest| ensures s[0].timestamp >= rest[i].timestamp {
        assert rest[i] in multiset(s[1..]) + multiset{e};
        if rest[i] != e {
          var j :| 0 <= j < |s[1..]| && s[1..][j] == rest[i];
          assert s[j + 1] == rest[i];
        }
      }
    }
  }

  /** `xs.sort((a, b) => b.timestamp - a.timestamp)`. */
  function SortDesc<P>(xs: seq<Entry<P>>): (r: seq<Entry<P>>)
    ensures SortedDesc(r)
    ensures multiset(r) == multiset(xs) && |r| == |xs|
  {
    if xs == [] then []
    else
      var n := |xs| - 1;
      assert xs == xs[..n] + [xs[n]];
      InsertDescSorted(SortDesc(xs[..n]), xs[n]);
      InsertDesc(SortDesc(xs[..n]), xs[n])
  }

  lemma {:induction false} InsertDescAtEnd<P>(s: seq<Entry<P>>, e: Entry<P>)
    requires forall i :: 0 <= i < |s| ==> s[i].timestamp >= e.timestamp
    ensures InsertDesc(s, e) == s + [e]
  {
    if s != [] {
      InsertDescAtEnd(s[1..], e);
      assert s == [s[0]] + s[1..];
    }
  }

  /** Sorting a list that is already newest first changes nothing. */
  lemma {:induction false} SortDescSorted<P>(xs: seq<Entry<P>>)
    requires SortedDesc(xs)
    ensures SortDesc(xs) == xs
  {
    if xs != [] {
      var n := |xs| - 1;
      SortDescSorted(xs[..n]);
      InsertDescAtEnd(xs[..n], xs[n]);
      assert xs[..n] + [xs[n]] == xs;
    }
  }

  function HasTimestamp<P>(t: int): Entry<P> -> bool {
    (e: Entry<P>) => e.timestamp == t
  }

  lemma {:induction false} InsertDescStable<P>(s: seq<Entry<P>>, e: Entry<P>, t: int)
    requires SortedDesc(s)
    ensures Filter(InsertDesc(s, e), HasTimestamp(t)) ==
      Filter(s, HasTimestamp(t)) + (if e.timestamp == t then [e] else [])
  {
    if s == [] {
    } else if s[0].timestamp >= e.timestamp {
      InsertDescStable(s[1..], e, t);
      var rest := InsertDesc(s[1..], e);
      assert ([s[0]] + rest)[1..] == rest;
    } else {
      if e.timestamp == t {
        FilterNone(s, HasTimestamp<P>(t));
      }
      assert ([e] + s)[1..] == s;
    }
  }

  /** The sort is stable: items with the same timestamp keep their relative order. */
  lemma {:induction false} SortDescStable<P>(xs: seq<Entry<P>>, t: int)
    ensures Filter(SortDesc(xs), HasTimestamp(t)) == Filter(xs, HasTimestamp(t))
  {
    if xs != [] {
      var n := |xs| - 1;
      var sorted := SortDesc(xs[..n]);
      var same := HasTimestamp<P>(t);
      var last := if xs[n].timestamp == t then [xs[n]] else [];
      calc {
        Filter(SortDesc(xs), same);
        Filter(InsertDesc(sorted, xs[n]), same);
        { InsertDescStable(sorted, xs[n], t); }
        Filter(sorted, same) + last;
        { SortDescStable(xs[..n], t); }
        Filter(xs[..n], same) + last;
        { FilterSnoc(xs, same); }
        Filter(xs, same);
      }
    }
  }

  /** The head of a newest-first list is at least as new as anything kept from its tail. */
  lemma HeadNewest<P>(xs: seq<Entry<P>>, keep: Entry<P> -> bool)
    requires SortedDesc(xs) && xs != []
    ensures forall i :: 0 <= i < |Filter(xs[1..], keep)| ==> xs[0].timestamp >= Filter(xs[1..], keep)[i].timestamp
  {
    var rest := Filter(xs[1..], keep);
    FilterMembers(xs[1..], keep);
    forall i | 0 <= i < |rest| ensures xs[0].timestamp >= rest[i].timestamp {
      var j :| 0 <= j < |xs[1..]| && xs[1..][j] == rest[i];
      assert xs[j + 1] == rest[i];
    }
  }

  /** Keeping some items of a newest-first list leaves it newest first. */
  lemma {:induction false} FilterSortedDesc<P>(xs: seq<Entry<P>>, keep: Entry<P> -> bool)
    requires SortedDesc(xs)
    ensures SortedDesc(Filter(xs, keep))
  {
    if xs != [] {
      FilterSortedDesc(xs[1..], keep);
      FilterCons(xs, keep);
      if keep(xs[0]) {
        HeadNewest(xs, keep);
        var rest := Filter(xs[1..], keep);
        var r := [xs[0]] + rest;
        assert forall j :: 1 <= j < |r| ==> r[j] == rest[j - 1];
      }
    }
  }

  // ---------------------------------------------------------------------------
  // The local cache and the display slice
  // ---------------------------------------------------------------------------

  /** `items.slice(0, cap)`: what is written to local storage. */
  function Cap<P>(xs: seq<Entry<P>>, cap: nat): (r: seq<Entry<P>>)
    ensures |r| == if |xs| < cap then |xs| else cap
    ensures r == xs[..|r|]
  {
    if |xs| < cap then xs else xs[..cap]
  }

  /** The full list on the panel's own page; elsewhere, the sidebar's first few items. */
  function Displayed<P>(history: seq<Entry<P>>, pathname: string, fullPath: string, sidebarCount: nat): (r: seq<Entry<P>>)
    ensures pathname == fullPath ==> r == history
    ensures pathname != fullPath ==> r == Cap(history, sidebarCount)
  {
    if pathname == fullPath then history else Cap(history, sidebarCount)
  }

  // ---------------------------------------------------------------------------
  // Loading
  // ---------------------------------------------------------------------------

  /** The answer of the remote store: the user's items, or an exception. */
  datatype RemoteList<T> = Fetched(items: seq<T>) | Failed

  /** Nothing happens while sign-in is pending; a load either rejects (history unchanged) or yields a list. */
  datatype LoadResult<T> = Waiting | Aborted | Loaded(items: seq<T>)

  /** The local slot as a list: nothing stored is the empty list. */
  function FromCache<P>(cache: Cached<seq<Entry<P>>>): seq<Entry<P>>
    requires !cache.Corrupt?
  {
    if cache.Present? then cache.value else []
  }

  /**
   * `fetchHistory`. A signed-in user gets the remote items; when there are none, or the remote
   * load fails, the local cache, where an unparsable cache makes the load reject (the second
   * `JSON.parse` is outside any `try`). Without a user the cache is read and an unparsable one
   * counts as empty. Whatever is loaded is sorted newest first.
   */
  function Load<P>(authLoading: bool, signedIn: bool, remote: RemoteList<Entry<P>>, cache: Cached<seq<Entry<P>>>): (r: LoadResult<Entry<P>>)
    ensures authLoading <==> r.Waiting?
    ensures r.Aborted? <==> !authLoading && signedIn && !(remote.Fetched? && remote.items != []) && cache.Corrupt?
    ensures r.Loaded? ==> SortedDesc(r.items)
    ensures r.Loaded? && signedIn && remote.Fetched? && remote.items != [] ==> multiset(r.items) == multiset(remote.items)
    ensures r.Loaded? && !(signedIn && remote.Fetched? && remote.items != []) ==>
      if cache.Present? then multiset(r.items) == multiset(cache.value) else r.items == []
  {
    if authLoading then Waiting
    else if signedIn && remote.Fetched? && remote.items != [] then Loaded(SortDesc(remote.items))
    else if cache.Corrupt? then (if signedIn then Aborted else Loaded([]))
    else Loaded(SortDesc(FromCache(cache)))
  }

  /** The remote items are used as soon as there are any, whatever the cache holds. */
  lemma LoadPrefersRemote<P>(remote: seq<Entry<P>>, cache1: Cached<seq<Entry<P>>>, cache2: Cached<seq<Entry<P>>>)
    requires remote != []
    ensures Load(false, true, Fetched(remote), cache1) == Load(false, true, Fetched(remote), cache2)
  {
  }

  /** A remote answer with nothing in it and a failed remote load lead to the same list. */
  lemma LoadEmptyIsFailure<P>(cache: Cached<seq<Entry<P>>>)
    ensures Load(false, true, Fetched([]), cache) == Load<P>(false, true, Failed, cache)
  {
  }

  /** A newest-first list survives a round trip through the cache unchanged. */
  lemma LoadCachedList<P>(signedIn: bool, xs: seq<Entry<P>>)
    requires SortedDesc(xs)
    ensures Load(false, signedIn, Failed, Present(xs)) == Loaded(xs)
  {
    SortDescSorted(xs);
  }

  // ---------------------------------------------------------------------------
  // Insertion, id replacement, deletion
  // ---------------------------------------------------------------------------

  /** `id || prefix + Date.now()`: an item without an id gets a temporary one. */
  function OptimisticId(id: string, tempPrefix: string, now: int): (r: string)
    ensures id != "" ==> r == id
    ensures id == "" ==> r == tempPrefix + IntToString(now)
  {
    if id != "" then id else tempPrefix + IntToString(now)
  }

  /** The item as inserted: its own id, or a temporary one. */
  function Optimistic<P>(item: Entry<P>, tempPrefix: string, now: int): (e: Entry<P>)
    ensures e.id == OptimisticId(item.id, tempPrefix, now) && e.timestamp == item.timestamp && e.data == item.data
  {
    item.(id := OptimisticId(item.id, tempPrefix, now))
  }

  /** `[item, ...history.filter(x => x.id !== item.id)]`. */
  function Prepended<P(==)>(history: seq<Entry<P>>, e: Entry<P>): seq<Entry<P>> {
    [e] + WithoutKey(history, ById, e.id)
  }

  /**
   * The optimistic insert: the new item first, every older item with its id dropped, the first
   * item of each id kept, then sorted newest first.
   */
  function Insert<P(==)>(history: seq<Entry<P>>, item: Entry<P>, tempPrefix: string, now: int): (r: seq<Entry<P>>)
    ensures SortedDesc(r)
  {
    SortDesc(DedupeBy(Prepended(history, Optimistic(item, tempPrefix, now)), ById))
  }

  /** After an insert the ids are distinct, and the one item with the new item's id is the new item. */
  lemma InsertUnique<P>(history: seq<Entry<P>>, item: Entry<P>, tempPrefix: string, now: int)
    ensures var e, r := Optimistic(item, tempPrefix, now), Insert(history, item, tempPrefix, now);
      && DistinctKeys(r, ById)
      && e in r
      && (forall i :: 0 <= i < |r| && r[i].id == e.id ==> r[i] == e)
  {
    var e := Optimistic(item, tempPrefix, now);
    var unique := DedupeBy(Prepended(history, e), ById);
    var r := SortDesc(unique);
    PermutationKeepsDistinctKeys(unique, r, ById);
    assert e in multiset(r);
    forall i | 0 <= i < |r| && r[i].id == e.id ensures r[i] == e {
      assert r[i] in multiset(unique);
      var j :| 0 <= j < |unique| && unique[j] == r[i];
      assert j == 0;
    }
  }

  /** An insert keeps every id it found and adds the new item's. */
  lemma InsertKeys<P>(history: seq<Entry<P>>, item: Entry<P>, tempPrefix: string, now: int)
    ensures var e := Optimistic(item, tempPrefix, now);
      KeysOf(Insert(history, item, tempPrefix, now), ById) == KeysOf(history, ById) + {e.id}
  {
    var e := Optimistic(item, tempPrefix, now);
    var unique := DedupeBy(Prepended(history, e), ById);
    PermutationKeys(unique, SortDesc(unique), ById);
    KeysOfConcat([e], WithoutKey(history, ById, e.id), ById);
    assert KeysOf([e], ById) == {e.id};
  }

  /** With distinct ids, prepending an item leaves nothing to de-duplicate. */
  lemma PrependedDistinct<P>(history: seq<Entry<P>>, e: Entry<P>)
    requires DistinctKeys(history, ById)
    ensures DedupeBy(Prepended(history, e), ById) == Prepended(history, e)
  {
    var rest := WithoutKey(history, ById, e.id);
    var updated := Prepended(history, e);
    FilterKeepsDistinctKeys(history, NotKey(ById, e.id), ById);
    assert DistinctKeys(updated, ById) by {
      assert forall i :: 1 <= i < |updated| ==> updated[i] == rest[i - 1];
    }
    DedupeDistinct(updated, ById);
  }

  /**
   * When the ids were distinct, the insert keeps every older item with a different id, so the
   * list grows by one for a new id and keeps its length for an existing one.
   */
  lemma InsertKeeps<P>(history: seq<Entry<P>>, item: Entry<P>, tempPrefix: string, now: int)
    requires DistinctKeys(history, ById)
    ensures var e, r := Optimistic(item, tempPrefix, now), Insert(history, item, tempPrefix, now);
      && (forall i :: 0 <= i < |history| && history[i].id != e.id ==> history[i] in r)
      && |r| == if e.id in KeysOf(history, ById) then |history| else |history| + 1
  {
    var e := Optimistic(item, tempPrefix, now);
    var rest := WithoutKey(history, ById, e.id);
    var updated := Prepended(history, e);
    PrependedDistinct(history, e);
    WithoutKeyLength(history, ById, e.id);
    var r := SortDesc(updated);
    assert Insert(history, item, tempPrefix, now) == r;
    assert |r| == |rest| + 1;
    forall i | 0 <= i < |history| && history[i].id != e.id ensures history[i] in r {
      FilterMembers(history, NotKey(ById, e.id));
      assert history[i] in rest;
      assert history[i] in multiset(updated);
    }
  }

  /** `item.id === tempId ? { ...item, id: newId } : item` over the list. */
  function RenameIds<P>(xs: seq<Entry<P>>, tempId: string, newId: string): (r: seq<Entry<P>>)
    ensures |r| == |xs|
    ensures forall i :: 0 <= i < |xs| ==> r[i] == if xs[i].id == tempId then xs[i].(id := newId) else xs[i]
  {
    seq(|xs|, i requires 0 <= i < |xs| => if xs[i].id == tempId then xs[i].(id := newId) else xs[i])
  }

  /** Replacing the temporary id with the one the remote store assigned, then re-sorting. */
  function Rename<P>(xs: seq<Entry<P>>, tempId: string, newId: string): (r: seq<Entry<P>>)
    ensures SortedDesc(r)
    ensures multiset(r) == multiset(RenameIds(xs, tempId, newId))
  {
    SortDesc(RenameIds(xs, tempId, newId))
  }

  /** Renaming never moves an item: on a newest-first list it only changes the matching ids. */
  lemma RenameInPlace<P>(xs: seq<Entry<P>>, tempId: string, newId: string)
    requires SortedDesc(xs)
    ensures Rename(xs, tempId, newId) == RenameIds(xs, tempId, newId)
  {
    SortDescSorted(RenameIds(xs, tempId, newId));
  }

  /** When the temporary item has gone (deleted meanwhile), renaming a newest-first list changes nothing. */
  lemma RenameAbsent<P>(xs: seq<Entry<P>>, tempId: string, newId: string)
    requires SortedDesc(xs) && tempId !in KeysOf(xs, ById)
    ensures Rename(xs, tempId, newId) == xs
  {
    assert forall i :: 0 <= i < |xs| ==> ById(xs[i]) in KeysOf(xs, ById);
    RenameInPlace(xs, tempId, newId);
  }

  /** `handleDeleteItem`'s filter: every item with that id goes, the rest stay in order; an empty id does nothing. */
  function Remove<P(==)>(xs: seq<Entry<P>>, id: string): (r: seq<Entry<P>>)
    ensures id == "" ==> r == xs
    ensures id != "" ==> KeysOf(r, ById) == KeysOf(xs, ById) - {id}
    ensures forall i :: 0 <= i < |r| ==> r[i].id != id || id == ""
    ensures forall i :: 0 <= i < |xs| && xs[i].id != id ==> xs[i] in r
    ensures IsSubsequence(r, xs)
    ensures id != "" ==> forall e :: e in xs && e.id != id ==> multiset(r)[e] == multiset(xs)[e]
  {
    if id == "" then
      assert IsSubsequence(xs, xs) by { SubsequenceReflexive(xs); }
      xs
    else
      var r := WithoutKey(xs, ById, id);
      FilterMembers(xs, NotKey(ById, id));
      assert forall i :: 0 <= i < |xs| && xs[i].id != id ==> xs[i] in r;
      forall e | e in xs && e.id != id ensures multiset(r)[e] == multiset(xs)[e] {
        FilterMultiset(xs, NotKey(ById, id), e);
      }
      r
  }

  /** Deleting keeps a list newest first. */
  lemma RemoveSorted<P>(xs: seq<Entry<P>>, id: string)
    requires SortedDesc(xs)
    ensures SortedDesc(Remove(xs, id))
  {
    if id != "" {
      FilterSortedDesc(xs, NotKey(ById, id));
    }
  }

  /** What the cache holds is reloaded as it was written: a newest-first list, cut at `cap`. */
  lemma CacheReloads<P>(signedIn: bool, xs: seq<Entry<P>>, cap: nat)
    requires SortedDesc(xs)
    ensures Load(false, signedIn, Failed, Present(Cap(xs, cap))) == Loaded(Cap(xs, cap))
  {
    LoadCachedList(signedIn, Cap(xs, cap));
  }

  /** Deleting the item just inserted removes its id and leaves every other id that was there. */
  lemma InsertThenDelete<P>(history: seq<Entry<P>>, item: Entry<P>, tempPrefix: string, now: int)
    requires tempPrefix != ""
    ensures var e := Optimistic(item, tempPrefix, now);
      KeysOf(Remove(Insert(history, item, tempPrefix, now), e.id), ById) == KeysOf(history, ById) - {e.id}
  {
    InsertKeys(history, item, tempPrefix, now);
  }
}
