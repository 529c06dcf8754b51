/**
 * The state of one history panel: the list on screen, the local-storage slot that backs it and
 * the loading flag, with the panel's effects and handlers as methods. Both panels
 * (src/components/math-solver/problem-history.tsx and
 * src/components/knowledge-nook/knowledge-nook-history.tsx) are this class with different
 * constants. Remote calls are not made here: a method that would call the remote store returns
 * the request, and the store's answer comes back as an argument.
 */
module HistoryStore {
  import opened Wrappers
  import opened Records
  import opened Sequences
  import opened HistoryList

  class HistoryPanel<P(==)> {
    /** How many items the local cache keeps. */
    const cap: nat
    /** The prefix of a temporary id. */
    const tempPrefix: string
    /** The page that shows the whole list. */
    const fullPath: string
    /** How many items the sidebar shows. */
    const sidebarCount: nat

    var history: seq<Entry<P>>
    var cache: Cached<seq<Entry<P>>>
    var loading: bool

    /** The list on screen is always newest first. */
    predicate Valid()
      reads this
    {
      SortedDesc(history)
    }

    /** A freshly mounted panel: nothing shown yet, loading, and whatever the browser already stores. */
    constructor (cap: nat, tempPrefix: string, fullPath: string, sidebarCount: nat, stored: Cached<seq<Entry<P>>>)
      ensures Valid()
      ensures this.cap == cap && this.tempPrefix == tempPrefix && this.fullPath == fullPath && this.sidebarCount == sidebarCount
      ensures history == [] && cache == stored && loading
    {
      this.cap := cap;
      this.tempPrefix := tempPrefix;
      this.fullPath := fullPath;
      this.sidebarCount := sidebarCount;
      history := [];
      cache := stored;
      loading := true;
    }

    /**
     * The load effect, run whenever the user or the sign-in state changes. A load that rejects
     * leaves the list as it was and the panel loading.
     */
    method LoadHistory(authLoading: bool, signedIn: bool, remote: RemoteList<Entry<P>>)
      requires Valid()
      modifies this
      ensures Valid()
      ensures cache == old(cache)
      ensures var r := Load(authLoading, signedIn, remote, old(cache));
        && (r.Loaded? ==> history == r.items && !loading)
        && (!r.Loaded? ==> history == old(history) && loading)
    {
      var r := Load(authLoading, signedIn, remote, cache);
      loading := true;
      if r.Loaded? {
        history := r.items;
        loading := false;
      }
    }

    /**
     * The insert effect for a new item: the list gets the optimistic insert, the cache its first
     * `cap` items; for a signed-in user the item (with its temporary id if it had none) is returned
     * to be saved remotely.
     */
    method InsertItem(item: Entry<P>, now: int, signedIn: bool) returns (save: Option<Entry<P>>)
      requires Valid()
      modifies this
      ensures Valid()
      ensures history == Insert(old(history), item, tempPrefix, now)
      ensures cache == Present(Cap(history, cap))
      ensures loading == old(loading)
      ensures save == if signedIn then Some(Optimistic(item, tempPrefix, now)) else None
      ensures DistinctKeys(history, ById)
      ensures KeysOf(history, ById) == KeysOf(old(history), ById) + {OptimisticId(item.id, tempPrefix, now)}
    {
      var inserted := Insert(history, item, tempPrefix, now);
      InsertUnique(history, item, tempPrefix, now);
      InsertKeys(history, item, tempPrefix, now);
      history, cache := inserted, Present(Cap(inserted, cap));
      save := if signedIn then Some(Optimistic(item, tempPrefix, now)) else None;
    }

    /**
     * The answer to a save: a non-empty id replaces the temporary one and the list is re-sorted;
     * no id, or a failed save, changes nothing. The cache is not rewritten.
     */
    method ResolveId(tempId: string, remoteId: Option<string>)
      requires Valid()
      modifies this
      ensures Valid()
      ensures cache == old(cache) && loading == old(loading)
      ensures history == if remoteId.Some? && remoteId.value != "" then Rename(old(history), tempId, remoteId.value) else old(history)
      ensures tempId !in KeysOf(old(history), ById) ==> history == old(history)
    {
      if remoteId.Some? && remoteId.value != "" {
        if tempId !in KeysOf(history, ById) {
          RenameAbsent(history, tempId, remoteId.value);
        }
        history := Rename(history, tempId, remoteId.value);
      }
    }

    /**
     * `handleDeleteItem`: an empty id does nothing; otherwise every item with that id leaves the
     * list, the cache gets the first `cap` items of what remains, and for a signed-in user the id
     * is returned to be deleted remotely.
     */
    method Delete(id: string, signedIn: bool) returns (request: Option<string>)
      requires Valid()
      modifies this
      ensures Valid()
      ensures loading == old(loading)
      ensures id == "" ==> history == old(history) && cache == old(cache) && request == None
      ensures id != "" ==> history == Remove(old(history), id) && cache == Present(Cap(history, cap))
      ensures id != "" ==> request == if signedIn then Some(id) else None
      ensures id != "" ==> KeysOf(history, ById) == KeysOf(old(history), ById) - {id}
    {
      RemoveSorted(history, id);
      if id == "" {
        request := None;
      } else {
        history := Remove(history, id);
        cache := Present(Cap(history, cap));
        request := if signedIn then Some(id) else None;
      }
    }

    /** The items the panel shows on the page at `pathname`. */
    function Visible(pathname: string): (r: seq<Entry<P>>)
      reads this
      ensures pathname == fullPath ==> r == history
      ensures pathname != fullPath ==> |r| == (if |history| < sidebarCount then |history| else sidebarCount) && r == history[..|r|]
    {
      Displayed(history, pathname, fullPath, sidebarCount)
    }
  }
}
