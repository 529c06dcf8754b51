/**
 * The solved-problems panel (src/components/math-solver/problem-history.tsx): the history panel
 * with a ten-item cache, `temp-` temporary ids, and the whole list on `/history`.
 */
module ProblemHistory {
  import opened Records
  import opened HistoryStore

  /** Items kept in the local cache. */
  const MaxHistoryItemsLocalStorage: nat := 10
  /** Items shown in the sidebar. */
  const MaxItemsToDisplayInSidebar: nat := 2
  const TempPrefix: string := "temp-"
  const FullPath: string := "/history"

  /** Mounting the panel. */
  method Mount(stored: Cached<seq<ProblemHistoryItem>>) returns (panel: HistoryPanel<ProblemData>)
    ensures fresh(panel) && panel.Valid()
    ensures panel.cap == MaxHistoryItemsLocalStorage && panel.tempPrefix == TempPrefix
    ensures panel.fullPath == FullPath && panel.sidebarCount == MaxItemsToDisplayInSidebar
    ensures panel.history == [] && panel.cache == stored && panel.loading
  {
    panel := new HistoryPanel(MaxHistoryItemsLocalStorage, TempPrefix, FullPath, MaxItemsToDisplayInSidebar, stored);
  }
}
