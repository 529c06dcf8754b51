/**
 * The knowledge-point panel (src/components/knowledge-nook/knowledge-nook-history.tsx): the history
 * panel with a fifteen-item cache, `temp-knook-` temporary ids, and the whole list on `/knowledge`.
 */
module KnowledgeNookHistory {
  import opened Records
  import opened HistoryStore

  /** Items kept in the local cache. */
  const MaxHistoryItemsLocalStorage: nat := 15
  /** Items shown in the sidebar. */
  const MaxItemsToDisplayInSidebar: nat := 2
  const TempPrefix: string := "temp-knook-"
  const FullPath: string := "/knowledge"

  /** Mounting the panel. */
  method Mount(stored: Cached<seq<KnowledgeNookHistoryItem>>) returns (panel: HistoryPanel<KnowledgeData>)
    ensures fresh(panel) && panel.Valid()
    ensures panel.cap == MaxHistoryItemsLocalStorage && panel.tempPrefix == TempPrefix
    ensures panel.fullPath == FullPath && panel.sidebarCount == MaxItemsToDisplayInSidebar
    ensures panel.history == [] && panel.cache == stored && panel.loading
  {
    panel := new HistoryPanel(MaxHistoryItemsLocalStorage, TempPrefix, FullPath, MaxItemsToDisplayInSidebar, stored);
  }
}
