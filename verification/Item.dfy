/** The one shape core code works on: as a mutable object, and as the value of its fields at one moment. */
module Item {
  import opened Wrappers

  datatype ItemStatus = Resolved | Unresolved | FetchExhausted | PendingDiscovery | PendingReview

  /** A snapshot of an item. */
  datatype ItemView = ItemView(
    id: string,
    queryHint: string,
    currentSources: seq<string>,
    status: ItemStatus,
    lastContentHash: Option<string>,
    candidateSources: seq<string>,
    discoveredUrlsSeen: set<string>)

  /** An item as its constructor leaves it when only the id and the query hint are given. */
  function FreshItem(id: string, queryHint: string): ItemView {
    ItemView(id, queryHint, [], PendingDiscovery, None, [], {})
  }

  class ResolvableItem {
    const id: string
    const queryHint: string
    var currentSources: seq<string>
    var status: ItemStatus
    var lastContentHash: Option<string>
    var candidateSources: seq<string>
    var discoveredUrlsSeen: set<string>

    constructor (id: string, queryHint: string, currentSources: seq<string>)
      ensures View() == FreshItem(id, queryHint).(currentSources := currentSources)
      ensures this.id == id && this.queryHint == queryHint && this.currentSources == currentSources
      ensures status == PendingDiscovery && lastContentHash == None
      ensures candidateSources == [] && discoveredUrlsSeen == {}
    {
      this.id := id;
      this.queryHint := queryHint;
      this.currentSources := currentSources;
      status := PendingDiscovery;
      lastContentHash := None;
      candidateSources := [];
      discoveredUrlsSeen := {};
    }

    function View(): ItemView
      reads this
    {
      ItemView(id, queryHint, currentSources, status, lastContentHash, candidateSources, discoveredUrlsSeen)
    }
  }
}
