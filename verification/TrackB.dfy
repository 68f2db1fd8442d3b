/** Track B as functions on values: the search for a candidate, its merge into the item, and the joint entry point. */
module TrackB {
  import opened Results
  import opened Item
  import opened World
  import opened Setup
  import opened TrackA

  /** A first source awaits review; a source beside an existing one is staged. */
  function Merge(item: ItemView, url: string): ItemView {
    var item' := item.(discoveredUrlsSeen := item.discoveredUrlsSeen + {url});
    if item.currentSources != [] then item'.(candidateSources := item.candidateSources + [url])
    else item'.(currentSources := [url], status := PendingReview)
  }

  /** Ask the remaining searchers in turn. */
  function ScanSearchers(w: World, s: Setup, searchers: seq<Adapter>, rec: Rec): Run
    decreases |searchers|, 0, 0
  {
    if searchers == [] then Run(Save(Rec(rec.item.(status := Unresolved), rec.log)), Nothing)
    else
      var n := s.config.candidateCount;
      var hits := w.search(rec.log, searchers[0], rec.item.queryHint, n);
      ScanHits(w, s, hits, searchers[1..],
               Rec(rec.item, rec.log + [Searched(searchers[0], rec.item.queryHint, n, hits)]))
  }

  /** Go through the remaining hits of one searcher, then on to the searchers after it. */
  function ScanHits(w: World, s: Setup, hits: seq<Candidate>, searchers: seq<Adapter>, rec: Rec): Run
    decreases |searchers|, 1, |hits|
  {
    if hits == [] then ScanSearchers(w, s, searchers, rec)
    else if hits[0].url in rec.item.discoveredUrlsSeen then ScanHits(w, s, hits[1..], searchers, rec)
    else
      var trusted := w.isTrusted(rec.log, hits[0]);
      var judged := Rec(rec.item, rec.log + [Judged(hits[0], trusted)]);
      if trusted then Run(Save(Rec(Merge(judged.item, hits[0].url), judged.log)), Found(hits[0]))
      else ScanHits(w, s, hits[1..], searchers, judged)
  }

  /** Track B for one item, with the item's lock held. */
  function Discover(w: World, s: Setup, rec: Rec): Run {
    ScanSearchers(w, s, s.searchers, rec)
  }

  /** The joint entry point when no other task touches the item. */
  function Resolve(w: World, s: Setup, rec: Rec): Run {
    if rec.item.currentSources != [] then ResolveKnown(w, s, rec)
    else
      var found := Discover(w, s, rec);
      if found.reply == Nothing then found
      else if found.rec.item.status == PendingReview && !s.config.requireReview then ResolveKnown(w, s, found.rec)
      else Run(found.rec, Nothing)
  }

  /** One step of the search: the next searcher is asked, or none is left. */
  lemma ScanStep(w: World, s: Setup, searchers: seq<Adapter>, rec: Rec)
    ensures ScanSearchers(w, s, searchers, rec) ==
            if searchers == [] then Run(Save(Rec(rec.item.(status := Unresolved), rec.log)), Nothing)
            else
              var n := s.config.candidateCount;
              var hits := w.search(rec.log, searchers[0], rec.item.queryHint, n);
              ScanHits(w, s, hits, searchers[1..],
                       Rec(rec.item, rec.log + [Searched(searchers[0], rec.item.queryHint, n, hits)]))
  {
  }

  /** One step of the search: the next hit is passed over or judged, or none is left. */
  lemma HitStep(w: World, s: Setup, hits: seq<Candidate>, searchers: seq<Adapter>, rec: Rec)
    ensures ScanHits(w, s, hits, searchers, rec) ==
            if hits == [] then ScanSearchers(w, s, searchers, rec)
            else if hits[0].url in rec.item.discoveredUrlsSeen then ScanHits(w, s, hits[1..], searchers, rec)
            else
              var trusted := w.isTrusted(rec.log, hits[0]);
              var judged := Rec(rec.item, rec.log + [Judged(hits[0], trusted)]);
              if trusted then Run(Save(Rec(Merge(judged.item, hits[0].url), judged.log)), Found(hits[0]))
              else ScanHits(w, s, hits[1..], searchers, judged)
  {
  }
}
