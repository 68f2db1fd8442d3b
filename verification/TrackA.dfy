/**
 Track A as functions on values: the retry loop on one fetcher, the walk along the escalation
 rules, and what is done with the fetched content. The walk never looks at the item.
 */
module TrackA {
  import opened Wrappers
  import opened Results
  import opened Escalation
  import opened Item
  import opened World
  import opened Setup

  const NO_FETCHERS := RetrievalError(Unknown, "No fetchers configured", "none")

  const NO_BYTES_MESSAGE := "Fetcher result had no raw_bytes to hand to Parser"

  function Pow2(n: nat): (r: nat)
    ensures r >= 1
  {
    if n == 0 then 1 else 2 * Pow2(n - 1)
  }

  function Backoff(c: RouterConfig, attempt: nat): real {
    c.retryBackoffBase * Pow2(attempt) as real
  }

  /** The outcome calls for another attempt on the same fetcher. */
  predicate Retries(c: RouterConfig, o: Outcome, attempt: nat) {
    o.Failure? && Retryable(o.error.errorType) && attempt < c.retryAttempts
  }

  /** The fetch numbered attempt and the retries after it. */
  function Retry(w: World, c: RouterConfig, f: Adapter, url: string, attempt: nat, log: Log): (Outcome, Log)
    decreases c.retryAttempts - attempt
  {
    var o := w.fetch(log, f, url);
    var log' := log + [Fetched(f, url, o)];
    if Retries(c, o, attempt) then Retry(w, c, f, url, attempt + 1, log' + [Slept(Backoff(c, attempt))])
    else (o, log')
  }

  /** Where a walk ends: at a fetcher that succeeded, or after the last one that failed. */
  datatype Chased =
    | Hit(fetcher: Adapter, result: RetrievalResult, log: Log)
    | Miss(last: Option<RetrievalError>, log: Log)

  /** The fetchers a walk may still try. */
  function Unvisited(s: Setup, visited: set<Adapter>): set<Adapter> {
    (set f | f in s.fetchers) - visited
  }

  lemma VisitShrinks(s: Setup, visited: set<Adapter>, f: Adapter)
    requires f in s.fetchers && f !in visited
    ensures |Unvisited(s, visited + {f})| < |Unvisited(s, visited)|
  {
    assert Unvisited(s, visited + {f}) == Unvisited(s, visited) - {f};
    assert f in Unvisited(s, visited);
  }

  /** The list position is tracked only when there are no rules. */
  function NextIdx(s: Setup, idx: nat): nat {
    if s.rules == [] then idx + 1 else idx
  }

  /** The walk from a fetcher that may be tried next. */
  function Chase(w: World, s: Setup, url: string, current: Option<Adapter>, visited: set<Adapter>, idx: nat,
                 last: Option<RetrievalError>, log: Log): Chased
    requires current.Some? ==> current.value in s.fetchers
    decreases |Unvisited(s, visited)|, 0
  {
    if current.None? || current.value in visited then Miss(last, log)
    else
      VisitShrinks(s, visited, current.value);
      ChaseOn(w, s, url, current.value, visited + {current.value}, idx, Retry(w, s.config, current.value, url, 0, log))
  }

  /** The walk after fetcher f gave its final outcome. */
  function ChaseOn(w: World, s: Setup, url: string, f: Adapter, visited: set<Adapter>, idx: nat,
                   tried: (Outcome, Log)): Chased
    decreases |Unvisited(s, visited)|, 1
  {
    match tried.0
    case Success(result) => Hit(f, result, tried.1)
    case Failure(e) =>
      Chase(w, s, url, Successor(s, f, idx, e.errorType), visited, NextIdx(s, idx), Some(e), tried.1)
  }

  /** The whole walk, from the first fetcher. */
  function Walk(w: World, s: Setup, url: string, log: Log): Chased
    requires s.fetchers != []
  {
    Chase(w, s, url, Some(s.fetchers[0]), {}, 0, None, log)
  }

  function Save(rec: Rec): Rec {
    Rec(rec.item, rec.log + [Upserted(rec.item)])
  }

  /** A parser gets the fetched bytes; neither the item nor the registry changes. */
  function HandToParser(w: World, p: Adapter, result: RetrievalResult, rec: Rec): Run {
    match result.rawBytes
    case None => Run(rec, Returned(Failure(RetrievalError(UnsupportedFormat, NO_BYTES_MESSAGE, p.name))))
    case Some(data) =>
      var o := w.parse(rec.log, p, data, result.contentType);
      Run(Rec(rec.item, rec.log + [Parsed(p, data, result.contentType, o)]), Returned(o))
  }

  predicate Unchanged(item: ItemView, result: RetrievalResult) {
    item.lastContentHash == Some(result.contentHash)
  }

  /** What follows a successful fetch: skip on an unchanged hash, else parse, else record the new hash. */
  function Settle(w: World, s: Setup, f: Adapter, result: RetrievalResult, rec: Rec): Run {
    if Unchanged(rec.item, result) then
      Run(Save(Rec(rec.item.(status := Resolved), rec.log)), Returned(Success(result)))
    else
      SettleChanged(w, s, f, result, rec)
  }

  /** The same without the look at the last hash. */
  function SettleChanged(w: World, s: Setup, f: Adapter, result: RetrievalResult, rec: Rec): Run {
    match ParserFor(s, f.name, result.contentType)
    case Some(p) => HandToParser(w, p, result, rec)
    case None =>
      var item' := rec.item.(lastContentHash := Some(result.contentHash), status := Resolved);
      Run(Save(Rec(item', rec.log)), Returned(Success(result)))
  }

  function Exhaust(last: Option<RetrievalError>, rec: Rec): Run {
    Run(Save(Rec(rec.item.(status := FetchExhausted), rec.log)),
        Returned(Failure(if last.Some? then last.value else NO_FETCHERS)))
  }

  function Conclude(w: World, s: Setup, chased: Chased, item: ItemView): Run {
    match chased
    case Hit(f, result, log) => Settle(w, s, f, result, Rec(item, log))
    case Miss(last, log) => Exhaust(last, Rec(item, log))
  }

  /** Track A for one item, with the item's lock held. */
  function ResolveKnown(w: World, s: Setup, rec: Rec): Run {
    if rec.item.currentSources == [] then Run(rec, Raised)
    else if s.fetchers == [] then Run(rec, Returned(Failure(NO_FETCHERS)))
    else Conclude(w, s, Walk(w, s, rec.item.currentSources[0], rec.log), rec.item)
  }

  /** The call writes the item to the registry: every ending but a parser's, a missing source, or no fetchers at all. */
  predicate Saves(w: World, s: Setup, rec: Rec) {
    && rec.item.currentSources != [] && s.fetchers != []
    && match Walk(w, s, rec.item.currentSources[0], rec.log)
       case Hit(f, result, _) => Unchanged(rec.item, result) || ParserFor(s, f.name, result.contentType).None?
       case Miss(_, _) => true
  }
}
