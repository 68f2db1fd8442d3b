/**
 The adapters, seen from the router: everything awaited for an item is written to a log, and what an adapter
 answers may depend on the whole log so far. Quantifying over worlds therefore covers every behaviour of the
 adapters towards that item, also of one that answers the same question differently each time. Adapters that
 look at other items as well are the subject of module Replay.
 */
module World {
  import opened Wrappers
  import opened Results
  import opened Item

  /** An adapter object: two equal values stand for the same object, two objects may share a name. */
  datatype Adapter = Adapter(handle: nat, name: string)

  /** One completed await, with what it was asked and what it answered. */
  datatype Event =
    | Fetched(fetcher: Adapter, url: string, outcome: Outcome)
    | Slept(seconds: real)
    | Parsed(parser: Adapter, data: seq<bv8>, mime: string, parse: Outcome)
    | Searched(searcher: Adapter, query: string, count: int, hits: seq<Candidate>)
    | Judged(candidate: Candidate, trusted: bool)
    | Upserted(snapshot: ItemView)

  type Log = seq<Event>

  datatype World = World(
    fetch: (Log, Adapter, string) -> Outcome,
    parse: (Log, Adapter, seq<bv8>, string) -> Outcome,
    search: (Log, Adapter, string, int) -> seq<Candidate>,
    isTrusted: (Log, Candidate) -> bool)

  /** Adapters whose answers depend on the arguments of the call alone. */
  datatype Steady = Steady(
    fetch: (Adapter, string) -> Outcome,
    parse: (Adapter, seq<bv8>, string) -> Outcome,
    search: (Adapter, string, int) -> seq<Candidate>,
    isTrusted: Candidate -> bool)
  {
    function AsWorld(): World {
      World(
        (log: Log, f: Adapter, url: string) => fetch(f, url),
        (log: Log, p: Adapter, data: seq<bv8>, mime: string) => parse(p, data, mime),
        (log: Log, s: Adapter, query: string, n: int) => search(s, query, n),
        (log: Log, c: Candidate) => isTrusted(c))
    }
  }

  /** Number of fetches in a log. */
  function FetchCount(log: Log): nat {
    if log == [] then 0
    else FetchCount(log[..|log| - 1]) + if log[|log| - 1].Fetched? then 1 else 0
  }

  /** Total time slept in a log. */
  function SleepTotal(log: Log): real {
    if log == [] then 0.0
    else SleepTotal(log[..|log| - 1]) + if log[|log| - 1].Slept? then log[|log| - 1].seconds else 0.0
  }

  /** What a store that keeps values holds for the item after a log: the last snapshot written, if any. */
  function Stored(log: Log, initially: Option<ItemView>): Option<ItemView> {
    if log == [] then initially
    else if log[|log| - 1].Upserted? then Some(log[|log| - 1].snapshot)
    else Stored(log[..|log| - 1], initially)
  }

  lemma AppendOne(log: Log, e: Event, initially: Option<ItemView>)
    ensures FetchCount(log + [e]) == FetchCount(log) + if e.Fetched? then 1 else 0
    ensures SleepTotal(log + [e]) == SleepTotal(log) + if e.Slept? then e.seconds else 0.0
    ensures Stored(log + [e], initially) == if e.Upserted? then Some(e.snapshot) else Stored(log, initially)
  {
    assert (log + [e])[..|log + [e]| - 1] == log;
  }

  /** The real adapters: the log is a field, and each call appends to it. */
  class Adapters {
    const world: World
    var log: Log

    constructor (world: World)
      ensures this.world == world && log == []
    {
      this.world := world;
      log := [];
    }

    method Fetch(fetcher: Adapter, url: string) returns (outcome: Outcome)
      modifies this
      ensures outcome == world.fetch(old(log), fetcher, url)
      ensures log == old(log) + [Fetched(fetcher, url, outcome)]
    {
      outcome := world.fetch(log, fetcher, url);
      log := log + [Fetched(fetcher, url, outcome)];
    }

    method Sleep(seconds: real)
      modifies this
      ensures log == old(log) + [Slept(seconds)]
    {
      log := log + [Slept(seconds)];
    }

    method Parse(parser: Adapter, data: seq<bv8>, mime: string) returns (outcome: Outcome)
      modifies this
      ensures outcome == world.parse(old(log), parser, data, mime)
      ensures log == old(log) + [Parsed(parser, data, mime, outcome)]
    {
      outcome := world.parse(log, parser, data, mime);
      log := log + [Parsed(parser, data, mime, outcome)];
    }

    method Search(searcher: Adapter, query: string, n: int) returns (hits: seq<Candidate>)
      modifies this
      ensures hits == world.search(old(log), searcher, query, n)
      ensures log == old(log) + [Searched(searcher, query, n, hits)]
    {
      hits := world.search(log, searcher, query, n);
      log := log + [Searched(searcher, query, n, hits)];
    }

    method IsTrusted(candidate: Candidate) returns (trusted: bool)
      modifies this
      ensures trusted == world.isTrusted(old(log), candidate)
      ensures log == old(log) + [Judged(candidate, trusted)]
    {
      trusted := world.isTrusted(log, candidate);
      log := log + [Judged(candidate, trusted)];
    }

    method NoteUpsert(snapshot: ItemView)
      modifies this
      ensures log == old(log) + [Upserted(snapshot)]
    {
      log := log + [Upserted(snapshot)];
    }
  }
}
