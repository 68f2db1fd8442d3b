/**
 The router as the object it is: rule dictionaries filled by a loop, a lock table, and methods that
 update the item in place. Each method is tied to its function on values, so what is proved of those
 functions holds of the objects. Who may enter an item's section, and when, is the
 subject of module Tasks; here a method body is what runs with the lock held.
 */
module Router {
  import opened Wrappers
  import opened Results
  import opened Escalation
  import opened Item
  import opened World
  import opened Registry
  import opened Setup
  import opened TrackA
  import opened TrackB
  import opened WalkFacts
  import opened Discovery

  /** An asyncio lock: only its identity matters to the lock table. */
  class Lock {
    constructor () {}
  }

  class Router {
    const fetchers: seq<Adapter>
    const searchers: seq<Adapter>
    const parsers: seq<Adapter>
    const config: RouterConfig
    const escalationRules: seq<EscalationRule>
    const adapters: Adapters
    const registry: MemoryRegistry

    var fetcherByName: map<string, Adapter>
    var parserByName: map<string, Adapter>
    var locks: map<string, Lock>
    var errorEscalations: map<(string, string), string>
    var contentTypeEscalations: map<(string, string), string>

    function Made(): Setup {
      Setup(fetchers, searchers, parsers, escalationRules, config)
    }

    /** The dictionaries answer every lookup as the lists they were built from, and no lock serves two ids. */
    ghost predicate Valid()
      reads this
    {
      && Names(fetcherByName, fetchers) && Names(parserByName, parsers)
      && Indexes(errorEscalations, contentTypeEscalations, escalationRules)
      && (forall a, b :: a in locks && b in locks && a != b ==> locks[a] != locks[b])
    }

    constructor (fetchers: seq<Adapter>, searchers: seq<Adapter>, parsers: seq<Adapter>, adapters: Adapters,
                 registry: MemoryRegistry, config: Option<RouterConfig>, escalationRules: seq<EscalationRule>)
      ensures Valid() && locks == map[]
      ensures Made() == Setup(fetchers, searchers, parsers, escalationRules,
                              if config.Some? then config.value else RouterConfig(10, true, 0, 0.2))
      ensures this.adapters == adapters && this.registry == registry
    {
      this.fetchers := fetchers;
      this.searchers := searchers;
      this.parsers := parsers;
      this.adapters := adapters;
      this.registry := registry;
      this.config := if config.Some? then config.value else DEFAULT_CONFIG;
      this.escalationRules := escalationRules;
      locks := map[];
      errorEscalations := map[];
      contentTypeEscalations := map[];
      new;
      hide Indexes, Names;
      fetcherByName := NameIndex(fetchers);
      parserByName := NameIndex(parsers);
      EmptyIndex();
      for i := 0 to |escalationRules|
        invariant locks == map[]
        invariant Names(fetcherByName, fetchers) && Names(parserByName, parsers)
        invariant Indexes(errorEscalations, contentTypeEscalations, escalationRules[..i])
      {
        var rule := escalationRules[i];
        OneMoreRule(errorEscalations, contentTypeEscalations, escalationRules, i);
        var mime := ContentTypeTrigger(rule);
        var keyFrom := if rule.from_.Some? && rule.from_.value != "" then rule.from_.value else ANY_SOURCE;
        if mime.Some? && mime.value != "" {
          contentTypeEscalations := contentTypeEscalations[(keyFrom, mime.value) := rule.to];
        } else {
          errorEscalations := errorEscalations[(keyFrom, rule.trigger) := rule.to];
        }
      }
      assert escalationRules[..|escalationRules|] == escalationRules;
    }

    /** The lock of an id is made at its first use and never replaced. */
    method LockFor(itemId: string) returns (lock: Lock)
      requires Valid()
      modifies this`locks
      ensures Valid() && itemId in locks && lock == locks[itemId]
      ensures locks == old(locks)[itemId := lock]
      ensures itemId in old(locks) ==> locks == old(locks)
      ensures itemId !in old(locks) ==> fresh(lock)
    {
      lock := new Lock();
      if itemId in locks {
        lock := locks[itemId];
      }
      locks := locks[itemId := lock];
    }

    method NextFetcherConfigDriven(currentName: string, errorType: ErrorType) returns (next: Option<Adapter>)
      requires Valid()
      ensures next == NextFetcher(Made(), currentName, errorType)
    {
      var exact := Lookup(errorEscalations, (currentName, errorType.Value()));
      var toName := if exact.Some? && exact.value != "" then exact
                    else Lookup(errorEscalations, (ANY_SOURCE, errorType.Value()));
      if toName.None? {
        return None;
      }
      next := Lookup(fetcherByName, toName.value);
    }

    method ParserForContentType(currentName: string, contentType: string) returns (parser: Option<Adapter>)
      requires Valid()
      ensures parser == ParserFor(Made(), currentName, contentType)
    {
      var exact := Lookup(contentTypeEscalations, (currentName, contentType));
      var toName := if exact.Some? && exact.value != "" then exact
                    else Lookup(contentTypeEscalations, (ANY_SOURCE, contentType));
      if toName.Some? && toName.value != "" {
        return Lookup(parserByName, toName.value);
      }
      if Contains(contentType, "pdf") && parsers != [] {
        return Some(parsers[0]);
      }
      return None;
    }

    method FetchWithRetry(fetcher: Adapter, url: string) returns (outcome: Outcome)
      modifies adapters
      ensures (outcome, adapters.log) == Retry(adapters.world, config, fetcher, url, 0, old(adapters.log))
      ensures exists k: nat ::
                && RetryLog(adapters.world, config, fetcher, url, 0, old(adapters.log), adapters.log, k)
                && k <= MaxRetries(config) && (Mendable(outcome) ==> k == MaxRetries(config))
    {
      var attempt := 0;
      ghost var before := adapters.log;
      outcome := adapters.Fetch(fetcher, url);
      while outcome.Failure? && Retryable(outcome.error.errorType) && attempt < config.retryAttempts
        invariant 0 <= attempt
        invariant adapters.log == before + [Fetched(fetcher, url, outcome)]
        invariant outcome == adapters.world.fetch(before, fetcher, url)
        invariant Retry(adapters.world, config, fetcher, url, attempt, before)
                  == Retry(adapters.world, config, fetcher, url, 0, old(adapters.log))
        decreases config.retryAttempts - attempt
      {
        RetryStep(adapters.world, config, fetcher, url, attempt, before);
        var backoff := Backoff(config, attempt);
        adapters.Sleep(backoff);
        attempt := attempt + 1;
        before := adapters.log;
        outcome := adapters.Fetch(fetcher, url);
      }
      var _ := RetryOnlyMends(adapters.world, config, fetcher, url, 0, old(adapters.log));
      hide RetryLog;
    }

    method RunParser(parser: Adapter, fetchResult: RetrievalResult, ghost item: ItemView) returns (outcome: Outcome)
      modifies adapters
      ensures Run(Rec(item, adapters.log), Returned(outcome))
              == HandToParser(adapters.world, parser, fetchResult, Rec(item, old(adapters.log)))
      ensures match fetchResult.rawBytes
              case Some(data) =>
                adapters.log == old(adapters.log) + [Parsed(parser, data, fetchResult.contentType, outcome)]
              case None =>
                var message := "Fetcher result had no raw_bytes to hand to Parser";
                && adapters.log == old(adapters.log)
                && outcome == Failure(RetrievalError(UnsupportedFormat, message, parser.name))
    {
      if fetchResult.rawBytes.None? {
        return Failure(RetrievalError(UnsupportedFormat, NO_BYTES_MESSAGE, parser.name));
      }
      outcome := adapters.Parse(parser, fetchResult.rawBytes.value, fetchResult.contentType);
    }

    /** The registry call of every track, with the await it is. */
    method Upsert(item: ResolvableItem)
      requires registry.Valid()
      modifies registry, adapters
      ensures registry.Valid() && registry.items == old(registry.items)[item.id := item]
      ensures adapters.log == old(adapters.log) + [Upserted(item.View())]
    {
      registry.Upsert(item);
      adapters.NoteUpsert(item.View());
    }

    /** What follows a successful fetch: skip on an unchanged hash, else parse, else record the new hash. */
    method SettleFetched(item: ResolvableItem, fetcher: Adapter, result: RetrievalResult) returns (reply: Reply)
      requires Valid() && registry.Valid()
      modifies item, adapters, registry
      ensures registry.Valid()
      ensures Run(Rec(item.View(), adapters.log), reply)
              == Settle(adapters.world, Made(), fetcher, result, old(Rec(item.View(), adapters.log)))
      ensures registry.items ==
              if Unchanged(old(item.View()), result) || ParserFor(Made(), fetcher.name, result.contentType).None?
              then old(registry.items)[item.id := item] else old(registry.items)
    {
      hide ParserFor;
      if Some(result.contentHash) == item.lastContentHash {
        item.status := Resolved;
        Upsert(item);
        return Returned(Success(result));
      }
      var parser := ParserForContentType(fetcher.name, result.contentType);
      if parser.Some? {
        var parsed := RunParser(parser.value, result, item.View());
        return Returned(parsed);
      }
      item.lastContentHash := Some(result.contentHash);
      item.status := Resolved;
      Upsert(item);
      return Returned(Success(result));
    }

    /** What follows a walk without success. */
    method MarkExhausted(item: ResolvableItem, lastError: Option<RetrievalError>) returns (reply: Reply)
      requires registry.Valid()
      modifies item, adapters, registry
      ensures registry.Valid() && registry.items == old(registry.items)[item.id := item]
      ensures Run(Rec(item.View(), adapters.log), reply)
              == Exhaust(lastError, old(Rec(item.View(), adapters.log)))
    {
      item.status := FetchExhausted;
      Upsert(item);
      return Returned(Failure(if lastError.Some? then lastError.value else NO_FETCHERS));
    }

    /** Track A. Item, log and caller end with the fields, the awaits and the reply of ResolveKnown. */
    method ResolveKnownSource(item: ResolvableItem) returns (reply: Reply)
      requires Valid() && registry.Valid()
      modifies this`locks, item, adapters, registry
      ensures Valid() && registry.Valid()
      ensures Run(Rec(item.View(), adapters.log), reply)
              == ResolveKnown(adapters.world, Made(), old(Rec(item.View(), adapters.log)))
      ensures registry.items ==
              if old(Saves(adapters.world, Made(), Rec(item.View(), adapters.log)))
              then old(registry.items)[item.id := item] else old(registry.items)
      ensures item.id in locks && Keeps(old(locks), locks)
    {
      hide Chase, ChaseOn, Retry, Unvisited, Valid, ParserFor, NextFetcher, Settle, Exhaust;
      var _ := LockFor(item.id);
      if item.currentSources == [] {
        return Raised;
      }
      if fetchers == [] {
        return Returned(Failure(NO_FETCHERS));
      }

      var url := item.currentSources[0];
      ghost var table := locks;
      var current := Some(fetchers[0]);
      var legacyMode := escalationRules == [];
      var legacyIdx := 0;
      var lastError: Option<RetrievalError> := None;
      var visited: set<Adapter> := {};
      ghost var was := Rec(item.View(), adapters.log);

      while current.Some? && current.value !in visited
        invariant Valid() && registry.Valid() && registry.items == old(registry.items) && locks == table
        invariant item.View() == was.item
        invariant current.Some? ==> current.value in fetchers
        invariant 0 <= legacyIdx
        invariant Chase(adapters.world, Made(), url, current, visited, legacyIdx, lastError, adapters.log)
                  == Walk(adapters.world, Made(), url, was.log)
        decreases |Unvisited(Made(), visited)|
      {
        ChaseStep(adapters.world, Made(), url, current.value, visited, legacyIdx, lastError, adapters.log);
        visited := visited + {current.value};
        var outcome := FetchWithRetry(current.value, url);

        if outcome.Success? {
          reply := SettleFetched(item, current.value, outcome.result);
          return;
        }

        lastError := Some(outcome.error);
        if legacyMode {
          legacyIdx := legacyIdx + 1;
          if !Escalatable(outcome.error.errorType) || legacyIdx >= |fetchers| {
            current := None;
          } else {
            current := Some(fetchers[legacyIdx]);
          }
        } else {
          current := NextFetcherConfigDriven(current.value.name, outcome.error.errorType);
        }
      }

      ChaseStops(adapters.world, Made(), url, current, visited, legacyIdx, lastError, adapters.log);
      reply := MarkExhausted(item, lastError);
    }

    /** The merge of a trusted url that was not seen before. */
    method MergeCandidate(item: ResolvableItem, url: string)
      requires registry.Valid()
      modifies item, registry, adapters
      ensures item.View() == Merge(old(item.View()), url)
      ensures registry.Valid() && registry.items == old(registry.items)[item.id := item]
      ensures adapters.log == old(adapters.log) + [Upserted(item.View())]
    {
      item.discoveredUrlsSeen := item.discoveredUrlsSeen + {url};
      if item.currentSources != [] {
        item.candidateSources := item.candidateSources + [url];
      } else {
        item.currentSources := item.currentSources + [url];
        item.status := PendingReview;
      }
      Upsert(item);
    }

    /** Track B, tied to Discover in the same way. */
    method DiscoverSource(item: ResolvableItem) returns (reply: Reply)
      requires Valid() && registry.Valid()
      modifies this`locks, item, adapters, registry
      ensures Valid() && registry.Valid()
      ensures Run(Rec(item.View(), adapters.log), reply)
              == Discover(adapters.world, Made(), old(Rec(item.View(), adapters.log)))
      ensures registry.items == old(registry.items)[item.id := item]
      ensures item.id in locks && Keeps(old(locks), locks)
    {
      hide Valid, ScanSearchers, ScanHits, Merge;
      var _ := LockFor(item.id);
      ghost var table := locks;
      ghost var was := Rec(item.View(), adapters.log);
      for i := 0 to |searchers|
        invariant Valid() && registry.Valid() && registry.items == old(registry.items) && locks == table
        invariant item.View() == was.item
        invariant ScanSearchers(adapters.world, Made(), searchers[i..], Rec(item.View(), adapters.log))
                  == Discover(adapters.world, Made(), was)
      {
        ScanStep(adapters.world, Made(), searchers[i..], Rec(item.View(), adapters.log));
        var candidates := adapters.Search(searchers[i], item.queryHint, config.candidateCount);
        for j := 0 to |candidates|
          invariant Valid() && registry.Valid() && registry.items == old(registry.items) && locks == table
          invariant item.View() == was.item
          invariant ScanHits(adapters.world, Made(), candidates[j..], searchers[i..][1..],
                             Rec(item.View(), adapters.log))
                    == Discover(adapters.world, Made(), was)
        {
          var candidate := candidates[j];
          assert candidates[j..][1..] == candidates[j + 1..];
          HitStep(adapters.world, Made(), candidates[j..], searchers[i..][1..], Rec(item.View(), adapters.log));
          if candidate.url in item.discoveredUrlsSeen {
            continue;
          }
          var trusted := adapters.IsTrusted(candidate);
          if !trusted {
            continue;
          }
          MergeCandidate(item, candidate.url);
          return Found(candidate);
        }
        assert searchers[i..][1..] == searchers[i + 1..] && candidates[|candidates|..] == [];
        HitStep(adapters.world, Made(), [], searchers[i + 1..], Rec(item.View(), adapters.log));
      }
      assert searchers[|searchers|..] == [];
      ScanStep(adapters.world, Made(), [], Rec(item.View(), adapters.log));
      item.status := Unresolved;
      Upsert(item);
      return Nothing;
    }

    /** The joint entry point, run without other tasks. */
    method ResolveItem(item: ResolvableItem) returns (reply: Reply)
      requires Valid() && registry.Valid()
      modifies this`locks, item, adapters, registry
      ensures Valid() && registry.Valid()
      ensures Run(Rec(item.View(), adapters.log), reply)
              == Resolve(adapters.world, Made(), old(Rec(item.View(), adapters.log)))
      ensures old(item.currentSources) == [] && !config.requireReview && fetchers != [] ==>
                (reply.Returned? <==> item.currentSources != [])
      ensures registry.items ==
              if old(item.currentSources) == [] || old(Saves(adapters.world, Made(), Rec(item.View(), adapters.log)))
              then old(registry.items)[item.id := item] else old(registry.items)
      ensures item.id in locks && Keeps(old(locks), locks)
    {
      hide Valid, ResolveKnown, Discover, Saves, FetchCount, FetchesOnly;
      if !config.requireReview && fetchers != [] {
        UnreviewedCallFetchesItsFind(adapters.world, Made(), Rec(item.View(), adapters.log));
      }
      if item.currentSources != [] {
        reply := ResolveKnownSource(item);
        return;
      }
      var candidate := DiscoverSource(item);
      if candidate == Nothing {
        return Nothing;
      }
      if item.status == PendingReview && !config.requireReview {
        reply := ResolveKnownSource(item);
        return;
      }
      return Nothing;
    }
  }

  /** A lock once handed out stays the lock of its id. */
  ghost predicate Keeps(before: map<string, Lock>, after: map<string, Lock>) {
    forall id :: id in before ==> id in after && after[id] == before[id]
  }

  function Lookup<K, V>(m: map<K, V>, key: K): Option<V> {
    if key in m then Some(m[key]) else None
  }

  /** The name dictionary finds what the list does. */
  ghost predicate Names(index: map<string, Adapter>, adapters: seq<Adapter>) {
    forall name :: LastNamed(adapters, name) == Lookup(index, name)
  }

  /** The rule dictionaries find what a scan of the rule list does. */
  ghost predicate Indexes(errors: map<(string, string), string>, contents: map<(string, string), string>,
                          rules: seq<EscalationRule>)
  {
    && (forall a, b :: LastTarget(rules, ErrorKey(a, b)) == Lookup(errors, (a, b)))
    && (forall a, b :: LastTarget(rules, ContentKey(a, b)) == Lookup(contents, (a, b)))
  }

  lemma EmptyIndex()
    ensures Indexes(map[], map[], [])
  {
  }

  /** Entering a rule in the dictionary of its key overwrites an earlier rule of that key. */
  lemma OneMoreRule(errors: map<(string, string), string>, contents: map<(string, string), string>,
                    rules: seq<EscalationRule>, i: nat)
    requires i < |rules| && Indexes(errors, contents, rules[..i])
    ensures match KeyOf(rules[i])
            case ErrorKey(a, b) => Indexes(errors[(a, b) := rules[i].to], contents, rules[..i + 1])
            case ContentKey(a, b) => Indexes(errors, contents[(a, b) := rules[i].to], rules[..i + 1])
  {
    assert rules[..i + 1][..i] == rules[..i];
    hide KeyOf;
  }

  /** The name dictionary of a list of adapters. */
  method NameIndex(adapters: seq<Adapter>) returns (index: map<string, Adapter>)
    ensures Names(index, adapters)
  {
    index := map[];
    for i := 0 to |adapters|
      invariant Names(index, adapters[..i])
    {
      index := index[adapters[i].name := adapters[i]];
      assert adapters[..i + 1][..i] == adapters[..i];
    }
    assert adapters[..|adapters|] == adapters;
  }
}
