/** What Track A leaves behind: the unchanged-hash shortcut, repetition, and the stored copy of the item. */
module HashSkip {
  import opened Wrappers
  import opened Results
  import opened Item
  import opened World
  import opened Setup
  import opened TrackA
  import opened WalkFacts
  import opened CutOff

  // ----- The shortcut -------------------------------------------------------

  /** Track A without the look at the last content hash. */
  function ResolveWithoutSkip(w: World, s: Setup, rec: Rec): Run {
    if rec.item.currentSources == [] || s.fetchers == [] then ResolveKnown(w, s, rec)
    else
      match Walk(w, s, rec.item.currentSources[0], rec.log)
      case Hit(f, result, log) => SettleChanged(w, s, f, result, Rec(rec.item, log))
      case Miss(last, log) => Exhaust(last, Rec(rec.item, log))
  }

  /** The walk of this call succeeds with unchanged content that a parser is configured for. */
  predicate SkipsParser(w: World, s: Setup, rec: Rec) {
    && rec.item.currentSources != [] && s.fetchers != []
    && var c := Walk(w, s, rec.item.currentSources[0], rec.log);
       c.Hit? && Unchanged(rec.item, c.result) && ParserFor(s, c.fetcher.name, c.result.contentType).Some?
  }

  /** The shortcut is invisible (in awaits, item and reply) exactly when it saves no parser call. */
  lemma SkipIsTransparentExactly(w: World, s: Setup, rec: Rec)
    ensures ResolveKnown(w, s, rec) == ResolveWithoutSkip(w, s, rec) <==> !SkipsParser(w, s, rec)
    ensures SkipsParser(w, s, rec) ==>
              var c := Walk(w, s, rec.item.currentSources[0], rec.log);
              var item' := rec.item.(status := Resolved);
              ResolveKnown(w, s, rec) == Run(Rec(item', c.log + [Upserted(item')]), Returned(Success(c.result)))
  {
    if rec.item.currentSources != [] && s.fetchers != [] {
      var c := Walk(w, s, rec.item.currentSources[0], rec.log);
      hide Walk;
      if SkipsParser(w, s, rec) {
        var p := ParserFor(s, c.fetcher.name, c.result.contentType).value;
        var skipped := ResolveKnown(w, s, rec).rec.log;
        var parsed := HandToParser(w, p, c.result, Rec(rec.item, c.log)).rec.log;
        assert skipped[|skipped| - 1].Upserted?;
        assert |skipped| == |c.log| + 1;
        assert parsed == c.log || parsed[|parsed| - 1].Parsed?;
        assert skipped != parsed;
      }
    }
  }

  // ----- Repetition ---------------------------------------------------------

  lemma {:induction false} SteadyChase(x: Steady, s: Setup, url: string, current: Option<Adapter>,
                                       visited: set<Adapter>,
                                       idx: nat, last: Option<RetrievalError>, log0: Log, log1: Log)
    requires current.Some? ==> current.value in s.fetchers
    ensures var c0 := Chase(x.AsWorld(), s, url, current, visited, idx, last, log0);
            var c1 := Chase(x.AsWorld(), s, url, current, visited, idx, last, log1);
            match c0
            case Hit(f, result, _) => c1 == Hit(f, result, c1.log)
            case Miss(e, _) => c1 == Miss(e, c1.log)
    decreases |Unvisited(s, visited)|
  {
    hide Chase, Retry, Successor, Unvisited;
    var w := x.AsWorld();
    if current.None? || current.value in visited {
      ChaseStops(w, s, url, current, visited, idx, last, log0);
      ChaseStops(w, s, url, current, visited, idx, last, log1);
    } else {
      var f := current.value;
      ChaseStep(w, s, url, f, visited, idx, last, log0);
      ChaseStep(w, s, url, f, visited, idx, last, log1);
      SteadyRetry(x, s.config, f, url, 0, log0);
      SteadyRetry(x, s.config, f, url, 0, log1);
      var o := x.fetch(f, url);
      if o.Failure? {
        SteadyChase(x, s, url, Successor(s, f, idx, o.error.errorType), visited + {f}, NextIdx(s, idx), Some(o.error),
                    Retry(w, s.config, f, url, 0, log0).1, Retry(w, s.config, f, url, 0, log1).1);
      }
    }
  }

  /** With steady adapters a second Track A call gives the same reply and leaves the item as the first one did. */
  lemma SecondCallChangesNothing(x: Steady, s: Setup, rec: Rec)
    ensures var first := ResolveKnown(x.AsWorld(), s, rec);
            var second := ResolveKnown(x.AsWorld(), s, first.rec);
            second.reply == first.reply && second.rec.item == first.rec.item
  {
    var first := ResolveKnown(x.AsWorld(), s, rec);
    if rec.item.currentSources != [] && s.fetchers != [] {
      SteadyChase(x, s, rec.item.currentSources[0], Some(s.fetchers[0]), {}, 0, None, rec.log, first.rec.log);
      hide Chase;
    }
  }

  // ----- What a call may change ---------------------------------------------

  /** The content is as it was, or no parser is chosen for it: its hash is the one on record after the call. */
  predicate KeepsHash(s: Setup, item: ItemView, c: Chased)
    requires c.Hit?
  {
    || item.lastContentHash == Some(c.result.contentHash)
    || ParserFor(s, c.fetcher.name, c.result.contentType).None?
  }

  /** The call succeeded without a parser. */
  predicate Records(w: World, s: Setup, rec: Rec) {
    && rec.item.currentSources != [] && s.fetchers != []
    && var c := Walk(w, s, rec.item.currentSources[0], rec.log);
       c.Hit? && KeepsHash(s, rec.item, c)
  }

  /** The parser chosen gets the fetched bytes and its outcome is the reply; without bytes it is not asked. */
  ghost predicate EndsWithParser(w: World, s: Setup, rec: Rec, c: Chased, run: Run)
    requires c.Hit?
  {
    && run.rec.item == rec.item
    && exists p :: ParserFor(s, c.fetcher.name, c.result.contentType) == Some(p)
                   && match c.result.rawBytes
                      case Some(data) =>
                        var o := w.parse(c.log, p, data, c.result.contentType);
                        run.rec.log == c.log + [Parsed(p, data, c.result.contentType, o)] && run.reply == Returned(o)
                      case None =>
                        var message := "Fetcher result had no raw_bytes to hand to Parser";
                        && run.rec.log == c.log
                        && run.reply == Returned(Failure(RetrievalError(UnsupportedFormat, message, p.name)))
  }

  /**
   What a Track A call leaves behind: sources and discoveries are never touched; a success with unchanged content
   or without a parser puts its hash on record; any other one ends with the parser and changes neither item nor
   registry; an exhausted walk changes the status alone and replies the walk's last error; without fetchers an
   error says so; and the call raises exactly when there is no source.
   */
  lemma TrackAFrame(w: World, s: Setup, rec: Rec)
    ensures var run := ResolveKnown(w, s, rec);
            && (run.reply == Raised <==> rec.item.currentSources == [])
            && (rec.item.currentSources == [] || s.fetchers == [] ==> run.rec == rec)
            && (rec.item.currentSources != [] && s.fetchers == [] ==>
                  run.reply == Returned(Failure(RetrievalError(Unknown, "No fetchers configured", "none"))))
            && (rec.item.currentSources != [] && s.fetchers != [] ==>
                  var c := Walk(w, s, rec.item.currentSources[0], rec.log);
                  if c.Hit? && KeepsHash(s, rec.item, c) then
                    && run.reply == Returned(Success(c.result))
                    && run.rec.item == rec.item.(status := Resolved, lastContentHash := Some(c.result.contentHash))
                    && run.rec.log == c.log + [Upserted(run.rec.item)]
                  else if c.Hit? then EndsWithParser(w, s, rec, c, run)
                  else
                    && c.last.Some? && run.reply == Returned(Failure(c.last.value))
                    && run.rec.item == rec.item.(status := FetchExhausted)
                    && run.rec.log == c.log + [Upserted(run.rec.item)])
  {
    if rec.item.currentSources != [] && s.fetchers != [] {
      WalkJustified(w, s, rec.item.currentSources[0], rec.log);
    }
    hide Walk, Hops, Linked, ParserFor;
  }

  // ----- The stored copy ----------------------------------------------------

  lemma {:induction false} RetryStoresNothing(w: World, c: RouterConfig, f: Adapter, url: string, attempt: nat,
                                              log: Log, initially: Option<ItemView>)
    ensures Stored(Retry(w, c, f, url, attempt, log).1, initially) == Stored(log, initially)
    decreases c.retryAttempts - attempt
  {
    var o := w.fetch(log, f, url);
    var log1 := log + [Fetched(f, url, o)];
    RetryStep(w, c, f, url, attempt, log);
    AppendOne(log, Fetched(f, url, o), initially);
    hide Retry, Stored;
    if Retries(c, o, attempt) {
      AppendOne(log1, Slept(Backoff(c, attempt)), initially);
      RetryStoresNothing(w, c, f, url, attempt + 1, log1 + [Slept(Backoff(c, attempt))], initially);
    } else {
    }
  }

  lemma {:induction false} ChaseStoresNothing(w: World, s: Setup, url: string, current: Option<Adapter>,
                                              visited: set<Adapter>, idx: nat, last: Option<RetrievalError>, log: Log,
                                              initially: Option<ItemView>)
    requires current.Some? ==> current.value in s.fetchers
    ensures Stored(Chase(w, s, url, current, visited, idx, last, log).log, initially) == Stored(log, initially)
    decreases |Unvisited(s, visited)|
  {
    hide Chase, Retry, Stored, Successor, Unvisited;
    if current.None? || current.value in visited {
      ChaseStops(w, s, url, current, visited, idx, last, log);
    } else {
      var f := current.value;
      ChaseStep(w, s, url, f, visited, idx, last, log);
      RetryStoresNothing(w, s.config, f, url, 0, log, initially);
      var (o, log') := Retry(w, s.config, f, url, 0, log);
      if o.Failure? {
        ChaseStoresNothing(w, s, url, Successor(s, f, idx, o.error.errorType), visited + {f}, NextIdx(s, idx),
                           Some(o.error), log', initially);
      }
    }
  }

  lemma WalkStoresNothing(w: World, s: Setup, url: string, log: Log, initially: Option<ItemView>)
    requires s.fetchers != []
    ensures Stored(Walk(w, s, url, log).log, initially) == Stored(log, initially)
  {
    hide Chase, Stored;
    ChaseStoresNothing(w, s, url, Some(s.fetchers[0]), {}, 0, None, log, initially);
  }

  /** A Track A call that saves leaves a store that agrees with the item; one that does not changes neither. */
  lemma TrackAKeepsStore(w: World, s: Setup, rec: Rec, initially: Option<ItemView>)
    ensures var run := ResolveKnown(w, s, rec);
            if Saves(w, s, rec) then Stored(run.rec.log, initially) == Some(run.rec.item)
            else run.rec.item == rec.item && Stored(run.rec.log, initially) == Stored(rec.log, initially)
  {
    hide ResolveKnown, Walk, Stored;
    TrackAFrame(w, s, rec);
    if rec.item.currentSources != [] && s.fetchers != [] {
      WalkStoresNothing(w, s, rec.item.currentSources[0], rec.log, initially);
      var c := Walk(w, s, rec.item.currentSources[0], rec.log);
      var log := ResolveKnown(w, s, rec).rec.log;
      if log != c.log {
        var event := log[|c.log|];
        assert log == c.log + [event];
        AppendOne(c.log, event, initially);
      }
    }
  }
}
