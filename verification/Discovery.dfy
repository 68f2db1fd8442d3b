/** What discovery finds: in one call, over repeated calls, and which searchers it asks on the way. */
module Discovery {
  import opened Wrappers
  import opened Results
  import opened Item
  import opened World
  import opened Setup
  import opened TrackA
  import opened TrackB
  import opened WalkFacts

  // ----- One call, any adapters -----------------------------------------------

  /** The searchers asked in a log from a position on, in order. */
  function Asked(log: Log, from: nat): seq<Adapter> {
    if |log| <= from then []
    else Asked(log[..|log| - 1], from) + if log[|log| - 1].Searched? then [log[|log| - 1].searcher] else []
  }

  /** What they answered, in order. */
  function Heard(log: Log, from: nat): seq<Candidate> {
    if |log| <= from then []
    else Heard(log[..|log| - 1], from) + if log[|log| - 1].Searched? then log[|log| - 1].hits else []
  }

  /** What the last one asked answered. */
  function LastHeard(log: Log, from: nat): seq<Candidate> {
    if |log| <= from then []
    else if log[|log| - 1].Searched? then log[|log| - 1].hits
    else LastHeard(log[..|log| - 1], from)
  }

  /** The candidates judged, in order. */
  function Weighed(log: Log, from: nat): seq<Candidate> {
    if |log| <= from then []
    else Weighed(log[..|log| - 1], from) + if log[|log| - 1].Judged? then [log[|log| - 1].candidate] else []
  }

  /** The candidates judged trusted, in order. */
  function Approved(log: Log, from: nat): seq<Candidate> {
    if |log| <= from then []
    else
      var e := log[|log| - 1];
      Approved(log[..|log| - 1], from) + if e.Judged? && e.trusted then [e.candidate] else []
  }

  /** The hits whose url was not seen, in order. */
  function Unseen(hits: seq<Candidate>, seen: set<string>): seq<Candidate> {
    if hits == [] then []
    else (if hits[0].url in seen then [] else [hits[0]]) + Unseen(hits[1..], seen)
  }

  lemma {:induction false} UnseenAppend(a: seq<Candidate>, b: seq<Candidate>, seen: set<string>)
    ensures Unseen(a + b, seen) == Unseen(a, seen) + Unseen(b, seen)
  {
    if a == [] {
      assert a + b == b;
    } else {
      assert (a + b)[1..] == a[1..] + b;
      UnseenAppend(a[1..], b, seen);
    }
  }

  /** What one more event adds to these histories. */
  lemma OneMoreEvent(log: Log, e: Event, from: nat)
    requires from <= |log|
    ensures Asked(log + [e], from) == if e.Searched? then Asked(log, from) + [e.searcher] else Asked(log, from)
    ensures Heard(log + [e], from) == if e.Searched? then Heard(log, from) + e.hits else Heard(log, from)
    ensures LastHeard(log + [e], from) == if e.Searched? then e.hits else LastHeard(log, from)
    ensures Weighed(log + [e], from) == if e.Judged? then Weighed(log, from) + [e.candidate] else Weighed(log, from)
    ensures Approved(log + [e], from)
            == if e.Judged? && e.trusted then Approved(log, from) + [e.candidate] else Approved(log, from)
  {
    assert (log + [e])[..|log + [e]| - 1] == log;
  }

  /** All candidates are those done with, followed by those still to do. */
  ghost predicate Divided(all: seq<Candidate>, done: seq<Candidate>, todo: seq<Candidate>) {
    all == done + todo
  }

  lemma OneMoreDone(all: seq<Candidate>, done: seq<Candidate>, todo: seq<Candidate>)
    requires Divided(all, done, todo)
    ensures done <= all && (todo == [] ==> done == all)
    ensures todo != [] ==> Divided(all, done + [todo[0]], todo[1..]) && done + [todo[0]] <= all
  {
    if todo != [] {
      assert done + [todo[0]] + todo[1..] == done + todo;
    }
  }

  /**
   A search in progress: nothing trusted was met so far, and the unseen hits heard are those judged already
   followed by those among the hits at hand.
   */
  ghost predicate Underway(rec: Rec, from: nat, hits: seq<Candidate>) {
    && from <= |rec.log|
    && Approved(rec.log, from) == []
    && Divided(Unseen(Heard(rec.log, from), rec.item.discoveredUrlsSeen),
               Weighed(rec.log, from), Unseen(hits, rec.item.discoveredUrlsSeen))
    && forall c :: c in hits ==> c in LastHeard(rec.log, from)
  }

  /** The search ended without a find: every searcher was asked, and every unseen hit was judged and rejected. */
  ghost predicate FoundNone(rec: Rec, run: Run, remaining: seq<Adapter>, from: nat) {
    var log := run.rec.log;
    && run.rec.item == rec.item.(status := Unresolved)
    && Asked(log, from) == Asked(rec.log, from) + remaining
    && Weighed(log, from) == Unseen(Heard(log, from), rec.item.discoveredUrlsSeen)
    && Approved(log, from) == []
  }

  /** After those asked before, a first part of the remaining ones was asked. */
  ghost predicate AskedSome(asked: seq<Adapter>, before: seq<Adapter>, remaining: seq<Adapter>) {
    exists k :: 0 <= k <= |remaining| && asked == before + remaining[..k]
  }

  lemma AskedSomeMore(asked: seq<Adapter>, before: seq<Adapter>, remaining: seq<Adapter>)
    ensures AskedSome(before, before, remaining)
    ensures remaining != [] && AskedSome(asked, before + [remaining[0]], remaining[1..]) ==>
              AskedSome(asked, before, remaining)
  {
    assert before == before + remaining[..0];
    if remaining != [] && AskedSome(asked, before + [remaining[0]], remaining[1..]) {
      var k :| 0 <= k <= |remaining[1..]| && asked == before + [remaining[0]] + remaining[1..][..k];
      assert asked == before + remaining[..k + 1];
    }
  }

  /**
   The search ended with a find: the only trusted one of the candidates judged, which are the unseen hits heard
   up to it. It is a hit of the last searcher asked, so none was asked after that one.
   */
  ghost predicate FoundFirst(rec: Rec, run: Run, remaining: seq<Adapter>, from: nat)
    requires run.reply.Found?
  {
    var log, c := run.rec.log, run.reply.candidate;
    && c.url !in rec.item.discoveredUrlsSeen
    && run.rec.item == Merge(rec.item, c.url)
    && |log| >= 2 && log[|log| - 2] == Judged(c, true)
    && AskedSome(Asked(log, from), Asked(rec.log, from), remaining)
    && c in LastHeard(log, from)
    && Weighed(log, from) <= Unseen(Heard(log, from), rec.item.discoveredUrlsSeen)
    && Approved(log, from) == [c]
  }

  /** Everything a search call promises about item, reply and log, given the searchers it may still ask. */
  ghost predicate ScanResult(rec: Rec, run: Run, remaining: seq<Adapter>, from: nat) {
    && run.rec.log != [] && run.rec.log[|run.rec.log| - 1] == Upserted(run.rec.item)
    && (run.reply == Nothing || run.reply.Found?)
    && (run.reply == Nothing ==> FoundNone(rec, run, remaining, from))
    && (run.reply.Found? ==> FoundFirst(rec, run, remaining, from))
  }

  /** The result of a search that goes on with another searcher is the result of the whole. */
  lemma AfterAsking(rec: Rec, e: Event, run: Run, searchers: seq<Adapter>, from: nat)
    requires from <= |rec.log| && searchers != [] && e.Searched? && e.searcher == searchers[0]
    requires ScanResult(Rec(rec.item, rec.log + [e]), run, searchers[1..], from)
    ensures ScanResult(rec, run, searchers, from)
  {
    hide Asked, Heard, LastHeard, Weighed, Approved, Unseen, AskedSome;
    OneMoreEvent(rec.log, e, from);
    assert Asked(rec.log, from) + [searchers[0]] + searchers[1..] == Asked(rec.log, from) + searchers;
    AskedSomeMore(Asked(run.rec.log, from), Asked(rec.log, from), searchers);
  }

  /** The next unseen hit is weighed. */
  lemma OneMoreWeighed(rec: Rec, hits: seq<Candidate>, from: nat)
    requires Underway(rec, from, hits) && hits != [] && hits[0].url !in rec.item.discoveredUrlsSeen
    ensures var all, seen := Unseen(Heard(rec.log, from), rec.item.discoveredUrlsSeen), rec.item.discoveredUrlsSeen;
            && Divided(all, Weighed(rec.log, from) + [hits[0]], Unseen(hits[1..], seen))
            && Weighed(rec.log, from) + [hits[0]] <= all
    ensures hits[0] in LastHeard(rec.log, from) && forall c :: c in hits[1..] ==> c in LastHeard(rec.log, from)
  {
    var seen := rec.item.discoveredUrlsSeen;
    var todo := Unseen(hits, seen);
    assert todo == [hits[0]] + Unseen(hits[1..], seen);
    assert todo[0] == hits[0] && todo[1..] == Unseen(hits[1..], seen);
    hide Unseen, Divided, Heard, Weighed, Approved, LastHeard;
    OneMoreDone(Unseen(Heard(rec.log, from), seen), Weighed(rec.log, from), todo);
    assert forall c :: c in hits[1..] ==> c in hits;
  }

  /** A hit that is rejected leaves the search underway. */
  lemma HitRejected(rec: Rec, hits: seq<Candidate>, run: Run, searchers: seq<Adapter>, from: nat)
    requires Underway(rec, from, hits) && hits != [] && hits[0].url !in rec.item.discoveredUrlsSeen
    ensures var rec' := Rec(rec.item, rec.log + [Judged(hits[0], false)]);
            && Underway(rec', from, hits[1..])
            && (ScanResult(rec', run, searchers, from) ==> ScanResult(rec, run, searchers, from))
  {
    hide Asked, Heard, LastHeard, Weighed, Approved, AskedSome, Merge, Unseen, Divided;
    OneMoreWeighed(rec, hits, from);
    OneMoreEvent(rec.log, Judged(hits[0], false), from);
  }

  /** A hit that is trusted ends it. */
  lemma HitTrusted(rec: Rec, hits: seq<Candidate>, searchers: seq<Adapter>, from: nat)
    requires Underway(rec, from, hits) && hits != [] && hits[0].url !in rec.item.discoveredUrlsSeen
    ensures var log' := rec.log + [Judged(hits[0], true)];
            ScanResult(rec, Run(Save(Rec(Merge(rec.item, hits[0].url), log')), Found(hits[0])), searchers, from)
  {
    hide Asked, Heard, LastHeard, Weighed, Approved, AskedSome, Merge, Unseen, Divided;
    var e := Judged(hits[0], true);
    OneMoreWeighed(rec, hits, from);
    OneMoreEvent(rec.log, e, from);
    OneMoreEvent(rec.log + [e], Upserted(Merge(rec.item, hits[0].url)), from);
    AskedSomeMore([], Asked(rec.log, from), searchers);
  }

  /** With no searcher left the search ends without a find. */
  lemma NoneLeft(rec: Rec, from: nat)
    requires Underway(rec, from, [])
    ensures ScanResult(rec, Run(Save(Rec(rec.item.(status := Unresolved), rec.log)), Nothing), [], from)
  {
    hide Asked, Heard, LastHeard, Weighed, Approved;
    OneMoreEvent(rec.log, Upserted(rec.item.(status := Unresolved)), from);
    assert Weighed(rec.log, from) + [] == Weighed(rec.log, from);
    assert Asked(rec.log, from) + [] == Asked(rec.log, from);
  }

  /** With one more searcher asked the search is underway with its hits. */
  lemma AskedOneMore(rec: Rec, e: Event, from: nat)
    requires Underway(rec, from, []) && e.Searched?
    ensures Underway(Rec(rec.item, rec.log + [e]), from, e.hits)
  {
    hide Asked, Heard, LastHeard, Weighed, Approved;
    OneMoreEvent(rec.log, e, from);
    UnseenAppend(Heard(rec.log, from), e.hits, rec.item.discoveredUrlsSeen);
  }

  lemma {:induction false} ScanSearchersResult(w: World, s: Setup, searchers: seq<Adapter>, rec: Rec, from: nat)
    requires Underway(rec, from, [])
    ensures ScanResult(rec, ScanSearchers(w, s, searchers, rec), searchers, from)
    decreases |searchers|, 0, 0
  {
    hide ScanSearchers, ScanHits, Asked, Heard, LastHeard, Weighed, Approved, AskedSome, Divided;
    ScanStep(w, s, searchers, rec);
    if searchers == [] {
      NoneLeft(rec, from);
    } else {
      var n := s.config.candidateCount;
      var hits := w.search(rec.log, searchers[0], rec.item.queryHint, n);
      var e := Searched(searchers[0], rec.item.queryHint, n, hits);
      AskedOneMore(rec, e, from);
      ScanHitsResult(w, s, hits, searchers[1..], Rec(rec.item, rec.log + [e]), from);
      AfterAsking(rec, e, ScanSearchers(w, s, searchers, rec), searchers, from);
    }
  }

  lemma {:induction false} ScanHitsResult(w: World, s: Setup, hits: seq<Candidate>, searchers: seq<Adapter>, rec: Rec,
                                          from: nat)
    requires Underway(rec, from, hits)
    ensures ScanResult(rec, ScanHits(w, s, hits, searchers, rec), searchers, from)
    decreases |searchers|, 1, |hits|
  {
    hide ScanSearchers, ScanHits, Asked, Heard, LastHeard, Weighed, Approved, AskedSome;
    HitStep(w, s, hits, searchers, rec);
    if hits == [] {
      ScanSearchersResult(w, s, searchers, rec, from);
    } else if hits[0].url in rec.item.discoveredUrlsSeen {
      ScanHitsResult(w, s, hits[1..], searchers, rec, from);
    } else {
      var trusted := w.isTrusted(rec.log, hits[0]);
      if trusted {
        HitTrusted(rec, hits, searchers, from);
      } else {
        HitRejected(rec, hits, ScanHits(w, s, hits, searchers, rec), searchers, from);
        ScanHitsResult(w, s, hits[1..], searchers, Rec(rec.item, rec.log + [Judged(hits[0], false)]), from);
      }
      hide ScanResult, Underway;
    }
  }

  /**
   For every adapter behaviour: searchers are asked in order, each at most once, and of what they answer every
   unseen hit is judged, in order, up to the first that is trusted. That one is merged and no further searcher is
   asked; without one, every searcher was asked and the item is UNRESOLVED.
   */
  lemma DiscoverResult(w: World, s: Setup, rec: Rec)
    ensures ScanResult(rec, Discover(w, s, rec), s.searchers, |rec.log|)
  {
    ScanSearchersResult(w, s, s.searchers, rec, |rec.log|);
  }

  // ----- Steady adapters --------------------------------------------------------

  /** The hits of all searchers, in order. */
  function AllHits(x: Steady, searchers: seq<Adapter>, query: string, n: int): seq<Candidate> {
    if searchers == [] then [] else x.search(searchers[0], query, n) + AllHits(x, searchers[1..], query, n)
  }

  /** Trusted hits with an unseen url, each url once, at its first trusted hit. */
  function Fresh(x: Steady, hits: seq<Candidate>, seen: set<string>): seq<Candidate> {
    if hits == [] then []
    else if hits[0].url in seen || !x.isTrusted(hits[0]) then Fresh(x, hits[1..], seen)
    else [hits[0]] + Fresh(x, hits[1..], seen + {hits[0].url})
  }

  predicate Usable(x: Steady, c: Candidate, seen: set<string>) {
    c.url !in seen && x.isTrusted(c)
  }

  lemma {:induction false} FreshIsUsable(x: Steady, hits: seq<Candidate>, seen: set<string>)
    ensures forall c :: c in Fresh(x, hits, seen) ==> c in hits && Usable(x, c, seen)
  {
    if hits == [] {
    } else {
      FreshIsUsable(x, hits[1..], if Usable(x, hits[0], seen) then seen + {hits[0].url} else seen);
    }
  }

  /** No url is kept twice. */
  lemma {:induction false} FreshIsDistinct(x: Steady, hits: seq<Candidate>, seen: set<string>)
    ensures forall i, j :: 0 <= i < j < |Fresh(x, hits, seen)| ==>
              Fresh(x, hits, seen)[i].url != Fresh(x, hits, seen)[j].url
  {
    if hits == [] {
    } else {
      var seen' := if Usable(x, hits[0], seen) then seen + {hits[0].url} else seen;
      FreshIsDistinct(x, hits[1..], seen');
      FreshIsUsable(x, hits[1..], seen');
      var rest := Fresh(x, hits[1..], seen');
      assert Fresh(x, hits, seen) == (if Usable(x, hits[0], seen) then [hits[0]] else []) + rest;
      assert forall j :: 0 <= j < |rest| ==> rest[j] in rest;
      hide Fresh;
    }
  }

  /** Every usable hit is kept, or another one with its url. */
  lemma {:induction false} FreshIsComplete(x: Steady, hits: seq<Candidate>, seen: set<string>, c: Candidate)
    requires c in hits && Usable(x, c, seen)
    ensures exists d :: d in Fresh(x, hits, seen) && d.url == c.url
  {
    if Usable(x, hits[0], seen) && c.url == hits[0].url {
      assert hits[0] in Fresh(x, hits, seen);
    } else {
      var seen' := if Usable(x, hits[0], seen) then seen + {hits[0].url} else seen;
      FreshIsComplete(x, hits[1..], seen', c);
      var d :| d in Fresh(x, hits[1..], seen') && d.url == c.url;
      assert d in Fresh(x, hits, seen);
    }
  }

  /** Fresh keeps exactly one hit for every url that has a usable hit. */
  lemma FreshMeaning(x: Steady, hits: seq<Candidate>, seen: set<string>)
    ensures forall c :: c in Fresh(x, hits, seen) ==> c in hits && Usable(x, c, seen)
    ensures forall c :: c in hits && Usable(x, c, seen) ==> exists d :: d in Fresh(x, hits, seen) && d.url == c.url
    ensures forall i, j :: 0 <= i < j < |Fresh(x, hits, seen)| ==>
              Fresh(x, hits, seen)[i].url != Fresh(x, hits, seen)[j].url
  {
    FreshIsUsable(x, hits, seen);
    FreshIsDistinct(x, hits, seen);
    forall c | c in hits && Usable(x, c, seen)
      ensures exists d :: d in Fresh(x, hits, seen) && d.url == c.url
    {
      FreshIsComplete(x, hits, seen, c);
    }
  }

  /** Later hits never change what was kept of earlier ones: the order is that of first usable hits. */
  lemma {:induction false} FreshInOrder(x: Steady, hits: seq<Candidate>, more: seq<Candidate>, seen: set<string>)
    ensures Fresh(x, hits, seen) <= Fresh(x, hits + more, seen)
  {
    if hits == [] {
      assert hits + more == more;
    } else {
      assert (hits + more)[1..] == hits[1..] + more;
      FreshInOrder(x, hits[1..], more, if Usable(x, hits[0], seen) then seen + {hits[0].url} else seen);
    }
  }

  /** Once the first fresh hit is seen, the others are what is fresh. */
  lemma {:induction false} FreshAfterFirst(x: Steady, hits: seq<Candidate>, seen: set<string>)
    requires Fresh(x, hits, seen) != []
    ensures Fresh(x, hits, seen + {Fresh(x, hits, seen)[0].url}) == Fresh(x, hits, seen)[1..]
  {
    if Usable(x, hits[0], seen) {
    } else {
      FreshAfterFirst(x, hits[1..], seen);
    }
  }

  /** The outcome of a call for which the fresh hits are known. */
  ghost predicate TakesFirst(rec: Rec, run: Run, offers: seq<Candidate>) {
    if offers == [] then run.reply == Nothing && run.rec.item == rec.item.(status := Unresolved)
    else run.reply == Found(offers[0]) && run.rec.item == Merge(rec.item, offers[0].url)
  }

  lemma {:induction false} ScanSearchersSteady(x: Steady, s: Setup, searchers: seq<Adapter>, rec: Rec)
    ensures var hits := AllHits(x, searchers, rec.item.queryHint, s.config.candidateCount);
            TakesFirst(rec, ScanSearchers(x.AsWorld(), s, searchers, rec), Fresh(x, hits, rec.item.discoveredUrlsSeen))
    decreases |searchers|, 0, 0
  {
    if searchers == [] {
    } else {
      var q, n := rec.item.queryHint, s.config.candidateCount;
      var hits := x.search(searchers[0], q, n);
      ScanHitsSteady(x, s, hits, searchers[1..], Rec(rec.item, rec.log + [Searched(searchers[0], q, n, hits)]));
    }
  }

  lemma {:induction false} ScanHitsSteady(x: Steady, s: Setup, hits: seq<Candidate>, searchers: seq<Adapter>, rec: Rec)
    ensures var all := hits + AllHits(x, searchers, rec.item.queryHint, s.config.candidateCount);
            TakesFirst(rec, ScanHits(x.AsWorld(), s, hits, searchers, rec), Fresh(x, all, rec.item.discoveredUrlsSeen))
    decreases |searchers|, 1, |hits|
  {
    var later := AllHits(x, searchers, rec.item.queryHint, s.config.candidateCount);
    if hits == [] {
      ScanSearchersSteady(x, s, searchers, rec);
      assert hits + later == later;
    } else {
      assert (hits + later)[1..] == hits[1..] + later;
      if hits[0].url in rec.item.discoveredUrlsSeen {
        ScanHitsSteady(x, s, hits[1..], searchers, rec);
      } else if !x.isTrusted(hits[0]) {
        ScanHitsSteady(x, s, hits[1..], searchers, Rec(rec.item, rec.log + [Judged(hits[0], false)]));
      }
    }
  }

  /** What a steady set of searchers still has to offer an item. */
  function Offers(x: Steady, s: Setup, item: ItemView): seq<Candidate> {
    Fresh(x, AllHits(x, s.searchers, item.queryHint, s.config.candidateCount), item.discoveredUrlsSeen)
  }

  /** The nested early-exit search is the head of one filtered list. */
  lemma DiscoverIsHeadOfFilter(x: Steady, s: Setup, rec: Rec)
    ensures TakesFirst(rec, Discover(x.AsWorld(), s, rec), Offers(x, s, rec.item))
  {
    ScanSearchersSteady(x, s, s.searchers, rec);
  }

  // ----- Repeated calls ---------------------------------------------------------

  /** The record after k discovery calls. */
  function Repeat(w: World, s: Setup, rec: Rec, k: nat): Rec {
    if k == 0 then rec else Discover(w, s, Repeat(w, s, rec, k - 1)).rec
  }

  function Urls(candidates: seq<Candidate>): seq<string> {
    seq(|candidates|, i requires 0 <= i < |candidates| => candidates[i].url)
  }

  /** An item after the given finds: the first becomes the source if there is none, the others are staged in order. */
  function WithFinds(item: ItemView, urls: seq<string>): ItemView {
    var seen := item.discoveredUrlsSeen + set u | u in urls;
    if urls == [] then item
    else if item.currentSources != [] then
      item.(candidateSources := item.candidateSources + urls, discoveredUrlsSeen := seen)
    else
      item.(currentSources := [urls[0]], candidateSources := item.candidateSources + urls[1..],
            discoveredUrlsSeen := seen, status := PendingReview)
  }

  lemma WithOneMore(item: ItemView, urls: seq<string>, u: string)
    ensures WithFinds(item, urls + [u]) == Merge(WithFinds(item, urls), u)
  {
    var all := urls + [u];
    assert (set v | v in all) == (set v | v in urls) + {u};
    if urls == [] {
      assert all == [u];
    } else {
      assert all[1..] == urls[1..] + [u];
      assert item.candidateSources + all == item.candidateSources + urls + [u];
      assert item.candidateSources + all[1..] == item.candidateSources + urls[1..] + [u];
    }
  }

  lemma {:induction false} RepeatState(x: Steady, s: Setup, rec: Rec, k: nat)
    ensures var offers := Offers(x, s, rec.item);
            var item := Repeat(x.AsWorld(), s, rec, k).item;
            if k <= |offers| then item == WithFinds(rec.item, Urls(offers[..k])) && Offers(x, s, item) == offers[k..]
            else item == WithFinds(rec.item, Urls(offers)).(status := Unresolved) && Offers(x, s, item) == []
  {
    hide Discover, Fresh, AllHits;
    var offers := Offers(x, s, rec.item);
    if k > 0 {
      var before := Repeat(x.AsWorld(), s, rec, k - 1);
      RepeatState(x, s, rec, k - 1);
      DiscoverIsHeadOfFilter(x, s, before);
      if k <= |offers| {
        var hits := AllHits(x, s.searchers, rec.item.queryHint, s.config.candidateCount);
        FreshAfterFirst(x, hits, before.item.discoveredUrlsSeen);
        WithOneMore(rec.item, Urls(offers[..k - 1]), offers[k - 1].url);
        assert Urls(offers[..k]) == Urls(offers[..k - 1]) + [offers[k - 1].url];
        assert offers[k - 1..][1..] == offers[k..];
      } else {
        assert offers[..|offers|] == offers;
      }
    } else {
      assert offers[..0] == [];
      assert offers[0..] == offers;
    }
  }

  /**
   With steady adapters, call number k (from 0) finds exactly offer number k. A sourceless item ends with
   the first offer as its source and the others staged in order; every later call finds nothing and
   changes only the status.
   */
  lemma DiscoveryEnumeratesOnce(x: Steady, s: Setup, rec: Rec, k: nat)
    ensures var offers := Offers(x, s, rec.item);
            var before := Repeat(x.AsWorld(), s, rec, k);
            var run := Discover(x.AsWorld(), s, before);
            && run.rec == Repeat(x.AsWorld(), s, rec, k + 1)
            && (k < |offers| ==>
                  && run.reply == Found(offers[k])
                  && run.rec.item == WithFinds(rec.item, Urls(offers[..k + 1])))
            && (k >= |offers| ==>
                  && run.reply == Nothing
                  && run.rec.item == WithFinds(rec.item, Urls(offers)).(status := Unresolved))
  {
    RepeatState(x, s, rec, k);
    RepeatState(x, s, rec, k + 1);
    DiscoverIsHeadOfFilter(x, s, Repeat(x.AsWorld(), s, rec, k));
  }

  // ----- Sources and staged alternates ------------------------------------------

  /** No current source is also staged. */
  ghost predicate Disjoint(item: ItemView) {
    forall u :: u in item.currentSources ==> u !in item.candidateSources
  }

  /** An adapter set whose searchers all answer with one trusted url. */
  function Insisting(url: string): Steady {
    Steady(
      (f: Adapter, u: string) => Failure(NO_FETCHERS),
      (p: Adapter, data: seq<bv8>, mime: string) => Failure(NO_FETCHERS),
      (a: Adapter, q: string, n: int) => [Candidate(url, 0.0, "")],
      (c: Candidate) => true)
  }

  /** The urls a find could clash with: the registered sources, or the staged ones while there is no source. */
  function Exposed(item: ItemView): seq<string> {
    if item.currentSources != [] then item.currentSources else item.candidateSources
  }

  /** The exposed urls all count as seen, so no find can clash with them. */
  ghost predicate Guarded(item: ItemView) {
    forall u :: u in Exposed(item) ==> u in item.discoveredUrlsSeen
  }

  lemma MergeKeepsApart(item: ItemView, url: string)
    requires Disjoint(item) && Guarded(item) && url !in item.discoveredUrlsSeen
    ensures Disjoint(Merge(item, url)) && Guarded(Merge(item, url))
  {
  }

  lemma {:induction false} RepeatKeepsApart(w: World, s: Setup, rec: Rec, k: nat)
    requires Disjoint(rec.item) && Guarded(rec.item)
    ensures Disjoint(Repeat(w, s, rec, k).item) && Guarded(Repeat(w, s, rec, k).item)
  {
    if k == 0 {
    } else {
      var before := Repeat(w, s, rec, k - 1);
      RepeatKeepsApart(w, s, rec, k - 1);
      DiscoverResult(w, s, before);
      var run := Discover(w, s, before);
      if run.reply.Found? {
        MergeKeepsApart(before.item, run.reply.candidate.url);
      }
      hide Discover;
    }
  }

  /** An exposed url that does not count as seen can be found again, and is then both a source and staged. */
  lemma UnguardedClash(s: Setup, rec: Rec) returns (x: Steady)
    requires s.searchers != [] && !Guarded(rec.item)
    ensures !Disjoint(Discover(x.AsWorld(), s, rec).rec.item)
  {
    var item := rec.item;
    var u :| u in Exposed(item) && u !in item.discoveredUrlsSeen;
    x := Insisting(u);
    var run := Discover(x.AsWorld(), s, rec);
    DiscoverIsHeadOfFilter(x, s, rec);
    assert AllHits(x, s.searchers, item.queryHint, s.config.candidateCount)[0] == Candidate(u, 0.0, "");
    assert Offers(x, s, item)[0].url == u;
    assert u in run.rec.item.candidateSources && u in run.rec.item.currentSources;
  }

  /**
   Over any number of calls, discovery keeps sources and staged alternates apart, whatever the adapters do,
   exactly when the exposed urls all count as seen at the start. A hand-registered source that was never
   discovered breaks it.
   */
  lemma KeptApartExactly(s: Setup, rec: Rec)
    requires s.searchers != [] && Disjoint(rec.item)
    ensures (forall w: World, k: nat :: Disjoint(Repeat(w, s, rec, k).item)) <==> Guarded(rec.item)
  {
    if Guarded(rec.item) {
      forall w: World, k: nat ensures Disjoint(Repeat(w, s, rec, k).item) {
        RepeatKeepsApart(w, s, rec, k);
      }
    } else {
      var x := UnguardedClash(s, rec);
      assert Repeat(x.AsWorld(), s, rec, 0) == rec;
      assert !Disjoint(Repeat(x.AsWorld(), s, rec, 1).item);
    }
  }

  lemma {:induction false} SearchKeepsLog(w: World, s: Setup, searchers: seq<Adapter>, rec: Rec)
    ensures rec.log <= ScanSearchers(w, s, searchers, rec).rec.log
    decreases |searchers|, 0, 0
  {
    if searchers == [] {
    } else {
      var n := s.config.candidateCount;
      var hits := w.search(rec.log, searchers[0], rec.item.queryHint, n);
      var e := Searched(searchers[0], rec.item.queryHint, n, hits);
      HitsKeepLog(w, s, hits, searchers[1..], Rec(rec.item, rec.log + [e]));
    }
  }

  lemma {:induction false} HitsKeepLog(w: World, s: Setup, hits: seq<Candidate>, searchers: seq<Adapter>, rec: Rec)
    ensures rec.log <= ScanHits(w, s, hits, searchers, rec).rec.log
    decreases |searchers|, 1, |hits|
  {
    HitStep(w, s, hits, searchers, rec);
    hide ScanHits, ScanSearchers;
    if hits == [] {
      SearchKeepsLog(w, s, searchers, rec);
    } else if hits[0].url in rec.item.discoveredUrlsSeen {
      HitsKeepLog(w, s, hits[1..], searchers, rec);
    } else if !w.isTrusted(rec.log, hits[0]) {
      HitsKeepLog(w, s, hits[1..], searchers, Rec(rec.item, rec.log + [Judged(hits[0], false)]));
    }
  }

  // ----- The review gate ----------------------------------------------------------

  lemma {:induction false} ScanSearchersFetchesNothing(w: World, s: Setup, searchers: seq<Adapter>, rec: Rec)
    ensures FetchCount(ScanSearchers(w, s, searchers, rec).rec.log) == FetchCount(rec.log)
    decreases |searchers|, 0, 0
  {
    if searchers == [] {
      AppendOne(rec.log, Upserted(rec.item.(status := Unresolved)), None);
    } else {
      var n := s.config.candidateCount;
      var hits := w.search(rec.log, searchers[0], rec.item.queryHint, n);
      var e := Searched(searchers[0], rec.item.queryHint, n, hits);
      AppendOne(rec.log, e, None);
      ScanHitsFetchesNothing(w, s, hits, searchers[1..], Rec(rec.item, rec.log + [e]));
    }
  }

  lemma {:induction false} ScanHitsFetchesNothing(w: World, s: Setup, hits: seq<Candidate>, searchers: seq<Adapter>,
                                                  rec: Rec)
    ensures FetchCount(ScanHits(w, s, hits, searchers, rec).rec.log) == FetchCount(rec.log)
    decreases |searchers|, 1, |hits|
  {
    if hits == [] {
      ScanSearchersFetchesNothing(w, s, searchers, rec);
    } else if hits[0].url in rec.item.discoveredUrlsSeen {
      ScanHitsFetchesNothing(w, s, hits[1..], searchers, rec);
    } else {
      var e := Judged(hits[0], w.isTrusted(rec.log, hits[0]));
      AppendOne(rec.log, e, None);
      AppendOne(rec.log + [e], Upserted(Merge(rec.item, hits[0].url)), None);
      if !e.trusted {
        ScanHitsFetchesNothing(w, s, hits[1..], searchers, Rec(rec.item, rec.log + [e]));
      }
    }
  }

  /**
   With require_review a call that starts without a source fetches nothing. The gate is per call, though:
   if that call promoted a source, the very next call fetches it, reviewed or not.
   */
  lemma ReviewGateIsPerCall(w: World, s: Setup, rec: Rec)
    requires rec.item.currentSources == [] && s.config.requireReview && s.fetchers != []
    ensures var first := Resolve(w, s, rec);
            var second := Resolve(w, s, first.rec);
            && first.reply == Nothing
            && FetchCount(first.rec.log) == FetchCount(rec.log)
            && (first.rec.item.currentSources != [] <==> FetchCount(second.rec.log) > FetchCount(first.rec.log))
  {
    DiscoverResult(w, s, rec);
    ScanSearchersFetchesNothing(w, s, s.searchers, rec);
    var first := Resolve(w, s, rec);
    if first.rec.item.currentSources != [] {
      var _, _ := CallCost(w, s, first.rec);
    } else {
      DiscoverResult(w, s, first.rec);
      ScanSearchersFetchesNothing(w, s, s.searchers, first.rec);
    }
    hide Discover, ScanResult, FetchCount;
  }

  /**
   Without review, a call that starts without a source goes on to fetch exactly when its discovery finds a
   candidate: then it fetches that candidate's url and no other, and replies with an outcome. Without a find it
   ends as the discovery does. A call that starts with a source is a Track A call.
   */
  lemma UnreviewedCallFetchesItsFind(w: World, s: Setup, rec: Rec)
    requires !s.config.requireReview && s.fetchers != []
    ensures var found := Discover(w, s, rec);
            var run := Resolve(w, s, rec);
            && (rec.item.currentSources != [] ==> run == ResolveKnown(w, s, rec))
            && (rec.item.currentSources == [] ==>
                  && (found.reply.Found? <==> FetchCount(run.rec.log) > FetchCount(rec.log))
                  && (found.reply.Found? <==> run.reply.Returned?)
                  && (!found.reply.Found? ==> run == found && run.reply == Nothing && run.rec.item.currentSources == [])
                  && (found.reply.Found? ==>
                        && found.rec.log <= run.rec.log
                        && run.rec.item.currentSources == [found.reply.candidate.url]
                        && FetchesOnly(run.rec.log, |found.rec.log|, found.reply.candidate.url)))
  {
    var found := Discover(w, s, rec);
    if rec.item.currentSources == [] {
      DiscoverResult(w, s, rec);
      ScanSearchersFetchesNothing(w, s, s.searchers, rec);
      if found.reply.Found? {
        var _, _ := CallCost(w, s, found.rec);
        CallExtends(w, s, found.rec);
      }
    }
    hide Discover, ResolveKnown, ScanResult, FetchCount, FetchesOnly;
  }

  /** A Track A call adds to the log, only its source is fetched, and it replies with an outcome. */
  lemma CallExtends(w: World, s: Setup, rec: Rec)
    requires s.fetchers != [] && rec.item.currentSources != []
    ensures var run := ResolveKnown(w, s, rec);
            && rec.log <= run.rec.log && FetchesOnly(run.rec.log, |rec.log|, rec.item.currentSources[0])
            && run.rec.item.currentSources == rec.item.currentSources && run.reply.Returned?
  {
    var url := rec.item.currentSources[0];
    WalkJustified(w, s, url, rec.log);
    var c := Walk(w, s, url, rec.log);
    hide Walk, Hops, Linked, ParserFor;
  }

  /** The default configuration asks for 10 candidates, waits for review, and does not retry. */
  lemma DefaultConfigHoldsBack(w: World, s: Setup, rec: Rec, f: Adapter, url: string)
    requires s.config == DEFAULT_CONFIG && rec.item.currentSources == []
    ensures Resolve(w, s, rec).reply == Nothing && Resolve(w, s, rec).rec == Discover(w, s, rec).rec
    ensures s.searchers != [] ==>
              var first := Resolve(w, s, rec).rec.log;
              |first| > |rec.log| && first[|rec.log|].Searched? && first[|rec.log|].count == 10
    ensures Retry(w, s.config, f, url, 0, rec.log).1 == rec.log + [Fetched(f, url, w.fetch(rec.log, f, url))]
  {
    DiscoverResult(w, s, rec);
    RetryStep(w, s.config, f, url, 0, rec.log);
    if s.searchers != [] {
      var hits := w.search(rec.log, s.searchers[0], rec.item.queryHint, s.config.candidateCount);
      var e := Searched(s.searchers[0], rec.item.queryHint, s.config.candidateCount, hits);
      ScanStep(w, s, s.searchers, rec);
      HitsKeepLog(w, s, hits, s.searchers[1..], Rec(rec.item, rec.log + [e]));
      assert (rec.log + [e])[|rec.log|] == e;
    }
    hide ScanSearchers, ScanHits, Retry, ScanResult;
  }
}
