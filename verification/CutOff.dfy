/**
 The walk stops at the first fetcher it meets again. With rules, and adapters that answer each url alike every
 time, this loses nothing: a walk that could go round for ever would find no success either. In list order it
 can lose a success: a list may name a fetcher twice, and those after the second place are never reached.
 */
module CutOff {
  import opened Wrappers
  import opened Results
  import opened Item
  import opened World
  import opened Setup
  import opened TrackA
  import opened WalkFacts

  /** A steady fetcher's retries all end as its first attempt did. */
  lemma {:induction false} SteadyRetry(x: Steady, c: RouterConfig, f: Adapter, url: string, attempt: nat, log: Log)
    ensures Retry(x.AsWorld(), c, f, url, attempt, log).0 == x.fetch(f, url)
    decreases c.retryAttempts - attempt
  {
    var log' := log + [Fetched(f, url, x.fetch(f, url))];
    if Retries(c, x.fetch(f, url), attempt) {
      SteadyRetry(x, c, f, url, attempt + 1, log' + [Slept(Backoff(c, attempt))]);
    } else {
    }
  }

  /** One escalation: the configured successor of a fetcher that fails on the url. */
  function Escalate(x: Steady, s: Setup, url: string, f: Adapter): (r: Option<Adapter>)
    ensures r.Some? ==> r.value in s.fetchers
  {
    match x.fetch(f, url)
    case Success(_) => None
    case Failure(e) => NextFetcher(s, f.name, e.errorType)
  }

  /** The fetcher reached from f by n escalations, never cut off. */
  function Iterate(x: Steady, s: Setup, url: string, f: Adapter, n: nat): Option<Adapter> {
    if n == 0 then Some(f)
    else
      match Iterate(x, s, url, f, n - 1)
      case None => None
      case Some(g) => Escalate(x, s, url, g)
  }

  /** Escalating from f, to some depth, meets a fetcher that succeeds on the url. */
  ghost predicate CanSucceed(x: Steady, s: Setup, url: string, f: Adapter) {
    exists n: nat :: ReachesSuccess(x, s, url, f, n)
  }

  ghost predicate ReachesSuccess(x: Steady, s: Setup, url: string, f: Adapter, n: nat) {
    var g := Iterate(x, s, url, f, n);
    g.Some? && x.fetch(g.value, url).Success?
  }

  /** Every fetcher visited has failed, and its successor is missing, visited, or the current one. */
  ghost predicate Explored(x: Steady, s: Setup, url: string, visited: set<Adapter>, current: Option<Adapter>) {
    forall f :: f in visited ==>
      && x.fetch(f, url).Failure?
      && (Escalate(x, s, url, f).Some? ==>
            Escalate(x, s, url, f).value in visited || Escalate(x, s, url, f) == current)
  }

  /** Escalation never leaves a set of failed fetchers that contains its own successors. */
  lemma {:induction false} ClosedUnderEscalation(x: Steady, s: Setup, url: string, visited: set<Adapter>,
                                                 f: Adapter, n: nat)
    requires Explored(x, s, url, visited, None) && f in visited
    ensures var g := Iterate(x, s, url, f, n); g.Some? ==> g.value in visited
    ensures !ReachesSuccess(x, s, url, f, n)
  {
    hide NextFetcher;
    if n == 0 {
    } else {
      ClosedUnderEscalation(x, s, url, visited, f, n - 1);
    }
  }

  lemma {:induction false} ChaseExplores(x: Steady, s: Setup, url: string, current: Option<Adapter>,
                                         visited: set<Adapter>,
                                         idx: nat, last: Option<RetrievalError>, log: Log, first: Adapter, depth: nat)
    requires s.rules != []
    requires current.Some? ==> current.value in s.fetchers
    requires Explored(x, s, url, visited, current)
    requires first in visited || current == Some(first)
    requires current.Some? ==> Iterate(x, s, url, first, depth) == current
    ensures Chase(x.AsWorld(), s, url, current, visited, idx, last, log).Hit? <==> CanSucceed(x, s, url, first)
    decreases |Unvisited(s, visited)|
  {
    hide Chase, Retry, NextFetcher, Unvisited, Retries;
    var w := x.AsWorld();
    if current.None? || current.value in visited {
      ChaseStops(w, s, url, current, visited, idx, last, log);
      forall n: nat ensures !ReachesSuccess(x, s, url, first, n) {
        ClosedUnderEscalation(x, s, url, visited, first, n);
      }
    } else {
      var f := current.value;
      ChaseStep(w, s, url, f, visited, idx, last, log);
      SteadyRetry(x, s.config, f, url, 0, log);
      var (o, log') := Retry(w, s.config, f, url, 0, log);
      if o.Failure? {
        assert Successor(s, f, idx, o.error.errorType) == Escalate(x, s, url, f);
        assert Iterate(x, s, url, first, depth + 1) == Escalate(x, s, url, f);
        hide Iterate;
        ChaseExplores(x, s, url, Escalate(x, s, url, f), visited + {f}, NextIdx(s, idx), Some(o.error), log', first,
                      depth + 1);
      } else {
        assert ReachesSuccess(x, s, url, first, depth);
      }
    }
  }

  /**
   With rules and steady adapters, for every rule graph (self-loops, cycles and shared names included):
   the walk ends at a success exactly when unbounded escalation from the first fetcher meets one.
   */
  lemma CutOffIsComplete(x: Steady, s: Setup, url: string, log: Log)
    requires s.rules != [] && s.fetchers != []
    ensures Walk(x.AsWorld(), s, url, log).Hit? <==> CanSucceed(x, s, url, s.fetchers[0])
  {
    ChaseExplores(x, s, url, Some(s.fetchers[0]), {}, 0, None, log, s.fetchers[0], 0);
  }

  /**
   So Track A saves the item as FETCH_EXHAUSTED, right after the walk, exactly when no depth of escalation meets
   a success. (The status alone would not tell: an ending by a parser leaves the old status as it was.)
   */
  lemma ExhaustedExactly(x: Steady, s: Setup, rec: Rec)
    requires s.rules != [] && s.fetchers != [] && rec.item.currentSources != []
    ensures var run := ResolveKnown(x.AsWorld(), s, rec);
            var url := rec.item.currentSources[0];
            var exhausted := rec.item.(status := FetchExhausted);
            && (!CanSucceed(x, s, url, s.fetchers[0]) <==>
                  run.rec == Rec(exhausted, Walk(x.AsWorld(), s, url, rec.log).log + [Upserted(exhausted)]))
            && (!CanSucceed(x, s, url, s.fetchers[0]) ==> run.reply.Returned? && run.reply.outcome.Failure?)
  {
    var url := rec.item.currentSources[0];
    CutOffIsComplete(x, s, url, rec.log);
    hide Walk, ParserFor, CanSucceed;
    var c := Walk(x.AsWorld(), s, url, rec.log);
    var log := ResolveKnown(x.AsWorld(), s, rec).rec.log;
    if c.Hit? && |log| > |c.log| {
      assert log == c.log + [log[|c.log|]];
      assert log[|c.log|].Upserted? ==> log[|c.log|].snapshot.status == Resolved;
    }
  }

  // ----- List order -------------------------------------------------------------------

  /** List order comes to number n: it succeeds, and all before it fail with errors that go on to the next. */
  ghost predicate FirstInList(x: Steady, s: Setup, url: string, n: nat) {
    && n < |s.fetchers| && x.fetch(s.fetchers[n], url).Success?
    && forall i :: 0 <= i < n ==> PassesOver(x.fetch(s.fetchers[i], url))
  }

  predicate PassesOver(o: Outcome) {
    o.Failure? && Escalatable(o.error.errorType)
  }

  ghost predicate NoneTwice(fetchers: seq<Adapter>) {
    forall i, j :: 0 <= i < j < |fetchers| ==> fetchers[i] != fetchers[j]
  }

  lemma {:induction false} ListChase(x: Steady, s: Setup, url: string, i: nat, visited: set<Adapter>,
                                     last: Option<RetrievalError>, log: Log)
    requires s.rules == [] && i < |s.fetchers| && NoneTwice(s.fetchers[..i])
    requires forall f :: f in visited <==> f in s.fetchers[..i]
    requires forall k :: 0 <= k < i ==> PassesOver(x.fetch(s.fetchers[k], url))
    ensures Chase(x.AsWorld(), s, url, Some(s.fetchers[i]), visited, i, last, log).Hit?
            <==> exists n: nat :: FirstInList(x, s, url, n) && NoneTwice(s.fetchers[..n + 1])
    decreases |s.fetchers| - i
  {
    hide Chase, Retry, Unvisited, Escalatable;
    var w, f := x.AsWorld(), s.fetchers[i];
    if f in visited {
      ChaseStops(w, s, url, Some(f), visited, i, last, log);
      var k :| 0 <= k < i && s.fetchers[..i][k] == f;
      forall n: nat | FirstInList(x, s, url, n) ensures !NoneTwice(s.fetchers[..n + 1]) {
        assert n >= i;
        assert s.fetchers[..n + 1][k] == s.fetchers[..n + 1][i];
      }
    } else {
      ChaseStep(w, s, url, f, visited, i, last, log);
      SteadyRetry(x, s.config, f, url, 0, log);
      var (o, log') := Retry(w, s.config, f, url, 0, log);
      assert s.fetchers[..i + 1] == s.fetchers[..i] + [f];
      if PassesOver(o) && i + 1 < |s.fetchers| {
        ListChase(x, s, url, i + 1, visited + {f}, Some(o.error), log');
      } else if o.Failure? {
        ChaseStops(w, s, url, None, visited + {f}, i + 1, Some(o.error), log');
        assert forall n: nat :: !FirstInList(x, s, url, n);
      } else {
        assert FirstInList(x, s, url, i);
      }
    }
  }

  /**
   Without rules, with steady adapters and for every list: the walk ends at a success exactly when list order
   comes to one and no fetcher stands twice in the list up to it.
   */
  lemma ListOrderReachesExactly(x: Steady, s: Setup, url: string, log: Log)
    requires s.rules == [] && s.fetchers != []
    ensures Walk(x.AsWorld(), s, url, log).Hit?
            <==> exists n: nat :: FirstInList(x, s, url, n) && NoneTwice(s.fetchers[..n + 1])
  {
    ListChase(x, s, url, 0, {}, None, log);
  }

  /** Fetchers that find every page but one's own an empty shell. */
  function OnlyFetchedBy(good: Adapter): Steady {
    Steady(
      (f: Adapter, u: string) =>
        if f == good then Success(RetrievalResult("", "", u, "", f.name, None))
        else Failure(RetrievalError(EmptyShell, "", f.name)),
      (p: Adapter, data: seq<bv8>, mime: string) => Failure(NO_FETCHERS),
      (a: Adapter, q: string, n: int) => [],
      (c: Candidate) => false)
  }

  /** A list on which the cut-off loses a success: the first fetcher is named again before the one that succeeds. */
  lemma RepeatedFetcherStopsList(a: Adapter, b: Adapter, c: Adapter, config: RouterConfig, url: string, log: Log)
    requires a != b && a != c && b != c
    ensures var s, x := Setup([a, b, a, c], [], [], [], config), OnlyFetchedBy(c);
            FirstInList(x, s, url, 3) && Walk(x.AsWorld(), s, url, log).Miss?
  {
    var s, x := Setup([a, b, a, c], [], [], [], config), OnlyFetchedBy(c);
    ListOrderReachesExactly(x, s, url, log);
    forall n: nat | FirstInList(x, s, url, n) ensures !NoneTwice(s.fetchers[..n + 1]) {
      assert n == 3;
      assert s.fetchers[..n + 1][0] == s.fetchers[..n + 1][2];
    }
    hide Walk;
  }
}
