/** What every walk does, for every rule graph and every adapter behaviour: its justification and its cost. */
module WalkFacts {
  import opened Wrappers
  import opened Results
  import opened Item
  import opened World
  import opened Setup
  import opened TrackA

  /** One step of a walk: the first fetcher's turn, and the walk from its successor. */
  lemma ChaseStep(w: World, s: Setup, url: string, f: Adapter, visited: set<Adapter>, idx: nat,
                  last: Option<RetrievalError>, log: Log)
    requires f in s.fetchers && f !in visited
    ensures |Unvisited(s, visited + {f})| < |Unvisited(s, visited)|
    ensures var (o, log') := Retry(w, s.config, f, url, 0, log);
            Chase(w, s, url, Some(f), visited, idx, last, log) ==
            match o
            case Success(result) => Hit(f, result, log')
            case Failure(e) =>
              Chase(w, s, url, Successor(s, f, idx, e.errorType), visited + {f}, NextIdx(s, idx), Some(e), log')
  {
    VisitShrinks(s, visited, f);
  }

  lemma RetryStep(w: World, c: RouterConfig, f: Adapter, url: string, attempt: nat, log: Log)
    ensures var o := w.fetch(log, f, url);
            var log' := log + [Fetched(f, url, o)];
            Retry(w, c, f, url, attempt, log) ==
            if Retries(c, o, attempt) then Retry(w, c, f, url, attempt + 1, log' + [Slept(Backoff(c, attempt))])
            else (o, log')
  {
  }

  lemma ChaseStops(w: World, s: Setup, url: string, current: Option<Adapter>, visited: set<Adapter>, idx: nat,
                   last: Option<RetrievalError>, log: Log)
    requires current.None? || (current.value in visited && current.value in s.fetchers)
    ensures Chase(w, s, url, current, visited, idx, last, log) == Miss(last, log)
  {
  }

  /** With rules the list position plays no part. */
  lemma SuccessorAt(s: Setup, f: Adapter, idx: nat, i: nat, e: ErrorType)
    requires s.rules == [] ==> idx == i
    ensures Successor(s, f, idx, e) == Successor(s, f, i, e)
  {
  }

  // ----- Justification ------------------------------------------------------

  /** Retries allowed per fetcher. */
  function MaxRetries(c: RouterConfig): nat {
    if c.retryAttempts < 0 then 0 else c.retryAttempts
  }

  /** One fetcher's turn in a walk, with its final outcome and the number of its attempts. */
  datatype Hop = Hop(fetcher: Adapter, outcome: Outcome, attempts: nat)

  /** Fetches after a backoff go on with the turn of the same fetcher; without one they are a turn of their own. */
  function Attempt(hops: seq<Hop>, backedOff: bool, f: Adapter, o: Outcome, attempts: nat): seq<Hop> {
    if backedOff && hops != [] && hops[|hops| - 1].fetcher == f then
      hops[..|hops| - 1] + [Hop(f, o, hops[|hops| - 1].attempts + attempts)]
    else hops + [Hop(f, o, attempts)]
  }

  /** The last event of the log, counted from a position on, is a backoff. */
  predicate BackedOff(log: Log, from: nat) {
    |log| > from && log[|log| - 1].Slept?
  }

  /** The turns recorded in a log from a position on. */
  function Hops(log: Log, from: nat): seq<Hop> {
    if |log| <= from then []
    else
      var init, e := log[..|log| - 1], log[|log| - 1];
      if e.Fetched? then Attempt(Hops(init, from), BackedOff(init, from), e.fetcher, e.outcome, 1) else Hops(init, from)
  }

  function Tried(hops: seq<Hop>): set<Adapter> {
    set h | h in hops :: h.fetcher
  }

  /** The outcome is one that another attempt could mend. */
  predicate Mendable(o: Outcome) {
    o.Failure? && o.error.errorType in {Timeout, RateLimited}
  }

  /** No more attempts than the retries allow, and no fewer if the last one could still be mended. */
  predicate TriedEnough(c: RouterConfig, o: Outcome, attempts: nat) {
    1 <= attempts <= MaxRetries(c) + 1 && (Mendable(o) ==> attempts == MaxRetries(c) + 1)
  }

  /** Each turn follows from the error of the one before, as the rules or the list order say. */
  ghost predicate Successive(s: Setup, hops: seq<Hop>) {
    forall i :: 0 <= i < |hops| - 1 ==>
      && hops[i].outcome.Failure?
      && Successor(s, hops[i].fetcher, i, hops[i].outcome.error.errorType) == Some(hops[i + 1].fetcher)
  }

  ghost predicate NoneAgain(hops: seq<Hop>) {
    forall i, j :: 0 <= i < j < |hops| ==> hops[i].fetcher != hops[j].fetcher
  }

  /**
   The turns start at the first fetcher, never repeat one, go on only as the rules or the list order say, and
   have the attempts that the retries allow.
   */
  ghost predicate Linked(s: Setup, hops: seq<Hop>) {
    && (hops != [] ==> s.fetchers != [] && hops[0].fetcher == s.fetchers[0])
    && NoneAgain(hops) && Successive(s, hops)
    && forall h :: h in hops ==> TriedEnough(s.config, h.outcome, h.attempts)
  }

  /** The walk ended for a reason: success, or an error whose successor is missing or was tried already. */
  ghost predicate EndsRightly(s: Setup, hops: seq<Hop>, c: Chased) {
    && hops != []
    && var last := hops[|hops| - 1];
       match c
       case Hit(f, result, _) => last.fetcher == f && last.outcome == Success(result)
       case Miss(e, _) =>
         && e.Some? && last.outcome == Failure(e.value)
         && var next := Successor(s, last.fetcher, |hops| - 1, e.value.errorType);
            next.None? || next.value in Tried(hops)
  }

  ghost predicate FetchesOnly(log: Log, from: nat, url: string) {
    forall i :: from <= i < |log| && log[i].Fetched? ==> log[i].url == url
  }

  lemma HopsAppend(log: Log, e: Event, from: nat)
    requires from <= |log|
    ensures Hops(log + [e], from) ==
            if e.Fetched? then Attempt(Hops(log, from), BackedOff(log, from), e.fetcher, e.outcome, 1)
            else Hops(log, from)
    ensures BackedOff(log + [e], from) == e.Slept?
  {
    assert (log + [e])[..|log + [e]| - 1] == log;
  }

  lemma AttemptTwice(hops: seq<Hop>, backedOff: bool, f: Adapter, o: Outcome, o': Outcome, more: nat)
    ensures Attempt(Attempt(hops, backedOff, f, o, 1), true, f, o', more) == Attempt(hops, backedOff, f, o', more + 1)
  {
  }

  /** A retry loop counts as one turn, with as many attempts as it makes. */
  lemma {:induction false} RetryIsOneHop(w: World, c: RouterConfig, f: Adapter, url: string, attempt: nat, log: Log,
                                         from: nat) returns (attempts: nat)
    requires from <= |log| && attempt <= MaxRetries(c)
    ensures var (o, log') := Retry(w, c, f, url, attempt, log);
            && 1 <= attempts && TriedEnough(c, o, attempt + attempts)
            && |log| <= |log'| && !BackedOff(log', from)
            && Hops(log', from) == Attempt(Hops(log, from), BackedOff(log, from), f, o, attempts)
    decreases c.retryAttempts - attempt
  {
    hide Retry, Hops, Attempt, BackedOff;
    var o := w.fetch(log, f, url);
    var log1 := log + [Fetched(f, url, o)];
    RetryStep(w, c, f, url, attempt, log);
    HopsAppend(log, Fetched(f, url, o), from);
    if Retries(c, o, attempt) {
      var log2 := log1 + [Slept(Backoff(c, attempt))];
      HopsAppend(log1, Slept(Backoff(c, attempt)), from);
      var more := RetryIsOneHop(w, c, f, url, attempt + 1, log2, from);
      AttemptTwice(Hops(log, from), BackedOff(log, from), f, o, Retry(w, c, f, url, attempt + 1, log2).0, more);
      attempts := more + 1;
    } else {
      attempts := 1;
    }
  }

  lemma {:induction false} RetryExtends(w: World, c: RouterConfig, f: Adapter, url: string, attempt: nat, log: Log,
                                        from: nat)
    requires FetchesOnly(log, from, url)
    ensures log <= Retry(w, c, f, url, attempt, log).1
    ensures FetchesOnly(Retry(w, c, f, url, attempt, log).1, from, url)
    decreases c.retryAttempts - attempt
  {
    var o := w.fetch(log, f, url);
    if Retries(c, o, attempt) {
      RetryExtends(w, c, f, url, attempt + 1, log + [Fetched(f, url, o)] + [Slept(Backoff(c, attempt))], from);
    } else {
    }
  }

  lemma {:induction false} ChaseExtends(w: World, s: Setup, url: string, current: Option<Adapter>,
                                        visited: set<Adapter>,
                                        idx: nat, last: Option<RetrievalError>, log: Log, from: nat)
    requires current.Some? ==> current.value in s.fetchers
    requires FetchesOnly(log, from, url)
    ensures log <= Chase(w, s, url, current, visited, idx, last, log).log
    ensures FetchesOnly(Chase(w, s, url, current, visited, idx, last, log).log, from, url)
    decreases |Unvisited(s, visited)|
  {
    if current.Some? && current.value !in visited {
      var f := current.value;
      RetryExtends(w, s.config, f, url, 0, log, from);
      var (o, log') := Retry(w, s.config, f, url, 0, log);
      if o.Failure? {
        VisitShrinks(s, visited, f);
        ChaseExtends(w, s, url, Successor(s, f, idx, o.error.errorType), visited + {f}, NextIdx(s, idx),
                     Some(o.error), log', from);
      }
    } else {
    }
  }

  lemma TriedOneMore(hops: seq<Hop>, h: Hop)
    ensures Tried(hops + [h]) == Tried(hops) + {h.fetcher}
  {
    assert forall g :: g in hops + [h] <==> g in hops || g == h;
  }

  /** The next turn keeps the chain linked. */
  lemma OneMoreHop(s: Setup, hops: seq<Hop>, hop: Hop)
    requires Linked(s, hops) && hop.fetcher !in Tried(hops)
    requires TriedEnough(s.config, hop.outcome, hop.attempts)
    requires hops == [] ==> s.fetchers != [] && hop.fetcher == s.fetchers[0]
    requires hops != [] ==>
               var h := hops[|hops| - 1];
               h.outcome.Failure? && Successor(s, h.fetcher, |hops| - 1, h.outcome.error.errorType) == Some(hop.fetcher)
    ensures Linked(s, hops + [hop])
    ensures Tried(hops + [hop]) == Tried(hops) + {hop.fetcher}
  {
    TriedOneMore(hops, hop);
    StillNoneAgain(hops, hop);
    StillSuccessive(s, hops, hop);
    hide NoneAgain, Successive, TriedEnough, Tried, Successor;
  }

  lemma StillNoneAgain(hops: seq<Hop>, hop: Hop)
    requires NoneAgain(hops) && hop.fetcher !in Tried(hops)
    ensures NoneAgain(hops + [hop])
  {
    forall i | 0 <= i < |hops| ensures hops[i].fetcher != hop.fetcher {
      assert hops[i] in hops;
    }
  }

  lemma StillSuccessive(s: Setup, hops: seq<Hop>, hop: Hop)
    requires Successive(s, hops)
    requires hops != [] ==>
               var h := hops[|hops| - 1];
               h.outcome.Failure? && Successor(s, h.fetcher, |hops| - 1, h.outcome.error.errorType) == Some(hop.fetcher)
    ensures Successive(s, hops + [hop])
  {
    hide Successor;
  }

  lemma {:induction false} ChaseJustified(w: World, s: Setup, url: string, current: Option<Adapter>,
                                          visited: set<Adapter>,
                                          idx: nat, last: Option<RetrievalError>, log: Log, from: nat)
    requires current.Some? ==> current.value in s.fetchers
    requires from <= |log| && !BackedOff(log, from)
    requires Linked(s, Hops(log, from)) && visited == Tried(Hops(log, from))
    requires s.rules == [] ==> idx == |Hops(log, from)|
    requires Hops(log, from) == [] ==> s.fetchers != [] && current == Some(s.fetchers[0])
    requires Hops(log, from) != [] ==>
               var h := Hops(log, from)[|Hops(log, from)| - 1];
               && h.outcome.Failure? && last == Some(h.outcome.error)
               && current == Successor(s, h.fetcher, |Hops(log, from)| - 1, h.outcome.error.errorType)
    ensures var c := Chase(w, s, url, current, visited, idx, last, log);
            Linked(s, Hops(c.log, from)) && EndsRightly(s, Hops(c.log, from), c)
    decreases |Unvisited(s, visited)|
  {
    hide Chase, Retry, Hops, Successor, Unvisited;
    var hops := Hops(log, from);
    if current.Some? && current.value !in visited {
      var f := current.value;
      var (o, log') := Retry(w, s.config, f, url, 0, log);
      ChaseStep(w, s, url, f, visited, idx, last, log);
      var attempts := RetryIsOneHop(w, s.config, f, url, 0, log, from);
      OneMoreHop(s, hops, Hop(f, o, attempts));
      if o.Failure? {
        SuccessorAt(s, f, idx, |hops|, o.error.errorType);
        ChaseJustified(w, s, url, Successor(s, f, idx, o.error.errorType), visited + {f}, NextIdx(s, idx),
                       Some(o.error), log', from);
      }
    } else {
      ChaseStops(w, s, url, current, visited, idx, last, log);
    }
  }

  /**
   For every rule graph and adapter behaviour: the fetchers of a walk are pairwise distinct, each is the
   successor on the error actually returned and is fetched again only after a backoff, at most once per
   allowed retry; and an exhausted walk has a last error, so the fallback error of an exhausted walk is
   never used.
   */
  lemma WalkJustified(w: World, s: Setup, url: string, log: Log)
    requires s.fetchers != []
    ensures var c := Walk(w, s, url, log);
            && log <= c.log && FetchesOnly(c.log, |log|, url)
            && Linked(s, Hops(c.log, |log|)) && EndsRightly(s, Hops(c.log, |log|), c)
  {
    ChaseJustified(w, s, url, Some(s.fetchers[0]), {}, 0, None, log, |log|);
    ChaseExtends(w, s, url, Some(s.fetchers[0]), {}, 0, None, log, |log|);
  }

  // ----- Cost -----------------------------------------------------------------

  lemma {:induction false} Pow2Monotone(a: nat, b: nat)
    requires a <= b
    ensures Pow2(a) <= Pow2(b)
    decreases b
  {
    if a < b {
      Pow2Monotone(a, b - 1);
    } else {
    }
  }

  /** The time of a number of backoff units. */
  function Time(c: RouterConfig, units: int): real {
    c.retryBackoffBase * units as real
  }

  /** Each attempt backs off twice as long as the one before. */
  lemma BackoffTime(c: RouterConfig, attempt: nat)
    ensures Backoff(c, attempt) == Time(c, Pow2(attempt)) && Pow2(attempt + 1) == 2 * Pow2(attempt)
  {
  }

  lemma AddTimes(c: RouterConfig, x: int, y: int)
    ensures Time(c, x) + Time(c, y) == Time(c, x + y)
    ensures Time(c, 0) == 0.0
  {
  }

  function Product(a: nat, b: nat): nat {
    a * b
  }

  /** One share of at most m beside a shares of at most m in all stays within b shares. */
  lemma Shares(x: nat, y: nat, a: nat, b: nat, m: nat)
    requires a < b && x <= m && y <= Product(a, m)
    ensures x + y <= Product(b, m)
  {
    assert (a + 1) * m <= b * m;
  }

  /**
   From attempt number `attempt` on, k retries fetch k + 1 times and sleep base * (2^(attempt+k) - 2^attempt);
   and none of the allowed retries is given up while the failure could still be mended.
   */
  lemma {:induction false} RetryCost(w: World, c: RouterConfig, f: Adapter, url: string, attempt: nat, log: Log)
      returns (k: nat)
    requires attempt <= MaxRetries(c)
    ensures TriedEnough(c, Retry(w, c, f, url, attempt, log).0, attempt + k + 1)
    ensures FetchCount(Retry(w, c, f, url, attempt, log).1) == FetchCount(log) + k + 1
    ensures SleepTotal(Retry(w, c, f, url, attempt, log).1) ==
            SleepTotal(log) + Time(c, Pow2(attempt + k) - Pow2(attempt))
    decreases c.retryAttempts - attempt
  {
    hide Retry, FetchCount, SleepTotal, Stored, Time, Backoff, Pow2;
    var o := w.fetch(log, f, url);
    var log1 := log + [Fetched(f, url, o)];
    RetryStep(w, c, f, url, attempt, log);
    AppendOne(log, Fetched(f, url, o), None);
    BackoffTime(c, attempt);
    if Retries(c, o, attempt) {
      AppendOne(log1, Slept(Backoff(c, attempt)), None);
      var k' := RetryCost(w, c, f, url, attempt + 1, log1 + [Slept(Backoff(c, attempt))]);
      k := k' + 1;
      assert attempt + 1 + k' == attempt + k;
      AddTimes(c, Pow2(attempt), Pow2(attempt + k) - Pow2(attempt + 1));
    } else {
      k := 0;
      AddTimes(c, 0, 0);
    }
  }

  /** Attempt number i of a retry loop, as it stands in the log from a position on. */
  ghost predicate IsAttempt(w: World, f: Adapter, url: string, log: Log, from: nat, i: nat) {
    && from + 2 * i < |log|
    && log[from + 2 * i] == Fetched(f, url, w.fetch(log[..from + 2 * i], f, url))
  }

  /** It timed out or was rate limited, and a backoff twice as long as the one before follows it. */
  ghost predicate IsRetried(c: RouterConfig, log: Log, from: nat, i: nat, attempt: nat) {
    && from + 2 * i + 1 < |log| && log[from + 2 * i].Fetched? && Mendable(log[from + 2 * i].outcome)
    && log[from + 2 * i + 1] == Slept(Time(c, Pow2(attempt + i)))
  }

  /** The log of k retries: k attempts that are retried, and one more with the outcome. */
  ghost predicate RetryLog(w: World, c: RouterConfig, f: Adapter, url: string, attempt: nat, log: Log, log': Log,
                           k: nat)
  {
    && |log'| == |log| + 2 * k + 1 && log <= log'
    && (forall i :: 0 <= i <= k ==> IsAttempt(w, f, url, log', |log|, i))
    && forall i :: 0 <= i < k ==> IsRetried(c, log', |log|, i, attempt)
  }

  /**
   A retry loop on one fetcher, event by event. A fetch is made again, after its backoff, exactly if it timed out
   or was rate limited and retries remain; the outcome is that of the last one.
   */
  lemma {:induction false} RetryOnlyMends(w: World, c: RouterConfig, f: Adapter, url: string, attempt: nat, log: Log)
      returns (k: nat)
    requires attempt <= MaxRetries(c)
    ensures var (o, log') := Retry(w, c, f, url, attempt, log);
            && RetryLog(w, c, f, url, attempt, log, log', k)
            && log'[|log'| - 1] == Fetched(f, url, o)
            && attempt + k <= MaxRetries(c) && (Mendable(o) ==> attempt + k == MaxRetries(c))
    decreases c.retryAttempts - attempt
  {
    hide Retry, Pow2;
    var o := w.fetch(log, f, url);
    var once := log + [Fetched(f, url, o)];
    RetryStep(w, c, f, url, attempt, log);
    assert once[..|log|] == log;
    if Retries(c, o, attempt) {
      var again := once + [Slept(Backoff(c, attempt))];
      var more := RetryOnlyMends(w, c, f, url, attempt + 1, again);
      k := more + 1;
      OneRetryMore(w, c, f, url, attempt, log, o, Retry(w, c, f, url, attempt + 1, again).1, more);
    } else {
      k := 0;
    }
  }

  lemma OneRetryMore(w: World, c: RouterConfig, f: Adapter, url: string, attempt: nat, log: Log, o: Outcome, log': Log,
                     more: nat)
    requires o == w.fetch(log, f, url) && Mendable(o)
    requires RetryLog(w, c, f, url, attempt + 1, log + [Fetched(f, url, o)] + [Slept(Backoff(c, attempt))], log', more)
    ensures RetryLog(w, c, f, url, attempt, log, log', more + 1)
  {
    var again := log + [Fetched(f, url, o)] + [Slept(Backoff(c, attempt))];
    hide Pow2;
    assert log'[|log|] == again[|log|] && log'[|log| + 1] == again[|log| + 1] && log'[..|log|] == again[..|log|] == log;
    forall i | 1 <= i <= more + 1 ensures IsAttempt(w, f, url, log', |log|, i) {
      assert IsAttempt(w, f, url, log', |again|, i - 1);
      assert |again| + 2 * (i - 1) == |log| + 2 * i;
    }
    forall i | 1 <= i < more + 1 ensures IsRetried(c, log', |log|, i, attempt) {
      assert IsRetried(c, log', |again|, i - 1, attempt + 1);
      assert |again| + 2 * (i - 1) == |log| + 2 * i;
    }
  }

  lemma {:induction false} ChaseCost(w: World, s: Setup, url: string, current: Option<Adapter>, visited: set<Adapter>,
                                     idx: nat, last: Option<RetrievalError>, log: Log)
      returns (fetches: nat, units: nat)
    requires current.Some? ==> current.value in s.fetchers
    ensures current.Some? && current.value !in visited ==> fetches >= 1
    ensures fetches <= Product(|Unvisited(s, visited)|, MaxRetries(s.config) + 1)
    ensures units <= Product(|Unvisited(s, visited)|, Pow2(MaxRetries(s.config)) - 1)
    ensures FetchCount(Chase(w, s, url, current, visited, idx, last, log).log) == FetchCount(log) + fetches
    ensures SleepTotal(Chase(w, s, url, current, visited, idx, last, log).log) ==
            SleepTotal(log) + Time(s.config, units)
    decreases |Unvisited(s, visited)|
  {
    hide Chase, Retry, FetchCount, SleepTotal, Unvisited, Pow2, Successor, Product, Time;
    if current.Some? && current.value !in visited {
      var f, r := current.value, MaxRetries(s.config);
      ChaseStep(w, s, url, f, visited, idx, last, log);
      var (o, log') := Retry(w, s.config, f, url, 0, log);
      var k := RetryCost(w, s.config, f, url, 0, log);
      Pow2Monotone(k, r);
      assert Pow2(0) == 1 by { Pow2Zero(); }
      var d, d' := |Unvisited(s, visited)|, |Unvisited(s, visited + {f})|;
      var restFetches: nat, restUnits: nat := 0, 0;
      AddTimes(s.config, 0, 0);
      if o.Failure? {
        restFetches, restUnits := ChaseCost(w, s, url, Successor(s, f, idx, o.error.errorType), visited + {f},
                                            NextIdx(s, idx), Some(o.error), log');
      }
      AddTimes(s.config, Pow2(k) - 1, restUnits);
      fetches, units := k + 1 + restFetches, Pow2(k) - 1 + restUnits;
      Shares(k + 1, restFetches, d', d, r + 1);
      Shares(Pow2(k) - 1, restUnits, d', d, Pow2(r) - 1);
    } else {
      ChaseStops(w, s, url, current, visited, idx, last, log);
      fetches, units := 0, 0;
      AddTimes(s.config, 0, 0);
    }
  }

  lemma Pow2Zero()
    ensures Pow2(0) == 1
  {
  }

  /**
   With D distinct fetchers and R retries allowed, one walk makes at least one and at most D * (R + 1)
   fetches and sleeps a whole number of backoff units, at most D * (2^R - 1) of them.
   */
  lemma WalkCost(w: World, s: Setup, url: string, log: Log) returns (fetches: nat, units: nat)
    requires s.fetchers != []
    ensures var d := |set f | f in s.fetchers|;
            && 1 <= fetches <= d * (MaxRetries(s.config) + 1)
            && units <= d * (Pow2(MaxRetries(s.config)) - 1)
    ensures var log' := Walk(w, s, url, log).log;
            && FetchCount(log') == FetchCount(log) + fetches
            && SleepTotal(log') == SleepTotal(log) + Time(s.config, units)
  {
    hide Chase, FetchCount, SleepTotal, Time, Pow2, MaxRetries;
    fetches, units := ChaseCost(w, s, url, Some(s.fetchers[0]), {}, 0, None, log);
    assert Unvisited(s, {}) == set f | f in s.fetchers;
  }

  /** The same for a whole Track A call on an item with a source. */
  lemma CallCost(w: World, s: Setup, rec: Rec) returns (fetches: nat, units: nat)
    requires s.fetchers != [] && rec.item.currentSources != []
    ensures var d := |set f | f in s.fetchers|;
            && 1 <= fetches <= d * (MaxRetries(s.config) + 1)
            && units <= d * (Pow2(MaxRetries(s.config)) - 1)
    ensures var log' := ResolveKnown(w, s, rec).rec.log;
            && FetchCount(log') == FetchCount(rec.log) + fetches
            && SleepTotal(log') == SleepTotal(rec.log) + Time(s.config, units)
  {
    hide Walk, FetchCount, SleepTotal, ParserFor, Time, Pow2, MaxRetries;
    fetches, units := WalkCost(w, s, rec.item.currentSources[0], rec.log);
    ConcludeCosts(w, s, Walk(w, s, rec.item.currentSources[0], rec.log), rec.item);
  }

  /** What follows a walk neither fetches nor sleeps. */
  lemma ConcludeCosts(w: World, s: Setup, c: Chased, item: ItemView)
    ensures var log' := Conclude(w, s, c, item).rec.log;
            FetchCount(log') == FetchCount(c.log) && SleepTotal(log') == SleepTotal(c.log)
  {
    hide FetchCount, SleepTotal, ParserFor;
    var log' := Conclude(w, s, c, item).rec.log;
    if log' != c.log {
      var e := log'[|log'| - 1];
      assert log' == c.log + [e];
      AppendOne(c.log, e, None);
    }
  }
}
