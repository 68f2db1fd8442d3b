/** Rule lists that steer every walk alike, and the list-order mode as a special rule list. */
module Modes {
  import opened Wrappers
  import opened Results
  import opened Escalation
  import opened World
  import opened Setup
  import opened TrackA
  import opened WalkFacts

  // ----- Reordering rules ---------------------------------------------------

  lemma {:induction false} AlikeChase(w: World, a: Setup, b: Setup, url: string, current: Option<Adapter>,
                                      visited: set<Adapter>, idx: nat, last: Option<RetrievalError>, log: Log)
    requires Alike(a, b)
    requires current.Some? ==> current.value in a.fetchers
    ensures Chase(w, a, url, current, visited, idx, last, log) == Chase(w, b, url, current, visited, idx, last, log)
    decreases |Unvisited(a, visited)|
  {
    hide Chase, Retry, Successor, ParserFor, SameLookups;
    if current.None? || current.value in visited {
      ChaseStops(w, a, url, current, visited, idx, last, log);
      ChaseStops(w, b, url, current, visited, idx, last, log);
    } else {
      var f := current.value;
      ChaseStep(w, a, url, f, visited, idx, last, log);
      ChaseStep(w, b, url, f, visited, idx, last, log);
      var (o, log') := Retry(w, a.config, f, url, 0, log);
      if o.Failure? {
        AlikeLookups(a, b, f, idx, o.error.errorType, "");
        SameMode(a, b, idx);
        AlikeChase(w, a, b, url, Successor(a, f, idx, o.error.errorType), visited + {f}, NextIdx(a, idx),
                   Some(o.error), log');
      }
    }
  }

  lemma SameMode(a: Setup, b: Setup, idx: nat)
    requires Alike(a, b)
    ensures NextIdx(a, idx) == NextIdx(b, idx)
  {
  }

  /** Reordering rules without changing the order within any key changes no Track A call whatsoever. */
  lemma ReorderedRulesResolveAlike(w: World, s: Setup, rules: seq<EscalationRule>, rec: Rec)
    requires SameOrderPerKey(s.rules, rules)
    ensures ResolveKnown(w, s.(rules := rules), rec) == ResolveKnown(w, s, rec)
  {
    var s' := s.(rules := rules);
    ReorderingKeepsLookups(s.rules, rules);
    if rec.item.currentSources != [] && s.fetchers != [] {
      var url := rec.item.currentSources[0];
      AlikeChase(w, s, s', url, Some(s.fetchers[0]), {}, 0, None, rec.log);
      var c := Walk(w, s, url, rec.log);
      if c.Hit? {
        AlikeLookups(s, s', c.fetcher, 0, Unknown, c.result.contentType);
      }
    }
  }

  // ----- List order as rules --------------------------------------------------

  /** The two rules that lead from one fetcher to the next. */
  function StepRules(from_: string, to: string): seq<EscalationRule> {
    [EscalationRule(EmptyShell.Value(), to, Some(from_)), EscalationRule(Timeout.Value(), to, Some(from_))]
  }

  /** Rules from each fetcher to the one after it. */
  function ChainRules(fetchers: seq<Adapter>): seq<EscalationRule> {
    if |fetchers| < 2 then []
    else ChainRules(fetchers[..|fetchers| - 1])
         + StepRules(fetchers[|fetchers| - 2].name, fetchers[|fetchers| - 1].name)
  }

  /** Names a chain of rules can tell apart. */
  ghost predicate Distinguishable(fetchers: seq<Adapter>) {
    && (forall i :: 0 <= i < |fetchers| ==> fetchers[i].name != "" && fetchers[i].name != ANY_SOURCE)
    && forall i, j :: 0 <= i < j < |fetchers| ==> fetchers[i].name != fetchers[j].name
  }

  lemma StepRuleKeys(from_: string, to: string)
    requires from_ != ""
    ensures KeyOf(StepRules(from_, to)[0]) == ErrorKey(from_, EmptyShell.Value())
    ensures KeyOf(StepRules(from_, to)[1]) == ErrorKey(from_, Timeout.Value())
  {
    assert CONTENT_TYPE_PREFIX[0] == 'c';
    assert EmptyShell.Value()[0] == 'e' && Timeout.Value()[0] == 't';
  }

  lemma LastTargetAppend(rules: seq<EscalationRule>, r0: EscalationRule, r1: EscalationRule, key: Key)
    ensures LastTarget(rules + [r0, r1], key) ==
            if KeyOf(r1) == key then Some(r1.to) else if KeyOf(r0) == key then Some(r0.to) else LastTarget(rules, key)
  {
    var all := rules + [r0, r1];
    assert all[..|all| - 1] == rules + [r0];
    assert (rules + [r0])[..|rules + [r0]| - 1] == rules;
  }

  lemma ChainAppend(fetchers: seq<Adapter>, key: Key)
    requires |fetchers| >= 2 && fetchers[|fetchers| - 2].name != ""
    ensures var n := |fetchers|;
            LastTarget(ChainRules(fetchers), key) ==
            if key == ErrorKey(fetchers[n - 2].name, EmptyShell.Value())
               || key == ErrorKey(fetchers[n - 2].name, Timeout.Value())
            then Some(fetchers[n - 1].name)
            else LastTarget(ChainRules(fetchers[..n - 1]), key)
  {
    var n := |fetchers|;
    var step := StepRules(fetchers[n - 2].name, fetchers[n - 1].name);
    StepRuleKeys(fetchers[n - 2].name, fetchers[n - 1].name);
    LastTargetAppend(ChainRules(fetchers[..n - 1]), step[0], step[1], key);
    assert ChainRules(fetchers) == ChainRules(fetchers[..n - 1]) + [step[0], step[1]];
  }

  /** A chain has error rules only, and none from the last fetcher or from the wildcard. */
  lemma {:induction false} ChainSources(fetchers: seq<Adapter>, key: Key)
    requires Distinguishable(fetchers)
    requires key.ErrorKey? ==> forall i :: 0 <= i < |fetchers| - 1 ==> key.source != fetchers[i].name
    ensures LastTarget(ChainRules(fetchers), key) == None
  {
    if |fetchers| >= 2 {
      ChainAppend(fetchers, key);
      hide LastTarget, ChainRules, ErrorType.Value;
      ChainSources(fetchers[..|fetchers| - 1], key);
    } else {
    }
  }

  lemma {:induction false} ChainLookup(fetchers: seq<Adapter>, i: nat, e: ErrorType)
    requires Distinguishable(fetchers) && i + 1 < |fetchers|
    ensures LastTarget(ChainRules(fetchers), ErrorKey(fetchers[i].name, e.Value())) ==
            if Escalatable(e) then Some(fetchers[i + 1].name) else None
  {
    hide LastTarget, ChainRules, ErrorType.Value;
    var key := ErrorKey(fetchers[i].name, e.Value());
    var init := fetchers[..|fetchers| - 1];
    ChainAppend(fetchers, key);
    ValueIsInjective(e, EmptyShell);
    ValueIsInjective(e, Timeout);
    if i + 1 < |init| {
      ChainLookup(init, i, e);
    } else {
      ChainSources(init, key);
    }
  }

  lemma {:induction false} NameFindsFetcher(fetchers: seq<Adapter>, i: nat)
    requires Distinguishable(fetchers) && i < |fetchers|
    ensures LastNamed(fetchers, fetchers[i].name) == Some(fetchers[i])
  {
    if i < |fetchers| - 1 {
      NameFindsFetcher(fetchers[..|fetchers| - 1], i);
    } else {
    }
  }

  /** On a chain, the configured successor of the fetcher at position i is the next one in the list. */
  lemma ChainSuccessor(s: Setup, i: nat, e: ErrorType)
    requires s.rules == [] && Distinguishable(s.fetchers) && i < |s.fetchers|
    ensures NextFetcher(s.(rules := ChainRules(s.fetchers)), s.fetchers[i].name, e) == Successor(s, s.fetchers[i], i, e)
  {
    hide LastTarget, ChainRules, ErrorType.Value, LastNamed;
    var fs := s.fetchers;
    ChainSources(fs, ErrorKey(ANY_SOURCE, e.Value()));
    if i + 1 < |fs| {
      ChainLookup(fs, i, e);
      NameFindsFetcher(fs, i + 1);
    } else {
      ChainSources(fs, ErrorKey(fs[i].name, e.Value()));
    }
  }

  lemma ChainNotEmpty(fetchers: seq<Adapter>)
    requires |fetchers| >= 2
    ensures ChainRules(fetchers) != []
  {
  }

  lemma {:induction false} ChainChase(w: World, s: Setup, url: string, i: nat, visited: set<Adapter>,
                                      last: Option<RetrievalError>, log: Log)
    requires s.rules == [] && |s.fetchers| >= 2 && Distinguishable(s.fetchers) && i < |s.fetchers|
    requires visited == set j | 0 <= j < i :: s.fetchers[j]
    ensures Chase(w, s.(rules := ChainRules(s.fetchers)), url, Some(s.fetchers[i]), visited, 0, last, log)
            == Chase(w, s, url, Some(s.fetchers[i]), visited, i, last, log)
    decreases |s.fetchers| - i
  {
    hide Chase, Retry, NextFetcher, ChainRules, Escalatable, Unvisited;
    var s' := s.(rules := ChainRules(s.fetchers));
    var f := s.fetchers[i];
    assert s'.rules != [] by { ChainNotEmpty(s.fetchers); }
    assert f !in visited;
    ChaseStep(w, s, url, f, visited, i, last, log);
    ChaseStep(w, s', url, f, visited, 0, last, log);
    var (o, log') := Retry(w, s.config, f, url, 0, log);
    if o.Failure? {
      ChainSuccessor(s, i, o.error.errorType);
      var next := Successor(s, f, i, o.error.errorType);
      assert Successor(s', f, 0, o.error.errorType) == next;
      if next.None? {
        ChaseStops(w, s, url, next, visited + {f}, i + 1, Some(o.error), log');
        ChaseStops(w, s', url, next, visited + {f}, 0, Some(o.error), log');
      } else {
        assert visited + {f} == set j | 0 <= j < i + 1 :: s.fetchers[j];
        ChainChase(w, s, url, i + 1, visited + {f}, Some(o.error), log');
      }
    }
  }

  /**
   The list-order mode is the configured mode with a rule from each fetcher to the next on
   empty_shell and on timeout: same awaits, same item, same reply, for every adapter behaviour.
   */
  lemma ListOrderIsChain(w: World, s: Setup, rec: Rec)
    requires s.rules == [] && Distinguishable(s.fetchers)
    ensures ResolveKnown(w, s.(rules := ChainRules(s.fetchers)), rec) == ResolveKnown(w, s, rec)
  {
    var s' := s.(rules := ChainRules(s.fetchers));
    if rec.item.currentSources != [] && |s.fetchers| >= 2 {
      var url := rec.item.currentSources[0];
      ChainChase(w, s, url, 0, {}, None, rec.log);
      var c := Walk(w, s, url, rec.log);
      if c.Hit? {
        var name, mime := c.fetcher.name, c.result.contentType;
        ChainSources(s.fetchers, ContentKey(name, mime));
        ChainSources(s.fetchers, ContentKey(ANY_SOURCE, mime));
      }
    }
  }
}
