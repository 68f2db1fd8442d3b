/** What a router is built from, and the two lookups its walk makes: next fetcher, and parser. */
module Setup {
  import opened Wrappers
  import opened Results
  import opened Escalation
  import opened Item
  import opened World

  datatype RouterConfig = RouterConfig(
    candidateCount: int,
    requireReview: bool,
    retryAttempts: int,
    retryBackoffBase: real)

  const DEFAULT_CONFIG := RouterConfig(10, true, 0, 0.2)

  datatype Setup = Setup(
    fetchers: seq<Adapter>,
    searchers: seq<Adapter>,
    parsers: seq<Adapter>,
    rules: seq<EscalationRule>,
    config: RouterConfig)

  /** An item together with the log of everything awaited on its behalf. */
  datatype Rec = Rec(item: ItemView, log: Log)

  /** How a call ends: with an outcome, with the error for a missing source, with a found candidate, or with None. */
  datatype Reply = Returned(outcome: Outcome) | Raised | Found(candidate: Candidate) | Nothing

  datatype Run = Run(rec: Rec, reply: Reply)

  /** The last adapter of a name: a later one overwrites an earlier one in the name dictionary. */
  function LastNamed(adapters: seq<Adapter>, name: string): (r: Option<Adapter>)
    ensures r.Some? ==> r.value in adapters && r.value.name == name
    ensures r.None? ==> forall a :: a in adapters ==> a.name != name
  {
    if adapters == [] then None
    else
      var last := adapters[|adapters| - 1];
      if last.name == name then Some(last)
      else
        assert forall a :: a in adapters ==> a in adapters[..|adapters| - 1] || a == last;
        LastNamed(adapters[..|adapters| - 1], name)
  }

  predicate Retryable(e: ErrorType) {
    e == Timeout || e == RateLimited
  }

  predicate Escalatable(e: ErrorType) {
    e == EmptyShell || e == Timeout
  }

  /** The configured successor of an adapter on an error. */
  function NextFetcher(s: Setup, name: string, e: ErrorType): (r: Option<Adapter>)
    ensures r.Some? ==> r.value in s.fetchers
  {
    match ErrorTarget(s.rules, name, e.Value())
    case None => None
    case Some(target) => LastNamed(s.fetchers, target)
  }

  /** The fetcher to try after the one at list position idx failed; without rules the list order decides. */
  function Successor(s: Setup, f: Adapter, idx: nat, e: ErrorType): (r: Option<Adapter>)
    ensures r.Some? ==> r.value in s.fetchers
  {
    if s.rules != [] then NextFetcher(s, f.name, e)
    else if Escalatable(e) && idx + 1 < |s.fetchers| then Some(s.fetchers[idx + 1])
    else None
  }

  predicate Contains(text: string, part: string) {
    part <= text || (text != [] && Contains(text[1..], part))
  }

  /** A configured parser, or the first parser for anything that mentions pdf. */
  function ParserFor(s: Setup, name: string, mime: string): Option<Adapter> {
    var target := ContentTarget(s.rules, name, mime);
    if target.Some? && target.value != "" then LastNamed(s.parsers, target.value)
    else if Contains(mime, "pdf") && s.parsers != [] then Some(s.parsers[0])
    else None
  }

  /** No rule of the key, or the last one has an empty target. */
  ghost predicate Silent(s: Setup, key: Key) {
    forall j: nat :: IsLastRule(s.rules, j, key) ==> s.rules[j].to == ""
  }

  /** A key has a last rule, whose target a lookup gives, or no rule at all. */
  lemma LookupCases(s: Setup, key: Key) returns (i: nat)
    ensures !NoRule(s.rules, key) ==> IsLastRule(s.rules, i, key)
    ensures LastTarget(s.rules, key) == if NoRule(s.rules, key) then None else Some(s.rules[i].to)
    ensures Silent(s, key) <==> NoRule(s.rules, key) || s.rules[i].to == ""
  {
    i := 0;
    LastTargetIsLastRule(s.rules, key, "");
    hide LastTarget, KeyOf;
    if LastTarget(s.rules, key).Some? {
      var t := LastTarget(s.rules, key).value;
      LastTargetIsLastRule(s.rules, key, t);
      i :| IsLastRule(s.rules, i, key) && s.rules[i].to == t;
      OnlyOneLast(s, i, key);
      hide Silent;
    }
  }

  /**
   The last rule for the adapter itself decides when its target is not empty, even if it names no fetcher
   at all: then nothing is tried next, whatever the wildcard rules say. When that rule is missing or its
   target is empty, the last wildcard rule decides, and without one there is no successor.
   */
  lemma LastRuleDecides(s: Setup, name: string, e: ErrorType, trigger: string, i: nat)
    requires NamesError(trigger, e)
    ensures var exact, any := ErrorKey(name, trigger), ErrorKey("*", trigger);
            var next := NextFetcher(s, name, e);
            && (IsLastRule(s.rules, i, exact) && s.rules[i].to != "" ==> next == LastNamed(s.fetchers, s.rules[i].to))
            && (Silent(s, exact) && IsLastRule(s.rules, i, any) ==> next == LastNamed(s.fetchers, s.rules[i].to))
            && (Silent(s, exact) && NoRule(s.rules, any) ==> next == None)
  {
    ValueIsName(e, trigger);
    var exact, any := ErrorKey(name, trigger), ErrorKey(ANY_SOURCE, trigger);
    var _ := LookupCases(s, exact);
    var _ := LookupCases(s, any);
    OnlyOneLast(s, i, exact);
    OnlyOneLast(s, i, any);
    hide LastNamed, KeyOf, ErrorType.Value, LastTarget, IsLastRule, Silent, NoRule;
  }

  lemma OnlyOneLast(s: Setup, i: nat, key: Key)
    ensures IsLastRule(s.rules, i, key) ==>
              LastTarget(s.rules, key) == Some(s.rules[i].to) && (Silent(s, key) <==> s.rules[i].to == "")
  {
    if IsLastRule(s.rules, i, key) {
      LastTargetIsLastRule(s.rules, key, s.rules[i].to);
      assert forall j: nat :: IsLastRule(s.rules, j, key) ==> j == i;
    }
    hide LastTarget, KeyOf;
  }

  /** What is used when no content-type rule applies. */
  function FirstParserForPdf(s: Setup, mime: string): Option<Adapter> {
    if Contains(mime, "pdf") && s.parsers != [] then Some(s.parsers[0]) else None
  }

  /**
   The same for parsers. A rule that decides but names no parser at all leaves the content unparsed, pdf or
   not. Here an empty wildcard target does not count either: then, as without any rule, the first parser
   takes pdf types.
   */
  lemma LastContentRuleDecides(s: Setup, name: string, mime: string, i: nat)
    ensures var exact, any := ContentKey(name, mime), ContentKey("*", mime);
            var parser := ParserFor(s, name, mime);
            && (IsLastRule(s.rules, i, exact) && s.rules[i].to != "" ==> parser == LastNamed(s.parsers, s.rules[i].to))
            && (Silent(s, exact) && IsLastRule(s.rules, i, any) && s.rules[i].to != "" ==>
                  parser == LastNamed(s.parsers, s.rules[i].to))
            && (Silent(s, exact) && Silent(s, any) ==> parser == FirstParserForPdf(s, mime))
  {
    var exact, any := ContentKey(name, mime), ContentKey(ANY_SOURCE, mime);
    var _ := LookupCases(s, exact);
    var _ := LookupCases(s, any);
    OnlyOneLast(s, i, exact);
    OnlyOneLast(s, i, any);
    hide LastNamed, KeyOf, LastTarget, IsLastRule, Silent, NoRule, Contains;
  }

  /**
   A content-type rule has to name the whole content type: rules that name another one play no part. So a rule
   for "pdf" alone is never used for "application/pdf": without a rule for that type, the first parser in the
   list is taken, whichever parser the rule for "pdf" names.
   */
  lemma ContentRulesNameWholeTypes(s: Setup, name: string, mime: string)
    requires forall i :: 0 <= i < |s.rules| ==> ContentTypeTrigger(s.rules[i]) != Some(mime)
    ensures ParserFor(s, name, mime) == FirstParserForPdf(s, mime)
  {
    LastContentRuleDecides(s, name, mime, 0);
    hide ParserFor;
  }

  // ----- One rule, letter by letter ---------------------------------------------------

  /** The sources that make a rule apply to an adapter of this name. */
  ghost predicate AppliesTo(source: Option<string>, name: string) {
    source in {None, Some(""), Some("*"), Some(name)}
  }

  /** The only adapter of its name, which is not empty. */
  ghost predicate IsNamed(adapters: seq<Adapter>, a: Adapter) {
    a in adapters && a.name != "" && forall b :: b in adapters && b.name == a.name ==> b == a
  }

  /** An error rule leads to its target exactly on the error it names and from the adapters it applies to. */
  lemma OneErrorRule(s: Setup, name: string, e: ErrorType, g: Adapter, trigger: string, source: Option<string>)
    requires s.rules == [EscalationRule(trigger, g.name, source)] && IsNamed(s.fetchers, g)
    ensures NextFetcher(s, name, e) == if NamesError(trigger, e) && AppliesTo(source, name) then Some(g) else None
  {
    var rule := s.rules[0];
    OnlyRule(rule, ErrorKey(name, e.Value()));
    OnlyRule(rule, ErrorKey(ANY_SOURCE, e.Value()));
    assert e.Value()[0] != 'c';
    assert CONTENT_TYPE_PREFIX[0] == 'c';
    assert LastNamed(s.fetchers, g.name) == Some(g);
    hide LastNamed, LastTarget;
  }

  /** A content-type rule leads to its parser exactly on the type it names and from the adapters it applies to. */
  lemma OneContentRule(s: Setup, name: string, mime: string, p: Adapter, ruleMime: string, source: Option<string>)
    requires s.rules == [EscalationRule("content_type=" + ruleMime, p.name, source)] && IsNamed(s.parsers, p)
    requires ruleMime != ""
    ensures ParserFor(s, name, mime) ==
            if mime == ruleMime && AppliesTo(source, name) then Some(p) else FirstParserForPdf(s, mime)
  {
    var rule := s.rules[0];
    OnlyRule(rule, ContentKey(name, mime));
    OnlyRule(rule, ContentKey(ANY_SOURCE, mime));
    assert rule.trigger[|CONTENT_TYPE_PREFIX|..] == ruleMime;
    assert LastNamed(s.parsers, p.name) == Some(p);
    hide LastNamed, LastTarget, Contains;
  }

  lemma OnlyRule(rule: EscalationRule, key: Key)
    ensures LastTarget([rule], key) == if KeyOf(rule) == key then Some(rule.to) else None
  {
    assert [rule][..0] == [];
    hide KeyOf;
  }

  // ----- Adapters by name, and pdf types ------------------------------------------------

  /** The name dictionary finds an adapter exactly if it has the name and no later one in the list does. */
  lemma {:induction false} LastNamedIsLast(adapters: seq<Adapter>, name: string, a: Adapter)
    ensures LastNamed(adapters, name) == Some(a) <==>
            exists i: nat :: LastAt(adapters, i, name) && adapters[i] == a
  {
    if adapters == [] {
    } else {
      var init, last := adapters[..|adapters| - 1], adapters[|adapters| - 1];
      LastNamedIsLast(init, name, a);
      assert init + [last] == adapters;
      forall i: nat ensures LastAt(adapters, i, name) <==>
                            if last.name == name then i == |init| else LastAt(init, i, name)
      {
        LastAtAppended(init, last, i, name);
      }
      hide LastAt;
    }
  }

  ghost predicate LastAt(adapters: seq<Adapter>, i: nat, name: string) {
    i < |adapters| && adapters[i].name == name && forall j :: i < j < |adapters| ==> adapters[j].name != name
  }

  lemma LastAtAppended(adapters: seq<Adapter>, last: Adapter, i: nat, name: string)
    ensures LastAt(adapters + [last], i, name) <==>
            if last.name == name then i == |adapters| else LastAt(adapters, i, name)
  {
    var all := adapters + [last];
    assert all[|adapters|] == last;
    assert forall j :: 0 <= j < |adapters| ==> all[j] == adapters[j];
  }

  /** A text contains another one exactly if that stands at some position. */
  lemma {:induction false} ContainsIsOccurrence(text: string, part: string)
    ensures Contains(text, part) <==> exists i: nat :: StandsAt(text, i, part)
  {
    assert Contains(text, part) <==> part <= text || (text != [] && Contains(text[1..], part));
    if part <= text {
      assert StandsAt(text, 0, part);
    } else if text == [] {
    } else {
      ContainsIsOccurrence(text[1..], part);
      hide StandsAt, Contains;
      if i: nat :| StandsAt(text, i, part) {
        StandsInRest(text, i, part);
      }
      if i: nat :| StandsAt(text[1..], i, part) {
        StandsInRest(text, i + 1, part);
      }
    }
  }

  lemma StandsInRest(text: string, i: nat, part: string)
    requires text != [] && !(part <= text)
    ensures StandsAt(text, i, part) <==> i > 0 && StandsAt(text[1..], i - 1, part)
  {
    if i > 0 && i + |part| <= |text| {
      var here, there := text[i..i + |part|], text[1..][i - 1..i - 1 + |part|];
      assert |here| == |there| && forall k :: 0 <= k < |part| ==> here[k] == text[i + k] == there[k];
    }
  }

  ghost predicate StandsAt(text: string, i: nat, part: string) {
    i + |part| <= |text| && text[i..i + |part|] == part
  }

  /** Without a rule for the type, the first parser takes what has "pdf" in it, and no parser takes anything else. */
  lemma PdfGoesToFirstParser(s: Setup, mime: string)
    ensures FirstParserForPdf(s, mime).Some? <==> s.parsers != [] && exists i: nat :: StandsAt(mime, i, "pdf")
    ensures FirstParserForPdf(s, mime).Some? ==> FirstParserForPdf(s, mime).value == s.parsers[0]
  {
    ContainsIsOccurrence(mime, "pdf");
  }

  /** Two setups that differ in their rule lists only, with the same lookups. */
  ghost predicate Alike(a: Setup, b: Setup) {
    a.(rules := b.rules) == b && SameLookups(a.rules, b.rules)
  }

  lemma AlikeLookups(a: Setup, b: Setup, f: Adapter, idx: nat, e: ErrorType, mime: string)
    requires Alike(a, b)
    ensures Successor(a, f, idx, e) == Successor(b, f, idx, e)
    ensures ParserFor(a, f.name, mime) == ParserFor(b, f.name, mime)
  {
    assert LastTarget(a.rules, ErrorKey(f.name, e.Value())) == LastTarget(b.rules, ErrorKey(f.name, e.Value()));
    assert LastTarget(a.rules, ErrorKey(ANY_SOURCE, e.Value())) == LastTarget(b.rules, ErrorKey(ANY_SOURCE, e.Value()));
    assert LastTarget(a.rules, ContentKey(f.name, mime)) == LastTarget(b.rules, ContentKey(f.name, mime));
    assert LastTarget(a.rules, ContentKey(ANY_SOURCE, mime)) == LastTarget(b.rules, ContentKey(ANY_SOURCE, mime));
  }
}
