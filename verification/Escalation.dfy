/** Escalation rules and what looking one up in the router's two dictionaries means. */
module Escalation {
  import opened Wrappers

  datatype EscalationRule = EscalationRule(trigger: string, to: string, from_: Option<string>)

  const CONTENT_TYPE_PREFIX := "content_type="
  const ANY_SOURCE := "*"

  /** The mime type a rule triggers on, or None for an error rule. */
  function ContentTypeTrigger(rule: EscalationRule): Option<string> {
    if CONTENT_TYPE_PREFIX <= rule.trigger then Some(rule.trigger[|CONTENT_TYPE_PREFIX|..]) else None
  }

  /** The dictionary a rule is entered in, with its key there. */
  datatype Key = ErrorKey(source: string, trigger: string) | ContentKey(source: string, mime: string)

  /** A missing or empty source is the wildcard; an empty mime type makes the rule an error rule. */
  function KeyOf(rule: EscalationRule): Key {
    var source := if rule.from_.None? || rule.from_.value == "" then ANY_SOURCE else rule.from_.value;
    match ContentTypeTrigger(rule)
    case None => ErrorKey(source, rule.trigger)
    case Some(mime) => if mime == "" then ErrorKey(source, rule.trigger) else ContentKey(source, mime)
  }

  /** The target of the last rule entered under a key. */
  function LastTarget(rules: seq<EscalationRule>, key: Key): Option<string> {
    if rules == [] then None
    else
      var last := rules[|rules| - 1];
      if KeyOf(last) == key then Some(last.to) else LastTarget(rules[..|rules| - 1], key)
  }

  /** The rules of one key, in list order. */
  function RulesFor(rules: seq<EscalationRule>, key: Key): seq<EscalationRule> {
    if rules == [] then []
    else RulesFor(rules[..|rules| - 1], key)
         + if KeyOf(rules[|rules| - 1]) == key then [rules[|rules| - 1]] else []
  }

  /** A text is used only when it is there and not empty; otherwise the fallback stands. */
  function OrElse(first: Option<string>, second: Option<string>): Option<string> {
    if first.Some? && first.value != "" then first else second
  }

  /** An exact rule comes before a wildcard one; an exact rule with an empty target does not count. */
  function ErrorTarget(rules: seq<EscalationRule>, name: string, trigger: string): Option<string> {
    OrElse(LastTarget(rules, ErrorKey(name, trigger)), LastTarget(rules, ErrorKey(ANY_SOURCE, trigger)))
  }

  function ContentTarget(rules: seq<EscalationRule>, name: string, mime: string): Option<string> {
    OrElse(LastTarget(rules, ContentKey(name, mime)), LastTarget(rules, ContentKey(ANY_SOURCE, mime)))
  }

  /** Rule number i is the last one of its key. */
  ghost predicate IsLastRule(rules: seq<EscalationRule>, i: nat, key: Key) {
    i < |rules| && KeyOf(rules[i]) == key && NoRule(rules[i + 1..], key)
  }

  ghost predicate NoRule(rules: seq<EscalationRule>, key: Key) {
    forall j :: 0 <= j < |rules| ==> KeyOf(rules[j]) != key
  }

  lemma NoRuleAppended(rules: seq<EscalationRule>, rule: EscalationRule, key: Key)
    ensures NoRule(rules + [rule], key) <==> NoRule(rules, key) && KeyOf(rule) != key
  {
    var all := rules + [rule];
    assert all[|rules|] == rule && forall j :: 0 <= j < |rules| ==> all[j] == rules[j];
    hide KeyOf;
  }

  lemma RuleAppended(rules: seq<EscalationRule>, rule: EscalationRule, i: nat, key: Key)
    ensures IsLastRule(rules + [rule], i, key) <==>
            if KeyOf(rule) == key then i == |rules| else IsLastRule(rules, i, key)
  {
    hide KeyOf;
    if i < |rules| {
      NoRuleAppended(rules[i + 1..], rule, key);
      assert (rules + [rule])[i + 1..] == rules[i + 1..] + [rule];
    }
  }

  /** A lookup answers t exactly when some rule of the key has target t and no later rule has the key. */
  lemma {:induction false} LastTargetIsLastRule(rules: seq<EscalationRule>, key: Key, t: string)
    ensures LastTarget(rules, key) == Some(t) <==> exists i: nat :: IsLastRule(rules, i, key) && rules[i].to == t
    ensures LastTarget(rules, key) == None <==> NoRule(rules, key)
  {
    hide KeyOf;
    if rules == [] {
    } else {
      var init, last := rules[..|rules| - 1], rules[|rules| - 1];
      LastTargetIsLastRule(init, key, t);
      assert init + [last] == rules;
      forall i: nat
        ensures IsLastRule(rules, i, key) <==> if KeyOf(last) == key then i == |init| else IsLastRule(init, i, key)
      {
        RuleAppended(init, last, i, key);
      }
      NoRuleAppended(init, last, key);
      hide IsLastRule, NoRule;
    }
  }

  /** Lookups see a rule list only through its per-key sublists. */
  lemma {:induction false} LastTargetOfRulesFor(rules: seq<EscalationRule>, key: Key)
    ensures var own := RulesFor(rules, key);
            LastTarget(rules, key) == if own == [] then None else Some(own[|own| - 1].to)
  {
    if rules == [] {
    } else {
      LastTargetOfRulesFor(rules[..|rules| - 1], key);
    }
  }

  /** Two lists are reorderings of each other that keep the order of same-key rules. */
  ghost predicate SameOrderPerKey(a: seq<EscalationRule>, b: seq<EscalationRule>) {
    forall key :: RulesFor(a, key) == RulesFor(b, key)
  }

  /** The two lists answer every lookup alike, and both or neither are empty. */
  ghost predicate SameLookups(a: seq<EscalationRule>, b: seq<EscalationRule>) {
    && (a == [] <==> b == [])
    && forall key :: LastTarget(a, key) == LastTarget(b, key)
  }

  lemma ReorderingKeepsLookups(a: seq<EscalationRule>, b: seq<EscalationRule>)
    requires SameOrderPerKey(a, b)
    ensures SameLookups(a, b)
  {
    forall key ensures LastTarget(a, key) == LastTarget(b, key) {
      LastTargetOfRulesFor(a, key);
      LastTargetOfRulesFor(b, key);
    }
    if a != [] {
      assert RulesFor(a, KeyOf(a[|a| - 1])) != [];
    }
    if b != [] {
      assert RulesFor(b, KeyOf(b[|b| - 1])) != [];
    }
  }
}
