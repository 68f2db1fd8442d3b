/** The domain match that trust, search and both fetchers make, each in its own copy. */
module Domains {
  import opened Wrappers

  predicate EndsWith(s: string, suffix: string) {
    |suffix| <= |s| && s[|s| - |suffix|..] == suffix
  }

  /** The match as the adapters write it. */
  predicate HostMatches(host: string, domain: string) {
    host == domain || EndsWith(host, "." + domain)
  }

  // ----- What it means: a suffix of labels --------------------------------------

  /** The parts of a text between its dots; never none. */
  function Labels(s: string): (r: seq<string>)
    ensures r != []
    ensures forall i :: 0 <= i < |r| ==> '.' !in r[i]
  {
    if s == [] then [[]]
    else
      var rest := Labels(s[1..]);
      if s[0] == '.' then [[]] + rest else [[s[0]] + rest[0]] + rest[1..]
  }

  /** Labels put together again with dots. */
  function Dotted(labels: seq<string>): string
    requires labels != []
  {
    if |labels| == 1 then labels[0] else labels[0] + "." + Dotted(labels[1..])
  }

  predicate IsSuffix<T(==)>(a: seq<T>, b: seq<T>) {
    |a| <= |b| && b[|b| - |a|..] == a
  }

  lemma {:induction false} DottedLabels(s: string)
    ensures Dotted(Labels(s)) == s
  {
    if s == [] {
    } else {
      var rest := Labels(s[1..]);
      DottedLabels(s[1..]);
      assert Labels(s)[1..] == if s[0] == '.' then rest else rest[1..];
      assert s == [s[0]] + s[1..];
    }
  }

  lemma {:induction false} LabelsOfJoin(a: string, b: string)
    ensures Labels(a + "." + b) == Labels(a) + Labels(b)
  {
    if a == [] {
      assert (a + "." + b)[1..] == b;
    } else {
      assert (a + "." + b)[1..] == a[1..] + "." + b;
      LabelsOfJoin(a[1..], b);
    }
  }

  lemma {:induction false} DottedOfConcat(a: seq<string>, b: seq<string>)
    requires a != [] && b != []
    ensures Dotted(a + b) == Dotted(a) + "." + Dotted(b)
  {
    assert (a + b)[1..] == a[1..] + b;
    if |a| == 1 {
      assert a[1..] + b == b;
    } else {
      DottedOfConcat(a[1..], b);
    }
  }

  lemma MatchHasSuffix(host: string, domain: string)
    requires HostMatches(host, domain)
    ensures IsSuffix(Labels(domain), Labels(host))
  {
    if host != domain {
      var front := host[..|host| - |domain| - 1];
      assert host == front + "." + domain;
      LabelsOfJoin(front, domain);
    }
    hide Labels;
  }

  lemma SuffixIsMatch(host: string, domain: string)
    requires IsSuffix(Labels(domain), Labels(host))
    ensures HostMatches(host, domain)
  {
    hide Labels, Dotted, EndsWith;
    var all, own := Labels(host), Labels(domain);
    var xs := all[..|all| - |own|];
    assert all == xs + own;
    DottedLabels(host);
    DottedLabels(domain);
    if xs == [] {
      assert all == own;
    } else {
      DottedOfConcat(xs, own);
      assert host == Dotted(xs) + ("." + domain);
      JoinEndsWith(Dotted(xs), "." + domain);
    }
  }

  lemma JoinEndsWith(front: string, suffix: string)
    ensures EndsWith(front + suffix, suffix)
  {
  }

  /** For all texts: a host matches a domain exactly when the domain's labels are the last labels of the host. */
  lemma MatchIsLabelSuffix(host: string, domain: string)
    ensures HostMatches(host, domain) <==> IsSuffix(Labels(domain), Labels(host))
  {
    if HostMatches(host, domain) {
      MatchHasSuffix(host, domain);
    }
    if IsSuffix(Labels(domain), Labels(host)) {
      SuffixIsMatch(host, domain);
    }
    hide *;
  }

  /** An allowed domain allows all that a domain below it allows, so an entry below another one adds nothing. */
  lemma MatchIsTransitive(host: string, lower: string, upper: string)
    requires HostMatches(host, lower) && HostMatches(lower, upper)
    ensures HostMatches(host, upper)
  {
    MatchIsLabelSuffix(host, lower);
    MatchIsLabelSuffix(lower, upper);
    MatchIsLabelSuffix(host, upper);
    hide Labels;
  }

  /** Two domains that match the same host lie one below the other. */
  lemma MatchesAreNested(host: string, a: string, b: string)
    requires HostMatches(host, a) && HostMatches(host, b)
    ensures HostMatches(a, b) || HostMatches(b, a)
  {
    MatchIsLabelSuffix(host, a);
    MatchIsLabelSuffix(host, b);
    MatchIsLabelSuffix(a, b);
    MatchIsLabelSuffix(b, a);
    var h, la, lb := Labels(host), Labels(a), Labels(b);
    hide Labels, HostMatches;
    if |la| <= |lb| {
      assert lb[|lb| - |la|..] == h[|h| - |la|..];
    } else {
      assert la[|la| - |lb|..] == h[|h| - |lb|..];
    }
  }

  // ----- The four copies ----------------------------------------------------------

  /** What urlparse makes of a url. */
  datatype ParsedUrl = ParsedUrl(scheme: string, hostname: Option<string>)

  function HostOf(url: ParsedUrl): string {
    if url.hostname.Some? then url.hostname.value else ""
  }

  function LowerChar(c: char): char {
    if 'A' <= c <= 'Z' then c - 'A' + 'a' else c
  }

  function Lower(s: string): string {
    if s == [] then [] else [LowerChar(s[0])] + Lower(s[1..])
  }

  /** Capitals are 32 below their small letters; all else stays. */
  lemma {:induction false} LowerMeaning(s: string)
    ensures |Lower(s)| == |s|
    ensures forall i :: 0 <= i < |s| ==>
              (Lower(s)[i] as int == if 'A' <= s[i] <= 'Z' then s[i] as int + 32 else s[i] as int)
  {
    if s == [] {
    } else {
      LowerMeaning(s[1..]);
    }
  }

  /** urlparse gives host names in lower case. */
  ghost predicate WellParsed(url: ParsedUrl) {
    forall i :: 0 <= i < |HostOf(url)| ==> !('A' <= HostOf(url)[i] <= 'Z')
  }

  lemma WellParsedIsLower(url: ParsedUrl)
    requires WellParsed(url)
    ensures Lower(HostOf(url)) == HostOf(url)
  {
    LowerMeaning(HostOf(url));
  }

  predicate MatchesAny(host: string, domains: seq<string>) {
    exists d :: d in domains && HostMatches(host, d)
  }

  /** Firecrawl's check; whether the host is private is resolved elsewhere. */
  predicate FirecrawlAllows(url: ParsedUrl, isPrivate: bool, allow: seq<string>) {
    if url.scheme != "https" || HostOf(url) == "" then false
    else if isPrivate then false
    else if allow == [] then false
    else MatchesAny(Lower(HostOf(url)), allow)
  }

  /** The httpx fetcher's check, which does not lower the host name. */
  predicate HttpxAllows(url: ParsedUrl, isPrivate: bool, allow: seq<string>) {
    if url.scheme != "https" then false
    else if HostOf(url) == "" || isPrivate then false
    else if allow == [] then false
    else MatchesAny(HostOf(url), allow)
  }

  /** The Exa searcher's check, which accepts private hosts. */
  predicate ExaAllows(url: ParsedUrl, allow: seq<string>) {
    if url.scheme != "https" || HostOf(url) == "" then false
    else if allow == [] then false
    else MatchesAny(Lower(HostOf(url)), allow)
  }

  /**
   Search accepts a url of scheme https whose host ends in the labels of some allowed domain; both fetchers also
   want it not to be private. An empty list allows nothing.
   */
  lemma AllowsMeaning(url: ParsedUrl, isPrivate: bool, allow: seq<string>)
    requires WellParsed(url)
    ensures ExaAllows(url, allow) <==>
            && url.scheme == "https" && url.hostname.Some? && url.hostname.value != ""
            && exists d :: d in allow && IsSuffix(Labels(d), Labels(url.hostname.value))
    ensures HttpxAllows(url, isPrivate, allow) <==> ExaAllows(url, allow) && !isPrivate
    ensures FirecrawlAllows(url, isPrivate, allow) <==> ExaAllows(url, allow) && !isPrivate
  {
    WellParsedIsLower(url);
    forall d ensures HostMatches(HostOf(url), d) <==> IsSuffix(Labels(d), Labels(HostOf(url))) {
      MatchIsLabelSuffix(HostOf(url), d);
    }
    hide Labels, Lower, HostMatches, IsSuffix;
  }

  /** Leading '*' and '.' characters removed. */
  function LStrip(s: string): string {
    if s != [] && (s[0] == '*' || s[0] == '.') then LStrip(s[1..]) else s
  }

  /** Only such characters are removed, and none is left in front. */
  lemma {:induction false} LStripMeaning(s: string)
    ensures |LStrip(s)| <= |s| && s[|s| - |LStrip(s)|..] == LStrip(s)
    ensures forall i :: 0 <= i < |s| - |LStrip(s)| ==> s[i] == '*' || s[i] == '.'
    ensures LStrip(s) != [] ==> LStrip(s)[0] != '*' && LStrip(s)[0] != '.'
  {
    if s != [] && (s[0] == '*' || s[0] == '.') {
      LStripMeaning(s[1..]);
      forall i | 1 <= i < |s| - |LStrip(s)| ensures s[i] == '*' || s[i] == '.' {
        assert s[i] == s[1..][i - 1];
      }
    } else {
    }
  }

  lemma {:induction false} LStripAgain(s: string)
    ensures LStrip(LStrip(s)) == LStrip(s)
  {
    if s != [] && (s[0] == '*' || s[0] == '.') {
      LStripAgain(s[1..]);
    } else {
    }
  }

  /** Some entry, stripped, matches the host. */
  predicate Trusts(host: string, allow: seq<string>) {
    exists p :: p in allow && HostMatches(host, LStrip(p))
  }

  class AllowlistTrust {
    const allow: seq<string>

    constructor (allow: seq<string>)
      ensures this.allow == allow
    {
      this.allow := allow;
    }

    method IsTrusted(url: ParsedUrl) returns (trusted: bool)
      ensures trusted <==> Trusts(HostOf(url), allow)
    {
      var host := HostOf(url);
      for i := 0 to |allow|
        invariant forall k :: 0 <= k < i ==> !HostMatches(host, LStrip(allow[k]))
      {
        var pattern := LStrip(allow[i]);
        if host == pattern || EndsWith(host, "." + pattern) {
          assert HostMatches(host, LStrip(allow[i]));
          return true;
        }
      }
      return false;
    }
  }
}
