/** How the factory hands one allow list to trust, search and fetch, and why they then agree. */
module Factory {
  import opened Wrappers
  import opened Domains

  // ----- Normalised lists -----------------------------------------------------------

  function WithDomain(normalized: seq<string>, raw: string): seq<string> {
    var domain := LStrip(raw);
    if domain != "" && domain !in normalized then normalized + [domain] else normalized
  }

  /** Stripped entries, without empty ones and without repetition, in order of first occurrence. */
  function Normalized(domains: seq<string>): seq<string> {
    if domains == [] then []
    else WithDomain(Normalized(domains[..|domains| - 1]), domains[|domains| - 1])
  }

  method NormalizeAllow(domains: seq<string>) returns (normalized: seq<string>)
    ensures normalized == Normalized(domains)
  {
    normalized := [];
    for i := 0 to |domains|
      invariant normalized == Normalized(domains[..i])
    {
      var domain := LStrip(domains[i]);
      assert domains[..i + 1][..i] == domains[..i];
      if domain != "" && domain !in normalized {
        normalized := normalized + [domain];
      }
    }
    assert domains[..|domains|] == domains;
  }

  /** The entries are the non-empty stripped ones, each once. */
  lemma {:induction false} NormalizedMeaning(domains: seq<string>)
    ensures forall d :: d in Normalized(domains) <==> d != "" && exists raw :: raw in domains && d == LStrip(raw)
    ensures forall i, j :: 0 <= i < j < |Normalized(domains)| ==> Normalized(domains)[i] != Normalized(domains)[j]
  {
    if domains == [] {
    } else {
      var init, last := domains[..|domains| - 1], domains[|domains| - 1];
      NormalizedMeaning(init);
      assert forall raw :: raw in domains <==> raw in init || raw == last;
    }
  }

  /** Entries that come later never move or remove an earlier one: the order is that of first occurrence. */
  lemma {:induction false} NormalizedInOrder(domains: seq<string>, more: seq<string>)
    ensures Normalized(domains) <= Normalized(domains + more)
  {
    if more == [] {
      assert domains + more == domains;
    } else {
      assert (domains + more)[..|domains + more| - 1] == domains + more[..|more| - 1];
      NormalizedInOrder(domains, more[..|more| - 1]);
    }
  }

  lemma {:induction false} NormalizedPrefix(normal: seq<string>, n: nat)
    requires n <= |normal|
    requires forall i :: 0 <= i < |normal| ==> normal[i] != "" && LStrip(normal[i]) == normal[i]
    requires forall i, j :: 0 <= i < j < |normal| ==> normal[i] != normal[j]
    ensures Normalized(normal[..n]) == normal[..n]
  {
    if n > 0 {
      NormalizedPrefix(normal, n - 1);
      var init, last := normal[..n - 1], normal[n - 1];
      assert normal[..n] == init + [last] && normal[..n][..n - 1] == init;
      assert last !in init;
      assert Normalized(normal[..n]) == WithDomain(init, last);
      hide LStrip, Normalized;
    } else {
    }
  }

  lemma NormalizedIsIdempotent(domains: seq<string>)
    ensures Normalized(Normalized(domains)) == Normalized(domains)
  {
    var normal := Normalized(domains);
    NormalizedMeaning(domains);
    forall i | 0 <= i < |normal| ensures normal[i] != "" && LStrip(normal[i]) == normal[i] {
      assert normal[i] in normal;
      var raw :| raw in domains && normal[i] == LStrip(raw);
      LStripAgain(raw);
    }
    NormalizedPrefix(normal, |normal|);
    assert normal[..|normal|] == normal;
  }

  // ----- Agreement --------------------------------------------------------------------

  /** An entry such as "*" that strips to nothing. */
  predicate HasBareWildcard(allow: seq<string>) {
    exists p :: p in allow && LStrip(p) == ""
  }

  /**
   For every allow list and host: trust is matching over the normalised list, except that a bare wildcard
   also trusts the missing host and hosts that end in a dot. Nothing else differs.
   */
  lemma TrustIsNormalizedMatchExactly(host: string, allow: seq<string>)
    ensures Trusts(host, allow) <==>
            MatchesAny(host, Normalized(allow)) || (HasBareWildcard(allow) && (host == "" || EndsWith(host, ".")))
  {
    NormalizedMeaning(allow);
    hide Normalized, LStrip;
    if Trusts(host, allow) {
      var p :| p in allow && HostMatches(host, LStrip(p));
      if LStrip(p) != "" {
        assert LStrip(p) in Normalized(allow);
      } else {
        assert "." + "" == ".";
      }
    }
    if MatchesAny(host, Normalized(allow)) {
      var d :| d in Normalized(allow) && HostMatches(host, d);
      var raw :| raw in allow && d == LStrip(raw);
      assert HostMatches(host, LStrip(raw));
    }
    if HasBareWildcard(allow) && (host == "" || EndsWith(host, ".")) {
      var p :| p in allow && LStrip(p) == "";
      assert "." + "" == ".";
      assert HostMatches(host, LStrip(p));
    }
  }

  /**
   Over the factory's list: every url that search lets through is trusted under the same policy, and both
   fetchers accept it unless its host is private.
   */
  lemma WiredAdaptersAgree(url: ParsedUrl, isPrivate: bool, allow: seq<string>)
    requires WellParsed(url)
    ensures ExaAllows(url, Normalized(allow)) ==> Trusts(HostOf(url), allow)
    ensures HttpxAllows(url, isPrivate, Normalized(allow)) == FirecrawlAllows(url, isPrivate, Normalized(allow))
    ensures HttpxAllows(url, isPrivate, Normalized(allow)) <==> ExaAllows(url, Normalized(allow)) && !isPrivate
    ensures Trusts(HostOf(url), allow) && url.scheme == "https" && HostOf(url) != "" && !EndsWith(HostOf(url), ".") ==>
              ExaAllows(url, Normalized(allow))
  {
    TrustIsNormalizedMatchExactly(HostOf(url), allow);
    WellParsedIsLower(url);
    hide Normalized, Trusts, Lower;
  }

  // ----- Wiring -----------------------------------------------------------------------

  datatype WiringError = EmptyAllowlist

  /** The allow-list arguments an adapter is constructed with; other arguments pass through and are not shown. */
  method ConstructArguments(role: string, name: string, credentials: map<string, map<string, seq<string>>>,
                            trustAllow: Option<seq<string>>) returns (r: Result<map<string, seq<string>>, WiringError>)
    ensures var given := if name in credentials then credentials[name] else map[];
            var wired := Normalized(if trustAllow.Some? then trustAllow.value else []);
            match r
            case Ok(kwargs) =>
              && given.Keys <= kwargs.Keys && (forall k :: k in given ==> kwargs[k] == given[k])
              && (role == "fetch" && name in {"httpx", "firecrawl"} ==>
                    && "allowlist_domains" in kwargs
                    && ("allowlist_domains" !in given ==> kwargs["allowlist_domains"] == wired))
              && (role == "fetch" && name == "httpx" ==> kwargs["allowlist_domains"] != [])
              && (role == "search" && name == "exa" ==>
                    && "domain_allowlist" in kwargs
                    && ("domain_allowlist" !in given ==> kwargs["domain_allowlist"] == wired))
              && (forall k :: k in kwargs && k !in given ==>
                    if k == "allowlist_domains" then role == "fetch" && name in {"httpx", "firecrawl"}
                    else k == "domain_allowlist" && role == "search" && name == "exa")
            case Err(_) =>
              && role == "fetch" && name == "httpx"
              && (if "allowlist_domains" in given then given["allowlist_domains"] == [] else wired == [])
  {
    var kwargs := if name in credentials then credentials[name] else map[];
    var allow := if trustAllow.Some? then trustAllow.value else [];
    if role == "fetch" && (name == "httpx" || name == "firecrawl") {
      if "allowlist_domains" !in kwargs {
        var normalized := NormalizeAllow(allow);
        kwargs := kwargs["allowlist_domains" := normalized];
      }
      if name == "httpx" && kwargs["allowlist_domains"] == [] {
        return Err(EmptyAllowlist);
      }
    }
    if role == "search" && name == "exa" && "domain_allowlist" !in kwargs {
      var normalized := NormalizeAllow(allow);
      kwargs := kwargs["domain_allowlist" := normalized];
    }
    return Ok(kwargs);
  }
}
