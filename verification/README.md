# Wyndpy in Dafny

Wyndpy finds, fetches and parses content for items through swappable adapters. This project models its
core: the router with its two tracks over one mutable item, the many asyncio callers that share a router,
the domain lists that trust, search and fetch are wired with, and the empty-shell heuristic of the httpx
fetcher.

## How the model is laid out

- `Results`, `Escalation`, `Item`, `Setup`: the data, and what looking up an escalation rule means (a scan
  of the rule list; the router's dictionaries are proved to answer like it).
- `World`: every await is an event in a log, and an adapter's answer may depend on the whole log so far.
  Statements that quantify over worlds therefore cover every behaviour of every adapter. `Steady` adapters
  answer by their arguments alone and are used where determinism is needed.
- `TrackA`, `TrackB`: the two tracks as functions on values (item, log) to values.
- `WalkFacts`, `CutOff`, `Modes`, `HashSkip`, `Discovery`: what those functions guarantee.
- `Router`, `Registry`: the objects, with loops and fields updated in place. Each router method is proved to
  leave the item, the log and the reply that its function on values gives, and `Registry` keeps item
  objects by reference as the in-memory registry does.
- `Tasks`: a transition system with one step per await, any number of asyncio tasks, one lock per item id
  and arbitrary schedules. Any waiting caller may be given a free lock, so the first-come order of asyncio
  locks is one of the schedules. The statements about every interleaving are in `Serialisability`, `Progress`,
  `Sources` and `Callers`, for items in any state at the start, and in `Safety`, for items that start in order,
  such as fresh ones. The small steps are tied to the functions on values by `BeginFinishes` and
  `AdvanceFinishes`.
- `Replay`: in `Tasks` each item has a world over its own log. This is no restriction: a run in which the
  adapters answer with an eye to other items or the time is a run of some such worlds as well.
- `Domains`, `Factory`, `Exa`: the allow lists. `VisibleText`: the tag scanner. `BlockCut`: its block cut alone.
  `Verdict`: what the fetcher answers.

Strings are sequences of characters, backoff times are reals, content hashes are opaque texts, and one
item object per id is assumed, as the lock table does. An adapter object is a value with a handle, so two
adapters may share a name and one may be listed twice.

## Where the code differs from its prose

- The router's docstring says concurrent callers coalesce into one attempt. They queue:
  `CallersDoNotCoalesce` shows that every call that is answered with content or an error made a fetch of its
  own, if there are fetchers at all. (A call that ends without one, such as a reviewed one, fetched nothing.)
- Without rules the walk is said to go through the fetchers in list order. A fetcher that stands in the list
  again ends it, even if a later one would succeed (`RepeatedFetcherStopsList`, `ListOrderReachesExactly`).
- "Nothing auto-promotes" holds for one call only. `ReviewGateIsPerCall`: the next call fetches the source
  that the first one promoted, reviewed or not.
- Staged alternates are kept apart from sources only if the sources count as seen. `KeptApartExactly` and
  `EveryRunKeepsApartExactly` give the exact condition; a hand-registered source that was never discovered
  breaks it.
- A discovery that finds nothing marks the item UNRESOLVED even if it has a source (`DiscoverResult`).
- A rule for `content_type=pdf` is never used for `application/pdf` (`ContentRulesNameWholeTypes`; which rule
  is used instead is in `LastContentRuleDecides`).
- An allow entry such as `*` makes trust accept a missing host, which the fetchers' normalised list does
  not (`TrustIsNormalizedMatchExactly`).
- Cutting out script blocks can leave a script block behind (`BlocksMayRemain`), exactly when a name tag comes
  together over a cut (`BlockCutIsStableExactly`), but the tag cut that follows removes it (`VisibleHasNoTag`).

## Model

| member | source | states |
|---|---|---|
| Escalation.LastTargetIsLastRule | wyndpy/core/router.py:88-98 | a dictionary lookup answers t exactly when some rule of the key has target t and no later rule has the key |
| Escalation.ReorderingKeepsLookups | wyndpy/core/router.py:92-98 | lists with the same rules per key in the same order answer all lookups alike |
| Setup.LastRuleDecides | wyndpy/core/router.py:103-111 | for the text that names the error, three cases of which one always applies: the last exact rule decides if its target is not empty, even if unknown; else the last wildcard rule; else there is no successor |
| Setup.LastContentRuleDecides | wyndpy/core/router.py:113-124 | the same three cases for parsers: last exact rule, last wildcard rule, each with a target that is not empty, else the first parser for pdf types; an unknown parser leaves the content unparsed |
| Setup.ContentRulesNameWholeTypes | wyndpy/core/router.py:113-124 | rules that name another content type than the whole one at hand play no part, so without a rule for it the first parser is taken for pdf types and none otherwise |
| Setup.OneErrorRule | wyndpy/core/escalation.py:21-26 | letter by letter: a rule with a trigger text and a source leads to its target exactly on the error the text names and from the adapters the source is for, where a missing or empty source and * mean all |
| Setup.OneContentRule | wyndpy/core/escalation.py:21-26 | a rule content_type=m leads to its parser exactly on type m and from those adapters; else the pdf fallback stands |
| Setup.PdfGoesToFirstParser | wyndpy/core/router.py:122-124 | the fallback takes exactly types with pdf at some position, and gives them to the first parser |
| Setup.LastNamedIsLast | wyndpy/core/router.py:84-85 | a name finds an adapter exactly if that has the name and no later one in the list does |
| Results.ValueIsInjective | wyndpy/core/results.py:14-23 | no two errors share the text that rules name them by |
| Results.ValueIsName | wyndpy/core/results.py:14-23 | each error is named by its own text, all seven written out |
| WalkFacts.WalkJustified | wyndpy/core/router.py:145-251 | for every rule graph and adapter behaviour: fetchers tried are distinct, each is the successor on the error actually returned, is fetched again only after a backoff, and is given up on a retryable error only after all allowed retries; only the source is fetched, and a failed walk has a last error |
| WalkFacts.RetryCost | wyndpy/core/router.py:228-251 | k retries make k + 1 fetches and sleep base times (2^k - 1) from attempt 0 on; k is within the allowed retries and reaches them if the last failure is a timeout or a rate limit |
| WalkFacts.RetryOnlyMends | wyndpy/core/router.py:228-251 | event by event: a fetch is made again, after a backoff twice as long as the last, exactly if it timed out or was rate limited and retries remain |
| WalkFacts.CallCost | wyndpy/core/router.py:135-251 | one call makes at least 1 and at most D(R+1) fetches and sleeps at most D(2^R - 1) backoff units |
| CutOff.CutOffIsComplete | wyndpy/core/router.py:145-226 | with steady adapters and any rule graph, the walk finds a success exactly when unbounded escalation would |
| CutOff.ExhaustedExactly | wyndpy/core/router.py:216-226 | the walk is followed by saving the item as FETCH_EXHAUSTED exactly when no depth of escalation meets a success |
| CutOff.ListOrderReachesExactly | wyndpy/core/router.py:145-203 | without rules and for every list, the walk finds a success exactly when list order comes to one before any fetcher stands in the list again |
| CutOff.RepeatedFetcherStopsList | wyndpy/core/router.py:147-147 | a concrete list: a fetcher named twice keeps the walk from the success that list order comes to |
| Modes.ReorderedRulesResolveAlike | wyndpy/core/router.py:88-124 | reordering rules without changing the order within a key changes no call: awaits, item and reply are equal |
| Modes.ListOrderIsChain | wyndpy/core/router.py:191-214 | the list-order mode equals the configured mode with rules from each fetcher to the next on empty_shell and timeout |
| HashSkip.SkipIsTransparentExactly | wyndpy/core/router.py:157-183 | the unchanged-hash shortcut changes awaits, item or reply exactly when it saves a parser call |
| HashSkip.SecondCallChangesNothing | wyndpy/core/router.py:135-226 | with steady adapters a second Track A call gives the same reply and item |
| HashSkip.TrackAFrame | wyndpy/core/router.py:135-226 | sources and discoveries are never touched; a success with the hash on record, or without a parser, is saved as RESOLVED with its hash; any other is handed to the parser with its bytes and the parser's outcome is the reply, or without bytes an UnsupportedFormat failure, and nothing is saved; an exhausted walk changes the status alone and replies its last error; without fetchers an error says so; it raises exactly without a source |
| HashSkip.TrackAKeepsStore | wyndpy/core/router.py:157-222 | a Track A call that saves leaves a stored copy equal to the item; one that does not changes neither item nor store |
| Discovery.DiscoverResult | wyndpy/core/router.py:281-314 | for every adapter behaviour: searchers are asked in order, every unseen hit they give is judged in order up to the first trusted one, which is a hit of the last searcher asked and is merged and saved; without one all were asked and the item is UNRESOLVED |
| Discovery.FreshMeaning | wyndpy/core/router.py:282-292 | the filtered list holds trusted unseen hits, each url once, and misses none |
| Discovery.FreshInOrder | wyndpy/core/router.py:282-292 | the filtered list is in order of first usable hits |
| Discovery.DiscoverIsHeadOfFilter | wyndpy/core/router.py:282-314 | the nested early-exit search takes the head of that list, or nothing exactly when it is empty |
| Discovery.DiscoveryEnumeratesOnce | wyndpy/core/router.py:281-314 | call k finds offer k, the first becomes the source and the rest are staged in order; later calls change only the status |
| Discovery.KeptApartExactly | wyndpy/core/router.py:287-302 | over any number of discoveries, sources and staged alternates stay apart for all adapters exactly when the exposed urls count as seen at the start |
| Discovery.ReviewGateIsPerCall | wyndpy/core/router.py:335-343 | under review a sourceless call fetches nothing, and the next call fetches exactly when a source was promoted |
| Discovery.UnreviewedCallFetchesItsFind | wyndpy/core/router.py:335-343 | without review, a sourceless call fetches exactly if its discovery finds a candidate, then only that candidate's url, and replies with an outcome; without a find it ends with nothing; a call with a source is a Track A call |
| Discovery.DefaultConfigHoldsBack | wyndpy/core/router.py:49-53 | by default 10 candidates are asked for, a find waits for review, and nothing is retried |
| Item.ResolvableItem.constructor | wyndpy/core/item.py:24-37 | an item starts pending discovery, with nothing seen and no hash |
| Registry.MemoryRegistry.Get | wyndpy/registry/memory_adapter.py:16-17 | a stored object is found by an id exactly if it carries that id, so what was stored last under an id is what is found; nothing is found exactly for ids never stored |
| Registry.MemoryRegistry.Upsert | wyndpy/registry/memory_adapter.py:19-20 | the object itself is stored under its id, keeping the place of an id stored before |
| Registry.MemoryRegistry.ListPendingDiscovery | wyndpy/registry/memory_adapter.py:22-27 | exactly the stored items now pending discovery, in storing order, each once |
| Router.NameIndex | wyndpy/core/router.py:84-85 | the name dictionary finds the last adapter of a name |
| Router.Router.constructor | wyndpy/core/router.py:64-98 | the dictionaries filled by the loop answer every lookup as a scan of the rule list does |
| Router.Router.LockFor | wyndpy/core/router.py:100-101 | an id keeps its first lock for good, and no two ids share one |
| Router.Router.NextFetcherConfigDriven | wyndpy/core/router.py:103-111 | the dictionary lookup gives the successor defined on the rule list |
| Router.Router.ParserForContentType | wyndpy/core/router.py:113-124 | the dictionary lookup gives the parser defined on the rule list |
| Router.Router.FetchWithRetry | wyndpy/core/router.py:228-251 | the loop leaves the outcome and the awaits of the retry function, which are attempts retried on timeouts and rate limits as long as the configuration allows |
| Router.Router.RunParser | wyndpy/core/router.py:253-262 | one parse of the fetched bytes, whose outcome is the reply; without bytes no parse and an UnsupportedFormat failure that names the parser; the item is left alone |
| Router.Router.SettleFetched | wyndpy/core/router.py:157-183 | after a fetch: unchanged content is skipped, else parsed, else its hash recorded, with item, awaits and reply of Settle |
| Router.Router.MergeCandidate | wyndpy/core/router.py:292-308 | a url becomes the source of a sourceless item and is staged otherwise, and the item is saved |
| Router.Router.ResolveKnownSource | wyndpy/core/router.py:128-226 | the loop leaves item, awaits and reply of ResolveKnown; the registry is written exactly when the call saves |
| Router.Router.DiscoverSource | wyndpy/core/router.py:266-314 | the nested loops leave item, awaits and reply of Discover; the registry is always written |
| Router.Router.ResolveItem | wyndpy/core/router.py:316-343 | the joint entry point, run alone, leaves item, awaits and reply of Resolve; without review and with fetchers it has an outcome exactly if the item has a source in the end |
| Serialisability.BeginFinishes | wyndpy/core/router.py:135-152 | a section at its first await comes to what the whole section comes to |
| Serialisability.AdvanceFinishes | wyndpy/core/router.py:155-314 | no await changes what the paused section comes to |
| Serialisability.EveryRunIsSerial | wyndpy/core/router.py:100-101 | in every interleaving, whenever a lock is free, item, log and replies are those of the sections run one by one in lock order; every finished caller passes on the reply of a turn of its own in the section its method is about, a None of the joint entry point that of a discovery turn |
| Serialisability.ItemsAreIndependent | wyndpy/core/router.py:100-101 | an item's fate depends on its start, its adapters and the section order on it, not on other items, callers or the schedule |
| Serialisability.StoreAgreesWhenUnlocked | wyndpy/core/router.py:163-314 | in every interleaving, and whatever the store held at the start: a by-value store that agrees with an item while its lock is free agrees whenever the lock is free later on |
| Serialisability.StoreAgreesExactly | wyndpy/core/router.py:163-314 | in every interleaving, an unheld item agrees with its stored copy exactly if it did at the start or was saved in one of its turns |
| Serialisability.HashIsLatestRecorded | wyndpy/core/router.py:157-183 | the hash on record is that of the latest success without a parser in lock order, or the initial one |
| Serialisability.HashInEveryRun | wyndpy/core/router.py:157-183 | in every interleaving, the hash of an unheld item is that of the reply of its latest turn that succeeded without a parser, or the initial one |
| Callers.EveryTrackATurnFetches | wyndpy/core/router.py:128-155 | run one by one, each Track A turn on an item with a source makes a fetch of its own |
| Callers.CallersDoNotCoalesce | wyndpy/core/router.py:56-62 | in every interleaving, from any items and at every point: an item's new fetches are those its callers made, and an answered caller made one of its own exactly if its answer is an outcome of Track A and there are fetchers |
| Callers.EveryCallerGetsAnOutcome | wyndpy/core/router.py:135-343 | on an item with a source at the start, every answered caller of Track A or of the joint entry point has such an outcome, and so fetched for itself |
| Callers.CheckAfterFind | wyndpy/core/router.py:335-343 | in every interleaving, a joint caller that comes to its check after a find goes on to Track A exactly if the item awaits review and review is off, and then ends with an outcome and a fetch of its own; otherwise it ends with nothing |
| Serialisability.OwnStepsKeepEnd | wyndpy/core/router.py:128-343 | no step of a caller changes what its call would come to if the others kept still, for all three entry points |
| Serialisability.AloneIsSequential | wyndpy/core/router.py:316-343 | in every run with one caller, a finished call left exactly the item, log and reply of the sequential method |
| Progress.StepIsCloser | wyndpy/core/router.py:128-343 | every step a caller takes leaves fewer stages, or as many stages and fewer awaits, so no run goes on for ever |
| Progress.NeverStuck | wyndpy/core/router.py:100-101 | while a caller is unfinished, some caller can step |
| Progress.EveryRunCanEnd | wyndpy/core/router.py:128-343 | from every reachable state there is a schedule after which all callers are finished |
| Replay.EveryFreeRunIsARun | wyndpy/core/router.py:128-343 | a run in which every step is answered by adapters of its own choosing, with an eye to other items or the time, is a run with adapters that look at the item's own log alone |
| Safety.FreshIsInOrder | wyndpy/core/item.py:24-37 | a fresh item is in order, also with a registered source if this counts as seen |
| Safety.EveryInterleavingIsSafe | wyndpy/core/router.py:281-343 | for items in order at the start, at every point of every interleaving: one source at most, distinct staged alternates apart from it, seen urls are exactly these, the new ones were judged trusted and are as many as finds; the status fits |
| Sources.OnlyTheSourceIsFetched | wyndpy/core/router.py:145-155 | from any items, in every interleaving and from any point of it on: a source once set stays as it is, and every fetch is of what is the item's first source |
| Sources.EveryStepEvolves | wyndpy/core/router.py:281-314 | from any items, each step of every interleaving merges one unseen url just judged trusted, counted as one find, or changes status and hash only, and makes at most one await |
| Safety.StagedIsNotFetched | wyndpy/core/router.py:293-299 | in every interleaving, an item whose exposed urls count as seen at the start never has a url that was fetched since then among its staged alternates |
| Safety.EveryRunKeepsApartExactly | wyndpy/core/router.py:287-302 | over all interleavings and adapters, sources and staged alternates stay apart exactly when the exposed urls count as seen at the start |
| Sources.ResolveNeverRaises | wyndpy/core/router.py:335-342 | from any items, in no interleaving does the joint entry point fail for want of a source |
| Sources.ReviewedTaskNeverFetches | wyndpy/core/router.py:338-343 | from any items, under review, a call that found its item sourceless fetches nothing whatever other callers do |
| Domains.MatchIsLabelSuffix | wyndpy/trust/allowlist.py:15-21 | for all texts, the match holds exactly when the domain's labels are the last labels of the host |
| Domains.MatchIsTransitive | wyndpy/search/exa_adapter.py:76-83 | an entry below another entry adds nothing, and subdomains of a match match |
| Domains.MatchesAreNested | wyndpy/fetch/httpx_adapter.py:117-121 | two domains that match one host lie one below the other |
| Domains.AllowsMeaning | wyndpy/fetch/httpx_adapter.py:109-124 | search accepts https urls whose host ends in the labels of an allowed domain, and both fetchers these if not private |
| Domains.LStripMeaning | wyndpy/factory.py:33 | stripping removes stars and dots in front and only those |
| Domains.LowerMeaning | wyndpy/search/exa_adapter.py:82 | lowering turns capitals into their small letters and leaves the rest |
| Domains.AllowlistTrust.IsTrusted | wyndpy/trust/allowlist.py:15-21 | the loop trusts exactly the hosts that match some stripped entry |
| Factory.NormalizeAllow | wyndpy/factory.py:29-36 | the loop computes the normalised list |
| Factory.NormalizedMeaning | wyndpy/factory.py:29-36 | the entries are the non-empty stripped ones, each once |
| Factory.NormalizedInOrder | wyndpy/factory.py:29-36 | the order is that of first occurrence |
| Factory.NormalizedIsIdempotent | wyndpy/factory.py:29-36 | normalising again changes nothing |
| Factory.TrustIsNormalizedMatchExactly | wyndpy/trust/allowlist.py:15-21 | trust is the match over the normalised list, except for a bare wildcard with a missing host or one ending in a dot |
| Factory.WiredAdaptersAgree | wyndpy/factory.py:55-66 | over the factory's list, search lets through only trusted urls, and both fetchers accept exactly those of them whose host is not private |
| Factory.ConstructArguments | wyndpy/factory.py:39-66 | given arguments win, missing allow lists are the normalised policy list, and no httpx fetcher is built with an empty one |
| Exa.ExaSearcher.Search | wyndpy/search/exa_adapter.py:46-74 | the loop gives the allowed rows as candidates in row order; no key gives none, a failed search an error |
| Exa.FilteredMeaning | wyndpy/search/exa_adapter.py:60-74 | the candidates are those of the allowed rows, one for each, in row order |
| Exa.CandidateIs | wyndpy/search/exa_adapter.py:64-73 | a candidate has the row's url, its score if that is a number and else 0, and the first 240 characters of the title or, without one, of the text |
| Exa.EveryCandidateIsTrusted | wyndpy/search/exa_adapter.py:60-83 | with the factory's list every candidate passes the policy's trust filter and is fetchable unless private |
| VisibleText.TagLengthIsMatch | wyndpy/fetch/httpx_adapter.py:194 | the scanner's tag length is n exactly when the tag pattern matches n characters |
| VisibleText.BlockLengthIsShortestMatch | wyndpy/fetch/httpx_adapter.py:193 | the scanner's block is a match of the block pattern, and the shortest one |
| VisibleText.StripTagsAtFirst | wyndpy/fetch/httpx_adapter.py:194 | text before the leftmost match is kept, the match is dropped, and the substitution goes on after it |
| VisibleText.StripBlocksAtFirst | wyndpy/fetch/httpx_adapter.py:193 | the same for the block substitution |
| VisibleText.StripTagsLeavesNoTag | wyndpy/fetch/httpx_adapter.py:194 | after the tag substitution the tag pattern matches nowhere |
| VisibleText.VisibleHasNoTag | wyndpy/fetch/httpx_adapter.py:193-194 | nor does it, or the block pattern, after white space is trimmed |
| VisibleText.VisibleIsFixedPoint | wyndpy/fetch/httpx_adapter.py:193-194 | the visible text of the visible text is itself |
| VisibleText.VisibleIsSubsequence | wyndpy/fetch/httpx_adapter.py:193-194 | the visible text is left of the page by dropping characters |
| BlockCut.BlocksMayRemain | wyndpy/fetch/httpx_adapter.py:193 | a concrete page of which the block substitution leaves a block |
| BlockCut.NoBlockIsWhole | wyndpy/fetch/httpx_adapter.py:193 | every block in the text that the block substitution leaves is new: one of its name tags has come together over a cut |
| BlockCut.BlockCutIsStableExactly | wyndpy/fetch/httpx_adapter.py:193 | so a second block substitution changes something exactly when such a block is there |
| BlockCut.UncutTagsAreStable | wyndpy/fetch/httpx_adapter.py:193 | a second one changes nothing if no name tag in the text left lies over a cut |
| BlockCut.ClosedPiecesAreStable | wyndpy/fetch/httpx_adapter.py:193 | that is so if every piece before a cut has a '>' after its last '<' |
| Verdict.BlockIsInvisible | wyndpy/fetch/httpx_adapter.py:193 | a script or style block with any attributes and body, after text without tags and before anything, is not visible |
| Verdict.TagIsInvisible | wyndpy/fetch/httpx_adapter.py:194 | nor is a tag that opens no block |
| Verdict.PlainTextIsVisible | wyndpy/fetch/httpx_adapter.py:193-194 | of a text without tags everything is visible but the white space around it |
| Verdict.OutcomeIs | wyndpy/fetch/httpx_adapter.py:178-210 | pdf and application types are successes with bytes and no text; other pages are empty shells exactly if fewer than 200 characters are visible, else successes with their text and bytes |
| Verdict.BlockIsShell | wyndpy/fetch/httpx_adapter.py:193-201 | a page that is one script or style block is an empty shell, however long |
| Verdict.PlainTextVerdict | wyndpy/fetch/httpx_adapter.py:193-210 | a text without tags is a success exactly if 200 characters are left without the white space around it, and its content is the whole page |
| Verdict.VerdictIsAboutVisibleText | wyndpy/fetch/httpx_adapter.py:180-210 | the verdict depends on the visible text, every shorter text page is a shell, and a success carries its bytes |

## Left out

- Network, DNS, private-address classification, status codes and the live search and parse calls: adapter answers are arbitrary.
- Url parsing: scheme and host name are given, with the host name in lower case as urlparse gives it.
- Cancellation, and adapters that raise: every await returns.
- Several item objects with one id: the lock is keyed by id, and one object per id is assumed.
- The first-come order of waiting callers: the model allows every order, so statements hold for that one too.
- Item metadata, retrieval times, logging, cost caps, rate limits, schedulers, the Postgres stub and the tool and MCP surfaces: no part in the modelled state.
- The status branches of the Firecrawl fetcher's own scrape call: only its allow list is modelled.
- Policy file loading and entry-point lookup; the stub and constructor errors of the factory.
- Rounding of backoff times: reals are used.
- StoreAgreesWhenUnlocked: is about a store that keeps copies, because the in-memory registry keeps the objects and so agrees at all times.
- Router.Router.ResolveItem: describes a call that no other caller interferes with; interference is the subject of Tasks and the modules on it.
