/** The Exa searcher's filtering of the rows the search service answers with. */
module Exa {
  import opened Wrappers
  import opened Results
  import opened Domains
  import opened Factory

  /** A score as it may arrive: missing, a number, or something that is none. */
  datatype Score = Missing | Number(value: real) | Unparsable

  /** One row; an absent field is the empty text. */
  datatype Row = Row(url: string, score: Score, title: string, text: string)

  const SNIPPET_LENGTH := 240

  function Snippet(row: Row): string {
    var full := if row.title != "" then row.title else row.text;
    if |full| <= SNIPPET_LENGTH then full else full[..SNIPPET_LENGTH]
  }

  function ToCandidate(row: Row): Candidate {
    Candidate(row.url, if row.score.Number? then row.score.value else 0.0, Snippet(row))
  }

  /** A candidate has the row's url, its score if that is a number, and 240 characters of title or text at most. */
  lemma CandidateIs(row: Row)
    ensures var c := ToCandidate(row);
            && c.url == row.url
            && (forall x :: row.score == Number(x) ==> c.relevanceScore == x)
            && (row.score in {Missing, Unparsable} ==> c.relevanceScore == 0.0)
            && var source := if row.title == "" then row.text else row.title;
               c.snippet <= source && (if |source| > 240 then |c.snippet| == 240 else c.snippet == source)
  {
  }

  predicate Keeps(parse: string -> ParsedUrl, allow: seq<string>, row: Row) {
    row.url != "" && ExaAllows(parse(row.url), allow)
  }

  /** The kept rows as candidates, in row order. */
  function Filtered(parse: string -> ParsedUrl, allow: seq<string>, rows: seq<Row>): seq<Candidate> {
    if rows == [] then []
    else Filtered(parse, allow, rows[..|rows| - 1])
         + if Keeps(parse, allow, rows[|rows| - 1]) then [ToCandidate(rows[|rows| - 1])] else []
  }

  datatype SearchFailed = SearchFailed

  class ExaSearcher {
    const apiKey: string
    const hasSearchFn: bool
    const domainAllowlist: seq<string>

    constructor (apiKey: string, hasSearchFn: bool, domainAllowlist: seq<string>)
      ensures this.apiKey == apiKey && this.hasSearchFn == hasSearchFn && this.domainAllowlist == domainAllowlist
    {
      this.apiKey := apiKey;
      this.hasSearchFn := hasSearchFn;
      this.domainAllowlist := domainAllowlist;
    }

    /** `answer` is what the service gave, or None when it failed; without a key it is not asked. */
    method Search(parse: string -> ParsedUrl, answer: Option<seq<Row>>)
        returns (r: Result<seq<Candidate>, SearchFailed>)
      ensures r == if apiKey == "" && !hasSearchFn then Ok([])
                   else if answer.None? then Err(SearchFailed)
                   else Ok(Filtered(parse, domainAllowlist, answer.value))
    {
      if apiKey == "" && !hasSearchFn {
        return Ok([]);
      }
      if answer.None? {
        return Err(SearchFailed);
      }
      var rows := answer.value;
      var candidates: seq<Candidate> := [];
      for i := 0 to |rows|
        invariant candidates == Filtered(parse, domainAllowlist, rows[..i])
      {
        var row := rows[i];
        assert rows[..i + 1][..i] == rows[..i];
        if row.url == "" || !ExaAllows(parse(row.url), domainAllowlist) {
          continue;
        }
        var relevance := if row.score.Number? then row.score.value else 0.0;
        candidates := candidates + [Candidate(row.url, relevance, Snippet(row))];
      }
      assert rows[..|rows|] == rows;
      return Ok(candidates);
    }
  }

  /** Candidate number i is made from row number at[i]; these are the allowed rows, in row order. */
  ghost predicate Picked(parse: string -> ParsedUrl, allow: seq<string>, rows: seq<Row>, at: seq<nat>,
                         candidates: seq<Candidate>)
  {
    && |at| == |candidates|
    && (forall i, j :: 0 <= i < j < |at| ==> at[i] < at[j])
    && (forall i :: 0 <= i < |at| ==>
          at[i] < |rows| && Keeps(parse, allow, rows[at[i]]) && candidates[i] == ToCandidate(rows[at[i]]))
    && forall k :: 0 <= k < |rows| && Keeps(parse, allow, rows[k]) ==> k in at
  }

  lemma PickedOneMore(parse: string -> ParsedUrl, allow: seq<string>, rows: seq<Row>, at: seq<nat>,
                      candidates: seq<Candidate>, row: Row)
    requires Picked(parse, allow, rows, at, candidates)
    ensures if Keeps(parse, allow, row)
            then Picked(parse, allow, rows + [row], at + [|rows|], candidates + [ToCandidate(row)])
            else Picked(parse, allow, rows + [row], at, candidates)
  {
    hide Keeps, ToCandidate;
    assert forall k :: k in at + [|rows|] <==> k in at || k == |rows|;
  }

  /** Filtering picks the allowed rows and no others, one candidate for each, in row order. */
  lemma {:induction false} FilteredMeaning(parse: string -> ParsedUrl, allow: seq<string>, rows: seq<Row>)
      returns (at: seq<nat>)
    ensures Picked(parse, allow, rows, at, Filtered(parse, allow, rows))
  {
    if rows == [] {
      at := [];
    } else {
      var n := |rows| - 1;
      at := FilteredMeaning(parse, allow, rows[..n]);
      PickedOneMore(parse, allow, rows[..n], at, Filtered(parse, allow, rows[..n]), rows[n]);
      hide Picked, Keeps, ToCandidate;
      assert rows[..n] + [rows[n]] == rows;
      if Keeps(parse, allow, rows[n]) {
        at := at + [n];
      }
    }
  }

  /**
   With the factory's wiring, every candidate Exa gives passes the trust filter of the same policy, and the
   httpx fetcher accepts its url unless the host is private.
   */
  lemma EveryCandidateIsTrusted(parse: string -> ParsedUrl, allow: seq<string>, rows: seq<Row>, c: Candidate,
                                isPrivate: bool)
    requires forall url :: WellParsed(parse(url))
    requires c in Filtered(parse, Normalized(allow), rows)
    ensures Trusts(HostOf(parse(c.url)), allow)
    ensures HttpxAllows(parse(c.url), isPrivate, Normalized(allow)) <==> !isPrivate
  {
    var at := FilteredMeaning(parse, Normalized(allow), rows);
    var i :| 0 <= i < |at| && c == Filtered(parse, Normalized(allow), rows)[i];
    var row := rows[at[i]];
    WiredAdaptersAgree(parse(row.url), isPrivate, allow);
    hide Normalized, Filtered, ExaAllows, HttpxAllows;
  }
}
