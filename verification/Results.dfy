/** The result types every adapter answers with. Core code sees nothing else of an adapter. */
module Results {
  import opened Wrappers

  datatype ErrorType =
    | EmptyShell
    | UnsupportedFormat
    | NotFound
    | Timeout
    | RateLimited
    | ForbiddenUrl
    | Unknown
  {
    /** The text an escalation rule names this error by. */
    function Value(): string {
      match this
      case EmptyShell => "empty_shell"
      case UnsupportedFormat => "unsupported_format"
      case NotFound => "not_found"
      case Timeout => "timeout"
      case RateLimited => "rate_limited"
      case ForbiddenUrl => "forbidden_url"
      case Unknown => "unknown"
    }
  }

  datatype RetrievalResult = RetrievalResult(
    content: string,
    contentType: string,
    sourceUrl: string,
    contentHash: string,
    providerUsed: string,
    rawBytes: Option<seq<bv8>>)

  datatype RetrievalError = RetrievalError(errorType: ErrorType, message: string, providerUsed: string)

  /** What a fetcher or a parser returns. */
  datatype Outcome = Success(result: RetrievalResult) | Failure(error: RetrievalError)

  datatype Candidate = Candidate(url: string, relevanceScore: real, snippet: string)

  /** The texts that a policy names errors by. */
  ghost predicate NamesError(trigger: string, e: ErrorType) {
    match e
    case EmptyShell => trigger == "empty_shell"
    case UnsupportedFormat => trigger == "unsupported_format"
    case NotFound => trigger == "not_found"
    case Timeout => trigger == "timeout"
    case RateLimited => trigger == "rate_limited"
    case ForbiddenUrl => trigger == "forbidden_url"
    case Unknown => trigger == "unknown"
  }

  lemma ValueIsName(e: ErrorType, trigger: string)
    ensures e.Value() == trigger <==> NamesError(trigger, e)
  {
  }

  /** The error names are pairwise different, so a rule trigger names one error at most. */
  lemma ValueIsInjective(a: ErrorType, b: ErrorType)
    ensures a.Value() == b.Value() ==> a == b
  {
    if a.Value() == b.Value() {
      assert |a.Value()| == |b.Value()|;
      assert a.Value()[0] == b.Value()[0];
    }
  }
}
