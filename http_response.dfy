// The domain-error to HTTP mapping of internal/ports/http/response.go and
// the shape of the error payload writeError sends.
module HttpResponse {
  import opened DomainErrors

  /** An error response: the status and the JSON object `{"error": message}`. */
  datatype ErrorResponse = ErrorResponse(status: int, body: map<string, string>)

  /** mapDomainError: the first matching case of the switch wins. */
  function MapDomainError(err: Error): (r: (int, string))
    ensures Is(err, ErrAccessDenied) ==> r == (403, "access denied")
    ensures !Is(err, ErrAccessDenied) && Is(err, ErrInvalidRepoURL) ==> r == (400, "invalid repository URL")
    ensures !Is(err, ErrAccessDenied) && !Is(err, ErrInvalidRepoURL) && Is(err, ErrRepositoryNotFound) ==>
      r == (404, "repository not found")
    ensures (!Is(err, ErrAccessDenied) && !Is(err, ErrInvalidRepoURL) && !Is(err, ErrRepositoryNotFound) &&
             Is(err, ErrAnalysisInProgress)) ==> r == (409, "analysis already in progress")
    ensures r.0 == 500 <==> !Is(err, ErrAccessDenied) && !Is(err, ErrInvalidRepoURL) &&
                            !Is(err, ErrRepositoryNotFound) && !Is(err, ErrAnalysisInProgress)
    ensures r.0 == 500 ==> r.1 == "internal server error"
  {
    if Is(err, ErrAccessDenied) then (403, "access denied")
    else if Is(err, ErrInvalidRepoURL) then (400, "invalid repository URL")
    else if Is(err, ErrRepositoryNotFound) then (404, "repository not found")
    else if Is(err, ErrAnalysisInProgress) then (409, "analysis already in progress")
    else (500, "internal server error")
  }

  /** writeError: the mapped status with the message under "error". */
  function WriteError(err: Error): (r: ErrorResponse)
    ensures r.status == MapDomainError(err).0
    ensures r.body.Keys == {"error"} && r.body["error"] == MapDomainError(err).1
  {
    ErrorResponse(MapDomainError(err).0, map["error" := MapDomainError(err).1])
  }

  /** Every response uses one of the five statuses. */
  lemma StatusesAreKnown(err: Error)
    ensures MapDomainError(err).0 in {400, 403, 404, 409, 500}
  {
  }

  /** A join of an access denial and a missing repo reports the denial:
      the switch's order decides. */
  lemma FirstMatchWins(detail: Error)
    ensures MapDomainError(Joined([Bare(ErrRepositoryNotFound), Wrapped(ErrAccessDenied, detail)])).0 == 403
  {
    var e := Joined([Bare(ErrRepositoryNotFound), Wrapped(ErrAccessDenied, detail)]);
    assert Wrapped(ErrAccessDenied, detail) in e.errs && Is(Wrapped(ErrAccessDenied, detail), ErrAccessDenied);
  }

  /** An analysis that failed only in the agent maps to 500. */
  lemma AnalysisFailureIsInternal(errs: seq<Error>)
    requires forall e :: e in errs ==> e.Wrapped? && e.wraps == ErrAnalysisFailed
    ensures MapDomainError(Joined(errs)) == (500, "internal server error")
  {
    forall x | x in errs
      ensures !Is(x, ErrAccessDenied) && !Is(x, ErrInvalidRepoURL)
      ensures !Is(x, ErrRepositoryNotFound) && !Is(x, ErrAnalysisInProgress)
    {
    }
  }
}
