// Go error values as the backend uses them: the sentinel errors of the
// domain packages, `fmt.Errorf("%w: %v", sentinel, cause)`, `errors.Join`
// and `errors.Is`.
module DomainErrors {
  import opened Common

  /** The sentinel errors: codehost.ErrAccessDenied, ErrInvalidRepoURL and
      ErrDiffFetchFailed; repo.ErrRepositoryNotFound;
      analysis.ErrAnalysisInProgress; agent.ErrAnalysisFailed. */
  datatype Sentinel =
    | ErrAccessDenied
    | ErrInvalidRepoURL
    | ErrDiffFetchFailed
    | ErrRepositoryNotFound
    | ErrAnalysisInProgress
    | ErrAnalysisFailed

  /** An error value: a bare sentinel, a sentinel wrapped with `%w` whose
      cause is only formatted with `%v` (so it is not part of the chain), a
      join of several errors, or an error built by `errors.New` with no
      sentinel in its chain. */
  datatype Error =
    | Bare(sentinel: Sentinel)
    | Wrapped(wraps: Sentinel, cause: Error)
    | Joined(errs: seq<Error>)
    | Plain(message: string)

  /** `errors.Is(e, target)`. */
  predicate Is(e: Error, target: Sentinel)
  {
    match e
    case Bare(s) => s == target
    case Wrapped(s, _) => s == target
    case Joined(errs) => exists x | x in errs :: Is(x, target)
    case Plain(_) => false
  }

  /** The non-nil errors of a list, in order. */
  function NonNil(errs: seq<Option<Error>>): (r: seq<Error>)
    ensures |r| <= |errs|
    ensures forall x :: x in r <==> Some(x) in errs
  {
    if errs == [] then []
    else
      var rest := NonNil(errs[1..]);
      assert forall o :: o in errs <==> o == errs[0] || o in errs[1..];
      match errs[0]
      case None => rest
      case Some(e) => [e] + rest
  }

  /** `errors.Join(errs...)`: nil when every argument is nil, otherwise a
      joined error holding the non-nil arguments. */
  function Join(errs: seq<Option<Error>>): (r: Option<Error>)
    ensures r.None? <==> forall o :: o in errs ==> o.None?
    ensures r.Some? ==> r.value == Joined(NonNil(errs))
  {
    if forall o :: o in errs ==> o.None? then None
    else Some(Joined(NonNil(errs)))
  }

  /** `errors.Join` over a slice of non-nil errors, as `analyzeCommits`
      returns it. */
  function JoinAll(errs: seq<Error>): (r: Option<Error>)
    ensures r.None? <==> errs == []
    ensures r.Some? ==> r.value == Joined(errs)
  {
    if errs == [] then None else Some(Joined(errs))
  }

  /** The joined error matches a sentinel exactly when one of the joined
      errors does. */
  lemma JoinIs(errs: seq<Option<Error>>, target: Sentinel)
    ensures Join(errs).Some? ==>
      (Is(Join(errs).value, target) <==> exists o | o in errs :: o.Some? && Is(o.value, target))
  {
    if Join(errs).Some? {
      var kept := NonNil(errs);
      if Is(Join(errs).value, target) {
        var x :| x in kept && Is(x, target);
        assert Some(x) in errs;
      }
      if exists o | o in errs :: o.Some? && Is(o.value, target) {
        var o :| o in errs && o.Some? && Is(o.value, target);
        assert o.value in kept;
      }
    }
  }

  /** Wrapping with `%w` keeps the wrapped sentinel reachable and nothing
      from the formatted cause. */
  lemma WrappedIs(s: Sentinel, cause: Error, target: Sentinel)
    ensures Is(Wrapped(s, cause), target) <==> s == target
  {
  }
}
