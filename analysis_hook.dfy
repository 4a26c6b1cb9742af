// The `useAnalysis` hook of web/src/lib/hooks/use-analysis.ts: three state
// cells (isAnalyzing, repoId, error), `startAnalysis` and `reset`. The network
// request is an input: the outcome `api.analyzeRepository` settles to.
module AnalysisHook {
  import opened Common

  /** What a rejected request threw: an `Error` with its message, or some
      other value. */
  datatype Thrown = ErrorInstance(message: string) | NonError

  /** How `api.analyzeRepository(repoUrl)` settles. */
  datatype AnalyzeOutcome = Resolved(repoId: int) | Rejected(thrown: Thrown)

  /** The three state cells. */
  datatype HookState = HookState(isAnalyzing: bool, repoId: Option<int>, error: Option<string>)

  /** `useState(false)`, `useState(null)`, `useState(null)`. */
  const Initial: HookState := HookState(false, None, None)

  const GenericFailure: string := "Analysis failed"

  /** `err instanceof Error ? err.message : "Analysis failed"`. */
  function FailureMessage(thrown: Thrown): (m: string)
    ensures thrown.ErrorInstance? ==> m == thrown.message
    ensures thrown.NonError? ==> m == GenericFailure
  {
    match thrown
    case ErrorInstance(message) => message
    case NonError => GenericFailure
  }

  /** The two setters that run before the request is awaited. */
  function Started(s: HookState): (r: HookState)
    ensures r.isAnalyzing && r.error == None && r.repoId == s.repoId
  {
    s.(isAnalyzing := true, error := None)
  }

  /** The state once the request has settled: the id on success; the
      message and a cleared in-progress flag on failure. */
  function Settled(s: HookState, outcome: AnalyzeOutcome): (r: HookState)
    ensures outcome.Resolved? ==> r == s.(repoId := Some(outcome.repoId))
    ensures outcome.Rejected? ==> r == s.(error := Some(FailureMessage(outcome.thrown)), isAnalyzing := false)
  {
    match outcome
    case Resolved(id) => s.(repoId := Some(id))
    case Rejected(thrown) => s.(error := Some(FailureMessage(thrown)), isAnalyzing := false)
  }

  /** A successful start leaves the hook analyzing, with the returned id and
      no error, whatever the state before. */
  lemma StartResolved(s: HookState, id: int)
    ensures Settled(Started(s), Resolved(id)) == HookState(true, Some(id), None)
  {
  }

  /** A failed start leaves the hook idle with the failure message and the
      previous repo id untouched. */
  lemma StartRejected(s: HookState, thrown: Thrown)
    ensures Settled(Started(s), Rejected(thrown)) == HookState(false, s.repoId, Some(FailureMessage(thrown)))
    ensures thrown.NonError? ==> Settled(Started(s), Rejected(thrown)).error.value != ""
  {
  }

  class AnalysisHookCells {
    var isAnalyzing: bool
    var repoId: Option<int>
    var error: Option<string>

    function State(): HookState
      reads this
    {
      HookState(isAnalyzing, repoId, error)
    }

    constructor ()
      ensures State() == Initial
    {
      isAnalyzing, repoId, error := false, None, None;
    }

    /** `setIsAnalyzing(true); setError(null);` before the request. */
    method BeginAnalysis()
      modifies this
      ensures State() == Started(old(State()))
    {
      isAnalyzing := true;
      error := None;
    }

    /** The try/catch around `await api.analyzeRepository(repoUrl)`. */
    method SettleAnalysis(outcome: AnalyzeOutcome)
      modifies this
      ensures State() == Settled(old(State()), outcome)
    {
      match outcome {
        case Resolved(id) =>
          repoId := Some(id);
        case Rejected(thrown) =>
          error := Some(FailureMessage(thrown));
          isAnalyzing := false;
      }
    }

    /** startAnalysis: the synchronous setters, then the settled request. */
    method StartAnalysis(outcome: AnalyzeOutcome)
      modifies this
      ensures State() == Settled(Started(old(State())), outcome)
      ensures outcome.Resolved? ==> isAnalyzing && repoId == Some(outcome.repoId) && error == None
      ensures outcome.Rejected? ==> !isAnalyzing && repoId == old(repoId) && error.Some?
    {
      BeginAnalysis();
      SettleAnalysis(outcome);
    }

    /** reset: back to the initial state from any state. */
    method Reset()
      modifies this
      ensures State() == Initial
    {
      isAnalyzing := false;
      repoId := None;
      error := None;
    }
  }
}
