// The code-host and agent ports the analysis command depends on
// (internal/domain/codehost/codehost.go, internal/domain/agent/agent.go),
// with each port method as a function-valued field. The commit stream is
// delivered as a whole sequence instead of through a channel.
module CodeHostPort {
  import opened Common
  import opened DomainErrors
  import opened RepoEntity

  /** codehost.CommitReference; `committedAt` in seconds since the Unix epoch. */
  datatype CommitRef = CommitRef(sha: string, committedAt: int)

  /** agent.AnalysisResult: one subcommit the agent found in a diff. */
  datatype AnalysisResult = AnalysisResult(title: string, idea: string, description: string, epic: string,
                                           modificationType: string, files: seq<string>)

  /** What GetRepoCommitSHAsIntoChannel produces when it does not fail: the
      head SHA it returns and the references it sent, in order. */
  datatype Fetched = Fetched(headSHA: string, sent: seq<CommitRef>)

  /** The CodeHost interface. */
  datatype CodeHost = CodeHost(
    canAccessRepo: string -> Option<Error>,
    createRepoFromURL: string -> Result<RepoValue, Error>,
    fetchCommits: RepoValue -> Result<Fetched, Error>,
    getCommitDiff: (RepoValue, string) -> Result<string, Error>)

  /** CodeHostFactory.Create. */
  type Factory = string -> Result<CodeHost, Error>

  /** Agent.AnalyzeDiff. */
  type Agent = string -> Result<seq<AnalysisResult>, Error>

  /** The commits sent for a repo: the newest-first list up to, and
      excluding, the first one whose SHA is the last analyzed SHA. */
  function TakeUntil(refs: seq<CommitRef>, stop: string): (r: seq<CommitRef>)
    ensures |r| <= |refs| && r == refs[..|r|]
    ensures forall i :: 0 <= i < |r| ==> r[i].sha != stop
    ensures |r| < |refs| ==> refs[|r|].sha == stop
  {
    if refs == [] || refs[0].sha == stop then []
    else [refs[0]] + TakeUntil(refs[1..], stop)
  }

  /** When the last analyzed SHA is not in the list, every commit is sent. */
  lemma TakeUntilAbsent(refs: seq<CommitRef>, stop: string)
    requires forall i :: 0 <= i < |refs| ==> refs[i].sha != stop
    ensures TakeUntil(refs, stop) == refs
  {
  }

  /** The head SHA the port documents: the first commit sent, or "" when
      nothing was sent. */
  function HeadSHA(sent: seq<CommitRef>): string
  {
    if sent == [] then "" else sent[0].sha
  }

  /** The port's documented behaviour for one repo whose full newest-first
      commit list is `all`. */
  predicate FollowsContract(all: seq<CommitRef>, r: RepoValue, f: Fetched)
  {
    f.sent == TakeUntil(all, r.lastAnalyzedCommitSHA) && f.headSHA == HeadSHA(f.sent)
  }
}
