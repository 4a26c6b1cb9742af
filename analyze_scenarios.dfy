// The analysis command run against the mock code host and mock agent, on a
// subcommit log that holds nothing yet for the repo: the behaviour the
// command's tests in internal/app/command/analyze_repo_test.go pin down.
module AnalyzeScenarios {
  import opened Common
  import opened DomainErrors
  import opened RepoEntity
  import opened SubcommitStore
  import opened CodeHostPort
  import opened CodeHostMock
  import opened AnalyzeRepoCommand

  /** The repo the mock creates for a URL. */
  function MockRepo(url: string): RepoValue
    requires url != InvalidRepoURL
  {
    CreateRepoFromURL(url).value
  }

  /** A commit whose diff the mock agent accepts yields exactly one
      subcommit carrying the commit's SHA, time and the repo's ID. */
  lemma {:induction false} GoodCommit(log: seq<Subcommit>, r: RepoValue, ref: CommitRef)
    requires !Analyzed(log, r.id, ref.sha) && ref.sha != FailingCommitSHA
    ensures var o := AnalyzeOne(log, r, ref, Host, AnalyzeDiff);
            o.errs == [] && |o.emitted| == 1 &&
            o.emitted[0].commitSHA == ref.sha && o.emitted[0].repoID == r.id && o.emitted[0].committedAt == ref.committedAt
  {
    assert Host.getCommitDiff(r, ref.sha) == Success(ValidCommitDiff);
    assert ValidCommitDiff != FailingDiff;
    var o := AnalyzeOne(log, r, ref, Host, AnalyzeDiff);
    assert o.emitted[0] in o.emitted;
  }

  /** The failing commit yields an agent error and no subcommit. */
  lemma {:induction false} FailingCommit(log: seq<Subcommit>, r: RepoValue, ref: CommitRef)
    requires !Analyzed(log, r.id, ref.sha) && ref.sha == FailingCommitSHA
    ensures var o := AnalyzeOne(log, r, ref, Host, AnalyzeDiff);
            o.emitted == [] && |o.errs| == 1 && Is(o.errs[0], ErrAnalysisFailed)
  {
    assert Host.getCommitDiff(r, ref.sha) == Success(FailingDiff);
  }

  /** A first analysis of the valid repo: both commits produce a subcommit
      for the repo, nothing fails, and the newest commit becomes the last
      analysed SHA. */
  lemma ValidRepoFirstAnalysis(log: seq<Subcommit>)
    requires forall s :: s in log ==> s.repoID != ValidRepoID
    ensures var r := MockRepo(ValidRepoURL);
            var f := FetchCommits(r).value;
            var o := AnalyzeAll(log, r, f.sent, Host, AnalyzeDiff);
            |o.emitted| == 2 && o.errs == [] && JoinAll(o.errs).None? &&
            (forall s :: s in o.emitted ==> s.repoID == ValidRepoID && s.committedAt != ZeroTime) &&
            Finished(r, f.headSHA, o).lastAnalyzedCommitSHA == ValidRepoCommitSHA
  {
    var r := MockRepo(ValidRepoURL);
    var refs := CommitsForRepo(ValidRepoURL);
    TakeUntilAbsent(refs, "");
    var f := FetchCommits(r).value;
    assert f.sent == refs;
    NotInLog(log, r.id);
    GoodCommit(log, r, refs[0]);
    GoodCommit(log, r, refs[1]);
    AnalyzeAllStep(log, r, refs, 0, Host, AnalyzeDiff);
    AnalyzeAllStep(log, r, refs, 1, Host, AnalyzeDiff);
    assert refs[..0] == [] && refs[..2] == refs;
    EmittedCarryCommit(log, r, refs, Host, AnalyzeDiff);
  }

  /** Partial failure: the good commit's subcommit is emitted, the failing
      commit makes the joined error match ErrAnalysisFailed, and the last
      analysed SHA stays "". */
  lemma PartialFailureAnalysis(log: seq<Subcommit>)
    requires forall s :: s in log ==> s.repoID != PartialFailureRepoID
    ensures var r := MockRepo(PartialFailureRepoURL);
            var f := FetchCommits(r).value;
            var o := AnalyzeAll(log, r, f.sent, Host, AnalyzeDiff);
            |o.emitted| == 1 && JoinAll(o.errs).Some? && Is(JoinAll(o.errs).value, ErrAnalysisFailed) &&
            Finished(r, f.headSHA, o).lastAnalyzedCommitSHA == ""
  {
    var r := MockRepo(PartialFailureRepoURL);
    var refs := CommitsForRepo(PartialFailureRepoURL);
    TakeUntilAbsent(refs, "");
    var f := FetchCommits(r).value;
    assert f.sent == refs;
    NotInLog(log, r.id);
    GoodCommit(log, r, refs[0]);
    FailingCommit(log, r, refs[1]);
    AnalyzeAllStep(log, r, refs, 0, Host, AnalyzeDiff);
    AnalyzeAllStep(log, r, refs, 1, Host, AnalyzeDiff);
    assert refs[..0] == [] && refs[..2] == refs;
    AgentFailureSurfaces(log, r, refs, 1, Host, AnalyzeDiff);
  }

  /** When the agent fails on every commit nothing is emitted and the
      joined error matches ErrAnalysisFailed. */
  lemma FailingAgentAnalysis(log: seq<Subcommit>)
    requires forall s :: s in log ==> s.repoID != FailingAgentRepoID
    ensures var r := MockRepo(FailingAgentRepoURL);
            var f := FetchCommits(r).value;
            var o := AnalyzeAll(log, r, f.sent, Host, AnalyzeDiff);
            o.emitted == [] && JoinAll(o.errs).Some? && Is(JoinAll(o.errs).value, ErrAnalysisFailed)
  {
    var r := MockRepo(FailingAgentRepoURL);
    var refs := CommitsForRepo(FailingAgentRepoURL);
    TakeUntilAbsent(refs, "");
    var f := FetchCommits(r).value;
    assert f.sent == refs;
    NotInLog(log, r.id);
    FailingCommit(log, r, refs[0]);
    AnalyzeAllStep(log, r, refs, 0, Host, AnalyzeDiff);
    assert refs[..0] == [] && refs[..1] == refs;
    AgentFailureSurfaces(log, r, refs, 0, Host, AnalyzeDiff);
  }

  /** The empty repo sends no commit: nothing is emitted, nothing fails and
      the head stays "", so the last analysed SHA is not advanced. */
  lemma EmptyRepoAnalysis(log: seq<Subcommit>)
    ensures var r := MockRepo(ValidEmptyRepoURL);
            var f := FetchCommits(r).value;
            var o := AnalyzeAll(log, r, f.sent, Host, AnalyzeDiff);
            f.sent == [] && f.headSHA == "" && o == Outcome([], []) && Finished(r, f.headSHA, o) == r
  {
  }

  /** A stored repo whose last analysed SHA is not in the commit list gets
      every commit sent again. */
  lemma OutdatedRepoRefetchesAll(r: RepoValue)
    requires r.url == ValidRepoURL && r.lastAnalyzedCommitSHA == "old-sha"
    ensures FetchCommits(r).value.sent == CommitsForRepo(ValidRepoURL)
    ensures FetchCommits(r).value.headSHA == ValidRepoCommitSHA
  {
    TakeUntilAbsent(CommitsForRepo(ValidRepoURL), "old-sha");
  }

  /** A log with no entry for a repo has analysed no commit of it. */
  lemma NotInLog(log: seq<Subcommit>, repoID: int)
    requires forall s :: s in log ==> s.repoID != repoID
    ensures forall sha :: !Analyzed(log, repoID, sha)
  {
    forall sha ensures !Analyzed(log, repoID, sha) {
      forall i | 0 <= i < |log| ensures !(log[i].repoID == repoID && log[i].commitSHA == sha) {
        assert log[i] in log;
      }
    }
  }
}
