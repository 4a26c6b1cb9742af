// The mock code host and mock agent of internal/adapters/codehost_mock.go
// and internal/adapters/agent_mock.go, against which the backend's
// behavioural tests run.
module CodeHostMock {
  import opened Common
  import opened DomainErrors
  import opened RepoEntity
  import opened CodeHostPort

  const ValidRepoURL: string := "https/validRepo"
  const ValidRepoID: int := 123456789
  const ValidRepoCommitSHA: string := "CommitSHA-1"
  const ValidRepoCommitDate: int := 1736935200
  const ValidRepoCommitSHA2: string := "CommitSHA-2"
  const ValidRepoCommitDate2: int := 1736503200
  const ValidEmptyRepoURL: string := "https/emptyRepo"
  const ValidEmptyRepoID: int := 9876543221
  const InvalidRepoURL: string := "https/invalidRepo"
  const ForbiddenRepoURL: string := "https/forbiddenRepo"
  const ForbiddenRepoID: int := 333333333
  const FailingAgentRepoURL: string := "https/failingAgentRepo"
  const FailingAgentRepoID: int := 111111111
  const FailingCommitSHA: string := "FailingCommitSHA-1"
  const FailingCommitDate: int := 1736848800
  const PartialFailureRepoURL: string := "https/partialFailureRepo"
  const PartialFailureRepoID: int := 222222222
  const ValidAccessToken: string := "valid-token"
  const InvalidAccessToken: string := "invalid-token"
  const ValidCommitDiff: string := "diff --git a/main.go b/main.go\n+func main() {}"
  const FailingDiff: string := "failing-diff"
  const MockRepoCreatedAt: int := 1735689600
  /** Go's zero `time.Time` (year 1), which `IsZero` reports. */
  const ZeroTime: int := -62135596800

  /** CodeHostFactory.Create: fails exactly for the empty token and the
      invalid test token. */
  function Create(accessToken: string): (r: Result<CodeHost, Error>)
    ensures r.Failure? <==> accessToken == "" || accessToken == InvalidAccessToken
    ensures r.Failure? ==> r.error == Plain("invalid access token")
  {
    if accessToken == "" || accessToken == InvalidAccessToken then Failure(Plain("invalid access token"))
    else Success(Host)
  }

  /** The mock code host as a value of the port. */
  const Host: CodeHost := CodeHost(CanAccessRepo, CreateRepoFromURL, FetchCommits, GetCommitDiff)

  /** CanAccessRepo: only the forbidden test URL is denied. */
  function CanAccessRepo(repoURL: string): (r: Option<Error>)
    ensures r.Some? <==> repoURL == ForbiddenRepoURL
    ensures r.Some? ==> Is(r.value, ErrAccessDenied)
  {
    if repoURL == ForbiddenRepoURL then Some(Bare(ErrAccessDenied)) else None
  }

  /** CreateRepoFromURL: the invalid test URL is rejected; the other test
      URLs get their own repo; any other URL gets the ValidRepoURL repo. */
  function CreateRepoFromURL(url: string): (r: Result<RepoValue, Error>)
    ensures r.Failure? <==> url == InvalidRepoURL
    ensures r.Failure? ==> Is(r.error, ErrInvalidRepoURL)
    ensures r.Success? ==> r.value.lastAnalyzedCommitSHA == "" && r.value.createdAt == MockRepoCreatedAt
    ensures r.Success? && url in {ValidEmptyRepoURL, FailingAgentRepoURL, PartialFailureRepoURL, ValidRepoURL} ==> r.value.url == url
  {
    if url == InvalidRepoURL then Failure(Bare(ErrInvalidRepoURL))
    else if url == ValidEmptyRepoURL then Success(RepoValue(ValidEmptyRepoID, "empty-repo", ValidEmptyRepoURL, "", MockRepoCreatedAt))
    else if url == FailingAgentRepoURL then Success(RepoValue(FailingAgentRepoID, "failing-agent", FailingAgentRepoURL, "", MockRepoCreatedAt))
    else if url == PartialFailureRepoURL then Success(RepoValue(PartialFailureRepoID, "partial-failure", PartialFailureRepoURL, "", MockRepoCreatedAt))
    else Success(RepoValue(ValidRepoID, "chronocode", ValidRepoURL, "", MockRepoCreatedAt))
  }

  /** commitsForRepo: each test repo's newest-first commit list. */
  function CommitsForRepo(url: string): (refs: seq<CommitRef>)
    ensures forall i :: 0 <= i < |refs| ==> refs[i].sha != "" && refs[i].committedAt != ZeroTime
    ensures forall i, j :: 0 <= i < j < |refs| ==> refs[i].sha != refs[j].sha
  {
    if url == ValidEmptyRepoURL then []
    else if url == FailingAgentRepoURL then [CommitRef(FailingCommitSHA, FailingCommitDate)]
    else if url == PartialFailureRepoURL then
      [CommitRef(ValidRepoCommitSHA, ValidRepoCommitDate), CommitRef(FailingCommitSHA, FailingCommitDate)]
    else [CommitRef(ValidRepoCommitSHA, ValidRepoCommitDate), CommitRef(ValidRepoCommitSHA2, ValidRepoCommitDate2)]
  }

  /** The head the mock's loop records: the first sent SHA that is not "". */
  function FirstNonEmptySHA(sent: seq<CommitRef>): (h: string)
    ensures h != "" ==> exists i :: 0 <= i < |sent| && sent[i].sha == h
    ensures sent != [] && sent[0].sha != "" ==> h == sent[0].sha
    ensures (forall i :: 0 <= i < |sent| ==> sent[i].sha == "") ==> h == ""
  {
    if sent == [] then ""
    else if sent[0].sha != "" then sent[0].sha
    else
      var h := FirstNonEmptySHA(sent[1..]);
      assert h != "" ==> sent[1..][0] == sent[1];
      h
  }

  /** What GetRepoCommitSHAsIntoChannel computes for a repo. */
  function FetchCommits(r: RepoValue): (f: Result<Fetched, Error>)
    ensures f.Success?
  {
    var sent := TakeUntil(CommitsForRepo(r.url), r.lastAnalyzedCommitSHA);
    Success(Fetched(FirstNonEmptySHA(sent), sent))
  }

  /** The mock honours the port's documented commit stream: it sends the
      list up to the last analyzed SHA and reports the first one sent. */
  lemma FetchFollowsContract(r: RepoValue)
    ensures FollowsContract(CommitsForRepo(r.url), r, FetchCommits(r).value)
  {
  }

  /** GetRepoCommitSHAsIntoChannel: walks the list newest first, stopping
      before the last analyzed SHA, recording the first SHA as the head. */
  method GetRepoCommitSHAsIntoChannel(r: RepoValue) returns (headSHA: string, sent: seq<CommitRef>)
    ensures FetchCommits(r) == Success(Fetched(headSHA, sent))
    ensures sent == TakeUntil(CommitsForRepo(r.url), r.lastAnalyzedCommitSHA)
  {
    var allCommits := CommitsForRepo(r.url);
    var lastSHA := r.lastAnalyzedCommitSHA;
    headSHA := "";
    sent := [];
    var i := 0;
    while i < |allCommits|
      invariant 0 <= i <= |allCommits|
      invariant sent == allCommits[..i]
      invariant forall j :: 0 <= j < i ==> allCommits[j].sha != lastSHA
      invariant headSHA == FirstNonEmptySHA(sent)
    {
      var ref := allCommits[i];
      if ref.sha == lastSHA {
        break;
      }
      FirstNonEmptySnoc(sent, ref);
      if headSHA == "" {
        headSHA := ref.sha;
      }
      PrefixSnoc(allCommits, i);
      sent := sent + [ref];
      i := i + 1;
    }
    TakeUntilPrefix(allCommits, lastSHA, i);
  }

  /** The head after one more reference. */
  lemma {:induction false} FirstNonEmptySnoc(sent: seq<CommitRef>, ref: CommitRef)
    ensures FirstNonEmptySHA(sent + [ref]) == if FirstNonEmptySHA(sent) == "" then ref.sha else FirstNonEmptySHA(sent)
  {
    if sent == [] {
      assert sent + [ref] == [ref];
    } else {
      assert (sent + [ref])[1..] == sent[1..] + [ref];
      FirstNonEmptySnoc(sent[1..], ref);
    }
  }

  /** A prefix with no stop SHA that ends at the list's end or at a stop SHA
      is what TakeUntil returns. */
  lemma {:induction false} TakeUntilPrefix(refs: seq<CommitRef>, stop: string, n: nat)
    requires n <= |refs|
    requires forall j :: 0 <= j < n ==> refs[j].sha != stop
    requires n == |refs| || refs[n].sha == stop
    ensures TakeUntil(refs, stop) == refs[..n]
  {
    if n == 0 {
    } else {
      TakeUntilPrefix(refs[1..], stop, n - 1);
      assert refs[..n] == [refs[0]] + refs[1..][..n - 1];
    }
  }

  /** GetCommitDiff: the failing diff for the failing commit, the valid diff
      otherwise; it never fails. */
  function GetCommitDiff(r: RepoValue, commitSHA: string): (d: Result<string, Error>)
    ensures d.Success?
    ensures d.value == FailingDiff <==> commitSHA == FailingCommitSHA
  {
    if commitSHA == FailingCommitSHA then Success(FailingDiff) else Success(ValidCommitDiff)
  }

  /** The mock agent's AnalyzeDiff: the failing diff fails with
      ErrAnalysisFailed; any other diff yields one FEATURE result. */
  function AnalyzeDiff(diff: string): (r: Result<seq<AnalysisResult>, Error>)
    ensures r.Failure? <==> diff == FailingDiff
    ensures r.Failure? ==> Is(r.error, ErrAnalysisFailed)
    ensures r.Success? ==> |r.value| == 1 && r.value[0].modificationType == "FEATURE"
  {
    if diff == FailingDiff then Failure(Bare(ErrAnalysisFailed))
    else Success([AnalysisResult("title", "idea", "description", "epic", "FEATURE", [])])
  }

  /** codehost.RepoSearchResult. */
  datatype RepoSearchResult = RepoSearchResult(id: int, name: string, url: string)

  const SearchableRepos: seq<RepoSearchResult> := [
    RepoSearchResult(ValidRepoID, "chronocode", ValidRepoURL),
    RepoSearchResult(ValidEmptyRepoID, "empty-repo", ValidEmptyRepoURL)
  ]

  predicate NameMatches(r: RepoSearchResult, query: string)
  {
    Contains(Lower(r.name), Lower(query))
  }

  /** The entries whose name contains the query, ignoring case, in order. */
  function MatchingByName(all: seq<RepoSearchResult>, query: string): (r: seq<RepoSearchResult>)
    ensures |r| <= |all|
    ensures forall x :: x in r <==> x in all && NameMatches(x, query)
  {
    if all == [] then []
    else
      var rest := MatchingByName(all[1..], query);
      assert forall x :: x in all <==> x == all[0] || x in all[1..];
      if NameMatches(all[0], query) then [all[0]] + rest else rest
  }

  /** With an empty query every entry matches, so the early return and the
      filter agree. */
  lemma {:induction false} EmptyQueryMatchesAll(all: seq<RepoSearchResult>)
    ensures MatchingByName(all, "") == all
  {
    if all != [] {
      EmptyContained(Lower(all[0].name));
      EmptyQueryMatchesAll(all[1..]);
    }
  }

  /** SearchRepositories: everything for an empty query, otherwise the
      case-insensitive name matches in order. */
  method SearchRepositories(query: string) returns (results: seq<RepoSearchResult>)
    ensures results == MatchingByName(SearchableRepos, query)
  {
    results := SearchIn(SearchableRepos, query);
  }

  /** The body of SearchRepositories over its fixed list. */
  method SearchIn(all: seq<RepoSearchResult>, query: string) returns (results: seq<RepoSearchResult>)
    ensures results == MatchingByName(all, query)
  {
    if query == "" {
      EmptyQueryMatchesAll(all);
      return all;
    }
    results := [];
    for i := 0 to |all|
      invariant results == MatchingByName(all[..i], query)
    {
      MatchingStep(all, i, query);
      if Contains(Lower(all[i].name), Lower(query)) {
        results := results + [all[i]];
      }
    }
    assert all[..|all|] == all;
  }

  /** One more entry of the scanned list. */
  lemma {:induction false} MatchingStep(all: seq<RepoSearchResult>, i: nat, query: string)
    requires i < |all|
    ensures MatchingByName(all[..i + 1], query)
         == MatchingByName(all[..i], query) + (if NameMatches(all[i], query) then [all[i]] else [])
  {
    MatchingAppend(all[..i], [all[i]], query);
    PrefixSnoc(all, i);
    assert [all[i]][1..] == [];
  }

  lemma {:induction false} MatchingAppend(a: seq<RepoSearchResult>, b: seq<RepoSearchResult>, query: string)
    ensures MatchingByName(a + b, query) == MatchingByName(a, query) + MatchingByName(b, query)
  {
    if a == [] {
      assert a + b == b;
    } else {
      assert (a + b)[1..] == a[1..] + b;
      MatchingAppend(a[1..], b, query);
    }
  }
}
