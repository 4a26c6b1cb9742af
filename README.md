# Chronocode core in Dafny

Chronocode analyses a GitHub repository commit by commit. An LLM agent splits each commit's diff into
"subcommits" (title, idea, description, epic, modification type, files). These are stored per repository and
shown on a timeline. This project models, and proves properties of, the following parts of the system.

- **Timeline view-model** (`frontend/src/components/timeline/timeline-container.tsx`):
  - the type and text filter;
  - grouping by calendar day into descending buckets;
  - sibling lookup;
  - toggling an active type.
- **Client state**:
  - the analysis hook (`web/src/lib/hooks/use-analysis.ts`);
  - the progress-modal step classifier;
  - the auth provider;
  - the edge route gate (`frontend/src/middleware.ts`).
- **Backend command and query**:
  - `AnalyzeRepoHandler.Handle` / `HandleAsync` / `analyzeCommits` (`internal/app/command/analyze_repo.go`);
  - `GetSubcommitsHandler.Handle` (`internal/app/query/get_subcommits.go`).

  Both run over the in-memory adapters:
  - a repo table keyed by URL;
  - an append-only subcommit log;
  - a per-URL lock table;
  - the mock code host and mock agent.
- **Pure mappings**:
  - domain error to HTTP status;
  - service-error category to API error;
  - GitHub URL to `(owner, name)`;
  - the OAuth callback guards;
  - `Commit.ApplyAnalysis`;
  - the `Repo` entity.

**Modelling choices**
- One Dafny module per source file. `Common` holds:
  - `Option`/`Result`;
  - ASCII lower-casing, substring and prefix tests;
  - JavaScript's string order (`Below`).
- `DomainErrors` models Go's sentinel errors, `errors.Is` and `errors.Join`:
  - `Bare` is a sentinel returned as is.
  - `Wrapped` is a sentinel wrapped with `%w` around a cause formatted with `%v`; the cause is not in the chain.
  - `Joined` is the result of `errors.Join`. It is nil when every argument is nil.
- The code host and the agent are ports. They are passed in as values of function type. The mock code host
  (`internal/adapters/codehost_mock.go`) and the mock agent (`internal/adapters/agent_mock.go`) are concrete instances.
- Objects that the source updates in place are classes whose methods are proved against value-level functions:
  - the stores;
  - the locker;
  - the `Repo` entity;
  - `Commit` and its subcommits;
  - the hook and provider state.
- `time.Time` is a Unix second count. Go's zero time is `-62135596800`.

## Model

| member | source | states |
|---|---|---|
| Timeline.Filtered | frontend/src/components/timeline/timeline-container.tsx:64-76 | a subcommit survives iff it is in the input and visible: its type is active, and with a non-empty query the lower-cased title, description or idea contains the lower-cased query (an absent field never matches); the result is no longer than the input |
| Timeline.FilteredIsSubsequence | frontend/src/components/timeline/timeline-container.tsx:64-76 | the filtered list is an order-preserving subsequence of the input, so the result count never exceeds the total |
| Timeline.FilteredIdempotent | frontend/src/components/timeline/timeline-container.tsx:64-76 | filtering twice with the same settings equals filtering once |
| Timeline.DefaultFilterKeepsValid | frontend/src/components/timeline/timeline-container.tsx:35-76 | with the seven default types and an empty query, a list whose types are all valid passes unchanged |
| Timeline.UnknownTypeHiddenByDefault | frontend/src/components/timeline/timeline-container.tsx:35-66 | a subcommit whose type is not one of the seven is hidden by the default set |
| Timeline.ToggleType | frontend/src/components/timeline/timeline-container.tsx:52-62 | the toggled type's membership flips and every other type's is unchanged |
| Timeline.ToggleTwice | frontend/src/components/timeline/timeline-container.tsx:52-62 | toggling a type twice restores the set |
| Timeline.Siblings | frontend/src/components/timeline/timeline-container.tsx:80-87 | nothing selected gives no siblings; otherwise exactly the entries of the unfiltered list with the selected commit SHA and a different id |
| Timeline.SiblingsInSourceOrder | frontend/src/components/timeline/timeline-container.tsx:80-87 | siblings come in source order and never include the selection itself |
| Timeline.DayKey | frontend/src/components/timeline/timeline-container.tsx:21-23 | an absent or empty timestamp files under "unknown", any other under its text before the first 'T' |
| Timeline.SortDescending | frontend/src/components/timeline/timeline-container.tsx:27 | the day keys come out strictly descending in string order, each exactly once |
| Timeline.BucketByDay | frontend/src/components/timeline/timeline-container.tsx:19-26 | after the loop every day maps to exactly that day's subcommits in input order |
| Timeline.GroupByDay | frontend/src/components/timeline/timeline-container.tsx:18-28 | buckets are strictly descending by key, each holds exactly its day's subcommits in input order, none is empty, and there is one per day present |
| Timeline.GroupingIsPartition | frontend/src/components/timeline/timeline-container.tsx:18-27 | the buckets together hold the input as a multiset: each subcommit in exactly one bucket |
| Timeline.BucketOfSubcommit | frontend/src/components/timeline/timeline-container.tsx:21-25 | a subcommit is in a bucket iff the bucket's key is its day key |
| Timeline.UnknownBucketFirst | frontend/src/components/timeline/timeline-container.tsx:21-27 | among date keys, an "unknown" bucket sorts first |
| AnalysisHook.Started | web/src/lib/hooks/use-analysis.ts:12-13 | starting sets analysing and clears the error before the outcome is known, keeping repoId |
| AnalysisHook.Settled | web/src/lib/hooks/use-analysis.ts:15-21 | success records the returned id; failure records the message and stops analysing, leaving repoId |
| AnalysisHook.FailureMessage | web/src/lib/hooks/use-analysis.ts:19 | an Error's message, or "Analysis failed" for any other thrown value |
| AnalysisHook.StartResolved | web/src/lib/hooks/use-analysis.ts:11-17 | after a successful start the hook is still analysing, with the returned id and no error |
| AnalysisHook.StartRejected | web/src/lib/hooks/use-analysis.ts:11-21 | after a failed start the hook is not analysing, keeps the old repoId and holds the failure message (non-empty when a non-Error value was thrown; an Error's own message may be empty) |
| AnalysisHook.AnalysisHookCells.constructor | web/src/lib/hooks/use-analysis.ts:7-9 | starts at (false, null, null) |
| AnalysisHook.AnalysisHookCells.BeginAnalysis | web/src/lib/hooks/use-analysis.ts:12-13 | the cells become Started of the old state |
| AnalysisHook.AnalysisHookCells.SettleAnalysis | web/src/lib/hooks/use-analysis.ts:15-21 | the cells become Settled of the old state |
| AnalysisHook.AnalysisHookCells.StartAnalysis | web/src/lib/hooks/use-analysis.ts:11-22 | the cells go through Started then Settled; success keeps analysing with the id, failure stops with repoId unchanged |
| AnalysisHook.AnalysisHookCells.Reset | web/src/lib/hooks/use-analysis.ts:24-28 | from any state the cells return to the initial state |
| ProgressModal.IndexOf | web/src/components/home/analysis-progress-modal.tsx:32-34 | preparing, analyzing and ready have indices 0, 1 and 2; anything else is -1 |
| ProgressModal.GetStepStatus | web/src/components/home/analysis-progress-modal.tsx:28-39 | done iff the step's index is below the current one, active iff equal, pending otherwise |
| ProgressModal.ExactlyOneActive | web/src/components/home/analysis-progress-modal.tsx:32-38 | with a current step in the order, exactly one step is active |
| ProgressModal.AllPendingOutsideOrder | web/src/components/home/analysis-progress-modal.tsx:33-38 | with a current step outside the order, every step is pending |
| ProgressModal.DoneStaysDone | web/src/components/home/analysis-progress-modal.tsx:36-38 | advancing the current step never undoes a done step |
| ProgressModal.OffersViewTimeline | web/src/components/home/analysis-progress-modal.tsx:57-96 | "View Timeline" is offered iff there is no error, the step is "ready" and repoId is truthy (non-zero) |
| AuthProvider.CheckedUser | web/src/providers/auth-provider.tsx:34-46 | a user is set only after a logged-in status and a fetched profile; any failure clears it; a logged-out status leaves it |
| AuthProvider.CheckFromInitial | web/src/providers/auth-provider.tsx:30-42 | from the initial state a user exists after the check iff the status says logged in and the profile arrives |
| AuthProvider.AuthState.constructor | web/src/providers/auth-provider.tsx:30-31 | starts with no user and loading |
| AuthProvider.AuthState.IsAuthenticated | web/src/providers/auth-provider.tsx:65 | authenticated iff a user is present |
| AuthProvider.AuthState.CheckAuth | web/src/providers/auth-provider.tsx:34-46 | loading is false afterwards whatever the outcome, and the user is the checked one |
| AuthProvider.AuthState.Login | web/src/providers/auth-provider.tsx:50-52 | navigates to the backend login URL and changes no state |
| AuthProvider.AuthState.Logout | web/src/providers/auth-provider.tsx:54-61 | the user is cleared even when the server call fails, whose rejection is passed on |
| EdgeMiddleware.Middleware | frontend/src/middleware.ts:8-19 | a protected path (prefix "/home" or "/timeline") without a token redirects to "/"; exactly "/" with a token redirects to "/home"; all else passes |
| EdgeMiddleware.RulesExclusive | frontend/src/middleware.ts:11-17 | a redirect to "/" needs no token and one to "/home" needs a token, so the two never both apply |
| EdgeMiddleware.RedirectTargetsSettle | frontend/src/middleware.ts:11-19 | following a redirect does not redirect again |
| DomainErrors.NonNil | internal/app/command/analyze_repo.go:336 | the non-nil arguments of a join, and only they |
| DomainErrors.Join | internal/app/command/analyze_repo.go:136 | errors.Join is nil iff every argument is nil |
| DomainErrors.JoinAll | internal/app/command/analyze_repo.go:336 | joining the collected errors is nil iff there are none |
| DomainErrors.JoinIs | internal/app/command/analyze_repo.go:136 | errors.Is on a join holds iff it holds for one of the non-nil arguments |
| DomainErrors.WrappedIs | internal/app/command/analyze_repo.go:302-312 | a %w-wrapped sentinel matches only itself; the %v cause is not in the chain |
| RepoEntity.Repo.constructor | internal/domain/repo/repo.go:13-41 | the getters return exactly the arguments; IsURL holds exactly for the given url |
| RepoEntity.Repo.FromValue | internal/domain/repo/repo.go:13-15 | a Repo rebuilt from a stored value has that value |
| RepoEntity.Repo.SetLastAnalyzedCommitSHA | internal/domain/repo/repo.go:43-45 | only the last analysed SHA changes, to the argument |
| RepoStore.Lookup | internal/adapters/repo_mock_repository.go:17-24 | a stored URL gives its repo; any other gives ErrRepositoryNotFound |
| RepoStore.Stored | internal/adapters/repo_mock_repository.go:44-47 | storing adds exactly the repo's URL to the keys |
| RepoStore.GetAfterStore | internal/adapters/repo_mock_repository.go:17-47 | after storing r, looking up r's URL gives r |
| RepoStore.StoreLeavesOthers | internal/adapters/repo_mock_repository.go:44-47 | storing changes no other URL's entry |
| RepoStore.RestoreDoesNotDuplicate | internal/adapters/repo_mock_repository.go:44-47 | re-storing a repo keeps the number of entries |
| RepoStore.StoreKeepsFiling | internal/adapters/repo_mock_repository.go:44-47 | every entry stays filed under its own URL |
| RepoStore.RepoRepository.constructor | internal/adapters/repo_mock_repository.go:13-15 | starts empty |
| RepoStore.RepoRepository.GetRepo | internal/adapters/repo_mock_repository.go:17-24 | is Lookup on the current table |
| RepoStore.RepoRepository.GetRepoByID | internal/adapters/repo_mock_repository.go:26-33 | returns a stored repo with that id if one exists, and ErrRepositoryNotFound iff none does |
| RepoStore.RepoRepository.ListRepos | internal/adapters/repo_mock_repository.go:35-42 | exactly one element per stored URL, each the stored repo |
| RepoStore.RepoRepository.StoreRepo | internal/adapters/repo_mock_repository.go:44-47 | the table becomes Stored of the old table and a copy of the repo |
| SubcommitStore.NewSubcommit | internal/domain/subcommit/subcommit.go:18-30 | the subcommit carries exactly the given fields, with id 0 |
| SubcommitStore.OfRepo | internal/adapters/subcommit_mock_repository.go:17-26 | exactly the logged subcommits with that repo id, in log order |
| SubcommitStore.OfRepoAppend | internal/adapters/subcommit_mock_repository.go:17-42 | the subcommits of a repo after an append are the old ones followed by the appended ones of that repo |
| SubcommitStore.StoringOtherRepoIsolated | internal/adapters/subcommit_mock_repository.go:17-42 | appending another repo's subcommits leaves a repo's list unchanged |
| SubcommitStore.AnalyzedAppend | internal/adapters/subcommit_mock_repository.go:28-42 | a commit is analysed after an append iff it was before or the appended subcommits cover it |
| SubcommitStore.SubcommitRepository.constructor | internal/adapters/subcommit_mock_repository.go:13-15 | starts with an empty log |
| SubcommitStore.SubcommitRepository.GetSubcommits | internal/adapters/subcommit_mock_repository.go:17-26 | the loop returns OfRepo of the log |
| SubcommitStore.SubcommitRepository.HasSubcommitsForCommit | internal/adapters/subcommit_mock_repository.go:28-35 | true iff a logged subcommit has both that repo id and that SHA |
| SubcommitStore.SubcommitRepository.StoreSubcommits | internal/adapters/subcommit_mock_repository.go:37-42 | appends every received subcommit, in order |
| AnalysisLocker.Acquired | internal/adapters/analysis_locker.go:19-33 | a free URL becomes held; a held URL fails with ErrAnalysisInProgress and the table is unchanged |
| AnalysisLocker.Released | internal/adapters/analysis_locker.go:32 | releasing frees exactly that URL |
| AnalysisLocker.AcquireHeldFails | internal/adapters/analysis_locker.go:28-30 | acquiring a held URL fails and changes nothing |
| AnalysisLocker.ReleaseMakesAcquirable | internal/adapters/analysis_locker.go:19-33 | after the release the URL can be acquired again |
| AnalysisLocker.LocksIndependent | internal/adapters/analysis_locker.go:20-26 | acquiring or releasing one URL does not change another's lock |
| AnalysisLocker.InMemoryLocker.constructor | internal/adapters/analysis_locker.go:15-17 | starts with no locks |
| AnalysisLocker.InMemoryLocker.Acquire | internal/adapters/analysis_locker.go:19-33 | the table and the error are those of Acquired |
| AnalysisLocker.InMemoryLocker.Release | internal/adapters/analysis_locker.go:32 | the table becomes Released |
| AnalysisLocker.InMemoryLocker.IsLocked | internal/adapters/analysis_locker.go:35-49 | false for an unseen URL, true iff held; the lock state does not change |
| CodeHostPort.TakeUntil | internal/domain/codehost/codehost.go:29-31 | a prefix of the commits containing no stop SHA, ending just before the first stop SHA |
| CodeHostPort.TakeUntilAbsent | internal/domain/codehost/codehost.go:29-31 | if the stop SHA is absent every commit is sent |
| CodeHostMock.Create | internal/adapters/codehost_mock.go:51-57 | fails iff the token is "" or the invalid token |
| CodeHostMock.CanAccessRepo | internal/adapters/codehost_mock.go:65-71 | denies access iff the URL is the forbidden one |
| CodeHostMock.CreateRepoFromURL | internal/adapters/codehost_mock.go:73-91 | fails iff the URL is the invalid one; otherwise a repo with no last analysed SHA |
| CodeHostMock.CommitsForRepo | internal/adapters/codehost_mock.go:93-112 | each repo's commit list has distinct non-empty SHAs with real dates |
| CodeHostMock.FirstNonEmptySHA | internal/adapters/codehost_mock.go:123-129 | the head is the first sent SHA, or "" when none was sent |
| CodeHostMock.FetchFollowsContract | internal/adapters/codehost_mock.go:114-130 | the mock satisfies the port's contract for every repo |
| CodeHostMock.GetRepoCommitSHAsIntoChannel | internal/adapters/codehost_mock.go:114-130 | the loop sends the commits before the first one whose SHA is the last analysed one, and returns the first sent SHA |
| CodeHostMock.GetCommitDiff | internal/adapters/codehost_mock.go:132-138 | the failing diff is returned iff the SHA is the failing commit |
| CodeHostMock.AnalyzeDiff | internal/adapters/agent_mock.go:15-23 | fails with ErrAnalysisFailed iff the diff is the failing one; otherwise one FEATURE result |
| CodeHostMock.MatchingByName | internal/adapters/codehost_mock.go:150-167 | the entries whose name contains the query case-insensitively, and only they |
| CodeHostMock.EmptyQueryMatchesAll | internal/adapters/codehost_mock.go:156-158 | an empty query returns everything |
| CodeHostMock.MatchingAppend | internal/adapters/codehost_mock.go:160-165 | matching keeps order across concatenation |
| CodeHostMock.SearchRepositories | internal/adapters/codehost_mock.go:150-167 | the loop returns, in order, the matching repos |
| CodeHostMock.SearchIn | internal/adapters/codehost_mock.go:160-166 | the loop over any list returns its matching entries in order |
| AnalyzeRepoCommand.Emit | internal/app/command/analyze_repo.go:317-322 | one subcommit per result, each with the commit's SHA and date and the repo's id |
| AnalyzeRepoCommand.AnalyzeOne | internal/app/command/analyze_repo.go:281-322 | an analysed commit is skipped; a failure emits nothing and records one error |
| AnalyzeRepoCommand.EmittedCarryCommit | internal/app/command/analyze_repo.go:320-322 | every emitted subcommit carries the repo id and one analysed commit's SHA and date |
| AnalyzeRepoCommand.OneEmittedWithinAll | internal/app/command/analyze_repo.go:256-337 | what one commit emits is among what the whole run emits, so other commits' failures do not drop it |
| AnalyzeRepoCommand.NoErrorsIffAllSucceeded | internal/app/command/analyze_repo.go:297-336 | the run has no error iff every commit was skipped or had its diff and analysis succeed |
| AnalyzeRepoCommand.AgentFailureSurfaces | internal/app/command/analyze_repo.go:307-336 | one agent failure makes the joined error match ErrAnalysisFailed |
| AnalyzeRepoCommand.RerunEmitsNothing | internal/app/command/analyze_repo.go:281-293 | against a log covering every commit that emitted, a rerun emits nothing |
| AnalyzeRepoCommand.SecondPassEmitsNothing | internal/app/command/analyze_repo.go:281-293 | after storing a run's output, repeating the run emits nothing |
| AnalyzeRepoCommand.ReturnedErrorMatches | internal/app/command/analyze_repo.go:136 | the error Handle returns after a completed run is nil iff no commit failed, and matches a sentinel iff one commit error does, through both joins |
| AnalyzeRepoCommand.Finished | internal/app/command/analyze_repo.go:122-124 | the last analysed SHA becomes the head only with no error and a non-empty head; nothing else changes |
| AnalyzeRepoCommand.Prepared | internal/app/command/analyze_repo.go:61-77 | a stored repo is reused, otherwise the code host creates it |
| AnalyzeRepoCommand.AnalyzeRepoHandler.constructor | internal/app/command/analyze_repo.go:33-35 | the handler holds the given stores, agent, factory and locker |
| AnalyzeRepoCommand.AnalyzeRepoHandler.AnalyzeCommits | internal/app/command/analyze_repo.go:256-337 | the loop's emitted subcommits and errors are those of AnalyzeAll against the log |
| AnalyzeRepoCommand.AnalyzeRepoHandler.RunStages | internal/app/command/analyze_repo.go:82-127 | a fetch error changes nothing; otherwise the emitted subcommits are appended and the repo's SHA is finished |
| AnalyzeRepoCommand.AnalyzeRepoHandler.Handle | internal/app/command/analyze_repo.go:37-137 | factory, access, lock and repo-creation failures return that error and store nothing; a fetch failure returns its error and stores nothing; otherwise the emitted subcommits are appended, the finished repo stored, its id returned with `errors.Join(analysisErr, storageErr)` where the storage error is nil; the lock is released on every path |
| AnalyzeRepoCommand.AnalyzeRepoHandler.HandleAsync | internal/app/command/analyze_repo.go:139-195 | the same guards; on success the repo is stored before the pipeline, its id returned and the lock left held |
| AnalyzeRepoCommand.AnalyzeRepoHandler.RunPipeline | internal/app/command/analyze_repo.go:197-254 | the background pipeline appends the emitted subcommits, stores the finished repo unless the fetch failed, and releases the lock |
| AnalyzeScenarios.GoodCommit | internal/adapters/agent_mock.go:15-23 | an unanalysed ordinary commit emits exactly one subcommit and no error |
| AnalyzeScenarios.FailingCommit | internal/adapters/codehost_mock.go:132-138 | the failing commit emits nothing and records an analysis failure |
| AnalyzeScenarios.ValidRepoFirstAnalysis | internal/app/command/analyze_repo_test.go:57-74 | the valid repo's first run emits one subcommit per mock commit (two), all for that repo with real commit dates, no error, and the newest commit becomes the last analysed SHA |
| AnalyzeScenarios.PartialFailureAnalysis | internal/app/command/analyze_repo_test.go:181-199 | the partial-failure repo stores its good commit's subcommit and reports ErrAnalysisFailed |
| AnalyzeScenarios.FailingAgentAnalysis | internal/app/command/analyze_repo_test.go:159-177 | the failing-agent repo emits nothing and reports ErrAnalysisFailed |
| AnalyzeScenarios.EmptyRepoAnalysis | internal/app/command/analyze_repo_test.go:76-82 | the empty repo emits nothing and has no error |
| AnalyzeScenarios.OutdatedRepoRefetchesAll | internal/app/command/analyze_repo_test.go:84-91 | a repo whose last SHA is unknown refetches every commit |
| GetSubcommitsQuery.GetSubcommitsHandler.constructor | internal/app/query/get_subcommits.go:28-30 | the handler holds the given stores and factory |
| GetSubcommitsQuery.GetSubcommitsHandler.Handle | internal/app/query/get_subcommits.go:32-63 | an unknown id gives ErrRepositoryNotFound before any token check; for a stored id a factory failure gives its error, any other failure is the access error of a stored repo with that id, and with a usable token and access granted to every stored repo with that id the query succeeds; success gives exactly the repo's subcommits in insertion order and its URL |
| GetSubcommitsScenarios.ReturnsSubcommitsForExistingRepo | internal/app/query/get_subcommits_test.go:53-60 | a stored valid repo asked for with a valid token gives no subcommits and the repo's URL |
| GetSubcommitsScenarios.NonExistentRepoNotFound | internal/app/query/get_subcommits_test.go:48-51 | an id never stored fails with ErrRepositoryNotFound |
| GetSubcommitsScenarios.EmptyTokenFails | internal/app/query/get_subcommits_test.go:36-40 | a stored repo asked for with an empty token fails, and not with not-found |
| GetSubcommitsScenarios.InaccessibleRepoDenied | internal/app/query/get_subcommits_test.go:42-46 | the stored forbidden repo is denied with ErrAccessDenied |
| AnalysisCommit.Subcommit.constructor | internal/domain/analysis/subcommit.go:7-17 | the fields are the given ones |
| AnalysisCommit.Subcommit.ApplyAnalysis | internal/domain/analysis/subcommit.go:19-22 | only the SHA and timestamp change |
| AnalysisCommit.CommitAnalysis.constructor | internal/domain/analysis/commit.go:23-25 | holds the description and the slots |
| AnalysisCommit.Commit.constructor | internal/domain/analysis/commit.go:7-20 | a commit with its SHA and time, no description and no subcommits |
| AnalysisCommit.Commit.ApplyAnalysis | internal/domain/analysis/commit.go:22-31 | the description is taken over; the analysis's own subcommits are stamped in place and appended after the existing ones, in order |
| HttpResponse.MapDomainError | internal/ports/http/response.go:24-36 | the first matching case wins: access denied 403, invalid URL 400, not found 404, in progress 409, anything else 500 |
| HttpResponse.WriteError | internal/ports/http/response.go:19-22 | the mapped status with the body {"error": message} |
| HttpResponse.StatusesAreKnown | internal/ports/http/response.go:24-36 | only five statuses occur |
| HttpResponse.FirstMatchWins | internal/ports/http/response.go:25-36 | a join of not-found and access-denied maps to 403 |
| HttpResponse.AnalysisFailureIsInternal | internal/ports/http/response.go:34-35 | a join of analysis failures maps to 500 "internal server error" |
| ApiError.FromError | internal/api/http/handler/error.go:15-34 | bad request 400, internal failure 500, other categories status 0, each with the specific error's text; a non-service error 500 with the generic message |
| ApiError.StatusesOfFromError | internal/api/http/handler/error.go:15-34 | the status is 0, 400 or 500 |
| RepoUrlParser.Split | internal/utils/parser.go:20 | at least one segment, none containing a slash |
| RepoUrlParser.SplitJoin | internal/utils/parser.go:20 | joining the segments with slashes gives back the text |
| RepoUrlParser.TrimPrefix | internal/utils/parser.go:20 | one leading occurrence is removed |
| RepoUrlParser.TrimSuffix | internal/utils/parser.go:26 | one trailing occurrence is removed |
| RepoUrlParser.ParseRepoURL | internal/utils/parser.go:9-30 | a parse error is returned; any host but github.com is rejected; owner and name contain no slash |
| RepoUrlParser.ParsesOwnerAndName | internal/utils/parser.go:20-28 | "/owner/name" parses to owner and name minus one ".git", and later segments are ignored |
| RepoUrlParser.EmptyNameAccepted | internal/utils/parser.go:21 | "/owner/" gives an empty name |
| RepoUrlParser.SingleSegmentRejected | internal/utils/parser.go:21-23 | a single segment fails with the format error |
| OAuthCallback.GetLoginURL | internal/application/auth.go:23-25 | the provider's URL for the fixed state string |
| OAuthCallback.HandleCallback | internal/application/auth.go:27-42 | a state mismatch, then an empty code, then an exchange failure (with its cause kept) fail in that order; otherwise the access token |
| OAuthCallback.GuardsPrecedeExchange | internal/application/auth.go:28-34 | a rejected state or empty code fails whatever the provider, so no code is exchanged |
| OAuthCallback.LoginStateAccepted | internal/application/auth.go:24-28 | the state the login URL uses passes the callback's state check |
| OAuthCallback.ExchangeCauseVisible | internal/application/auth.go:36-39 | errors.Is sees through the wrap to the exchange's error |

## Left out

- Goroutines, channels, `sync.WaitGroup`, the semaphore, atomic counters and context cancellation in `analyze_repo.go`
  are not modelled. The three stages run one after the other:
  - the fetch stage delivers its whole list;
  - every commit is analysed against the log as it stood at the start;
  - the storage stage then appends.
  Both the order of errors within the join and the order in which emitted subcommits are appended to the log follow
  the commit order. In the source each commit is analysed in its own goroutine (`analyze_repo.go:272-323`), so both
  orders depend on scheduling; the `Handle`, `RunStages` and `RunPipeline` contracts, and the "insertion order" that
  `GetSubcommits` returns afterwards, fix this one ordering.
- Partial progress before a fetch error is not modelled: a fetch error stores no subcommits. The mock code host
  never fails to fetch.
- The in-memory stores never fail, so the storage-error branches and the dead `!errors.Is(err, ErrRepositoryNotFound)`
  branch (`analyze_repo.go:62-66`) are not reachable in the model.
- `HandleAsync`'s background goroutine is modelled as a separate method, `RunPipeline`, that a caller runs afterwards.
  The interleaving of that goroutine with other requests is not modelled.
- The lock table is a set of held URLs. Real mutex blocking is not modelled, and neither is the panic on a double release.
  `Release` requires the URL to be held.
- I/O is left out: HTTP, JSON encoding, cookies, `window.location` navigation and `api.*` fetches. Network outcomes
  are inputs to the model.
- Date parsing and `toISOString` normalisation are left out. `createdAt` is already an ISO string, and the day key is
  its text before the first 'T'.
- Unicode `toLowerCase` is modelled as ASCII lower-casing.
- `groupByDay`'s final `.sort().reverse()` is modelled as ordering the keys descending. JavaScript compares the
  stringified `[key, values]` entries. That orders the same way as the keys whenever no key is a proper prefix of
  another, which holds for the keys the source produces: `YYYY-MM-DD` dates of one length and "unknown", which
  differs from every date in its first character. The model's day key is any text before 'T', so it relies on that.
- The `web` analysis hook as written has no `step` field and no timer. The model follows the code.
- The fields of `CommitAnalysis` are taken from their use in `commit.go`; the file that declares them is not part of this
  model. `Commit`'s other fields are not modelled.
- GetSubcommitsQuery.GetSubcommitsHandler.Handle: when several stored repos share the id, the map scan may pick any of
  them, so an access error is stated as "the code host's error for some stored repo with that id", and success is
  promised only when access is granted to all of them.
- The texts of the OAuth callback errors (`internal/application/auth.go:29`, `33` and `38`) are not modelled. `Error`
  values carry no text, so the exchange failure's message, "failed to exchange code for token: " followed by the cause's
  own text, cannot be written out. Callers observe the error's kind and its wrapped cause through `HandleCallback` and
  `CallbackIs`.
- Real GitHub clients, LLM agents, SQL/Redis adapters, HTTP handlers and setup are not part of this model. Only the mock
  code host and the mock agent are concrete.
