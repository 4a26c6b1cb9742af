// The GetSubcommits query of internal/app/query/get_subcommits.go run over
// fresh in-memory stores and the mock code host, as the query's behavioural
// tests set it up: one repo is stored, then the query is asked for an ID.
module GetSubcommitsScenarios {
  import opened Common
  import opened DomainErrors
  import opened RepoEntity
  import opened RepoStore
  import opened SubcommitStore
  import opened CodeHostMock
  import opened GetSubcommitsQuery

  /** Fresh stores holding the one given repo, and a handler over them with
      the mock code-host factory. */
  method SetUp(stored: Option<RepoValue>) returns (handler: GetSubcommitsHandler)
    ensures stored.Some? ==> handler.repoRepository.repos == map[stored.value.url := stored.value]
    ensures stored.None? ==> handler.repoRepository.repos == map[]
    ensures handler.subcommitRepository.subcommits == []
    ensures handler.codeHostFactory == Create
  {
    var repos := new RepoRepository();
    var log := new SubcommitRepository();
    if stored.Some? {
      var aRepo := new Repo.FromValue(stored.value);
      repos.StoreRepo(aRepo);
    }
    handler := new GetSubcommitsHandler(repos, log, Create);
  }

  /** A stored, accessible repo asked for with a valid token gives its (so
      far empty) subcommits and its URL. */
  method ReturnsSubcommitsForExistingRepo() returns (r: Result<QueryResult, Error>)
    ensures r == Success(QueryResult([], ValidRepoURL))
  {
    var v := RepoValue(ValidRepoID, "chronocode", ValidRepoURL, "FFFFFF", ZeroTime);
    var handler := SetUp(Some(v));
    var repos := handler.repoRepository.repos;
    assert v.url in repos && repos[v.url] == v;
    assert v in repos.Values;
    assert forall w :: w in repos.Values ==> w == v;
    r := handler.Handle(ValidRepoID, ValidAccessToken);
  }

  /** An ID that was never stored is not found, whatever the token. */
  method NonExistentRepoNotFound() returns (r: Result<QueryResult, Error>)
    ensures r.Failure? && Is(r.error, ErrRepositoryNotFound)
  {
    var handler := SetUp(None);
    r := handler.Handle(ValidRepoID, ValidAccessToken);
  }

  /** A stored repo asked for with an empty token fails. */
  method EmptyTokenFails() returns (r: Result<QueryResult, Error>)
    ensures r.Failure? && !Is(r.error, ErrRepositoryNotFound)
  {
    var v := RepoValue(ValidRepoID, "chronocode", ValidRepoURL, "", ZeroTime);
    var handler := SetUp(Some(v));
    assert v.url in handler.repoRepository.repos;
    r := handler.Handle(ValidRepoID, "");
  }

  /** The forbidden repo, though stored and asked for with a valid token, is
      denied. */
  method InaccessibleRepoDenied() returns (r: Result<QueryResult, Error>)
    ensures r.Failure? && Is(r.error, ErrAccessDenied)
  {
    var v := RepoValue(ForbiddenRepoID, "forbidden", ForbiddenRepoURL, "", ZeroTime);
    var handler := SetUp(Some(v));
    assert v.url in handler.repoRepository.repos;
    r := handler.Handle(ForbiddenRepoID, ValidAccessToken);
  }
}
