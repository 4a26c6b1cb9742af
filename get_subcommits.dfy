// The GetSubcommits query of internal/app/query/get_subcommits.go over the
// in-memory stores. The query changes nothing.
module GetSubcommitsQuery {
  import opened Common
  import opened DomainErrors
  import opened RepoEntity
  import opened RepoStore
  import opened SubcommitStore
  import opened CodeHostPort

  /** GetSubcommitsResult: the repo's subcommits and its URL. */
  datatype QueryResult = QueryResult(subcommits: seq<Subcommit>, repoURL: string)

  class GetSubcommitsHandler {
    const repoRepository: RepoRepository
    const subcommitRepository: SubcommitRepository
    const codeHostFactory: Factory

    /** NewGetSubcommitsHandler. */
    constructor (repoRepository: RepoRepository, subcommitRepository: SubcommitRepository, codeHostFactory: Factory)
      ensures this.repoRepository == repoRepository && this.subcommitRepository == subcommitRepository
      ensures this.codeHostFactory == codeHostFactory
    {
      this.repoRepository := repoRepository;
      this.subcommitRepository := subcommitRepository;
      this.codeHostFactory := codeHostFactory;
    }

    /** Handle: the repo is looked up by ID before the token or the access
        are checked; on success, the repo's stored subcommits in insertion
        order and its URL. The lookup may pick any stored repo with the ID. */
    method Handle(repoID: int, accessToken: string) returns (r: Result<QueryResult, Error>)
      ensures (forall u :: u in repoRepository.repos ==> repoRepository.repos[u].id != repoID) ==>
        r == Failure(Bare(ErrRepositoryNotFound))
      ensures (exists u :: u in repoRepository.repos && repoRepository.repos[u].id == repoID) &&
              codeHostFactory(accessToken).Failure? ==>
        r == Failure(codeHostFactory(accessToken).error)
      ensures (exists u :: u in repoRepository.repos && repoRepository.repos[u].id == repoID) &&
              codeHostFactory(accessToken).Success? && r.Failure? ==>
        exists v :: v in repoRepository.repos.Values && v.id == repoID &&
          codeHostFactory(accessToken).value.canAccessRepo(v.url) == Some(r.error)
      ensures (exists u :: u in repoRepository.repos && repoRepository.repos[u].id == repoID) &&
              codeHostFactory(accessToken).Success? &&
              (forall v :: v in repoRepository.repos.Values && v.id == repoID ==>
                 codeHostFactory(accessToken).value.canAccessRepo(v.url).None?) ==>
        r.Success?
      ensures r.Success? ==>
        codeHostFactory(accessToken).Success? &&
        r.value.subcommits == OfRepo(subcommitRepository.subcommits, repoID) &&
        exists v :: v in repoRepository.repos.Values && v.id == repoID && v.url == r.value.repoURL &&
          codeHostFactory(accessToken).value.canAccessRepo(v.url).None?
    {
      var found := repoRepository.GetRepoByID(repoID);
      if found.Failure? {
        return Failure(found.error);
      }
      var foundRepo := found.value;
      var created := codeHostFactory(accessToken);
      if created.Failure? {
        return Failure(created.error);
      }
      var accessErr := created.value.canAccessRepo(foundRepo.url);
      if accessErr.Some? {
        return Failure(accessErr.value);
      }
      var repoSubcommits := subcommitRepository.GetSubcommits(foundRepo.id);
      return Success(QueryResult(repoSubcommits, foundRepo.url));
    }
  }
}
