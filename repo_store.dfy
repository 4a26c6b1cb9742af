// The in-memory repo store of internal/adapters/repo_mock_repository.go: a
// map from URL to a copy of the Repo struct. No operation of this adapter
// ever fails except the two lookups, which report repo.ErrRepositoryNotFound.
module RepoStore {
  import opened Common
  import opened DomainErrors
  import opened RepoEntity

  /** The store's invariant: every entry is filed under its own URL, which
      holds because StoreRepo is the only writer. */
  predicate FiledByURL(repos: map<string, RepoValue>)
  {
    forall u :: u in repos ==> repos[u].url == u
  }

  /** GetRepo on the map's contents. */
  function Lookup(repos: map<string, RepoValue>, url: string): (r: Result<RepoValue, Error>)
    ensures r.Success? <==> url in repos
    ensures r.Failure? ==> r.error == Bare(ErrRepositoryNotFound)
  {
    if url in repos then Success(repos[url]) else Failure(Bare(ErrRepositoryNotFound))
  }

  /** StoreRepo on the map's contents. */
  function Stored(repos: map<string, RepoValue>, v: RepoValue): (r: map<string, RepoValue>)
    ensures r.Keys == repos.Keys + {v.url}
  {
    repos[v.url := v]
  }

  /** After storing a repo, looking up its URL returns it. */
  lemma GetAfterStore(repos: map<string, RepoValue>, v: RepoValue)
    ensures Lookup(Stored(repos, v), v.url) == Success(v)
  {
  }

  /** Storing a repo leaves every other URL's lookup unchanged. */
  lemma StoreLeavesOthers(repos: map<string, RepoValue>, v: RepoValue, url: string)
    requires url != v.url
    ensures Lookup(Stored(repos, v), url) == Lookup(repos, url)
  {
  }

  /** Re-storing under a URL that is already present never adds an entry. */
  lemma RestoreDoesNotDuplicate(repos: map<string, RepoValue>, v: RepoValue)
    requires v.url in repos
    ensures |Stored(repos, v).Keys| == |repos.Keys|
  {
    assert Stored(repos, v).Keys == repos.Keys;
  }

  /** Storing keeps every entry filed under its own URL. */
  lemma StoreKeepsFiling(repos: map<string, RepoValue>, v: RepoValue)
    requires FiledByURL(repos)
    ensures FiledByURL(Stored(repos, v))
  {
  }

  class RepoRepository {
    var repos: map<string, RepoValue>

    predicate Valid()
      reads this
    {
      FiledByURL(repos)
    }

    /** NewRepoRepository: an empty map. */
    constructor ()
      ensures Valid() && repos == map[]
    {
      repos := map[];
    }

    /** GetRepo: the stored copy for the URL, or not-found. */
    function GetRepo(url: string): (r: Result<RepoValue, Error>)
      reads this
      ensures r == Lookup(repos, url)
    {
      Lookup(repos, url)
    }

    /** GetRepoByID: a scan of the map in unspecified order that returns the
        first entry with that ID, or not-found when there is none. */
    method GetRepoByID(id: int) returns (r: Result<RepoValue, Error>)
      ensures r.Success? ==> r.value in repos.Values && r.value.id == id
      ensures r.Failure? <==> forall u :: u in repos ==> repos[u].id != id
      ensures r.Failure? ==> r.error == Bare(ErrRepositoryNotFound)
    {
      var unseen := repos.Keys;
      while unseen != {}
        invariant unseen <= repos.Keys
        invariant forall u :: u in repos && u !in unseen ==> repos[u].id != id
        decreases |unseen|
      {
        var u :| u in unseen;
        if repos[u].id == id {
          return Success(repos[u]);
        }
        unseen := unseen - {u};
      }
      return Failure(Bare(ErrRepositoryNotFound));
    }

    /** ListRepos: one copy per stored URL, in unspecified order. */
    method ListRepos() returns (r: seq<RepoValue>)
      requires Valid()
      ensures |r| == |repos.Keys|
      ensures forall u :: u in repos ==> repos[u] in r
      ensures forall v :: v in r ==> v.url in repos && repos[v.url] == v
      ensures forall i, j :: 0 <= i < j < |r| ==> r[i].url != r[j].url
    {
      r := [];
      var unseen := repos.Keys;
      while unseen != {}
        invariant unseen <= repos.Keys
        invariant |r| + |unseen| == |repos.Keys|
        invariant forall u :: u in repos && u !in unseen ==> repos[u] in r
        invariant forall v :: v in r ==> v.url in repos && v.url !in unseen && repos[v.url] == v
        invariant forall i, j :: 0 <= i < j < |r| ==> r[i].url != r[j].url
        decreases |unseen|
      {
        var u :| u in unseen;
        r := r + [repos[u]];
        unseen := unseen - {u};
      }
    }

    /** StoreRepo: the repo's current fields are copied in under its URL,
        replacing any earlier copy. */
    method StoreRepo(aRepo: Repo)
      requires Valid()
      modifies this
      ensures Valid()
      ensures repos == Stored(old(repos), aRepo.Value())
    {
      repos := repos[aRepo.url := aRepo.Value()];
    }
  }
}
