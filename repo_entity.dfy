// The Repo entity of internal/domain/repo/repo.go. Timestamps
// (`time.Time`) are modelled as seconds since the Unix epoch.
module RepoEntity {

  /** The fields of a Repo as a value: what the in-memory store keeps, since
      Go copies the struct into its map. */
  datatype RepoValue = RepoValue(id: int, name: string, url: string, lastAnalyzedCommitSHA: string, createdAt: int)

  class Repo {
    var id: int
    var name: string
    var url: string
    var lastAnalyzedCommitSHA: string
    var createdAt: int

    /** The current fields as a value. */
    function Value(): RepoValue
      reads this
    {
      RepoValue(id, name, url, lastAnalyzedCommitSHA, createdAt)
    }

    function ID(): int reads this { id }
    function Name(): string reads this { name }
    function URL(): string reads this { url }
    function LastAnalyzedCommitSHA(): string reads this { lastAnalyzedCommitSHA }
    function CreatedAt(): int reads this { createdAt }

    /** `IsURL`: whether the repo lives at the given URL. */
    predicate IsURL(u: string)
      reads this
    {
      url == u
    }

    /** NewRepo: every getter returns the argument it was built from. */
    constructor (id: int, name: string, url: string, lastAnalyzedCommit: string, createdAt: int)
      ensures ID() == id && Name() == name && URL() == url
      ensures LastAnalyzedCommitSHA() == lastAnalyzedCommit && CreatedAt() == createdAt
      ensures forall u :: IsURL(u) <==> u == url
    {
      this.id := id;
      this.name := name;
      this.url := url;
      this.lastAnalyzedCommitSHA := lastAnalyzedCommit;
      this.createdAt := createdAt;
    }

    /** A pointer to a copy of a stored value (`&obtainedRepo` in the
        in-memory store). */
    constructor FromValue(v: RepoValue)
      ensures Value() == v
    {
      id, name, url, lastAnalyzedCommitSHA, createdAt := v.id, v.name, v.url, v.lastAnalyzedCommitSHA, v.createdAt;
    }

    /** SetLastAnalyzedCommitSHA: only that field changes. */
    method SetLastAnalyzedCommitSHA(sha: string)
      modifies this
      ensures LastAnalyzedCommitSHA() == sha
      ensures Value() == old(Value()).(lastAnalyzedCommitSHA := sha)
    {
      lastAnalyzedCommitSHA := sha;
    }
  }
}
