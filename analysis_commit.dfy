// Commit.ApplyAnalysis and Subcommit.ApplyAnalysis of
// internal/domain/analysis/commit.go and subcommit.go. A Go slice of
// Subcommit structs is modelled as a sequence of distinct objects (one per
// slot), so `&subcommits[i]` is the object in slot i and the commit ends up
// sharing those objects with the analysis.
module AnalysisCommit {
  import opened Common

  /** The fields of an analysis Subcommit as a value; `createdAt` is the
      pointer-to-time as an optional Unix time. */
  datatype SubcommitFields = SubcommitFields(
    id: int, createdAt: Option<int>, title: string, idea: string, description: string,
    commitSHA: string, kind: string, epic: string, files: seq<string>)

  class Subcommit {
    var id: int
    var createdAt: Option<int>
    var title: string
    var idea: string
    var description: string
    var commitSHA: string
    var kind: string
    var epic: string
    var files: seq<string>

    function Fields(): SubcommitFields
      reads this
    {
      SubcommitFields(id, createdAt, title, idea, description, commitSHA, kind, epic, files)
    }

    constructor (f: SubcommitFields)
      ensures Fields() == f
    {
      id, createdAt, title, idea, description := f.id, f.createdAt, f.title, f.idea, f.description;
      commitSHA, kind, epic, files := f.commitSHA, f.kind, f.epic, f.files;
    }

    /** Subcommit.ApplyAnalysis: stamps the commit's SHA and timestamp and
        changes nothing else. */
    method ApplyAnalysis(sha: string, commitTimeStamp: Option<int>)
      modifies this
      ensures Fields() == old(Fields()).(commitSHA := sha, createdAt := commitTimeStamp)
    {
      commitSHA := sha;
      createdAt := commitTimeStamp;
    }
  }

  /** The agent's CommitAnalysis: the commit description it wrote and the
      slots of its subcommit slice. */
  class CommitAnalysis {
    var commitDescription: string
    var subcommits: seq<Subcommit>

    constructor (commitDescription: string, subcommits: seq<Subcommit>)
      ensures this.commitDescription == commitDescription && this.subcommits == subcommits
    {
      this.commitDescription := commitDescription;
      this.subcommits := subcommits;
    }
  }

  /** Distinct slice slots are distinct objects. */
  predicate Distinct(slots: seq<Subcommit>)
  {
    forall i, j :: 0 <= i < j < |slots| ==> slots[i] != slots[j]
  }

  class Commit {
    var sha: string
    var createdAt: Option<int>
    var description: string
    var subcommits: seq<Subcommit>

    constructor (sha: string, createdAt: Option<int>)
      ensures this.sha == sha && this.createdAt == createdAt && description == "" && subcommits == []
    {
      this.sha := sha;
      this.createdAt := createdAt;
      description := "";
      subcommits := [];
    }

    /** ApplyAnalysis: takes the analysis's description, then stamps each
        analysis subcommit in place with this commit's SHA and timestamp and
        appends a pointer to it, keeping the existing ones and the analysis
        order. */
    method ApplyAnalysis(analysis: CommitAnalysis)
      requires Distinct(analysis.subcommits)
      modifies this, set s | s in analysis.subcommits
      ensures description == analysis.commitDescription
      ensures sha == old(sha) && createdAt == old(createdAt)
      ensures subcommits == old(subcommits) + analysis.subcommits
      ensures |subcommits| == |old(subcommits)| + |analysis.subcommits|
      ensures forall s :: s in analysis.subcommits ==>
        s.Fields() == old(s.Fields()).(commitSHA := sha, createdAt := createdAt)
    {
      description := analysis.commitDescription;
      var slots := analysis.subcommits;
      for i := 0 to |slots|
        invariant description == analysis.commitDescription && analysis.subcommits == slots
        invariant sha == old(sha) && createdAt == old(createdAt)
        invariant subcommits == old(subcommits) + slots[..i]
        invariant forall k :: 0 <= k < i ==> slots[k].Fields() == old(slots[k].Fields()).(commitSHA := sha, createdAt := createdAt)
        invariant forall k :: i <= k < |slots| ==> slots[k].Fields() == old(slots[k].Fields())
      {
        slots[i].ApplyAnalysis(sha, createdAt);
        PrefixSnoc(slots, i);
        subcommits := subcommits + [slots[i]];
      }
      assert slots[..|slots|] == slots;
    }
  }
}
