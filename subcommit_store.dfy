// The stored Subcommit entity (internal/domain/subcommit/subcommit.go) and
// the append-only in-memory log of
// internal/adapters/subcommit_mock_repository.go. No operation of this
// adapter ever returns an error, so the model's operations return none.
module SubcommitStore {
  import opened Common

  /** A stored subcommit; `committedAt` is in seconds since the Unix epoch. */
  datatype Subcommit = Subcommit(
    id: int,
    title: string,
    idea: string,
    description: string,
    epic: string,
    modificationType: string,
    commitSHA: string,
    files: seq<string>,
    repoID: int,
    committedAt: int)

  /** NewSubcommit: an unsaved subcommit (its id is left at zero). */
  function NewSubcommit(title: string, idea: string, description: string, epic: string, modificationType: string,
                        commitSHA: string, files: seq<string>, repoID: int, committedAt: int): (s: Subcommit)
    ensures s.id == 0 && s.commitSHA == commitSHA && s.repoID == repoID && s.committedAt == committedAt
    ensures s.title == title && s.idea == idea && s.description == description
    ensures s.epic == epic && s.modificationType == modificationType && s.files == files
  {
    Subcommit(0, title, idea, description, epic, modificationType, commitSHA, files, repoID, committedAt)
  }

  /** The entries of a log that belong to one repo, in log order. */
  function OfRepo(log: seq<Subcommit>, repoID: int): (r: seq<Subcommit>)
    ensures |r| <= |log|
    ensures forall s :: s in r <==> s in log && s.repoID == repoID
    ensures (forall s :: s in log ==> s.repoID != repoID) ==> r == []
  {
    if log == [] then []
    else
      var rest := OfRepo(log[1..], repoID);
      assert forall s :: s in log <==> s == log[0] || s in log[1..];
      if log[0].repoID == repoID then [log[0]] + rest else rest
  }

  /** Whether the log holds a subcommit of that repo and commit. */
  predicate Analyzed(log: seq<Subcommit>, repoID: int, commitSHA: string)
  {
    exists i :: 0 <= i < |log| && log[i].repoID == repoID && log[i].commitSHA == commitSHA
  }

  /** Filtering distributes over appending. */
  lemma {:induction false} OfRepoAppend(log: seq<Subcommit>, more: seq<Subcommit>, repoID: int)
    ensures OfRepo(log + more, repoID) == OfRepo(log, repoID) + OfRepo(more, repoID)
  {
    if log == [] {
      assert log + more == more;
    } else {
      assert (log + more)[1..] == log[1..] + more;
      OfRepoAppend(log[1..], more, repoID);
    }
  }

  /** One more entry of a scanned log. */
  lemma OfRepoStep(log: seq<Subcommit>, i: nat, repoID: int)
    requires i < |log|
    ensures OfRepo(log[..i + 1], repoID) == OfRepo(log[..i], repoID) + (if log[i].repoID == repoID then [log[i]] else [])
  {
    PrefixSnoc(log, i);
    OfRepoAppend(log[..i], [log[i]], repoID);
    assert [log[i]][1..] == [];
  }

  /** Appending subcommits of other repos never changes a repo's view. */
  lemma StoringOtherRepoIsolated(log: seq<Subcommit>, more: seq<Subcommit>, repoID: int)
    requires forall s :: s in more ==> s.repoID != repoID
    ensures OfRepo(log + more, repoID) == OfRepo(log, repoID)
  {
    OfRepoAppend(log, more, repoID);
  }

  /** Appending only adds commits to the analyzed set: a commit is analyzed
      afterwards exactly when it was before or the new entries hold it. */
  lemma AnalyzedAppend(log: seq<Subcommit>, more: seq<Subcommit>, repoID: int, commitSHA: string)
    ensures Analyzed(log + more, repoID, commitSHA) <==> Analyzed(log, repoID, commitSHA) || Analyzed(more, repoID, commitSHA)
  {
    if Analyzed(log + more, repoID, commitSHA) {
      var i :| 0 <= i < |log + more| && (log + more)[i].repoID == repoID && (log + more)[i].commitSHA == commitSHA;
      if i >= |log| {
        assert more[i - |log|] == (log + more)[i];
      }
    }
    if Analyzed(more, repoID, commitSHA) {
      var i :| 0 <= i < |more| && more[i].repoID == repoID && more[i].commitSHA == commitSHA;
      assert (log + more)[|log| + i] == more[i];
    }
    if Analyzed(log, repoID, commitSHA) {
      var i :| 0 <= i < |log| && log[i].repoID == repoID && log[i].commitSHA == commitSHA;
      assert (log + more)[i] == log[i];
    }
  }

  class SubcommitRepository {
    var subcommits: seq<Subcommit>

    /** NewSubcommitRepository: an empty log. */
    constructor ()
      ensures subcommits == []
    {
      subcommits := [];
    }

    /** GetSubcommits: the repo's entries in insertion order. */
    method GetSubcommits(repoID: int) returns (r: seq<Subcommit>)
      ensures r == OfRepo(subcommits, repoID)
    {
      var log := subcommits;
      r := [];
      for i := 0 to |log|
        invariant r == OfRepo(log[..i], repoID)
      {
        OfRepoStep(log, i, repoID);
        if log[i].repoID == repoID {
          r := r + [log[i]];
        }
      }
      assert log[..|log|] == log;
    }

    /** HasSubcommitsForCommit: a scan for an entry of that repo and commit. */
    method HasSubcommitsForCommit(repoID: int, commitSHA: string) returns (b: bool)
      ensures b <==> Analyzed(subcommits, repoID, commitSHA)
    {
      for i := 0 to |subcommits|
        invariant forall j :: 0 <= j < i ==> !(subcommits[j].repoID == repoID && subcommits[j].commitSHA == commitSHA)
      {
        if subcommits[i].repoID == repoID && subcommits[i].commitSHA == commitSHA {
          return true;
        }
      }
      return false;
    }

    /** StoreSubcommits: every received subcommit is appended, in order. */
    method StoreSubcommits(received: seq<Subcommit>)
      modifies this
      ensures subcommits == old(subcommits) + received
    {
      for i := 0 to |received|
        invariant subcommits == old(subcommits) + received[..i]
      {
        PrefixSnoc(received, i);
        subcommits := subcommits + [received[i]];
      }
      assert received[..|received|] == received;
    }
  }
}
