// The AnalyzeRepo command of internal/app/command/analyze_repo.go over the
// in-memory stores. The three pipeline stages (fetch, analyse, store) are
// run one after the other: the fetch stage delivers its whole commit list,
// every commit is analysed against the subcommit log as it stood when the
// pipeline started, and the emitted subcommits are then appended in order.
module AnalyzeRepoCommand {
  import opened Common
  import opened DomainErrors
  import opened RepoEntity
  import opened RepoStore
  import opened SubcommitStore
  import opened AnalysisLocker
  import opened CodeHostPort

  /** What analysing a list of commits produces: the subcommits sent to the
      storage stage, in order, and the errors collected. */
  datatype Outcome = Outcome(emitted: seq<Subcommit>, errs: seq<Error>)

  /** The subcommits built from one commit's analysis results. */
  function Emit(results: seq<AnalysisResult>, ref: CommitRef, repoID: int): (r: seq<Subcommit>)
    ensures |r| == |results|
    ensures forall s :: s in r ==> s.commitSHA == ref.sha && s.repoID == repoID && s.committedAt == ref.committedAt
    ensures forall i :: 0 <= i < |r| ==> r[i].title == results[i].title && r[i].modificationType == results[i].modificationType
  {
    seq(|results|, i requires 0 <= i < |results| =>
      NewSubcommit(results[i].title, results[i].idea, results[i].description, results[i].epic,
                   results[i].modificationType, ref.sha, results[i].files, repoID, ref.committedAt))
  }

  /** One commit in analyzeCommits: skipped when the log already has
      subcommits for it; a failed diff fetch or agent call records a wrapped
      error and emits nothing; otherwise one subcommit per result. */
  function AnalyzeOne(log: seq<Subcommit>, r: RepoValue, ref: CommitRef, host: CodeHost, agent: Agent): (o: Outcome)
    ensures Analyzed(log, r.id, ref.sha) ==> o == Outcome([], [])
    ensures o.emitted == [] || o.errs == []
    ensures |o.errs| <= 1
  {
    if Analyzed(log, r.id, ref.sha) then Outcome([], [])
    else match host.getCommitDiff(r, ref.sha)
      case Failure(e) => Outcome([], [Wrapped(ErrDiffFetchFailed, e)])
      case Success(diff) =>
        match agent(diff)
        case Failure(e) => Outcome([], [Wrapped(ErrAnalysisFailed, e)])
        case Success(results) => Outcome(Emit(results, ref, r.id), [])
  }

  /** analyzeCommits over a whole list of references. */
  function AnalyzeAll(log: seq<Subcommit>, r: RepoValue, refs: seq<CommitRef>, host: CodeHost, agent: Agent): (o: Outcome)
    decreases |refs|
  {
    if refs == [] then Outcome([], [])
    else
      var prev := AnalyzeAll(log, r, refs[..|refs| - 1], host, agent);
      var last := AnalyzeOne(log, r, refs[|refs| - 1], host, agent);
      Outcome(prev.emitted + last.emitted, prev.errs + last.errs)
  }

  lemma AnalyzeAllStep(log: seq<Subcommit>, r: RepoValue, refs: seq<CommitRef>, i: nat, host: CodeHost, agent: Agent)
    requires i < |refs|
    ensures AnalyzeAll(log, r, refs[..i + 1], host, agent)
         == var prev := AnalyzeAll(log, r, refs[..i], host, agent);
            var last := AnalyzeOne(log, r, refs[i], host, agent);
            Outcome(prev.emitted + last.emitted, prev.errs + last.errs)
  {
    assert refs[..i + 1][..i] == refs[..i];
  }

  /** Every emitted subcommit carries the analysed repo's ID and the SHA and
      commit time of one of the analysed references. */
  lemma {:induction false} EmittedCarryCommit(log: seq<Subcommit>, r: RepoValue, refs: seq<CommitRef>, host: CodeHost, agent: Agent)
    ensures forall s :: s in AnalyzeAll(log, r, refs, host, agent).emitted ==>
      s.repoID == r.id && exists ref :: ref in refs && s.commitSHA == ref.sha && s.committedAt == ref.committedAt
    decreases |refs|
  {
    if refs != [] {
      var init := refs[..|refs| - 1];
      var ref := refs[|refs| - 1];
      EmittedCarryCommit(log, r, init, host, agent);
      forall s | s in AnalyzeAll(log, r, refs, host, agent).emitted
        ensures s.repoID == r.id && exists ref :: ref in refs && s.commitSHA == ref.sha && s.committedAt == ref.committedAt
      {
        if s in AnalyzeAll(log, r, init, host, agent).emitted {
          var x :| x in init && s.commitSHA == x.sha && s.committedAt == x.committedAt;
          assert x in refs;
        } else {
          assert s in AnalyzeOne(log, r, ref, host, agent).emitted;
          assert ref in refs;
        }
      }
    }
  }

  /** Each commit's own subcommits are among those the whole run emits. */
  lemma {:induction false} OneEmittedWithinAll(log: seq<Subcommit>, r: RepoValue, refs: seq<CommitRef>, i: nat, host: CodeHost, agent: Agent)
    requires i < |refs|
    ensures forall s :: s in AnalyzeOne(log, r, refs[i], host, agent).emitted ==> s in AnalyzeAll(log, r, refs, host, agent).emitted
    decreases |refs|
  {
    if i < |refs| - 1 {
      OneEmittedWithinAll(log, r, refs[..|refs| - 1], i, host, agent);
    }
  }

  /** The run reports no error exactly when every commit not yet in the log
      had its diff fetched and analysed. */
  lemma {:induction false} NoErrorsIffAllSucceeded(log: seq<Subcommit>, r: RepoValue, refs: seq<CommitRef>, host: CodeHost, agent: Agent)
    ensures AnalyzeAll(log, r, refs, host, agent).errs == [] <==>
      forall ref :: ref in refs ==> AnalyzeOne(log, r, ref, host, agent).errs == []
    decreases |refs|
  {
    if refs != [] {
      var init := refs[..|refs| - 1];
      NoErrorsIffAllSucceeded(log, r, init, host, agent);
      assert forall ref :: ref in refs <==> ref in init || ref == refs[|refs| - 1];
    }
  }

  /** A commit not yet in the log whose diff is fetched but which the agent
      fails on makes the joined error match ErrAnalysisFailed. */
  lemma {:induction false} AgentFailureSurfaces(log: seq<Subcommit>, r: RepoValue, refs: seq<CommitRef>, i: nat, host: CodeHost, agent: Agent)
    requires i < |refs|
    requires !Analyzed(log, r.id, refs[i].sha)
    requires host.getCommitDiff(r, refs[i].sha).Success?
    requires agent(host.getCommitDiff(r, refs[i].sha).value).Failure?
    ensures JoinAll(AnalyzeAll(log, r, refs, host, agent).errs).Some?
    ensures Is(JoinAll(AnalyzeAll(log, r, refs, host, agent).errs).value, ErrAnalysisFailed)
    decreases |refs|
  {
    var init := refs[..|refs| - 1];
    var o := AnalyzeAll(log, r, refs, host, agent);
    if i < |refs| - 1 {
      AgentFailureSurfaces(log, r, init, i, host, agent);
      var x :| x in AnalyzeAll(log, r, init, host, agent).errs && Is(x, ErrAnalysisFailed);
      assert x in o.errs;
    } else {
      var one := AnalyzeOne(log, r, refs[i], host, agent);
      assert one.errs[0] in o.errs;
    }
  }

  /** The core of re-analysis: against a log that already records every
      commit the first run emitted something for (and everything the
      earlier log recorded), running over the same commits emits nothing. */
  lemma {:induction false} RerunEmitsNothing(log: seq<Subcommit>, later: seq<Subcommit>, r: RepoValue, refs: seq<CommitRef>, host: CodeHost, agent: Agent)
    requires forall sha :: Analyzed(log, r.id, sha) ==> Analyzed(later, r.id, sha)
    requires forall i :: 0 <= i < |refs| && AnalyzeOne(log, r, refs[i], host, agent).emitted != [] ==> Analyzed(later, r.id, refs[i].sha)
    ensures AnalyzeAll(later, r, refs, host, agent).emitted == []
    decreases |refs|
  {
    if refs != [] {
      var n := |refs| - 1;
      var init := refs[..n];
      forall i | 0 <= i < |init| && AnalyzeOne(log, r, init[i], host, agent).emitted != []
        ensures Analyzed(later, r.id, init[i].sha)
      {
        assert init[i] == refs[i];
      }
      RerunEmitsNothing(log, later, r, init, host, agent);
      var ref := refs[n];
      if !Analyzed(later, r.id, ref.sha) {
        assert !Analyzed(log, r.id, ref.sha);
        assert AnalyzeOne(later, r, ref, host, agent) == AnalyzeOne(log, r, ref, host, agent);
      }
    }
  }

  /** Re-running the analysis over the same commits after its subcommits
      were stored emits no further subcommits: every commit either was
      already analysed, or emitted subcommits that now mark it analysed, or
      emitted none again. */
  lemma SecondPassEmitsNothing(log: seq<Subcommit>, r: RepoValue, refs: seq<CommitRef>, host: CodeHost, agent: Agent)
    ensures var first := AnalyzeAll(log, r, refs, host, agent);
            AnalyzeAll(log + first.emitted, r, refs, host, agent).emitted == []
  {
    var first := AnalyzeAll(log, r, refs, host, agent);
    var later := log + first.emitted;
    forall sha | Analyzed(log, r.id, sha)
      ensures Analyzed(later, r.id, sha)
    {
      AnalyzedAppend(log, first.emitted, r.id, sha);
    }
    forall i | 0 <= i < |refs| && AnalyzeOne(log, r, refs[i], host, agent).emitted != []
      ensures Analyzed(later, r.id, refs[i].sha)
    {
      var one := AnalyzeOne(log, r, refs[i], host, agent).emitted;
      OneEmittedWithinAll(log, r, refs, i, host, agent);
      var s := one[0];
      assert s in first.emitted;
      var k :| 0 <= k < |first.emitted| && first.emitted[k] == s;
      assert later[|log| + k] == s;
      AnalyzedAppend(log, first.emitted, r.id, refs[i].sha);
    }
    RerunEmitsNothing(log, later, r, refs, host, agent);
  }

  /** Handle's error after a completed run, `errors.Join(analysisErr,
      storageErr)` with no storage error, is nil iff no commit failed, and
      matches a sentinel iff one of the commit errors does. */
  lemma {:induction false} ReturnedErrorMatches(errs: seq<Error>, target: Sentinel)
    ensures Join([JoinAll(errs), None]).None? <==> errs == []
    ensures Join([JoinAll(errs), None]).Some? ==>
      (Is(Join([JoinAll(errs), None]).value, target) <==> exists e :: e in errs && Is(e, target))
  {
    var outer := [JoinAll(errs), None];
    if errs != [] {
      assert outer[0] in outer;
      JoinIs(outer, target);
      assert forall o :: o in outer && o.Some? ==> o == JoinAll(errs);
    } else {
      assert forall o :: o in outer ==> o.None?;
    }
  }

  /** The repo as stored after the pipeline: the head becomes the last
      analysed SHA only when no commit failed and the head is not empty
      (the in-memory subcommit store never fails). */
  function Finished(v: RepoValue, headSHA: string, o: Outcome): (f: RepoValue)
    ensures f.lastAnalyzedCommitSHA == (if o.errs == [] && headSHA != "" then headSHA else v.lastAnalyzedCommitSHA)
    ensures f.(lastAnalyzedCommitSHA := v.lastAnalyzedCommitSHA) == v
  {
    if o.errs == [] && headSHA != "" then v.(lastAnalyzedCommitSHA := headSHA) else v
  }

  /** The repo the pipeline runs on: the stored copy, or one created by the
      code host when the URL is not stored. */
  function Prepared(repos: map<string, RepoValue>, host: CodeHost, url: string): (r: Result<RepoValue, Error>)
    ensures url in repos ==> r == Success(repos[url])
    ensures url !in repos ==> r == host.createRepoFromURL(url)
  {
    if url in repos then Success(repos[url]) else host.createRepoFromURL(url)
  }

  class AnalyzeRepoHandler {
    const repoRepository: RepoRepository
    const subcommitRepository: SubcommitRepository
    const agent: Agent
    const codeHostFactory: Factory
    const locker: InMemoryLocker

    predicate Valid()
      reads this, repoRepository, locker
    {
      repoRepository.Valid() && locker.Valid()
    }

    /** NewAnalyzeRepoHandler. */
    constructor (repoRepository: RepoRepository, subcommitRepository: SubcommitRepository, agent: Agent,
                 codeHostFactory: Factory, locker: InMemoryLocker)
      ensures this.repoRepository == repoRepository && this.subcommitRepository == subcommitRepository
      ensures this.locker == locker && this.agent == agent && this.codeHostFactory == codeHostFactory
    {
      this.repoRepository := repoRepository;
      this.subcommitRepository := subcommitRepository;
      this.agent := agent;
      this.codeHostFactory := codeHostFactory;
      this.locker := locker;
    }

    /** analyzeCommits, one reference after another. */
    method AnalyzeCommits(host: CodeHost, r: RepoValue, refs: seq<CommitRef>) returns (emitted: seq<Subcommit>, errs: seq<Error>)
      ensures Outcome(emitted, errs) == AnalyzeAll(subcommitRepository.subcommits, r, refs, host, agent)
    {
      emitted, errs := [], [];
      for i := 0 to |refs|
        invariant Outcome(emitted, errs) == AnalyzeAll(subcommitRepository.subcommits, r, refs[..i], host, agent)
      {
        AnalyzeAllStep(subcommitRepository.subcommits, r, refs, i, host, agent);
        var ref := refs[i];
        var alreadyAnalyzed := subcommitRepository.HasSubcommitsForCommit(r.id, ref.sha);
        if alreadyAnalyzed {
          continue;
        }
        var diff := host.getCommitDiff(r, ref.sha);
        if diff.Failure? {
          errs := errs + [Wrapped(ErrDiffFetchFailed, diff.error)];
          continue;
        }
        var results := agent(diff.value);
        if results.Failure? {
          errs := errs + [Wrapped(ErrAnalysisFailed, results.error)];
          continue;
        }
        emitted := emitted + Emit(results.value, ref, r.id);
      }
      assert refs[..|refs|] == refs;
    }

    /** The pipeline shared by Handle and runPipeline: fetch, analyse, store
        the subcommits, then advance the repo's last analysed SHA. */
    method RunStages(host: CodeHost, targetRepo: Repo) returns (fetchErr: Option<Error>, analysisErr: Option<Error>)
      modifies subcommitRepository, targetRepo
      ensures var fetched := host.fetchCommits(old(targetRepo.Value()));
              fetched.Failure? ==>
                fetchErr == Some(fetched.error) && analysisErr == None &&
                subcommitRepository.subcommits == old(subcommitRepository.subcommits) &&
                targetRepo.Value() == old(targetRepo.Value())
      ensures var fetched := host.fetchCommits(old(targetRepo.Value()));
              fetched.Success? ==>
                var o := AnalyzeAll(old(subcommitRepository.subcommits), old(targetRepo.Value()), fetched.value.sent, host, agent);
                fetchErr == None && analysisErr == JoinAll(o.errs) &&
                subcommitRepository.subcommits == old(subcommitRepository.subcommits) + o.emitted &&
                targetRepo.Value() == Finished(old(targetRepo.Value()), fetched.value.headSHA, o)
    {
      var v := targetRepo.Value();
      var fetched := host.fetchCommits(v);
      if fetched.Failure? {
        return Some(fetched.error), None;
      }
      var emitted, errs := AnalyzeCommits(host, v, fetched.value.sent);
      subcommitRepository.StoreSubcommits(emitted);
      fetchErr := None;
      analysisErr := JoinAll(errs);
      if analysisErr.None? && fetched.value.headSHA != "" {
        targetRepo.SetLastAnalyzedCommitSHA(fetched.value.headSHA);
      }
    }

    /** Handle: create the code host, check access, take the URL's lock
        (released on every return), load or create the repo, run the
        pipeline and store the repo unless fetching failed. */
    method Handle(repoURL: string, accessToken: string) returns (id: int, err: Option<Error>)
      requires Valid()
      modifies repoRepository, subcommitRepository, locker
      ensures Valid()
      ensures locker.held == old(locker.held)
      ensures codeHostFactory(accessToken).Failure? ==>
        id == 0 && err == Some(codeHostFactory(accessToken).error) &&
        repoRepository.repos == old(repoRepository.repos) && subcommitRepository.subcommits == old(subcommitRepository.subcommits)
      ensures codeHostFactory(accessToken).Success? && codeHostFactory(accessToken).value.canAccessRepo(repoURL).Some? ==>
        id == 0 && err == codeHostFactory(accessToken).value.canAccessRepo(repoURL) &&
        repoRepository.repos == old(repoRepository.repos) && subcommitRepository.subcommits == old(subcommitRepository.subcommits)
      ensures codeHostFactory(accessToken).Success? && codeHostFactory(accessToken).value.canAccessRepo(repoURL).None? &&
              repoURL in old(locker.held) ==>
        id == 0 && err == Some(Bare(ErrAnalysisInProgress)) &&
        repoRepository.repos == old(repoRepository.repos) && subcommitRepository.subcommits == old(subcommitRepository.subcommits)
      ensures codeHostFactory(accessToken).Success? && codeHostFactory(accessToken).value.canAccessRepo(repoURL).None? &&
              repoURL !in old(locker.held) ==>
        var host := codeHostFactory(accessToken).value;
        var prepared := Prepared(old(repoRepository.repos), host, repoURL);
        (prepared.Failure? ==>
          id == 0 && err == Some(prepared.error) &&
          repoRepository.repos == old(repoRepository.repos) && subcommitRepository.subcommits == old(subcommitRepository.subcommits)) &&
        (prepared.Success? && host.fetchCommits(prepared.value).Failure? ==>
          id == 0 && err == Some(host.fetchCommits(prepared.value).error) &&
          repoRepository.repos == old(repoRepository.repos) && subcommitRepository.subcommits == old(subcommitRepository.subcommits)) &&
        (prepared.Success? && host.fetchCommits(prepared.value).Success? ==>
          var fetched := host.fetchCommits(prepared.value).value;
          var o := AnalyzeAll(old(subcommitRepository.subcommits), prepared.value, fetched.sent, host, agent);
          id == prepared.value.id && err == Join([JoinAll(o.errs), None]) &&
          subcommitRepository.subcommits == old(subcommitRepository.subcommits) + o.emitted &&
          repoRepository.repos == Stored(old(repoRepository.repos), Finished(prepared.value, fetched.headSHA, o)))
    {
      var created := codeHostFactory(accessToken);
      if created.Failure? {
        return 0, Some(created.error);
      }
      var host := created.value;
      var accessErr := host.canAccessRepo(repoURL);
      if accessErr.Some? {
        return 0, accessErr;
      }
      var lockErr := locker.Acquire(repoURL);
      if lockErr.Some? {
        return 0, lockErr;
      }
      var newRepo: Repo;
      var found := repoRepository.GetRepo(repoURL);
      if found.Failure? {
        // the in-memory store reports only ErrRepositoryNotFound
        assert Is(found.error, ErrRepositoryNotFound);
        var fromHost := host.createRepoFromURL(repoURL);
        if fromHost.Failure? {
          locker.Release(repoURL);
          return 0, Some(fromHost.error);
        }
        newRepo := new Repo.FromValue(fromHost.value);
      } else {
        newRepo := new Repo.FromValue(found.value);
      }
      var fetchErr, analysisErr := RunStages(host, newRepo);
      if fetchErr.Some? {
        locker.Release(repoURL);
        return 0, fetchErr;
      }
      // the in-memory repo store never fails
      var storageErr: Option<Error> := None;
      repoRepository.StoreRepo(newRepo);
      locker.Release(repoURL);
      return newRepo.id, Join([analysisErr, storageErr]);
    }

    /** HandleAsync up to the point where the pipeline is started in the
        background: the same checks, then the repo is stored before any
        analysis and the URL's lock stays held for the background run. */
    method HandleAsync(repoURL: string, accessToken: string) returns (id: int, err: Option<Error>)
      requires Valid()
      modifies repoRepository, locker
      ensures Valid()
      ensures err.Some? ==> id == 0 && locker.held == old(locker.held) && repoRepository.repos == old(repoRepository.repos)
      ensures codeHostFactory(accessToken).Failure? ==> err == Some(codeHostFactory(accessToken).error)
      ensures codeHostFactory(accessToken).Success? && codeHostFactory(accessToken).value.canAccessRepo(repoURL).Some? ==>
        err == codeHostFactory(accessToken).value.canAccessRepo(repoURL)
      ensures codeHostFactory(accessToken).Success? && codeHostFactory(accessToken).value.canAccessRepo(repoURL).None? &&
              repoURL in old(locker.held) ==>
        err == Some(Bare(ErrAnalysisInProgress))
      ensures codeHostFactory(accessToken).Success? && codeHostFactory(accessToken).value.canAccessRepo(repoURL).None? &&
              repoURL !in old(locker.held) ==>
        var prepared := Prepared(old(repoRepository.repos), codeHostFactory(accessToken).value, repoURL);
        (prepared.Failure? ==> err == Some(prepared.error)) &&
        (prepared.Success? ==>
          id == prepared.value.id && err == None &&
          repoRepository.repos == Stored(old(repoRepository.repos), prepared.value) &&
          locker.held == old(locker.held) + {repoURL})
    {
      var created := codeHostFactory(accessToken);
      if created.Failure? {
        return 0, Some(created.error);
      }
      var host := created.value;
      var accessErr := host.canAccessRepo(repoURL);
      if accessErr.Some? {
        return 0, accessErr;
      }
      var lockErr := locker.Acquire(repoURL);
      if lockErr.Some? {
        return 0, lockErr;
      }
      var newRepo: Repo;
      var found := repoRepository.GetRepo(repoURL);
      if found.Failure? {
        assert Is(found.error, ErrRepositoryNotFound);
        var fromHost := host.createRepoFromURL(repoURL);
        if fromHost.Failure? {
          locker.Release(repoURL);
          return 0, Some(fromHost.error);
        }
        newRepo := new Repo.FromValue(fromHost.value);
      } else {
        newRepo := new Repo.FromValue(found.value);
      }
      repoRepository.StoreRepo(newRepo);
      return newRepo.id, None;
    }

    /** runPipeline, the background part of HandleAsync: the pipeline, the
        repo stored unless fetching failed, errors only logged, and the
        URL's lock released at the end. */
    method RunPipeline(host: CodeHost, targetRepo: Repo, lockedURL: string)
      requires Valid() && lockedURL in locker.held
      modifies repoRepository, subcommitRepository, locker, targetRepo
      ensures Valid()
      ensures locker.held == old(locker.held) - {lockedURL}
      ensures var fetched := host.fetchCommits(old(targetRepo.Value()));
              fetched.Failure? ==>
                repoRepository.repos == old(repoRepository.repos) &&
                subcommitRepository.subcommits == old(subcommitRepository.subcommits)
      ensures var fetched := host.fetchCommits(old(targetRepo.Value()));
              fetched.Success? ==>
                var o := AnalyzeAll(old(subcommitRepository.subcommits), old(targetRepo.Value()), fetched.value.sent, host, agent);
                subcommitRepository.subcommits == old(subcommitRepository.subcommits) + o.emitted &&
                repoRepository.repos == Stored(old(repoRepository.repos), Finished(old(targetRepo.Value()), fetched.value.headSHA, o))
    {
      var fetchErr, analysisErr := RunStages(host, targetRepo);
      if fetchErr.None? {
        repoRepository.StoreRepo(targetRepo);
      }
      locker.Release(lockedURL);
    }
  }
}
