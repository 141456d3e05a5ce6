/** What the release pipeline promises over whole runs: late and repeated messages,
    moved pull requests and runs that die between two mutations included. */
module ReleaseRuns {
  import opened Wrappers
  import opened Tags
  import opened Candidates
  import opened Publication
  import opened ReleaseProtocol
  import StableMerge
  import opened ReleaseInvariants
  import opened ReleaseSafety

  /** The preview tags that are older than the pipeline. */
  function Legacy(s: State): set<Tag> {
    set t | t in s.repo.tags && t.Preview?
  }

  lemma {:induction false} PathKeepsInv(path: seq<State>, k: nat, legacy: set<Tag>)
    requires k < |path| && Inv(path[0], legacy) && forall i: nat :: i + 1 < |path| ==> StepsAt(path, i)
    ensures Inv(path[k], legacy)
  {
    if k > 0 {
      PathKeepsInv(path, k - 1, legacy);
      assert StepsAt(path, k - 1);
      NextKeepsInv(path[k - 1], path[k], legacy);
    }
  }

  lemma RunKeepsInv(run: seq<State>, k: nat)
    requires IsRun(run) && k < |run|
    ensures Inv(run[k], Legacy(run[0]))
  {
    InvIsAllAspects(run[0], Legacy(run[0]));
    PathKeepsInv(run, k, Legacy(run[0]));
  }

  /** What is live has been seen. */
  lemma {:induction false} LiveIsSeen(run: seq<State>, k: nat)
    requires IsRun(run) && k < |run|
    ensures forall pr :: pr in run[k].live ==> run[k].live[pr] in run[k].seen
  {
    if k > 0 {
      LiveIsSeen(run, k - 1);
      assert StepsAt(run, k - 1);
      StepSees(run[k - 1], run[k]);
    }
  }

  lemma StepSees(s: State, s': State)
    requires Next(s, s')
    ensures s.seen <= s'.seen
    ensures forall pr :: pr in s'.live ==> (pr in s.live && s'.live[pr] == s.live[pr]) || s'.live[pr] in s'.seen
  {
  }

  /** A given phase and source snapshot publishes at most once. */
  lemma NoDuplicatePublication(run: seq<State>, k: nat, a: nat, b: nat, phase: Phase, snapshot: Snapshot)
    requires IsRun(run) && k < |run|
    requires Carries(run[k].repo, a, phase, snapshot) && Carries(run[k].repo, b, phase, snapshot)
    ensures a == b
  {
    RunKeepsInv(run, k);
    InvIsAllAspects(run[k], Legacy(run[0]));
  }

  /** The release marked latest is the greatest published stable version. */
  lemma LatestIsMaximum(run: seq<State>, k: nat)
    requires IsRun(run) && k < |run|
    ensures LatestIsGreatest(run[k].repo)
  {
    RunKeepsInv(run, k);
    InvIsAllAspects(run[k], Legacy(run[0]));
  }

  // ------------------------------------------------------------- suffixes

  /** The largest of a set of suffixes, or zero. */
  lemma LargestSuffix(suffixes: set<nat>) returns (top: nat)
    ensures top == 0 || top in suffixes
    ensures forall n :: n in suffixes ==> n <= top
  {
    top := 0;
    var left := suffixes;
    while left != {}
      invariant left <= suffixes
      invariant top == 0 || top in suffixes
      invariant forall n :: n in suffixes && n !in left ==> n <= top
      decreases |left|
    {
      var n :| n in left;
      left := left - {n};
      if n > top {
        top := n;
      }
    }
  }

  /** Started without tags for a base and phase, the published suffixes are exactly
      1..k: drafts, superseded drafts and publications that died after tagging neither
      consume nor skip a number. */
  lemma PublishedSuffixesAreDense(run: seq<State>, at: nat, base: Version, phase: Phase) returns (k: nat)
    requires IsRun(run) && at < |run|
    requires forall n: nat :: Preview(base, phase, n) !in run[0].repo.tags
    ensures forall n: nat :: TagPublished(run[at].repo, Preview(base, phase, n)) <==> 1 <= n <= k
  {
    RunKeepsInv(run, at);
    InvIsAllAspects(run[at], Legacy(run[0]));
    k := DenseSuffixes(run[at], Legacy(run[0]), base, phase);
  }

  /** A published preview of this base and phase. */
  predicate IsSuffix(r: Release, base: Version, phase: Phase) {
    !r.draft && r.tag.Preview? && r.tag.base == base && r.tag.phase == phase
  }

  lemma DenseSuffixes(s: State, legacy: set<Tag>, base: Version, phase: Phase) returns (k: nat)
    requires ReleasesOk(s) && SuffixesOk(s, legacy) && LegacyOk(s.repo, legacy)
    requires forall n: nat :: Preview(base, phase, n) !in legacy
    ensures forall n: nat :: TagPublished(s.repo, Preview(base, phase, n)) <==> 1 <= n <= k
  {
    var suffixes := set id |
      id in s.repo.releases && IsSuffix(s.repo.releases[id], base, phase) :: s.repo.releases[id].tag.number;
    k := LargestSuffix(suffixes);
    forall n: nat ensures TagPublished(s.repo, Preview(base, phase, n)) <==> n in suffixes {
      if TagPublished(s.repo, Preview(base, phase, n)) {
        var id :| IsPublished(s.repo, id, Preview(base, phase, n));
        assert s.repo.releases[id].tag.number in suffixes;
      }
      if n in suffixes {
        var id :| id in s.repo.releases && IsSuffix(s.repo.releases[id], base, phase)
          && s.repo.releases[id].tag.number == n;
        assert IsPublished(s.repo, id, Preview(base, phase, n));
      }
    }
    forall n: nat ensures TagPublished(s.repo, Preview(base, phase, n)) ==> n >= 1 {
      PublishedSuffixIsPositive(s, legacy, Preview(base, phase, n));
    }
    forall n: nat | 1 <= n <= k ensures TagPublished(s.repo, Preview(base, phase, n)) {
      PublishedIsPreceded(s, legacy, Preview(base, phase, k), n);
    }
  }

  lemma PublishedSuffixIsPositive(s: State, legacy: set<Tag>, t: Tag)
    requires ReleasesOk(s) && SuffixesOk(s, legacy) && LegacyOk(s.repo, legacy) && t.Preview? && t !in legacy
    ensures TagPublished(s.repo, t) ==> t.number >= 1
  {
    if id :| IsPublished(s.repo, id, t) {
      assert ReleaseOk(id, s.repo.releases[id], s.identities);
      assert IdentityOk(s.repo.releases[id].body.value);
    }
  }

  /** Whatever the delay and the interleaving, a draft that can still be published holds
      the suffix right after the published ones. */
  lemma OnlyTheNextSuffixIsPublishable(run: seq<State>, at: nat, id: nat, n: nat)
    requires IsRun(run) && at < |run|
    requires id in run[at].repo.releases && run[at].repo.releases[id].draft && run[at].repo.releases[id].tag.Preview?
    requires n >= 1
    requires
      var t := run[at].repo.releases[id].tag;
      forall m: nat :: Preview(t.base, t.phase, m) !in run[0].repo.tags
    ensures
      var t := run[at].repo.releases[id].tag;
      TagPublished(run[at].repo, Preview(t.base, t.phase, n)) <==> n < t.number
  {
    RunKeepsInv(run, at);
    InvIsAllAspects(run[at], Legacy(run[0]));
    var s, legacy := run[at], Legacy(run[0]);
    var t := s.repo.releases[id].tag;
    var lower := Preview(t.base, t.phase, n);
    assert ReleaseOk(id, s.repo.releases[id], s.identities);
    assert Preceded(s.repo, legacy, s.repo.releases[id].body.value);
    DraftTagIsUnpublished(s, id, t);
    assert IdentityOk(s.repo.releases[id].body.value) && t == Preview(t.base, t.phase, t.number);
    if TagPublished(s.repo, lower) && t.number <= n {
      PublishedIsPreceded(s, legacy, lower, t.number);
    }
  }

  // --------------------------------------------------------- immutability

  /** A published release and its tag are left alone. */
  ghost predicate Frozen(a: Repo, b: Repo) {
    forall id :: id in a.releases && !a.releases[id].draft ==>
      && id in b.releases && b.releases[id] == a.releases[id]
      && (a.releases[id].tag in a.tags ==>
            a.releases[id].tag in b.tags && b.tags[a.releases[id].tag] == a.tags[a.releases[id].tag])
  }

  lemma StagingKeepsPublished(s: State, step: Step, s': State)
    requires ReleasesOk(s) && JobsOk(s) && StagingStep(s, step, s')
    ensures Frozen(s.repo, s'.repo)
  {
    if !step.SelectStep? {
      assert JobOk(s, step.line, s.jobs[step.line]);
    }
  }

  lemma PublicationKeepsPublished(s: State, step: Step, s': State)
    requires ReleasesOk(s) && JobsOk(s) && PublicationStep(s, step, s')
    ensures Frozen(s.repo, s'.repo)
  {
    if step.TagStep? || step.Flip? {
      assert JobOk(s, step.line, s.jobs[step.line]);
    }
  }

  lemma NextKeepsPublished(s: State, s': State)
    requires ReleasesOk(s) && JobsOk(s) && Next(s, s')
    ensures Frozen(s.repo, s'.repo)
  {
    var step :| Do(s, step, s');
    if StagingStep(s, step, s') {
      StagingKeepsPublished(s, step, s');
    } else if PublicationStep(s, step, s') {
      PublicationKeepsPublished(s, step, s');
    }
  }

  lemma StepIsFrozen(run: seq<State>, k: nat)
    requires IsRun(run) && k + 1 < |run|
    ensures Frozen(run[k].repo, run[k + 1].repo)
  {
    RunKeepsInv(run, k);
    InvIsAllAspects(run[k], Legacy(run[0]));
    assert StepsAt(run, k);
    NextKeepsPublished(run[k], run[k + 1]);
  }

  lemma {:induction false} FrozenFrom(repos: seq<Repo>, i: nat, j: nat, id: nat)
    requires i <= j < |repos|
    requires forall k :: i <= k < j ==> Frozen(repos[k], repos[k + 1])
    requires id in repos[i].releases && !repos[i].releases[id].draft
    requires repos[i].releases[id].tag in repos[i].tags
    ensures id in repos[j].releases && repos[j].releases[id] == repos[i].releases[id]
    ensures
      var t := repos[i].releases[id].tag;
      t in repos[j].tags && repos[j].tags[t] == repos[i].tags[t]
    decreases j
  {
    if i < j {
      FrozenFrom(repos, i, j - 1, id);
      assert Frozen(repos[j - 1], repos[j - 1 + 1]);
    }
  }

  /** From its publication on, a release, its tag and the commit the tag names never
      change; the tag names the derived build of a preview and the merge of a stable. */
  lemma PublishedIsImmutable(run: seq<State>, i: nat, j: nat, id: nat)
    requires IsRun(run) && i <= j < |run|
    requires id in run[i].repo.releases && !run[i].repo.releases[id].draft
    ensures id in run[j].repo.releases && run[j].repo.releases[id] == run[i].repo.releases[id]
    ensures
      var r := run[i].repo.releases[id];
      && r.tag in run[i].repo.tags && r.tag in run[j].repo.tags
      && run[j].repo.tags[r.tag] == run[i].repo.tags[r.tag]
      && (r.body.Some? ==> IsTarget(run[j].merges, r.body.value, run[j].repo.tags[r.tag]))
  {
    var repos := seq(|run|, k requires 0 <= k < |run| => run[k].repo);
    forall k | i <= k < j ensures Frozen(repos[k], repos[k + 1]) {
      StepIsFrozen(run, k);
    }
    PublishedIsTagged(run, i);
    FrozenFrom(repos, i, j, id);
    PublishedIsTagged(run, j);
  }

  lemma PublishedIsTagged(run: seq<State>, k: nat)
    requires IsRun(run) && k < |run|
    ensures PublishedTagged(run[k])
  {
    RunKeepsInv(run, k);
    InvIsAllAspects(run[k], Legacy(run[0]));
  }

  // ------------------------------------------------------------- resolving

  /** With a current view, a phase and snapshot that is published resolves to nothing,
      and any other resolves to the suffix right after the published ones. */
  lemma ResolvesToTheNextSuffix(
      run: seq<State>, at: nat, requested: LivePr, live: LivePr, phase: Phase, tags: seq<Tag>, listed: seq<Release>,
      n: nat)
    requires IsRun(run) && at < |run| && AsksFor(requested, live)
    requires Lists(listed, run[at].repo) && (forall t :: t in tags <==> t in run[at].repo.tags)
    requires live.open && live.labels == {phase} && live.line >= 1 && live.snapshot.prepared.major == live.line
    requires forall m: nat :: Preview(live.snapshot.prepared, phase, m) !in run[0].repo.tags
    requires n >= 1
    ensures
      var repo := run[at].repo;
      var resolved := ResolveCandidate(requested, live, tags, listed, false);
      && resolved.Success?
      && (resolved.value.None? <==> exists id :: Carries(repo, id, phase, live.snapshot))
      && (resolved.value.Some? ==>
            && resolved.value.value.tag.Preview?
            && (TagPublished(repo, Preview(live.snapshot.prepared, phase, n)) <==> n < resolved.value.value.tag.number))
  {
    RunKeepsInv(run, at);
    InvIsAllAspects(run[at], Legacy(run[0]));
    var s, legacy := run[at], Legacy(run[0]);
    SnapshotsReadable(s, listed);
    ListedSnapshots(s, listed, phase, live.snapshot);
    ResolveOfPhase(requested, live, phase, tags, listed);
    var highest := Highest(PublishedTagInventory(tags, listed), live.snapshot.prepared, phase);
    HighestIsPublished(s, legacy, tags, listed, live.snapshot.prepared, phase, n);
  }

  /** Without a phase label a head that already carries its record resolves to nothing, a
      version that is published is refused, and any other resolves to the plain version at
      the live head. */
  lemma ResolvesToThePreparedVersion(
      run: seq<State>, at: nat, requested: LivePr, live: LivePr, tags: seq<Tag>, listed: seq<Release>)
    requires IsRun(run) && at < |run| && Lists(listed, run[at].repo) && AsksFor(requested, live)
    requires live.open && live.labels == {} && live.line >= 1 && live.snapshot.prepared.major == live.line
    ensures
      var staged := StableMerge.HeadIsStaged(run[at].history, live);
      var resolved := ResolveCandidate(requested, live, tags, listed, staged);
      if staged then resolved == Success(None)
      else if TagPublished(run[at].repo, Plain(live.snapshot.prepared)) then resolved == Failure(AlreadyPublished)
      else
        && resolved.Success? && resolved.value.Some?
        && WellFormed(resolved.value.value) && LiveMatches(resolved.value.value, live)
  {
    RunKeepsInv(run, at);
    InvIsAllAspects(run[at], Legacy(run[0]));
    var s := run[at];
    assert forall i :: i in s.identities ==> IdentityOk(i);
    SnapshotsReadable(s, listed);
    var t := Plain(live.snapshot.prepared);
    if id :| IsPublished(s.repo, id, t) {
      assert s.repo.releases[id] in listed;
    }
    if r :| r in listed && !r.draft && r.tag == t {
      assert IsPublished(s.repo, r.id, t);
    }
  }

  /** Staging a stable ends: with the record of the tested source committed on top of it,
      the pull request resolves to nothing. */
  lemma StagedCandidateResolvesToNothing(
      s: State, tested: LivePr, live: LivePr, blob: string, tags: seq<Tag>, listed: seq<Release>)
    requires tested.headSha in s.history.commits
    requires StableMerge.IsSnapshotOf(tested.snapshot, StableMerge.TreeOf(s.history, tested.headSha))
    requires blob in s.history.records && s.history.records[blob].identity == PlainIdentity(tested)
    requires StableMerge.IsRecordSuccessor(s.history, tested.headSha, live.headSha, blob)
    requires live == tested.(headSha := live.headSha)
    requires ResolveCandidate(tested, tested, tags, listed, false) == Success(Some(PlainIdentity(tested)))
    ensures StableMerge.IsSnapshotOf(live.snapshot, StableMerge.TreeOf(s.history, live.headSha))
    ensures ResolvedBy(s, Resolve(tested, live, tags, listed)) == Success(None)
  {
    StableMerge.StagingIsAFixedPoint(s.history, tested, live, blob);
  }

  /** The live check that precedes publication accepts a resolved identity as long as the
      pull request keeps what it was resolved from, and no longer. */
  lemma ResolvedIdentityMatchesExactly(
      requested: LivePr, view: LivePr, tags: seq<Tag>, listed: seq<Release>, staged: bool, later: LivePr)
    requires ResolveCandidate(requested, view, tags, listed, staged).Success?
    requires ResolveCandidate(requested, view, tags, listed, staged).value.Some?
    ensures
      LiveMatches(WithBuild(ResolveCandidate(requested, view, tags, listed, staged).value.value), later) <==>
        && later.open
        && later.labels == view.labels
        && later.number == view.number && later.line == view.line
        && later.baseSha == view.baseSha && later.headSha == view.headSha && later.snapshot == view.snapshot
  {
  }

  lemma ResolveOfPhase(requested: LivePr, live: LivePr, phase: Phase, tags: seq<Tag>, listed: seq<Release>)
    requires PublishedSnapshots(listed).Success? && AsksFor(requested, live)
    requires live.open && live.labels == {phase} && live.line >= 1 && live.snapshot.prepared.major == live.line
    ensures
      var resolved := ResolveCandidate(requested, live, tags, listed, false);
      && resolved.Success?
      && (resolved.value.None? <==> PhaseSnapshot(phase, live.snapshot) in PublishedSnapshots(listed).value)
      && (resolved.value.Some? ==>
            var highest := Highest(PublishedTagInventory(tags, listed), live.snapshot.prepared, phase);
            resolved.value.value.tag == Preview(live.snapshot.prepared, phase, highest + 1))
  {
    ActivePhaseIsTheOnlyLabel(live.labels, phase);
  }

  lemma HighestIsPublished(
      s: State, legacy: set<Tag>, tags: seq<Tag>, listed: seq<Release>, base: Version, phase: Phase, n: nat)
    requires ReleasesOk(s) && SuffixesOk(s, legacy) && LegacyOk(s.repo, legacy)
    requires PublishedTagged(s) && TagsOk(s, legacy)
    requires Lists(listed, s.repo) && forall u :: u in tags <==> u in s.repo.tags
    requires forall m: nat :: Preview(base, phase, m) !in legacy
    requires n >= 1
    ensures
      TagPublished(s.repo, Preview(base, phase, n))
      <==> n <= Highest(PublishedTagInventory(tags, listed), base, phase)
  {
    var highest := Highest(PublishedTagInventory(tags, listed), base, phase);
    if TagPublished(s.repo, Preview(base, phase, n)) {
      PublishedSuffixIsListed(s, tags, listed, Preview(base, phase, n));
    }
    if n <= highest {
      assert (set u | u in tags :: u) == s.repo.tags.Keys;
      ListedTagIsPublished(s, legacy, tags, listed, Preview(base, phase, highest));
      PublishedIsPreceded(s, legacy, Preview(base, phase, highest), n);
    }
  }

  lemma SnapshotsReadable(s: State, listed: seq<Release>)
    requires ReleasesOk(s) && Lists(listed, s.repo) && forall i :: i in s.identities ==> WellFormed(i)
    ensures PublishedSnapshots(listed).Success?
  {
    forall r | r in listed && !r.draft && r.prerelease && r.record.Some? ensures r.record.value.identity.phase.Some? {
      assert ReleaseOk(r.id, s.repo.releases[r.id], s.identities);
    }
  }

  lemma ListedSnapshots(s: State, listed: seq<Release>, phase: Phase, snapshot: Snapshot)
    requires Lists(listed, s.repo) && PublishedSnapshots(listed).Success?
    ensures
      PhaseSnapshot(phase, snapshot) in PublishedSnapshots(listed).value
      <==> exists id :: Carries(s.repo, id, phase, snapshot)
  {
    if r :| r in listed && IsPublishedPreview(r, phase, snapshot) {
      assert Carries(s.repo, r.id, phase, snapshot);
    }
    if id :| Carries(s.repo, id, phase, snapshot) {
      assert s.repo.releases[id] in listed;
    }
  }

  lemma PublishedSuffixIsListed(s: State, tags: seq<Tag>, listed: seq<Release>, t: Tag)
    requires PublishedTagged(s) && Lists(listed, s.repo) && forall u :: u in tags <==> u in s.repo.tags
    requires TagPublished(s.repo, t)
    ensures t in PublishedTagInventory(tags, listed)
  {
    var id :| IsPublished(s.repo, id, t);
    assert s.repo.releases[id] in listed;
  }
}
