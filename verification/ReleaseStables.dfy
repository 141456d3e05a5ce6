/** When a merged stable candidate can still be published. The push is merged, accepted and
    announced; its draft may have been taken over or staged again since, and its tag may
    have been left by a run that died or by somebody else. */
module ReleaseStables {
  import opened Wrappers
  import opened Tags
  import opened Candidates
  import opened Publication
  import opened ReleaseProtocol
  import opened ReleaseInvariants
  import opened ReleaseSafety
  import opened ReleaseRuns
  import opened ReleaseOwners
  import opened ReleaseProvenance
  import opened ReleaseProgress
  import opened ReleaseBlocking
  import opened ReleaseLosses
  import StableMerge

  /** The tag of the draft is free, or names the push while the candidate holds the draft,
      or names the build of the identity that holds the draft while the pull request has
      another identity that can replace it. */
  ghost predicate TagAllows(s: State, r: Record, push: Sha) {
    && r.draftId in s.repo.releases && s.repo.releases[r.draftId].body.Some?
    && var b, tag := s.repo.releases[r.draftId].body.value, r.identity.tag;
    || tag !in s.repo.tags
    || (s.repo.tags[tag] == push && b == r.identity)
    || (s.repo.tags[tag] == b.buildSha && !OnlyIdentity(s, b))
  }

  /** The release still carries the assets of the record, and if it is a draft its tag is
      not in the way. */
  ghost predicate CanYetPublish(s: State, r: Record, push: Sha) {
    Attached(s, r) && (s.repo.releases[r.draftId].draft ==> TagAllows(s, r, push))
  }

  // ------------------------------------------------------ how to publish

  /** The candidate holds the draft and its tag is free or names the push. */
  lemma PublishHeld(s: State, r: Record, push: Sha) returns (t: State)
    requires IsMerged(s, r, push) && r.identity.line !in s.jobs
    requires r.draftId in s.repo.releases && s.repo.releases[r.draftId].draft
    requires HasShape(s.repo.releases[r.draftId], r)
    requires r.identity.tag in s.repo.tags ==> s.repo.tags[r.identity.tag] == push
    ensures Leads(s, t) && PublishedAs(t, r)
  {
    var line := r.identity.line;
    var checked := WithJob(s, line, Checked(r, push));
    Stays(s);
    assert PlanStable(s.repo, r, push, MergeOf(s, r.identity.pr), true) == Mutate(push);
    assert PublicationStep(s, CheckStable(r, push), checked);
    ThenStep(s, s, CheckStable(r, push), checked);
    t := PublishChecked(checked, r, push);
    ThenLeads(s, checked, t);
  }

  lemma PublishChecked(s: State, r: Record, push: Sha) returns (t: State)
    requires r.identity.line in s.jobs && s.jobs[r.identity.line] == Checked(r, push) && r.identity.phase.None?
    requires r.draftId in s.repo.releases && HasShape(s.repo.releases[r.draftId], r)
    requires r.identity.tag in s.repo.tags ==> s.repo.tags[r.identity.tag] == push
    ensures Leads(s, t) && PublishedAs(t, r)
  {
    var line := r.identity.line;
    var tagged := WithJob(s.(repo := EnsureTag(s.repo, r.identity.tag, push).value), line, Tagged(r, push));
    var latest := r.identity.tag.Plain? && IsGreatestStable(tagged.repo, r.identity.tag.base);
    t := WithoutJob(tagged.(repo := PublishRelease(tagged.repo, r, latest)), line);
    Stays(s);
    assert PublicationStep(s, TagStep(line), tagged);
    ThenStep(s, s, TagStep(line), tagged);
    assert PublicationStep(tagged, Flip(line), t);
    ThenStep(s, tagged, Flip(line), t);
  }

  /** What is left by a run that takes a draft over and dies before it deletes the assets. */
  function TakenOver(s: State, i: Identity, id: nat): State
    requires id in s.repo.releases
  {
    s.(repo := s.repo.(
      tags := s.repo.tags - {i.tag},
      releases := s.repo.releases[id := Retitled(i, id, s.repo.releases[id])]))
  }

  lemma TakesOverAndDies(s: State, id: nat, b: Identity, i: Identity)
    requires ReleasesOk(s) && DraftOf(s.repo, id, i.tag) && s.repo.releases[id].body == Some(b)
    requires WellFormed(b) && WellFormed(i) && b != i && SameOwner(i, b)
    requires i in s.identities && i.line !in s.jobs
    requires i.tag in s.repo.tags ==> s.repo.tags[i.tag] == b.buildSha
    ensures Leads(s, TakenOver(s, i, id))
  {
    assert ReleaseOk(id, s.repo.releases[id], s.identities);
    var listed := SelectsOwned(s, id, b, i);
    var m := WithJob(s, i.line, Selected(i, Some(DraftSelection(id, Some(b.buildSha)))));
    var u := WithJob(m.(repo := s.repo.(tags := s.repo.tags - {i.tag})), i.line, Untagged(i, id));
    Stays(s);
    assert StagingStep(s, SelectStep(i, listed), m);
    ThenStep(s, s, SelectStep(i, listed), m);
    assert StagingStep(m, DropTag(i.line), u);
    ThenStep(s, m, DropTag(i.line), u);
    DiesRewritten(u, i, id);
    assert WithoutJob(u, i.line).jobs == s.jobs;
    ThenLeads(s, u, TakenOver(s, i, id));
  }

  lemma DiesRewritten(u: State, i: Identity, id: nat)
    requires i.line in u.jobs && u.jobs[i.line] == Untagged(i, id) && id in u.repo.releases
    ensures Leads(u, WithRelease(WithoutJob(u, i.line), id, Retitled(i, id, u.repo.releases[id])))
  {
    var rewritten := WithJob(WithRelease(u, id, Retitled(i, id, u.repo.releases[id])), i.line, Dirty(i, id));
    var dead := WithoutJob(rewritten, i.line);
    Stays(u);
    assert StagingStep(u, Rewrite(i.line), rewritten);
    ThenStep(u, u, Rewrite(i.line), rewritten);
    assert EnvironmentStep(rewritten, Die(i.line), dead);
    ThenStep(u, rewritten, Die(i.line), dead);
    assert dead.jobs == u.jobs - {i.line};
  }

  /** What the cases below start from: a draft of b with the assets of the record. */
  ghost predicate HoldsAssets(s: State, r: Record, b: Identity) {
    && Attached(s, r) && s.repo.releases[r.draftId].draft && s.repo.releases[r.draftId].body == Some(b)
    && r.identity.line !in s.jobs && r.identity in s.identities
    && WellFormed(b) && WellFormed(r.identity) && SameOwner(r.identity, b)
  }

  /** Another identity holds the draft, and the tag is free or names its build: a run of the
      candidate that dies early gives the draft back with its assets. */
  lemma PublishTakenOver(s: State, r: Record, push: Sha, b: Identity) returns (t: State)
    requires ReleasesOk(s) && IsMerged(s, r, push) && HoldsAssets(s, r, b) && b != r.identity
    requires b.tag in s.repo.tags ==> s.repo.tags[b.tag] == b.buildSha
    ensures Leads(s, t) && PublishedAs(t, r)
  {
    assert ReleaseOk(r.draftId, s.repo.releases[r.draftId], s.identities);
    TakesOverAndDies(s, r.draftId, b, r.identity);
    var back := TakenOver(s, r.identity, r.draftId);
    t := PublishHeld(back, r, push);
    ThenLeads(s, back, t);
  }

  /** Another identity of the pull request can be resolved if it has not been. */
  lemma Obtain(s: State, legacy: set<Tag>, id: nat, b: Identity, j: Identity) returns (t: State)
    requires Inv(s, legacy) && Obtainable(s, j) && SameOwner(j, b) && b.tag.Plain?
    requires DraftOf(s.repo, id, b.tag)
    ensures Leads(s, t) && t == s.(tagReads := t.tagReads, identities := s.identities + {j})
  {
    Stays(s);
    if j in s.identities {
      t := s;
    } else {
      var view :| view in s.seen && ResolvesTo(s.history, view, j);
      var read := s.(tagReads := s.tagReads + {s.repo.tags.Keys});
      t := read.(identities := read.identities + {j});
      assert EnvironmentStep(s, ReadTags, read);
      ThenStep(s, s, ReadTags, read);
      assert Keeps(OfReleases, s, legacy) && Keeps(OfSuffixes, s, legacy);
      var tags := ListTags(s.repo.tags.Keys);
      var listed := ListReleases(s);
      ResolvesAnew(s, id, view, tags, listed);
      assert (set u | u in tags) == s.repo.tags.Keys;
      assert ResolveStep(read, Resolve(view, view, tags, listed), t);
      ThenStep(s, read, Resolve(view, view, tags, listed), t);
    }
  }

  lemma ResolvesAnew(s: State, id: nat, view: LivePr, tags: seq<Tag>, listed: seq<Release>)
    requires ReleasesOk(s) && Lists(listed, s.repo) && forall j :: j in s.identities ==> IdentityOk(j)
    requires DraftOf(s.repo, id, PlainIdentity(view).tag)
    requires ResolvesTo(s.history, view, PlainIdentity(view))
    ensures ResolveCandidate(view, view, tags, listed, StableMerge.HeadIsStaged(s.history, view))
      == Success(Some(PlainIdentity(view)))
  {
    SnapshotsReadable(s, listed);
    forall r | r in listed && !r.draft ensures r.tag != PlainIdentity(view).tag {
      assert HasTag(s.repo, r.id, r.tag);
    }
  }

  /** The candidate holds the draft, but the tag names its tested source instead of the
      push: another identity takes tag and draft away, and the candidate returns. */
  lemma PublishRetagged(s: State, legacy: set<Tag>, r: Record, push: Sha, j: Identity) returns (t: State)
    requires Inv(s, legacy) && IsMerged(s, r, push) && HoldsAssets(s, r, r.identity)
    requires r.identity.tag in s.repo.tags ==> s.repo.tags[r.identity.tag] == r.identity.buildSha
    requires Obtainable(s, j) && SameOwner(j, r.identity) && j != r.identity
    ensures Leads(s, t) && PublishedAs(t, r)
  {
    var i, id := r.identity, r.draftId;
    assert Keeps(OfReleases, s, legacy);
    assert ReleaseOk(id, s.repo.releases[id], s.identities);
    var known := Obtain(s, legacy, id, i, j);
    LeadsKeepsInv(s, known, legacy);
    assert Keeps(OfReleases, known, legacy) && Keeps(OfSuffixes, known, legacy);
    assert IdentityOk(j);
    TakesOverAndDies(known, id, i, j);
    var taken := TakenOver(known, j, id);
    ThenLeads(s, known, taken);
    LeadsKeepsInv(known, taken, legacy);
    assert Keeps(OfReleases, taken, legacy);
    t := PublishTakenOver(taken, r, push, j);
    ThenLeads(s, taken, t);
  }

  /** The release of a merged record, what it holds and who owns it. */
  lemma MergedHolds(s: State, legacy: set<Tag>, r: Record, push: Sha) returns (b: Identity)
    requires Reachable(s, legacy) && IsMerged(s, r, push)
    ensures r.draftId in s.repo.releases && s.repo.releases[r.draftId].body == Some(b)
    ensures SameOwner(b, r.identity) && WellFormed(b) && WellFormed(r.identity) && b.phase.None? && b.tag.Plain?
    ensures HasTag(s.repo, r.draftId, b.tag) && r.identity in s.identities
    ensures r.upload < s.uploads
  {
    assert HasOwner(s, r.draftId, r.identity);
    b := s.repo.releases[r.draftId].body.value;
    assert Keeps(OfReleases, s, legacy) && Keeps(OfSuffixes, s, legacy) && Keeps(OfJobs, s, legacy);
    assert ReleaseOk(r.draftId, s.repo.releases[r.draftId], s.identities);
    assert IdentityOk(b) && IdentityOk(r.identity);
  }

  /** The release of a merged record is published as nothing else. */
  lemma PublishedIsTheRecord(s: State, legacy: set<Tag>, r: Record, push: Sha)
    requires Reachable(s, legacy) && StablesAccepted(s) && IsMerged(s, r, push)
    requires r.draftId in s.repo.releases && !s.repo.releases[r.draftId].draft
    ensures PublishedAs(s, r)
  {
    var b := MergedHolds(s, legacy, r, push);
    assert Keeps(OfPublished, s, legacy);
    assert PublishedStable(s, r.draftId, b);
    StableMerge.OneRecordIsAccepted(s.history, r, RecordOf(s, r.draftId, b), push);
  }

  lemma PublishIfAllowed(s: State, legacy: set<Tag>, r: Record, push: Sha) returns (t: State)
    requires Reachable(s, legacy) && StablesAccepted(s) && IsMerged(s, r, push) && r.identity.line !in s.jobs
    requires CanYetPublish(s, r, push)
    ensures Leads(s, t) && PublishedAs(t, r)
  {
    var i := r.identity;
    var b := MergedHolds(s, legacy, r, push);
    assert Keeps(OfReleases, s, legacy);
    if !s.repo.releases[r.draftId].draft {
      PublishedIsTheRecord(s, legacy, r, push);
      t := s;
      Stays(s);
    } else if b != i {
      t := PublishTakenOver(s, r, push, b);
    } else if i.tag !in s.repo.tags || s.repo.tags[i.tag] == push {
      assert ReleaseOk(r.draftId, s.repo.releases[r.draftId], s.identities);
      t := PublishHeld(s, r, push);
    } else {
      var j :| Obtainable(s, j) && SameOwner(j, b) && j != b;
      t := PublishRetagged(s, legacy, r, push, j);
    }
  }

  // ------------------------------------------------------------ the theorem

  /** What cannot be published now is lost or stuck. */
  lemma StuckAtFirst(s: State, legacy: set<Tag>, r: Record, push: Sha) returns (b: Identity)
    requires Reachable(s, legacy) && IsMerged(s, r, push) && r.identity.line !in s.jobs
    requires !CanYetPublish(s, r, push)
    ensures IsLost(s, r) || IsStuck(s, r, push, b)
  {
    b := MergedHolds(s, legacy, r, push);
    assert Keeps(OfJobs, s, legacy) && Keeps(OfSuffixes, s, legacy);
    assert forall i :: i in s.identities ==> IdentityOk(i);
    forall line | line in s.jobs ensures JobIsStuck(s.jobs[line], r.draftId, b) {
      if WorksOn(s.jobs[line], r.draftId) {
        JobIsOfItsLine(s, line, r.draftId);
        assert false;
      }
    }
  }

  lemma NeverPublished(s: State, t: State, legacy: set<Tag>, r: Record, push: Sha, b: Identity)
    requires Reachable(s, legacy) && (IsLost(s, r) || IsStuck(s, r, push, b)) && Leads(s, t)
    ensures !PublishedAs(t, r)
  {
    var path :| IsPath(path, s, t);
    if IsLost(s, r) {
      PathStaysLost(path, |path| - 1, r);
    } else {
      PathStaysStuck(path, |path| - 1, legacy, r, push, b);
    }
  }

  /** In every reachable state with the line unlocked: some continuation publishes the
      merged stable with the assets it was merged with exactly when the release still
      carries them and, if it is a draft, its tag is free, names the push while the
      candidate holds the draft, or names the build of the identity that holds the draft
      while the pull request has another identity. */
  lemma StableIsPublishableExactly(run: seq<State>, at: nat, r: Record, push: Sha)
    requires IsRun(run) && at < |run| && IsMerged(run[at], r, push) && r.identity.line !in run[at].jobs
    ensures (exists t :: Leads(run[at], t) && PublishedAs(t, r)) <==> CanYetPublish(run[at], r, push)
  {
    var s, legacy := run[at], Legacy(run[0]);
    RunIsReachable(run, at);
    StablesWereAccepted(run, at);
    if CanYetPublish(s, r, push) {
      var t := PublishIfAllowed(s, legacy, r, push);
    } else {
      var b := StuckAtFirst(s, legacy, r, push);
      forall t | Leads(s, t) ensures !PublishedAs(t, r) {
        NeverPublished(s, t, legacy, r, push, b);
      }
    }
  }

  // ------------------------------------------------ tags of the pipeline

  /** The tag names the merge of a record that still holds the release. */
  ghost predicate MadeFor(s: State, t: Tag, r: Record) {
    && r.identity.tag == t && r.identity.phase.None?
    && t in s.repo.tags && r.identity.pr in s.merges && s.repo.tags[t] == s.merges[r.identity.pr]
    && StableMerge.RecordAccepted(s.history, r, s.repo.tags[t])
    && HasTag(s.repo, r.draftId, t) && s.repo.releases[r.draftId].body == Some(r.identity)
  }

  /** Every plain tag that is not older than the pipeline was made by a publication. */
  ghost predicate TagsMade(s: State, older: set<Tag>) {
    forall t: Tag :: t in s.repo.tags && t.Plain? && t !in older ==> exists r :: MadeFor(s, t, r)
  }

  lemma StagingKeepsMade(s: State, step: Step, s': State, t: Tag, r: Record)
    requires ReleasesOk(s) && JobsOk(s) && StagingStep(s, step, s') && MadeFor(s, t, r) && t in s'.repo.tags
    ensures MadeFor(s', t, r)
  {
    if !step.SelectStep? {
      assert JobOk(s, step.line, s.jobs[step.line]);
    }
  }

  lemma PublicationKeepsMade(s: State, step: Step, s': State, t: Tag, r: Record)
    requires ReleasesOk(s) && JobsOk(s) && PublicationStep(s, step, s') && MadeFor(s, t, r)
    ensures MadeFor(s', t, r)
  {
    if step.TagStep? || step.Flip? {
      assert JobOk(s, step.line, s.jobs[step.line]);
    }
  }

  lemma StepKeepsMade(s: State, step: Step, s': State, t: Tag, r: Record)
    requires ReleasesOk(s) && JobsOk(s) && Do(s, step, s') && MadeFor(s, t, r) && t in s'.repo.tags
    ensures MadeFor(s', t, r)
  {
    if StagingStep(s, step, s') {
      StagingKeepsMade(s, step, s', t, r);
    } else if PublicationStep(s, step, s') {
      PublicationKeepsMade(s, step, s', t, r);
    } else {
      StepRemembers(s, s');
    }
  }

  /** A new plain tag is that of a run that passed the stable guards. */
  lemma NewTagIsMade(s: State, step: Step, s': State, t: Tag)
    requires ReleasesOk(s) && JobsOk(s) && JobsAccepted(s) && forall i :: i in s.identities ==> IdentityOk(i)
    requires Do(s, step, s') && t.Plain? && t in s'.repo.tags && t !in s.repo.tags
    ensures exists r :: MadeFor(s', t, r)
  {
    assert step.TagStep?;
    var job := s.jobs[step.line];
    assert JobOk(s, step.line, job) && IdentityOk(job.record.identity);
    assert PublishingStable(s, step.line, job.record, job.target);
    assert MadeFor(s', t, job.record);
  }

  lemma TagsMadeStep(run: seq<State>, k: nat)
    requires IsRun(run) && k + 1 < |run| && TagsMade(run[k], run[0].repo.tags.Keys)
    ensures TagsMade(run[k + 1], run[0].repo.tags.Keys)
  {
    var s, s' := run[k], run[k + 1];
    RunKeepsInv(run, k);
    assert Keeps(OfReleases, s, Legacy(run[0])) && Keeps(OfJobs, s, Legacy(run[0]));
    assert Keeps(OfSuffixes, s, Legacy(run[0]));
    StablesWereAccepted(run, k);
    assert StepsAt(run, k);
    var step :| Do(s, step, s');
    forall t: Tag | t in s'.repo.tags && t.Plain? && t !in run[0].repo.tags ensures exists r :: MadeFor(s', t, r) {
      if t in s.repo.tags {
        var r :| MadeFor(s, t, r);
        StepKeepsMade(s, step, s', t, r);
      } else {
        NewTagIsMade(s, step, s', t);
      }
    }
  }

  lemma {:induction false} PlainTagsWereMade(run: seq<State>, k: nat)
    requires IsRun(run) && k < |run|
    ensures TagsMade(run[k], run[0].repo.tags.Keys)
  {
    if k > 0 {
      PlainTagsWereMade(run, k - 1);
      TagsMadeStep(run, k - 1);
    }
  }

  /** Without a tag that is older than the pipeline: as long as the assets of a merged
      stable are attached it can be published, whoever holds its draft, and from the moment
      they are not it never can. */
  lemma StableIsPublishableWhileAttached(run: seq<State>, at: nat, r: Record, push: Sha)
    requires IsRun(run) && at < |run| && IsMerged(run[at], r, push) && r.identity.line !in run[at].jobs
    requires r.identity.tag !in run[0].repo.tags
    ensures (exists t :: Leads(run[at], t) && PublishedAs(t, r)) <==> Attached(run[at], r)
  {
    StableIsPublishableExactly(run, at, r, push);
    var s := run[at];
    RunIsReachable(run, at);
    var b := MergedHolds(s, Legacy(run[0]), r, push);
    if b.tag in s.repo.tags {
      PlainTagsWereMade(run, at);
      var maker :| MadeFor(s, b.tag, maker);
      assert Keeps(OfReleases, s, Legacy(run[0]));
      StableMerge.OneRecordIsAccepted(s.history, r, maker, push);
    }
  }
}
