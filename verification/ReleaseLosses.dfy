/** When a merged stable candidate can never be published again: its draft lost the upload
    that the record names, or the tag of its draft stops staging and publication alike. */
module ReleaseLosses {
  import opened Wrappers
  import opened Tags
  import opened Candidates
  import opened Publication
  import opened ReleaseProtocol
  import opened ReleaseInvariants
  import opened ReleaseSafety
  import opened ReleaseRuns
  import opened ReleaseOwners
  import opened ReleaseProvenance
  import opened ReleaseProgress
  import opened ReleaseBlocking
  import StableMerge

  /** The stable record is announced, its pull request is merged by this push, and the push
      passes the three checks. */
  ghost predicate IsMerged(s: State, r: Record, push: Sha) {
    && r in s.records && r.identity.phase.None?
    && r.identity.pr in s.merges && s.merges[r.identity.pr] == push
    && StableMerge.RecordAccepted(s.history, r, push)
  }

  /** The release carries the assets that the record names. */
  predicate Attached(s: State, r: Record) {
    r.draftId in s.repo.releases && s.repo.releases[r.draftId].assets == Some(r.upload)
  }

  /** It is published, with these assets. */
  predicate PublishedAs(s: State, r: Record) {
    PublishedStable(s, r.draftId, r.identity) && Attached(s, r)
  }

  // ------------------------------------------ identities of a pull request

  /** The unlabelled pull request resolves to this identity. */
  ghost predicate ResolvesTo(h: StableMerge.History, view: LivePr, j: Identity) {
    && view.open && view.labels == {} && view.line >= 1 && view.snapshot.prepared.major == view.line
    && !StableMerge.HeadIsStaged(h, view)
    && j == PlainIdentity(view)
  }

  /** The identity was resolved, or a past state of its pull request resolves to it. */
  ghost predicate Obtainable(s: State, j: Identity) {
    j in s.identities || exists view :: view in s.seen && ResolvesTo(s.history, view, j)
  }

  /** No other identity can replace a draft of b. */
  ghost predicate OnlyIdentity(s: State, b: Identity) {
    forall j :: Obtainable(s, j) && SameOwner(j, b) ==> j == b
  }

  lemma ResolvedIsObtainable(s: State, step: Step, s': State, j: Identity)
    requires ResolveStep(s, step, s') && j in s'.identities && j.tag.Plain?
    ensures Obtainable(s, j)
  {
    if j !in s.identities {
      assert ResolvesTo(s.history, step.view, j);
    }
  }

  /** A merged pull request gets no new identity. */
  lemma StepKeepsOnly(s: State, step: Step, s': State, b: Identity)
    requires b.pr in s.merges && b.tag.Plain? && OnlyIdentity(s, b) && Do(s, step, s')
    ensures OnlyIdentity(s', b)
  {
    StepRemembers(s, s');
    forall j | Obtainable(s', j) && SameOwner(j, b) ensures Obtainable(s, j) {
      if j in s'.identities {
        if ResolveStep(s, step, s') {
          ResolvedIsObtainable(s, step, s', j);
        } else {
          SameIdentities(s, step, s');
        }
      } else {
        var view :| view in s'.seen && ResolvesTo(s'.history, view, j);
        MergedIsNotSeenOpen(s, step, s', view);
      }
    }
  }

  lemma SameIdentities(s: State, step: Step, s': State)
    requires Do(s, step, s') && !ResolveStep(s, step, s')
    ensures s'.identities == s.identities
  {
  }

  lemma MergedIsNotSeenOpen(s: State, step: Step, s': State, view: LivePr)
    requires Do(s, step, s') && view in s'.seen && view.open && view.number in s.merges
    ensures view in s.seen
  {
  }

  // -------------------------------------------------- what paths preserve

  /** Every upload that a record, a release or a run names has been made. */
  ghost predicate UploadsOk(s: State) {
    && (forall r :: r in s.records ==> r.upload < s.uploads)
    && (forall id :: id in s.repo.releases && s.repo.releases[id].assets.Some? ==>
          s.repo.releases[id].assets.value < s.uploads)
    && (forall line :: line in s.jobs && s.jobs[line].Uploaded? ==> s.jobs[line].upload < s.uploads)
  }

  lemma StagingKeepsUploads(s: State, step: Step, s': State)
    requires UploadsOk(s) && StagingStep(s, step, s')
    ensures UploadsOk(s')
  {
  }

  lemma PublicationKeepsUploads(s: State, step: Step, s': State)
    requires UploadsOk(s) && PublicationStep(s, step, s')
    ensures UploadsOk(s')
  {
  }

  lemma StepKeepsUploads(s: State, step: Step, s': State)
    requires UploadsOk(s) && Do(s, step, s')
    ensures UploadsOk(s')
  {
    if StagingStep(s, step, s') {
      StagingKeepsUploads(s, step, s');
    } else if PublicationStep(s, step, s') {
      PublicationKeepsUploads(s, step, s');
    }
  }

  /** What is known about a reachable state. */
  ghost predicate Reachable(s: State, legacy: set<Tag>) {
    Inv(s, legacy) && JobsOwned(s) && RecordsOwned(s) && UploadsOk(s)
  }

  lemma PathStep(path: seq<State>, k: nat, legacy: set<Tag>)
    requires k + 1 < |path| && StepsAt(path, k) && Reachable(path[k], legacy)
    ensures Reachable(path[k + 1], legacy)
  {
    NextKeepsInv(path[k], path[k + 1], legacy);
    assert Keeps(OfReleases, path[k], legacy) && Keeps(OfJobs, path[k], legacy);
    var step :| Do(path[k], step, path[k + 1]);
    StepKeepsJobsOwned(path[k], step, path[k + 1]);
    StepKeepsRecordsOwned(path[k], step, path[k + 1]);
    StepKeepsUploads(path[k], step, path[k + 1]);
  }

  lemma {:induction false} PathKeepsReachable(path: seq<State>, k: nat, legacy: set<Tag>)
    requires k < |path| && Reachable(path[0], legacy) && forall i: nat :: i + 1 < |path| ==> StepsAt(path, i)
    ensures Reachable(path[k], legacy)
  {
    if k > 0 {
      PathKeepsReachable(path, k - 1, legacy);
      PathStep(path, k - 1, legacy);
    }
  }

  lemma RunIsReachable(run: seq<State>, k: nat)
    requires IsRun(run) && k < |run|
    ensures Reachable(run[k], Legacy(run[0]))
  {
    RunKeepsInv(run, 0);
    PathKeepsReachable(run, k, Legacy(run[0]));
  }

  /** Records, merges and commits are never taken back. */
  ghost predicate Remembers(s: State, t: State) {
    && s.records <= t.records && t.history == s.history
    && forall pr :: pr in s.merges ==> pr in t.merges && t.merges[pr] == s.merges[pr]
  }

  lemma StagingRemembers(s: State, step: Step, t: State)
    requires StagingStep(s, step, t)
    ensures Remembers(s, t)
  {
  }

  lemma PublicationRemembers(s: State, step: Step, t: State)
    requires PublicationStep(s, step, t)
    ensures Remembers(s, t)
  {
  }

  lemma StepRemembers(s: State, t: State)
    requires Next(s, t)
    ensures Remembers(s, t)
  {
    var step :| Do(s, step, t);
    if StagingStep(s, step, t) {
      StagingRemembers(s, step, t);
    } else if PublicationStep(s, step, t) {
      PublicationRemembers(s, step, t);
    }
  }

  lemma {:induction false} PathRemembers(path: seq<State>, k: nat)
    requires k < |path| && forall i: nat :: i + 1 < |path| ==> StepsAt(path, i)
    ensures Remembers(path[0], path[k])
  {
    if k > 0 {
      PathRemembers(path, k - 1);
      assert StepsAt(path, k - 1);
      StepRemembers(path[k - 1], path[k]);
    }
  }

  lemma MergedLater(s: State, t: State, r: Record, push: Sha)
    requires Leads(s, t) && IsMerged(s, r, push)
    ensures IsMerged(t, r, push)
  {
    var path :| IsPath(path, s, t);
    PathRemembers(path, |path| - 1);
  }

  // ------------------------------------------------------ a lost upload

  /** The upload is made and no longer attached. */
  predicate IsLost(s: State, r: Record) {
    r.upload < s.uploads && !Attached(s, r)
  }

  lemma StagingKeepsLost(s: State, step: Step, t: State, r: Record)
    requires IsLost(s, r) && StagingStep(s, step, t)
    ensures IsLost(t, r)
  {
  }

  /** Uploads are fresh, so what was deleted does not come back. */
  lemma StaysLost(s: State, t: State, r: Record)
    requires IsLost(s, r) && Next(s, t)
    ensures IsLost(t, r)
  {
    var step :| Do(s, step, t);
    if StagingStep(s, step, t) {
      StagingKeepsLost(s, step, t, r);
    }
  }

  lemma {:induction false} PathStaysLost(path: seq<State>, k: nat, r: Record)
    requires k < |path| && IsLost(path[0], r) && forall i: nat :: i + 1 < |path| ==> StepsAt(path, i)
    ensures IsLost(path[k], r)
  {
    if k > 0 {
      PathStaysLost(path, k - 1, r);
      assert StepsAt(path, k - 1);
      StaysLost(path[k - 1], path[k], r);
    }
  }

  // ------------------------------------------------------- a tag in the way

  /** The draft is held by b, and its tag is accepted neither by a publication of the merged
      record nor by a staging run of any identity that can still come. */
  ghost predicate IsStuck(s: State, r: Record, push: Sha, b: Identity) {
    && IsMerged(s, r, push) && SameOwner(b, r.identity) && b.phase.None? && b.tag.Plain?
    && DraftOf(s.repo, r.draftId, b.tag) && s.repo.releases[r.draftId].body == Some(b)
    && b.tag in s.repo.tags
    && !(s.repo.tags[b.tag] == push && b == r.identity)
    && (s.repo.tags[b.tag] == b.buildSha ==> OnlyIdentity(s, b))
    && forall line :: line in s.jobs ==> JobIsStuck(s.jobs[line], r.draftId, b)
  }

  /** A run that works on the draft is about to supersede it in vain, or stages b again. */
  predicate JobIsStuck(job: Job, id: nat, b: Identity) {
    WorksOn(job, id) ==>
      match job
      case Selected(i, selection) => selection.value.staleBuild == if i == b then None else Some(b.buildSha)
      case Dirty(i, _) => i == b
      case Empty(i, _) => i == b
      case Uploaded(i, _, _) => i == b
      case _ => false
  }

  /** The draft, its body and its tag are as before. */
  predicate SameDraft(s: State, t: State, id: nat, tag: Tag) {
    && id in s.repo.releases && id in t.repo.releases
    && t.repo.releases[id].body == s.repo.releases[id].body
    && t.repo.releases[id].draft == s.repo.releases[id].draft
    && t.repo.releases[id].tag == s.repo.releases[id].tag
    && tag in s.repo.tags && tag in t.repo.tags && t.repo.tags[tag] == s.repo.tags[tag]
  }

  lemma StuckSelect(s: State, step: Step, t: State, r: Record, push: Sha, b: Identity)
    requires ReleasesOk(s) && IsStuck(s, r, push, b) && step.SelectStep? && StagingStep(s, step, t)
    ensures SameDraft(s, t, r.draftId, b.tag)
    ensures JobIsStuck(t.jobs[step.identity.line], r.draftId, b)
  {
    var selection := SelectDraftFrom(step.listed, step.identity, None).value;
    if selection.Some? {
      var id := ListedSelection(s, step.listed, step.identity, selection.value);
    }
  }

  /** A job with the tag of the draft works on the draft. */
  lemma JobOfTag(s: State, line: nat, id: nat, tag: Tag)
    requires ReleasesOk(s) && JobsOk(s) && line in s.jobs && HasTag(s.repo, id, tag)
    requires !s.jobs[line].Selected? || s.jobs[line].selection.Some?
    requires JobIdentity(s.jobs[line]).tag == tag
    ensures WorksOn(s.jobs[line], id)
  {
    assert JobOk(s, line, s.jobs[line]);
  }

  /** Nobody drops the tag of the draft. */
  lemma StuckTagStays(s: State, step: Step, t: State, r: Record, push: Sha, b: Identity)
    requires ReleasesOk(s) && JobsOk(s) && JobsOwned(s) && IsStuck(s, r, push, b)
    requires step.DropTag? && StagingStep(s, step, t)
    ensures s.jobs[step.line].identity.tag != b.tag && !WorksOn(s.jobs[step.line], r.draftId)
  {
    var job := s.jobs[step.line];
    assert JobOk(s, step.line, job);
    if job.identity.tag == b.tag {
      JobOfTag(s, step.line, r.draftId, b.tag);
      assert JobIsStuck(job, r.draftId, b) && JobOwned(s, job);
      assert HasOwner(s, r.draftId, job.identity);
      assert Obtainable(s, job.identity);
    }
  }

  lemma StuckWrite(s: State, step: Step, t: State, r: Record, push: Sha, b: Identity)
    requires ReleasesOk(s) && JobsOk(s) && JobsOwned(s) && IsStuck(s, r, push, b)
    requires StagingStep(s, step, t) && !step.SelectStep?
    ensures SameDraft(s, t, r.draftId, b.tag)
    ensures step.DropTag? ==> !WorksOn(s.jobs[step.line], r.draftId)
  {
    assert JobOk(s, step.line, s.jobs[step.line]) && JobIsStuck(s.jobs[step.line], r.draftId, b);
    if step.DropTag? {
      StuckTagStays(s, step, t, r, push, b);
    }
  }

  lemma StuckWriteJob(s: State, step: Step, t: State, id: nat, b: Identity)
    requires StagingStep(s, step, t) && !step.SelectStep? && id in s.repo.releases
    requires JobIsStuck(s.jobs[step.line], id, b)
    requires step.DropTag? ==> !WorksOn(s.jobs[step.line], id)
    ensures step.line in t.jobs ==> JobIsStuck(t.jobs[step.line], id, b)
  {
  }

  /** No publication of the draft passes its guards. */
  lemma StuckCheck(s: State, step: Step, t: State, r: Record, push: Sha, b: Identity)
    requires IsStuck(s, r, push, b) && PublicationStep(s, step, t)
    requires step.CheckPreview? || step.CheckStable?
    ensures step.record.draftId != r.draftId
  {
  }

  lemma StuckMutation(s: State, step: Step, t: State, r: Record, push: Sha, b: Identity)
    requires ReleasesOk(s) && JobsOk(s) && IsStuck(s, r, push, b) && PublicationStep(s, step, t)
    requires step.TagStep? || step.Flip?
    ensures SameDraft(s, t, r.draftId, b.tag)
  {
    assert JobIsStuck(s.jobs[step.line], r.draftId, b);
    assert s.jobs[step.line].record.identity.tag != b.tag by {
      if s.jobs[step.line].record.identity.tag == b.tag {
        JobOfTag(s, step.line, r.draftId, b.tag);
      }
    }
  }

  lemma StuckPublicationJobs(s: State, step: Step, t: State, r: Record, push: Sha, b: Identity)
    requires IsStuck(s, r, push, b) && PublicationStep(s, step, t)
    requires step.CheckPreview? || step.CheckStable? ==> step.record.draftId != r.draftId
    ensures forall line :: LineOfStep(step) == Some(line) && line in t.jobs ==> JobIsStuck(t.jobs[line], r.draftId, b)
  {
    if step.TagStep? || step.Flip? {
      assert JobIsStuck(s.jobs[step.line], r.draftId, b);
    }
  }

  lemma StuckPublish(s: State, step: Step, t: State, r: Record, push: Sha, b: Identity)
    requires ReleasesOk(s) && JobsOk(s) && IsStuck(s, r, push, b) && PublicationStep(s, step, t)
    ensures SameDraft(s, t, r.draftId, b.tag)
    ensures forall line :: LineOfStep(step) == Some(line) && line in t.jobs ==> JobIsStuck(t.jobs[line], r.draftId, b)
  {
    if step.CheckPreview? || step.CheckStable? {
      StuckCheck(s, step, t, r, push, b);
      assert t.repo == s.repo;
    } else {
      StuckMutation(s, step, t, r, push, b);
    }
    StuckPublicationJobs(s, step, t, r, push, b);
  }

  lemma StuckStep(s: State, step: Step, t: State, r: Record, push: Sha, b: Identity)
    requires ReleasesOk(s) && JobsOk(s) && JobsOwned(s) && IsStuck(s, r, push, b) && Do(s, step, t)
    ensures SameDraft(s, t, r.draftId, b.tag)
    ensures forall line :: LineOfStep(step) == Some(line) && line in t.jobs ==> JobIsStuck(t.jobs[line], r.draftId, b)
  {
    if StagingStep(s, step, t) {
      if step.SelectStep? {
        StuckSelect(s, step, t, r, push, b);
      } else {
        StuckWrite(s, step, t, r, push, b);
        StuckWriteJob(s, step, t, r.draftId, b);
      }
    } else if PublicationStep(s, step, t) {
      StuckPublish(s, step, t, r, push, b);
    } else {
      QuietStep(s, step, t);
    }
  }

  lemma StuckJobs(s: State, step: Step, t: State, r: Record, push: Sha, b: Identity)
    requires ReleasesOk(s) && JobsOk(s) && JobsOwned(s) && IsStuck(s, r, push, b) && Do(s, step, t)
    ensures SameDraft(s, t, r.draftId, b.tag)
    ensures forall line :: line in t.jobs ==> JobIsStuck(t.jobs[line], r.draftId, b)
  {
    StuckStep(s, step, t, r, push, b);
    forall line | line in t.jobs ensures JobIsStuck(t.jobs[line], r.draftId, b) {
      if LineOfStep(step) != Some(line) {
        OtherLinesStay(s, step, t, line);
      }
    }
  }

  lemma StaysStuck(s: State, t: State, r: Record, push: Sha, b: Identity)
    requires ReleasesOk(s) && JobsOk(s) && JobsOwned(s) && IsStuck(s, r, push, b) && Next(s, t)
    ensures IsStuck(t, r, push, b)
  {
    var step :| Do(s, step, t);
    StuckJobs(s, step, t, r, push, b);
    StepRemembers(s, t);
    if OnlyIdentity(s, b) {
      StepKeepsOnly(s, step, t, b);
    }
  }

  lemma {:induction false} PathStaysStuck(
      path: seq<State>, k: nat, legacy: set<Tag>, r: Record, push: Sha, b: Identity)
    requires k < |path| && Reachable(path[0], legacy) && forall i: nat :: i + 1 < |path| ==> StepsAt(path, i)
    requires IsStuck(path[0], r, push, b)
    ensures IsStuck(path[k], r, push, b)
  {
    if k > 0 {
      PathStaysStuck(path, k - 1, legacy, r, push, b);
      PathKeepsReachable(path, k - 1, legacy);
      assert StepsAt(path, k - 1);
      assert Keeps(OfReleases, path[k - 1], legacy) && Keeps(OfJobs, path[k - 1], legacy);
      StaysStuck(path[k - 1], path[k], r, push, b);
    }
  }
}
