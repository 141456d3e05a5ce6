/** What a published preview says about its pull request: at some earlier moment the pull
    request was open, carried exactly this phase, source, base and snapshot, and was
    authorised. Nothing else is ever published as a preview by the pipeline. */
module ReleaseProvenance {
  import opened Wrappers
  import opened Tags
  import opened Candidates
  import opened Publication
  import opened ReleaseProtocol
  import opened ReleaseRuns
  import StableMerge
  import Trees

  /** The live pull request is the one the identity describes, and is authorised. */
  ghost predicate LiveAt(s: State, i: Identity) {
    i.pr in s.live && LiveMatches(i, s.live[i.pr]) && s.live[i.pr].authorized
  }

  /** It was so in one of the first k states. */
  ghost predicate WasLive(run: seq<State>, k: nat, i: Identity) {
    exists j: nat :: j < k && j < |run| && LiveAt(run[j], i)
  }

  /** A run that has passed the guards and works on a preview record. */
  predicate Publishing(s: State, line: nat, r: Record) {
    && line in s.jobs
    && ((s.jobs[line].Checked? && s.jobs[line].record == r) || (s.jobs[line].Tagged? && s.jobs[line].record == r))
    && r.identity.phase.Some?
  }

  predicate PublishedPreview(s: State, id: nat, i: Identity) {
    id in s.repo.releases && !s.repo.releases[id].draft && s.repo.releases[id].body == Some(i) && i.phase.Some?
  }

  /** The record that names the release with its present assets. */
  function RecordOf(s: State, id: nat, i: Identity): Record {
    var attached := id in s.repo.releases && s.repo.releases[id].assets.Some?;
    Record(i, id, if attached then s.repo.releases[id].assets.value else 0)
  }

  lemma StagingPublishesNothing(s: State, step: Step, s': State)
    requires JobsOk(s) && StagingStep(s, step, s')
    ensures forall line, r :: Publishing(s', line, r) ==> Publishing(s, line, r)
    ensures forall id, i :: PublishedPreview(s', id, i) ==> PublishedPreview(s, id, i)
  {
    if !step.SelectStep? {
      assert JobOk(s, step.line, s.jobs[step.line]);
    }
  }

  /** A run starts publishing only in a state in which the pull request is live. */
  lemma PublishingStartsLive(s: State, step: Step, s': State, line: nat, r: Record)
    requires PublicationStep(s, step, s') && Publishing(s', line, r)
    ensures Publishing(s, line, r) || LiveAt(s, r.identity)
  {
  }

  /** Only a run that passed the guards publishes. */
  lemma OnlyPublishingPublishes(s: State, step: Step, s': State, id: nat, i: Identity)
    requires JobsOk(s) && PublicationStep(s, step, s') && PublishedPreview(s', id, i)
    ensures PublishedPreview(s, id, i) || (step.Flip? && Publishing(s, step.line, RecordOf(s, id, i)))
  {
    if step.Flip? {
      assert JobOk(s, step.line, s.jobs[step.line]);
    }
  }

  /** Whoever publishes after a step published before it or had a live pull request. */
  lemma StepPublishesLive(s: State, s': State)
    requires JobsOk(s) && Next(s, s')
    ensures forall line, r :: Publishing(s', line, r) ==> Publishing(s, line, r) || LiveAt(s, r.identity)
    ensures forall id, i :: PublishedPreview(s', id, i) ==>
      PublishedPreview(s, id, i) || exists line :: Publishing(s, line, RecordOf(s, id, i))
  {
    var step :| Do(s, step, s');
    if StagingStep(s, step, s') {
      StagingPublishesNothing(s, step, s');
    } else if PublicationStep(s, step, s') {
      forall line, r | Publishing(s', line, r) ensures Publishing(s, line, r) || LiveAt(s, r.identity) {
        PublishingStartsLive(s, step, s', line, r);
      }
      forall id, i | PublishedPreview(s', id, i)
        ensures PublishedPreview(s, id, i) || exists line :: Publishing(s, line, RecordOf(s, id, i))
      {
        OnlyPublishingPublishes(s, step, s', id, i);
      }
    }
  }

  lemma WasLiveLater(run: seq<State>, k: nat, i: Identity)
    requires k < |run| && (WasLive(run, k, i) || LiveAt(run[k], i))
    ensures WasLive(run, k + 1, i)
  {
    if LiveAt(run[k], i) {
      assert k < k + 1;
    }
  }

  lemma {:induction false} PublicationsWereLive(run: seq<State>, k: nat)
    requires IsRun(run) && k < |run|
    ensures forall line, r :: Publishing(run[k], line, r) ==> WasLive(run, k, r.identity)
    ensures forall id, i :: PublishedPreview(run[k], id, i) ==> WasLive(run, k, i)
  {
    if k > 0 {
      PublicationsWereLive(run, k - 1);
      JobsStayOk(run, k - 1);
      assert StepsAt(run, k - 1);
      StepPublishesLive(run[k - 1], run[k]);
      forall line, r | Publishing(run[k], line, r) ensures WasLive(run, k, r.identity) {
        WasLiveLater(run, k - 1, r.identity);
      }
      forall id, i | PublishedPreview(run[k], id, i) ensures WasLive(run, k, i) {
        if !PublishedPreview(run[k - 1], id, i) {
          var line :| Publishing(run[k - 1], line, RecordOf(run[k - 1], id, i));
        }
        WasLiveLater(run, k - 1, i);
      }
    }
  }

  lemma JobsStayOk(run: seq<State>, k: nat)
    requires IsRun(run) && k < |run|
    ensures JobsOk(run[k])
  {
    RunKeepsInv(run, k);
    InvIsAllAspects(run[k], Legacy(run[0]));
  }

  /** Every preview the pipeline published belongs to a pull request that was, at some
      earlier state of the run, open and authorised, with exactly the published phase as
      its label and the published source, base and snapshot as its content. */
  lemma PublishedPreviewWasAuthorised(run: seq<State>, k: nat, id: nat, i: Identity) returns (j: nat)
    requires IsRun(run) && k < |run| && PublishedPreview(run[k], id, i)
    ensures j < k && i.pr in run[j].live
    ensures
      var live := run[j].live[i.pr];
      && !i.tag.Foreign?
      && live.open && live.authorized && i.phase.Some? && live.labels == {i.phase.value}
      && live.line == i.line && live.number == i.pr && live.baseSha == i.baseSha
      && live.headSha == i.sourceSha && live.snapshot == i.snapshot && live.snapshot.prepared == i.tag.base
  {
    PublicationsWereLive(run, k);
    j :| j < k && j < |run| && LiveAt(run[j], i);
    ActivePhaseIsTheOnlyLabel(run[j].live[i.pr].labels, i.phase.value);
  }

  // ------------------------------------------------------------- stables

  /** A run that has passed the guards and works on a stable record. */
  predicate PublishingStable(s: State, line: nat, r: Record, target: Sha) {
    && line in s.jobs
    && (s.jobs[line] == Checked(r, target) || s.jobs[line] == Tagged(r, target))
    && r.identity.phase.None?
  }

  predicate PublishedStable(s: State, id: nat, i: Identity) {
    && id in s.repo.releases && !s.repo.releases[id].draft
    && s.repo.releases[id].body == Some(i) && i.phase.None?
  }

  lemma PublishingStableIsAccepted(s: State, step: Step, s': State, line: nat, r: Record, target: Sha)
    requires PublicationStep(s, step, s') && PublishingStable(s', line, r, target)
    ensures PublishingStable(s, line, r, target) || StableMerge.RecordAccepted(s.history, r, target)
  {
  }

  lemma StagingPublishesNoStable(s: State, step: Step, s': State)
    requires JobsOk(s) && StagingStep(s, step, s')
    ensures forall line, r, target :: PublishingStable(s', line, r, target) ==> PublishingStable(s, line, r, target)
    ensures forall id, i :: PublishedStable(s', id, i) ==> PublishedStable(s, id, i)
  {
    if !step.SelectStep? {
      assert JobOk(s, step.line, s.jobs[step.line]);
    }
  }

  /** A stable release is published by a run whose tag names its accepted target. */
  lemma StableIsPublishedTagged(s: State, step: Step, s': State, id: nat, i: Identity)
    requires JobsOk(s) && PublicationStep(s, step, s') && PublishedStable(s', id, i)
    ensures PublishedStable(s, id, i) || (step.Flip? && i.tag in s'.repo.tags && s'.repo.releases[id].assets.Some?
              && PublishingStable(s, step.line, RecordOf(s', id, i), s'.repo.tags[i.tag]))
  {
    if step.Flip? {
      assert JobOk(s, step.line, s.jobs[step.line]);
    }
  }

  lemma HistoryIsFixed(s: State, s': State)
    requires Next(s, s')
    ensures s'.history == s.history
  {
  }

  ghost predicate JobsAccepted(s: State) {
    forall line, r, target :: PublishingStable(s, line, r, target) ==>
      StableMerge.RecordAccepted(s.history, r, target)
  }

  ghost predicate StablesAccepted(s: State) {
    forall id, i :: PublishedStable(s, id, i) ==>
      && i.tag in s.repo.tags && s.repo.releases[id].assets.Some?
      && StableMerge.RecordAccepted(s.history, RecordOf(s, id, i), s.repo.tags[i.tag])
  }

  lemma QuietStep(s: State, step: Step, s': State)
    requires EnvironmentStep(s, step, s') || ResolveStep(s, step, s')
    ensures s'.repo == s.repo && s'.history == s.history
    ensures forall line :: line in s'.jobs ==> line in s.jobs && s'.jobs[line] == s.jobs[line]
  {
  }

  lemma StepKeepsJobsAccepted(s: State, s': State)
    requires JobsOk(s) && Next(s, s') && JobsAccepted(s)
    ensures JobsAccepted(s')
  {
    HistoryIsFixed(s, s');
    var step :| Do(s, step, s');
    forall line, r, target | PublishingStable(s', line, r, target)
      ensures PublishingStable(s, line, r, target) || StableMerge.RecordAccepted(s.history, r, target)
    {
      if StagingStep(s, step, s') {
        StagingPublishesNoStable(s, step, s');
      } else if PublicationStep(s, step, s') {
        PublishingStableIsAccepted(s, step, s', line, r, target);
      } else {
        QuietStep(s, step, s');
      }
    }
  }

  /** A published stable was published before or by an accepted run. */
  lemma StablesOfStep(s: State, s': State, id: nat, i: Identity)
    requires JobsOk(s) && Next(s, s') && PublishedStable(s', id, i)
    ensures PublishedStable(s, id, i)
         || (i.tag in s'.repo.tags && s'.repo.releases[id].assets.Some?
             && exists line :: PublishingStable(s, line, RecordOf(s', id, i), s'.repo.tags[i.tag]))
  {
    var step :| Do(s, step, s');
    if StagingStep(s, step, s') {
      StagingPublishesNoStable(s, step, s');
    } else if PublicationStep(s, step, s') {
      StableIsPublishedTagged(s, step, s', id, i);
    } else {
      QuietStep(s, step, s');
    }
  }

  lemma StepKeepsStablesAccepted(s: State, s': State)
    requires JobsOk(s) && Next(s, s') && Frozen(s.repo, s'.repo) && StablesAccepted(s) && JobsAccepted(s)
    requires forall id, i :: PublishedStable(s, id, i) ==> s.repo.releases[id].tag == i.tag
    ensures StablesAccepted(s')
  {
    HistoryIsFixed(s, s');
    forall id, i | PublishedStable(s', id, i)
      ensures i.tag in s'.repo.tags && s'.repo.releases[id].assets.Some?
      ensures StableMerge.RecordAccepted(s'.history, RecordOf(s', id, i), s'.repo.tags[i.tag])
    {
      StablesOfStep(s, s', id, i);
    }
  }

  lemma StablesStep(run: seq<State>, k: nat)
    requires IsRun(run) && k + 1 < |run| && JobsAccepted(run[k]) && StablesAccepted(run[k])
    ensures JobsAccepted(run[k + 1]) && StablesAccepted(run[k + 1])
  {
    PublishedStablesAreNamed(run, k);
    StepIsFrozen(run, k);
    assert StepsAt(run, k);
    StepKeepsJobsAccepted(run[k], run[k + 1]);
    StepKeepsStablesAccepted(run[k], run[k + 1]);
  }

  lemma StablesAtStart(s: State)
    requires Init(s)
    ensures JobsAccepted(s) && StablesAccepted(s)
  {
  }

  lemma {:induction false} StablesWereAccepted(run: seq<State>, k: nat)
    requires IsRun(run) && k < |run|
    ensures JobsAccepted(run[k]) && StablesAccepted(run[k])
  {
    if k == 0 {
      StablesAtStart(run[0]);
    } else {
      StablesWereAccepted(run, k - 1);
      StablesStep(run, k - 1);
    }
  }

  lemma PublishedStablesAreNamed(run: seq<State>, k: nat)
    requires IsRun(run) && k < |run|
    ensures JobsOk(run[k])
    ensures forall id, i :: PublishedStable(run[k], id, i) ==> run[k].repo.releases[id].tag == i.tag
  {
    RunKeepsInv(run, k);
    InvIsAllAspects(run[k], Legacy(run[0]));
    forall id, i | PublishedStable(run[k], id, i) ensures run[k].repo.releases[id].tag == i.tag {
      assert ReleaseOk(id, run[k].repo.releases[id], run[k].identities);
    }
  }

  /** The tag of every stable the pipeline published names a commit that is the merge of
      its pull request, carries the tested source outside the record path, holds the exact
      record of the assets attached to the release, and has the recorded base as first or
      second first-parent. */
  lemma PublishedStableIsTheTestedSource(run: seq<State>, k: nat, id: nat, i: Identity) returns (blob: string)
    requires IsRun(run) && k < |run| && PublishedStable(run[k], id, i)
    ensures i.tag in run[k].repo.tags && i.pr in run[k].merges
    ensures
      var h, target := run[k].history, run[k].repo.tags[i.tag];
      && target == run[k].merges[i.pr]
      && target in h.commits && i.sourceSha in h.commits
      && run[k].repo.releases[id].assets.Some?
      && var r := Record(i, id, run[k].repo.releases[id].assets.value);
      && r in h.dumps && blob == h.dumps[r]
      && blob in h.records && h.records[blob] == r
      && Trees.Equivalent(StableMerge.TreeOf(h, i.sourceSha), StableMerge.TreeOf(h, target))
      && StableMerge.RecordPresent(StableMerge.TreeOf(h, target), blob)
      && h.commits[target].parents != []
      && var below := h.commits[target].parents[0];
      && below in h.commits
      && (below == i.baseSha || (h.commits[below].parents != [] && h.commits[below].parents[0] == i.baseSha))
  {
    StablesWereAccepted(run, k);
    PublishedStablesAreNamed(run, k);
    PublishedIsTagged(run, k);
    var h, target := run[k].history, run[k].repo.tags[i.tag];
    blob := h.dumps[RecordOf(run[k], id, i)];
    StableMerge.AcceptedPushCarriesTheTestedTree(h, blob, target);
  }
}
