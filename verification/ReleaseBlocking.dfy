/** What a draft that nobody publishes costs. While it stays a draft nothing else of its
    base and phase is published, and it stays one as long as its own pull request is not
    open on the base the draft was staged for. */
module ReleaseBlocking {
  import opened Wrappers
  import opened Tags
  import opened Candidates
  import opened Publication
  import opened ReleaseProtocol
  import opened ReleaseInvariants
  import opened ReleaseSafety
  import opened ReleaseRuns
  import opened ReleaseOwners
  import opened ReleaseProvenance
  import opened ReleaseProgress

  predicate OfPhase(i: Identity, t: Tag) {
    t.Preview? && i.tag.Preview? && i.tag.base == t.base && i.tag.phase == t.phase
  }

  // --------------------------------------------- a draft holds its phase

  /** What the pipeline published of the draft's base and phase has smaller suffixes. */
  lemma PublishedIsBelowDraft(s: State, legacy: set<Tag>, id: nat, t: Tag, other: nat, i: Identity)
    requires ReleasesOk(s) && SuffixesOk(s, legacy) && LegacyOk(s.repo, legacy)
    requires DraftOf(s.repo, id, t) && PublishedPreview(s, other, i) && OfPhase(i, t)
    ensures i in s.identities && i.tag.number >= 1 && !InLegacy(legacy, t.base, t.phase, i.tag.number)
    ensures IsPublished(s.repo, other, i.tag) && i.tag.number < t.number
  {
    assert ReleaseOk(id, s.repo.releases[id], s.identities) && ReleaseOk(other, s.repo.releases[other], s.identities);
    var d := s.repo.releases[id].body.value;
    assert IdentityOk(d) && IdentityOk(i) && Preceded(s.repo, legacy, d) && Preceded(s.repo, legacy, i);
    assert IsPublished(s.repo, other, i.tag);
    DraftTagIsUnpublished(s, id, t);
    assert t == Preview(t.base, t.phase, t.number);
    if t.number <= i.tag.number {
      PublishedIsPreceded(s, legacy, i.tag, t.number);
      assert false;
    }
  }

  /** Below a draft every suffix that is not older than the pipeline is published. */
  lemma BelowDraftIsPublished(s: State, legacy: set<Tag>, id: nat, t: Tag, m: nat)
    requires ReleasesOk(s) && SuffixesOk(s, legacy) && DraftOf(s.repo, id, t) && t.Preview? && 1 <= m < t.number
    requires !InLegacy(legacy, t.base, t.phase, m)
    ensures TagPublished(s.repo, Preview(t.base, t.phase, m))
  {
    assert ReleaseOk(id, s.repo.releases[id], s.identities);
    assert Preceded(s.repo, legacy, s.repo.releases[id].body.value);
  }

  lemma FrozenRun(run: seq<State>, at: nat, k: nat, id: nat)
    requires IsRun(run) && at <= k < |run|
    requires id in run[at].repo.releases && !run[at].repo.releases[id].draft
    ensures id in run[k].repo.releases && run[k].repo.releases[id] == run[at].repo.releases[id]
  {
    PublishedIsImmutable(run, at, k, id);
  }

  /** As long as a draft stays a draft, the pipeline publishes no other preview of its base
      and phase, whoever owns the draft. */
  lemma DraftHoldsItsPhase(run: seq<State>, at: nat, k: nat, id: nat, t: Tag, other: nat, i: Identity)
    requires IsRun(run) && at <= k < |run|
    requires DraftOf(run[at].repo, id, t) && DraftOf(run[k].repo, id, t)
    requires PublishedPreview(run[k], other, i) && OfPhase(i, t)
    ensures PublishedPreview(run[at], other, i)
  {
    var legacy := Legacy(run[0]);
    RunKeepsInv(run, at);
    InvIsAllAspects(run[at], Legacy(run[0]));
    RunKeepsInv(run, k);
    InvIsAllAspects(run[k], Legacy(run[0]));
    PublishedIsBelowDraft(run[k], legacy, id, t, other, i);
    BelowDraftIsPublished(run[at], legacy, id, t, i.tag.number);
    assert i.tag == Preview(t.base, t.phase, i.tag.number);
    var same :| IsPublished(run[at].repo, same, i.tag);
    FrozenRun(run, at, k, same);
    assert HasTag(run[k].repo, same, i.tag) && HasTag(run[k].repo, other, i.tag);
    assert same == other;
  }

  // ------------------------------------------ a draft stays with its owner

  /** The release is a draft of this owner. */
  predicate OwnedDraft(s: State, id: nat, b: Identity) {
    && DraftOf(s.repo, id, b.tag)
    && s.repo.releases[id].body.Some? && SameOwner(s.repo.releases[id].body.value, b)
  }

  /** A run that works on the draft stages it for its owner. */
  predicate JobStays(job: Job, id: nat, b: Identity) {
    WorksOn(job, id) ==> !job.Checked? && !job.Tagged? && SameOwner(JobIdentity(job), b)
  }

  /** The release is a draft of this owner and no run is about to publish it. */
  predicate StaysWith(s: State, id: nat, b: Identity) {
    OwnedDraft(s, id, b) && forall line :: line in s.jobs ==> JobStays(s.jobs[line], id, b)
  }

  /** The owner's pull request is open on the base of the draft. */
  predicate OwnerIsOpen(s: State, b: Identity) {
    b.pr in s.live && s.live[b.pr].open && s.live[b.pr].baseSha == b.baseSha
  }

  lemma SelectingStays(s: State, step: Step, s': State, id: nat, b: Identity)
    requires ReleasesOk(s) && StaysWith(s, id, b) && step.SelectStep? && StagingStep(s, step, s')
    ensures StaysWith(s', id, b)
  {
    var selection := SelectDraftFrom(step.listed, step.identity, None).value;
    if selection.Some? {
      SelectedByOwner(s, step.identity, step.listed, selection.value);
    }
  }

  lemma WritingKeepsOwner(s: State, step: Step, s': State, id: nat, b: Identity)
    requires OwnedDraft(s, id, b) && StagingStep(s, step, s') && !step.SelectStep?
    requires JobStays(s.jobs[step.line], id, b) && JobOk(s, step.line, s.jobs[step.line])
    ensures OwnedDraft(s', id, b)
  {
  }

  lemma WritingKeepsJobs(s: State, step: Step, s': State, id: nat, b: Identity)
    requires id in s.repo.releases && StagingStep(s, step, s') && !step.SelectStep?
    requires forall line :: line in s.jobs ==> JobStays(s.jobs[line], id, b)
    ensures forall line :: line in s'.jobs ==> JobStays(s'.jobs[line], id, b)
  {
    assert forall line :: line in s'.jobs && line != step.line ==> line in s.jobs && s'.jobs[line] == s.jobs[line];
    assert JobStays(s.jobs[step.line], id, b);
  }

  lemma WritingStays(s: State, step: Step, s': State, id: nat, b: Identity)
    requires JobsOk(s) && StaysWith(s, id, b) && StagingStep(s, step, s') && !step.SelectStep?
    ensures StaysWith(s', id, b)
  {
    assert JobOk(s, step.line, s.jobs[step.line]);
    WritingKeepsOwner(s, step, s', id, b);
    WritingKeepsJobs(s, step, s', id, b);
  }

  /** A draft passes the guards of a publication only while its owner is open. */
  lemma CheckedDraftIsOpen(s: State, step: Step, s': State, id: nat, b: Identity)
    requires StaysWith(s, id, b) && PublicationStep(s, step, s') && b.tag.Preview?
    requires step.CheckPreview? || step.CheckStable?
    requires forall i :: i in s.identities ==> WellFormed(i)
    requires s.repo.releases[id].body.value in s.identities
    ensures step.record.draftId == id ==> OwnerIsOpen(s, b)
  {
  }

  lemma PublicationStays(s: State, step: Step, s': State, id: nat, b: Identity)
    requires ReleasesOk(s) && JobsOk(s) && StaysWith(s, id, b) && PublicationStep(s, step, s')
    requires forall i :: i in s.identities ==> WellFormed(i)
    requires b.tag.Preview? && !OwnerIsOpen(s, b)
    ensures StaysWith(s', id, b)
  {
    if step.CheckPreview? || step.CheckStable? {
      assert ReleaseOk(id, s.repo.releases[id], s.identities);
      CheckedDraftIsOpen(s, step, s', id, b);
    } else {
      MutationStays(s, step, s', id, b);
    }
  }

  /** The two mutations of a run that publishes another release. */
  lemma MutationStays(s: State, step: Step, s': State, id: nat, b: Identity)
    requires StaysWith(s, id, b) && PublicationStep(s, step, s') && (step.TagStep? || step.Flip?)
    ensures StaysWith(s', id, b)
  {
    assert !WorksOn(s.jobs[step.line], id);
  }

  lemma StepStays(s: State, s': State, id: nat, b: Identity)
    requires ReleasesOk(s) && JobsOk(s) && StaysWith(s, id, b) && Next(s, s')
    requires forall i :: i in s.identities ==> WellFormed(i)
    requires b.tag.Preview? && !OwnerIsOpen(s, b)
    ensures StaysWith(s', id, b)
  {
    var step :| Do(s, step, s');
    if StagingStep(s, step, s') {
      if step.SelectStep? {
        SelectingStays(s, step, s', id, b);
      } else {
        WritingStays(s, step, s', id, b);
      }
    } else if PublicationStep(s, step, s') {
      PublicationStays(s, step, s', id, b);
    } else {
      QuietStep(s, step, s');
    }
  }

  lemma RunIsWellFormed(run: seq<State>, k: nat)
    requires IsRun(run) && k < |run|
    ensures ReleasesOk(run[k]) && JobsOk(run[k]) && forall i :: i in run[k].identities ==> WellFormed(i)
  {
    RunKeepsInv(run, k);
    InvIsAllAspects(run[k], Legacy(run[0]));
    assert forall i :: i in run[k].identities ==> IdentityOk(i);
  }

  lemma {:induction false} DraftStays(run: seq<State>, at: nat, k: nat, id: nat, b: Identity)
    requires IsRun(run) && at <= k < |run| && b.tag.Preview?
    requires StaysWith(run[at], id, b)
    requires forall j :: at <= j < k ==> !OwnerIsOpen(run[j], b)
    ensures StaysWith(run[k], id, b)
    decreases k
  {
    if at < k {
      DraftStays(run, at, k - 1, id, b);
      RunIsWellFormed(run, k - 1);
      assert StepsAt(run, k - 1);
      StepStays(run[k - 1], run[k], id, b);
    }
  }

  lemma JobIsOfItsLine(s: State, line: nat, id: nat)
    requires JobsOk(s) && line in s.jobs && WorksOn(s.jobs[line], id)
    requires forall i :: i in s.identities ==> WellFormed(i)
    ensures id in s.repo.releases && LineOf(s.repo.releases[id].tag) == line
  {
    assert JobOk(s, line, s.jobs[line]);
    assert WellFormed(JobIdentity(s.jobs[line]));
  }

  /** With its line unlocked a draft stays with the owner its body names. */
  lemma UnlockedDraftStays(s: State, id: nat, b: Identity)
    requires ReleasesOk(s) && JobsOk(s) && forall i :: i in s.identities ==> WellFormed(i)
    requires id in s.repo.releases && s.repo.releases[id].draft && s.repo.releases[id].body == Some(b)
    requires b.line !in s.jobs
    ensures StaysWith(s, id, b)
  {
    assert ReleaseOk(id, s.repo.releases[id], s.identities) && WellFormed(b);
    forall line | line in s.jobs ensures JobStays(s.jobs[line], id, b) {
      if WorksOn(s.jobs[line], id) {
        JobIsOfItsLine(s, line, id);
        assert false;
      }
    }
  }

  /** A foreign draft blocks for good: if the pull request it belongs to is never again open
      on its base, whether closed or moved to a new base, then on every continuation it
      stays a draft, the candidate of any pull request it blocks is refused by staging, and
      no preview of its base and phase is published. */
  lemma ForeignDraftBlocksForGood(
      run: seq<State>, at: nat, k: nat, live: LivePr, phase: Phase, id: nat, b: Identity, listed: seq<Release>)
    requires IsRun(run) && at <= k < |run| && id in run[at].repo.releases && b.line !in run[at].jobs
    requires Blocks(run[at].repo.releases[id], live, phase) && run[at].repo.releases[id].body == Some(b)
    requires forall j :: at <= j < k ==> !OwnerIsOpen(run[j], b)
    requires Lists(listed, run[k].repo)
    ensures SelectDraftFrom(listed, Candidate(live, phase, run[at].repo.releases[id].tag.number), None).Failure?
    ensures forall other, i :: PublishedPreview(run[k], other, i) && OfPhase(i, b.tag) ==>
      PublishedPreview(run[at], other, i)
  {
    RunIsWellFormed(run, at);
    RunIsWellFormed(run, k);
    assert ReleaseOk(id, run[at].repo.releases[id], run[at].identities);
    UnlockedDraftStays(run[at], id, b);
    DraftStays(run, at, k, id, b);
    BlockedIsRefused(run[k], listed, live, phase, id);
    forall other, i | PublishedPreview(run[k], other, i) && OfPhase(i, b.tag)
      ensures PublishedPreview(run[at], other, i)
    {
      DraftHoldsItsPhase(run, at, k, id, b.tag, other, i);
    }
  }

  // ---------------------------------------------- replacing a stale draft

  /** A staging run selects a draft held by another identity and takes its tag away. */
  ghost predicate TakesOver(s: State, i: Identity, listed: seq<Release>, m: State, t: State) {
    StagingStep(s, SelectStep(i, listed), m) && StagingStep(m, DropTag(i.line), t)
  }

  /** A draft that another identity b of the same tag, line and pull request holds is
      replaced exactly when b has the same base and the tag is free or names the build of
      b. Whoever passes these two steps can finish: none of the later ones has a guard. */
  lemma StaleDraftIsReplacedExactly(s: State, id: nat, b: Identity, i: Identity)
    requires ReleasesOk(s) && DraftOf(s.repo, id, i.tag) && s.repo.releases[id].body == Some(b)
    requires WellFormed(b) && WellFormed(i) && b != i && b.line == i.line && b.pr == i.pr
    requires i in s.identities && i.line !in s.jobs
    ensures (exists listed, m, t :: TakesOver(s, i, listed, m, t)) <==>
      b.baseSha == i.baseSha && (i.tag in s.repo.tags ==> s.repo.tags[i.tag] == b.buildSha)
  {
    assert ReleaseOk(id, s.repo.releases[id], s.identities);
    assert HasTag(s.repo, id, i.tag);
    if b.baseSha == i.baseSha && (i.tag in s.repo.tags ==> s.repo.tags[i.tag] == b.buildSha) {
      TakeOver(s, id, b, i);
    }
    forall listed, m, t | TakesOver(s, i, listed, m, t)
      ensures b.baseSha == i.baseSha && (i.tag in s.repo.tags ==> s.repo.tags[i.tag] == b.buildSha)
    {
      SelectsExactlyWritable(s, listed, i);
      var selection := SelectDraftFrom(listed, i, None).value;
      var same := ListedSelection(s, listed, i, selection.value);
    }
  }

  /** A draft is selected for any identity of its owner. */
  lemma SelectsOwned(s: State, id: nat, b: Identity, i: Identity) returns (listed: seq<Release>)
    requires ReleasesOk(s) && DraftOf(s.repo, id, i.tag) && s.repo.releases[id].body == Some(b)
    requires s.repo.releases[id].prerelease == i.phase.Some?
    requires b.line == i.line && b.pr == i.pr && b.baseSha == i.baseSha
    ensures Lists(listed, s.repo)
    ensures SelectDraftFrom(listed, i, None)
      == Success(Some(DraftSelection(id, if b == i then None else Some(b.buildSha))))
  {
    listed := ListReleases(s);
    assert HasTag(s.repo, id, i.tag);
    SelectsExactlyWritable(s, listed, i);
    SelectDraftMeaning(listed, i);
    var selection := SelectDraftFrom(listed, i, None).value;
    if selection.None? {
      NoReleaseListed(s, listed, i.tag);
      assert false;
    }
    var same := ListedSelection(s, listed, i, selection.value);
  }

  lemma TakeOver(s: State, id: nat, b: Identity, i: Identity)
    requires ReleasesOk(s) && DraftOf(s.repo, id, i.tag) && s.repo.releases[id].body == Some(b)
    requires s.repo.releases[id].prerelease == i.phase.Some?
    requires b != i && b.line == i.line && b.pr == i.pr && b.baseSha == i.baseSha
    requires i in s.identities && i.line !in s.jobs
    requires i.tag in s.repo.tags ==> s.repo.tags[i.tag] == b.buildSha
    ensures exists listed, m, t :: TakesOver(s, i, listed, m, t)
  {
    var listed := SelectsOwned(s, id, b, i);
    var m := WithJob(s, i.line, Selected(i, Some(DraftSelection(id, Some(b.buildSha)))));
    var untagged := m.(repo := s.repo.(tags := s.repo.tags - {i.tag}));
    var t := WithJob(untagged, i.line, Untagged(i, id));
    assert TakesOver(s, i, listed, m, t);
  }

  /** With any other tag the run that selected the draft has no next step but to die. */
  lemma WrongTagStopsStaging(s: State, id: nat, b: Identity, i: Identity, listed: seq<Release>, m: State)
    requires ReleasesOk(s) && DraftOf(s.repo, id, i.tag) && s.repo.releases[id].body == Some(b) && b != i
    requires i.tag in s.repo.tags && s.repo.tags[i.tag] != b.buildSha
    requires StagingStep(s, SelectStep(i, listed), m)
    ensures forall step, t ::
      StagingStep(m, step, t) || PublicationStep(m, step, t) ==> LineOfStep(step) != Some(i.line)
  {
    assert HasTag(s.repo, id, i.tag);
    SelectDraftMeaning(listed, i);
    var selection := SelectDraftFrom(listed, i, None).value;
    if selection.None? {
      NoReleaseListed(s, listed, i.tag);
      assert false;
    }
    var same := ListedSelection(s, listed, i, selection.value);
  }

  /** The tag of a preview draft is never in the way, so a stale one is replaced exactly
      when its base did not move. */
  lemma StalePreviewIsReplacedExactly(run: seq<State>, at: nat, id: nat, b: Identity, i: Identity)
    requires IsRun(run) && at < |run| && i in run[at].identities && i.line !in run[at].jobs && i.phase.Some?
    requires DraftOf(run[at].repo, id, i.tag) && run[at].repo.releases[id].body == Some(b)
    requires b != i && b.line == i.line && b.pr == i.pr
    ensures (exists listed, m, t :: TakesOver(run[at], i, listed, m, t)) <==> b.baseSha == i.baseSha
  {
    var s := run[at];
    RunKeepsInv(run, at);
    InvIsAllAspects(s, Legacy(run[0]));
    assert ReleaseOk(id, s.repo.releases[id], s.identities);
    assert IdentityOk(i) && IdentityOk(b);
    StaleDraftIsReplacedExactly(s, id, b, i);
  }
}
