/** A release keeps the line, pull request and base it was first staged for: staging only
    supersedes a draft for the same owner, and publication leaves the body alone. */
module ReleaseOwners {
  import opened Wrappers
  import opened Tags
  import opened Candidates
  import opened Publication
  import opened ReleaseProtocol
  import opened ReleaseInvariants
  import opened ReleaseSafety
  import opened ReleaseRuns

  /** Same tag, line, pull request and base. */
  predicate SameOwner(i: Identity, b: Identity) {
    i.tag == b.tag && i.line == b.line && i.pr == b.pr && i.baseSha == b.baseSha
  }

  predicate WorksOn(job: Job, id: nat) {
    match job
    case Selected(_, selection) => selection.Some? && selection.value.id == id
    case Checked(r, _) => r.draftId == id
    case Tagged(r, _) => r.draftId == id
    case _ => job.id == id
  }

  predicate HasOwner(s: State, id: nat, i: Identity) {
    id in s.repo.releases && s.repo.releases[id].body.Some? && SameOwner(s.repo.releases[id].body.value, i)
  }

  predicate JobOwned(s: State, job: Job) {
    forall id :: id in s.repo.releases && WorksOn(job, id) ==> HasOwner(s, id, JobIdentity(job))
  }

  ghost predicate JobsOwned(s: State) {
    forall line :: line in s.jobs ==> JobOwned(s, s.jobs[line])
  }

  ghost predicate RecordsOwned(s: State) {
    forall r :: r in s.records ==> HasOwner(s, r.draftId, r.identity)
  }

  /** Owners stay what they are. */
  ghost predicate OwnersStay(s: State, s': State) {
    forall id, i :: HasOwner(s, id, i) ==> HasOwner(s', id, i)
  }

  lemma SelectedByOwner(s: State, i: Identity, listed: seq<Release>, selected: DraftSelection)
    requires ReleasesOk(s) && Lists(listed, s.repo)
    requires SelectDraftFrom(listed, i, None) == Success(Some(selected))
    ensures HasOwner(s, selected.id, i)
  {
    SelectDraftMeaning(listed, i);
    var k: nat :| OnlyMatch(listed, i.tag, k) && Admit(listed[k], i) == Success(selected);
    assert listed[k] in listed;
    assert ReleaseOk(selected.id, s.repo.releases[selected.id], s.identities);
  }

  // -------------------------------------------------------------- the steps

  lemma StagingKeepsOwners(s: State, step: Step, s': State)
    requires JobsOk(s) && JobsOwned(s) && StagingStep(s, step, s')
    ensures OwnersStay(s, s')
  {
    if !step.SelectStep? {
      assert JobOk(s, step.line, s.jobs[step.line]);
      assert JobOwned(s, s.jobs[step.line]);
    }
  }

  lemma PublicationKeepsOwners(s: State, step: Step, s': State)
    requires PublicationStep(s, step, s')
    ensures OwnersStay(s, s')
  {
  }

  /** The job a staging step leaves on its line. */
  lemma NextJobOwned(s: State, step: Step, s': State)
    requires ReleasesOk(s) && JobsOk(s) && JobsOwned(s) && StagingStep(s, step, s') && !step.SelectStep?
    ensures step.line in s'.jobs ==> JobOwned(s', s'.jobs[step.line])
  {
    var job := s.jobs[step.line];
    assert JobOk(s, step.line, job);
    assert JobOwned(s, job);
  }

  lemma SelectedJobOwned(s: State, step: Step, s': State)
    requires ReleasesOk(s) && step.SelectStep? && StagingStep(s, step, s')
    ensures JobOwned(s', s'.jobs[step.identity.line])
  {
    var selection := SelectDraftFrom(step.listed, step.identity, None).value;
    if selection.Some? {
      SelectedByOwner(s, step.identity, step.listed, selection.value);
    }
  }

  lemma CheckedJobOwned(s: State, step: Step, s': State)
    requires ReleasesOk(s) && PublicationStep(s, step, s') && (step.CheckPreview? || step.CheckStable?)
    ensures JobOwned(s', s'.jobs[step.record.identity.line])
  {
  }

  lemma OtherJobOwned(s: State, s': State, job: Job)
    requires JobOwned(s, job) && OwnersStay(s, s')
    requires forall id :: id in s'.repo.releases && WorksOn(job, id) ==> id in s.repo.releases
    ensures JobOwned(s', job)
  {
  }

  lemma JobsWorkOnReleases(s: State, line: nat, id: nat)
    requires JobsOk(s) && line in s.jobs && WorksOn(s.jobs[line], id)
    ensures id in s.repo.releases
  {
    assert JobOk(s, line, s.jobs[line]);
  }

  /** The line a step of a run works on. */
  function LineOfStep(step: Step): Option<nat> {
    match step
    case SelectStep(i, _) => Some(i.line)
    case CreateDraft(line, _) => Some(line)
    case DropTag(line) => Some(line)
    case Rewrite(line) => Some(line)
    case Clear(line) => Some(line)
    case Upload(line) => Some(line)
    case Announce(line) => Some(line)
    case CheckPreview(r, _) => Some(r.identity.line)
    case CheckStable(r, _) => Some(r.identity.line)
    case TagStep(line) => Some(line)
    case Flip(line) => Some(line)
    case Die(line) => Some(line)
    case _ => None
  }

  lemma OtherLinesStay(s: State, step: Step, s': State, line: nat)
    requires Do(s, step, s') && LineOfStep(step) != Some(line)
    ensures line in s'.jobs <==> line in s.jobs
    ensures line in s.jobs ==> s'.jobs[line] == s.jobs[line]
  {
  }

  lemma StepKeepsOwnership(s: State, step: Step, s': State)
    requires ReleasesOk(s) && JobsOk(s) && JobsOwned(s) && Do(s, step, s')
    ensures OwnersStay(s, s')
    ensures forall line :: LineOfStep(step) == Some(line) && line in s'.jobs ==> JobOwned(s', s'.jobs[line])
  {
    if StagingStep(s, step, s') {
      StagingKeepsOwners(s, step, s');
      if step.SelectStep? {
        SelectedJobOwned(s, step, s');
      } else {
        NextJobOwned(s, step, s');
      }
    } else if PublicationStep(s, step, s') {
      PublicationKeepsOwners(s, step, s');
      if step.CheckPreview? || step.CheckStable? {
        CheckedJobOwned(s, step, s');
      } else if step.line in s'.jobs {
        assert JobOwned(s, s.jobs[step.line]);
      }
    }
  }

  lemma StepKeepsJobsOwned(s: State, step: Step, s': State)
    requires ReleasesOk(s) && JobsOk(s) && JobsOwned(s) && Do(s, step, s')
    ensures OwnersStay(s, s') && JobsOwned(s')
  {
    StepKeepsOwnership(s, step, s');
    forall line | line in s'.jobs ensures JobOwned(s', s'.jobs[line]) {
      if LineOfStep(step) != Some(line) {
        OtherLinesStay(s, step, s', line);
        forall id | WorksOn(s.jobs[line], id) ensures id in s.repo.releases {
          JobsWorkOnReleases(s, line, id);
        }
        assert JobOwned(s, s.jobs[line]);
        OtherJobOwned(s, s', s.jobs[line]);
      }
    }
  }

  lemma StepKeepsRecordsOwned(s: State, step: Step, s': State)
    requires JobsOk(s) && JobsOwned(s) && RecordsOwned(s) && OwnersStay(s, s') && Do(s, step, s')
    ensures RecordsOwned(s')
  {
    forall r | r in s'.records ensures HasOwner(s', r.draftId, r.identity) {
      if r in s.records {
        assert HasOwner(s, r.draftId, r.identity);
      } else {
        assert step.Announce?;
        assert JobOk(s, step.line, s.jobs[step.line]);
        assert JobOwned(s, s.jobs[step.line]);
        assert HasOwner(s, r.draftId, r.identity);
      }
    }
  }

  lemma {:induction false} RunKeepsOwners(run: seq<State>, k: nat)
    requires IsRun(run) && k < |run|
    ensures JobsOwned(run[k]) && RecordsOwned(run[k])
  {
    if k > 0 {
      RunKeepsOwners(run, k - 1);
      OwnersStep(run, k - 1);
    }
  }

  lemma OwnersStep(run: seq<State>, k: nat)
    requires IsRun(run) && k + 1 < |run| && JobsOwned(run[k]) && RecordsOwned(run[k])
    ensures JobsOwned(run[k + 1]) && RecordsOwned(run[k + 1])
  {
    RunKeepsInv(run, k);
    InvIsAllAspects(run[k], Legacy(run[0]));
    assert StepsAt(run, k);
    var step :| Do(run[k], step, run[k + 1]);
    StepKeepsJobsOwned(run[k], step, run[k + 1]);
    StepKeepsRecordsOwned(run[k], step, run[k + 1]);
  }

  /** A record that was announced keeps naming a release of its own line, pull request, base
      and tag. */
  lemma AnnouncedRecordsKeepTheirOwner(run: seq<State>, k: nat, r: Record)
    requires IsRun(run) && k < |run| && r in run[k].records
    ensures HasOwner(run[k], r.draftId, r.identity)
    ensures run[k].repo.releases[r.draftId].tag == r.identity.tag
  {
    RunKeepsOwners(run, k);
    RunKeepsInv(run, k);
    assert Keeps(OfReleases, run[k], Legacy(run[0]));
    assert ReleaseOk(r.draftId, run[k].repo.releases[r.draftId], run[k].identities);
  }
}
