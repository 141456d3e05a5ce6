/** Every step of the release pipeline keeps the invariant: one lemma for each kind of step. */
module ReleaseSafety {
  import opened Wrappers
  import opened Tags
  import opened Candidates
  import opened Publication
  import opened ReleaseProtocol
  import opened ReleaseInvariants
  import StableMerge

  // ------------------------------------------------------ environment steps

  lemma EnvironmentKeepsRepo(s: State, step: Step, s': State, legacy: set<Tag>)
    requires Inv(s, legacy) && EnvironmentStep(s, step, s')
    ensures forall aspect: Aspect :: !aspect.OfTags? && !aspect.OfPublished? && !aspect.OfJobs? ==>
      Keeps(aspect, s', legacy)
  {
    assert s'.repo == s.repo && s'.identities == s.identities;
    assert Keeps(OfLegacy, s, legacy) && Keeps(OfReleases, s, legacy) && Keeps(OfDrafts, s, legacy);
    assert Keeps(OfSuffixes, s, legacy) && Keeps(OfDuplicates, s, legacy) && Keeps(OfLatest, s, legacy);
  }

  lemma EnvironmentKeepsTags(s: State, step: Step, s': State, legacy: set<Tag>)
    requires Inv(s, legacy) && EnvironmentStep(s, step, s')
    ensures forall aspect: Aspect :: aspect.OfTags? || aspect.OfPublished? ==> Keeps(aspect, s', legacy)
  {
    assert Keeps(OfTags, s, legacy) && Keeps(OfPublished, s, legacy);
  }

  lemma EnvironmentKeepsInv(s: State, step: Step, s': State, legacy: set<Tag>)
    requires Inv(s, legacy) && EnvironmentStep(s, step, s')
    ensures Inv(s', legacy)
  {
    EnvironmentKeepsRepo(s, step, s', legacy);
    EnvironmentKeepsTags(s, step, s', legacy);
    assert Keeps(OfSuffixes, s, legacy) && Keeps(OfJobs, s, legacy);
    OtherJobsKept(s, s', legacy);
    assert Keeps(OfJobs, s', legacy);
  }

  /** A step that leaves the repository alone leaves the running jobs in order. */
  lemma OtherJobsKept(s: State, s': State, legacy: set<Tag>)
    requires JobsOk(s) && SuffixesOk(s, legacy)
    requires s'.repo == s.repo && s.identities <= s'.identities && s'.records == s.records
    requires forall pr :: pr in s.merges ==> pr in s'.merges && s'.merges[pr] == s.merges[pr]
    requires forall line :: line in s'.jobs ==> line in s.jobs && s'.jobs[line] == s.jobs[line]
    ensures JobsOk(s')
  {
    forall line | line in s'.jobs ensures JobOk(s', line, s'.jobs[line]) {
      assert IdentityOk(JobIdentity(s.jobs[line]));
      JobFrame(s, s', line, s.jobs[line]);
    }
  }

  // -------------------------------------------------------------- resolving

  /** A listed preview tag that is not attached to drafts alone is legacy or published. */
  lemma ListedTagIsPublished(s: State, legacy: set<Tag>, tags: seq<Tag>, listed: seq<Release>, t: Tag)
    requires TagsBacked(set u | u in tags :: u, s.repo, legacy) && Lists(listed, s.repo)
    requires t in PublishedTagInventory(tags, listed) && t.Preview? && t !in legacy
    ensures TagPublished(s.repo, t)
  {
    assert t in (set u | u in tags :: u);
    var id :| HasTag(s.repo, id, t);
    assert s.repo.releases[id] in listed;
    if s.repo.releases[id].draft {
      var r :| r in listed && !r.draft && r.tag == t;
      assert IsPublished(s.repo, r.id, t);
    } else {
      assert IsPublished(s.repo, id, t);
    }
  }

  /** Below a published suffix that is not legacy, every suffix is legacy or published. */
  lemma PublishedIsPreceded(s: State, legacy: set<Tag>, top: Tag, m: nat)
    requires ReleasesOk(s) && SuffixesOk(s, legacy) && LegacyOk(s.repo, legacy)
    requires top.Preview? && top !in legacy && TagPublished(s.repo, top) && 1 <= m <= top.number
    ensures InLegacy(legacy, top.base, top.phase, m) || TagPublished(s.repo, Preview(top.base, top.phase, m))
  {
    var id :| IsPublished(s.repo, id, top);
    assert ReleaseOk(id, s.repo.releases[id], s.identities);
    assert Preceded(s.repo, legacy, s.repo.releases[id].body.value);
    assert m == top.number ==> Preview(top.base, top.phase, m) == top;
  }

  lemma LegacyTagIsCounted(s: State, legacy: set<Tag>, tags: seq<Tag>, listed: seq<Release>, t: Tag)
    requires ReleasesOk(s) && SuffixesOk(s, legacy) && Lists(listed, s.repo)
    requires TagsBacked(set u | u in tags :: u, s.repo, legacy) && t in legacy && t.Preview?
    ensures t in PublishedTagInventory(tags, listed)
  {
    assert t in (set u | u in tags :: u);
    forall r | r in listed && r.draft ensures r.tag != t {
      assert ReleaseOk(r.id, s.repo.releases[r.id], s.identities);
      assert Preceded(s.repo, legacy, r.body.value);
    }
  }

  /** The suffix chosen from an old tag listing and the current releases is new, and
      every smaller one is legacy or published. */
  lemma NextSuffixIsPreceded(s: State, legacy: set<Tag>, tags: seq<Tag>, listed: seq<Release>, i: Identity)
    requires ReleasesOk(s) && SuffixesOk(s, legacy) && LegacyOk(s.repo, legacy) && Lists(listed, s.repo)
    requires TagsBacked(set u | u in tags :: u, s.repo, legacy)
    requires i.tag.Preview?
    requires i.tag.number == Highest(PublishedTagInventory(tags, listed), i.tag.base, i.tag.phase) + 1
    ensures Preceded(s.repo, legacy, i)
  {
    var base, phase := i.tag.base, i.tag.phase;
    var highest := i.tag.number - 1;
    var top := Preview(base, phase, highest);
    forall n: nat | Preview(base, phase, n) in legacy ensures n <= highest {
      LegacyTagIsCounted(s, legacy, tags, listed, Preview(base, phase, n));
    }
    forall m: nat | 1 <= m <= highest
      ensures InLegacy(legacy, base, phase, m) || TagPublished(s.repo, Preview(base, phase, m))
    {
      if top !in legacy {
        ListedTagIsPublished(s, legacy, tags, listed, top);
        PublishedIsPreceded(s, legacy, top, m);
      }
    }
  }

  lemma ResolvedIsFirst(s: State, listed: seq<Release>, i: Identity)
    requires ReleasesOk(s) && Lists(listed, s.repo)
    requires PublishedSnapshots(listed).Success?
    requires i.tag.Preview? && PhaseSnapshot(i.tag.phase, i.snapshot) !in PublishedSnapshots(listed).value
    ensures FirstOfSnapshot(s.repo, i)
  {
    forall id ensures !Carries(s.repo, id, i.tag.phase, i.snapshot) {
      if id in s.repo.releases {
        assert s.repo.releases[id] in listed;
      }
    }
  }

  /** What a resolved identity, once given its build commit, is known to satisfy. */
  lemma ResolvedIdentity(s: State, step: Step, i: Identity)
    requires step.Resolve? && ResolvedBy(s, step) == Success(Some(i))
    ensures IdentityOk(WithBuild(i)) && WithBuild(i).tag == i.tag && WithBuild(i).snapshot == i.snapshot
    ensures i.tag.Preview? ==>
      && i.tag.number == Highest(PublishedTagInventory(step.tags, step.listed), i.tag.base, i.tag.phase) + 1
      && PublishedSnapshots(step.listed).Success?
      && PhaseSnapshot(i.tag.phase, i.snapshot) !in PublishedSnapshots(step.listed).value
  {
  }

  lemma ResolvedSuffix(s: State, step: Step, legacy: set<Tag>, i: Identity)
    requires ReleasesOk(s) && TagsOk(s, legacy) && SuffixesOk(s, legacy) && LegacyOk(s.repo, legacy)
    requires step.Resolve? && (set t | t in step.tags) in s.tagReads && Lists(step.listed, s.repo)
    requires ResolvedBy(s, step) == Success(Some(i))
    ensures IdentityOk(WithBuild(i)) && Preceded(s.repo, legacy, WithBuild(i)) && FirstOfSnapshot(s.repo, WithBuild(i))
  {
    ResolvedIdentity(s, step, i);
    assert (set t | t in step.tags) == (set u | u in step.tags :: u);
    if i.tag.Preview? {
      NextSuffixIsPreceded(s, legacy, step.tags, step.listed, WithBuild(i));
      ResolvedIsFirst(s, step.listed, WithBuild(i));
    }
  }

  lemma ResolveKeepsInv(s: State, step: Step, s': State, legacy: set<Tag>)
    requires Inv(s, legacy) && ResolveStep(s, step, s')
    ensures Inv(s', legacy)
    ensures forall i :: i in s'.identities && i !in s.identities ==>
      i.pr == step.requested.number && i.line == step.requested.line && i.baseSha == step.requested.baseSha
  {
    InvIsAllAspects(s, legacy);
    ResolvedIdentityIs(step.requested, step.view, step.tags, step.listed,
                       StableMerge.HeadIsStaged(s.history, step.view), ResolvedBy(s, step).value.value);
    ResolvedSuffix(s, step, legacy, ResolvedBy(s, step).value.value);
    OtherJobsKept(s, s', legacy);
    InvIsAllAspects(s', legacy);
  }

  // ---------------------------------------------------------------- staging

  lemma UnusedTag(s: State, i: Identity, listed: seq<Release>)
    requires Lists(listed, s.repo) && SelectDraftFrom(listed, i, None) == Success(None)
    ensures forall id :: id in s.repo.releases ==> s.repo.releases[id].tag != i.tag
  {
    SelectDraftMeaning(listed, i);
    forall id | id in s.repo.releases ensures s.repo.releases[id].tag != i.tag {
      assert s.repo.releases[id] in listed;
    }
  }

  lemma SelectedDraft(s: State, i: Identity, listed: seq<Release>, selected: DraftSelection)
    requires ReleasesOk(s) && Lists(listed, s.repo) && SelectDraftFrom(listed, i, None) == Success(Some(selected))
    ensures DraftOf(s.repo, selected.id, i.tag) && s.repo.releases[selected.id].body.Some?
    ensures selected.staleBuild.None? ==> s.repo.releases[selected.id].body == Some(i)
  {
    SelectDraftMeaning(listed, i);
    var k: nat :| OnlyMatch(listed, i.tag, k) && Admit(listed[k], i) == Success(selected);
    assert listed[k] in listed;
  }

  lemma SelectionOk(s: State, s': State, i: Identity, listed: seq<Release>)
    requires ReleasesOk(s) && Lists(listed, s.repo) && i in s.identities
    requires s'.repo == s.repo && s'.identities == s.identities
    requires SelectDraftFrom(listed, i, None).Success?
    ensures JobOk(s', i.line, Selected(i, SelectDraftFrom(listed, i, None).value))
  {
    var selection := SelectDraftFrom(listed, i, None).value;
    if selection.None? {
      UnusedTag(s, i, listed);
    } else {
      SelectedDraft(s, i, listed, selection.value);
    }
  }

  lemma SelectKeepsInv(s: State, step: Step, s': State, legacy: set<Tag>)
    requires Inv(s, legacy) && step.SelectStep? && StagingStep(s, step, s')
    ensures Inv(s', legacy)
  {
    assert Keeps(OfReleases, s, legacy) && Keeps(OfSuffixes, s, legacy) && Keeps(OfJobs, s, legacy);
    SelectionOk(s, s', step.identity, step.listed);
    OtherJobs(s, s', legacy, step.identity.line);
    SameRepoKeepsInv(s, s', legacy);
  }

  /** A draft is written when its tag is absent or already names its build. */
  lemma WrittenDraftIsTagged(s: State, s': State, legacy: set<Tag>, id: nat, i: Identity)
    requires ReleasesOk(s) && TagsOk(s, legacy) && DraftsTagged(s) && Preceded(s.repo, legacy, i) && IdentityOk(i)
    requires id in s'.repo.releases && s'.repo == s.repo.(releases := s.repo.releases[id := s'.repo.releases[id]])
    requires s'.repo.releases[id].body == Some(i) && s'.repo.releases[id].tag == i.tag
    requires
      || !TagHasRelease(s.repo, i.tag)
      || i.tag !in s.repo.tags
      || (DraftOf(s.repo, id, i.tag) && s.repo.releases[id].body == Some(i))
    ensures DraftsTagged(s')
  {
  }

  /** The release a writing step writes. */
  function Written(s: State, step: Step): nat
    requires step.CreateDraft? || ((step.Rewrite? || step.Clear? || step.Upload?) && step.line in s.jobs)
    requires !step.CreateDraft? && s.jobs[step.line].Selected? ==> s.jobs[step.line].selection.Some?
    requires !step.CreateDraft? ==> !s.jobs[step.line].Checked? && !s.jobs[step.line].Tagged?
  {
    if step.CreateDraft? then step.id
    else if s.jobs[step.line].Selected? then s.jobs[step.line].selection.value.id
    else s.jobs[step.line].id
  }

  lemma WritesItsDraft(s: State, step: Step, s': State)
    requires ReleasesOk(s) && StagingStep(s, step, s')
    requires step.CreateDraft? || step.Rewrite? || step.Clear? || step.Upload?
    requires JobOk(s, step.line, s.jobs[step.line]) && IdentityOk(s.jobs[step.line].identity)
    ensures Written(s, step) in s'.repo.releases
    ensures OnlyDraft(s, s', step.line, Written(s, step), s'.repo.releases[Written(s, step)])
    ensures JobOk(s', step.line, s'.jobs[step.line])
    ensures s'.repo.releases[Written(s, step)].body == Some(s.jobs[step.line].identity)
  {
  }

  lemma WritingKeepsInv(s: State, step: Step, s': State, legacy: set<Tag>)
    requires Inv(s, legacy) && StagingStep(s, step, s')
    requires step.CreateDraft? || step.Rewrite? || step.Clear? || step.Upload?
    ensures Inv(s', legacy)
  {
    assert Keeps(OfReleases, s, legacy) && Keeps(OfTags, s, legacy) && Keeps(OfDrafts, s, legacy);
    assert Keeps(OfSuffixes, s, legacy) && Keeps(OfJobs, s, legacy);
    var i := s.jobs[step.line].identity;
    assert JobOk(s, step.line, s.jobs[step.line]);
    assert IdentityOk(i) && Preceded(s.repo, legacy, i);
    WritesItsDraft(s, step, s');
    WrittenDraftIsTagged(s, s', legacy, Written(s, step), i);
    DraftKeepsInv(s, s', legacy, step.line, Written(s, step), s'.repo.releases[Written(s, step)]);
  }

  lemma DropTagKeepsInv(s: State, step: Step, s': State, legacy: set<Tag>)
    requires Inv(s, legacy) && step.DropTag? && StagingStep(s, step, s')
    ensures Inv(s', legacy)
  {
    InvIsAllAspects(s, legacy);
    var job := s.jobs[step.line];
    assert JobOk(s, step.line, job);
    assert IdentityOk(job.identity) && Preceded(s.repo, legacy, job.identity);
    MovedTagKeepsInv(s, s', legacy, step.line, job.selection.value.id, job.identity.tag);
  }

  lemma AnnounceKeepsInv(s: State, step: Step, s': State, legacy: set<Tag>)
    requires Inv(s, legacy) && step.Announce? && StagingStep(s, step, s')
    ensures Inv(s', legacy)
  {
    assert Keeps(OfSuffixes, s, legacy) && Keeps(OfJobs, s, legacy);
    assert JobOk(s, step.line, s.jobs[step.line]);
    OtherJobs(s, s', legacy, step.line);
    SameRepoKeepsInv(s, s', legacy);
  }

  // ------------------------------------------------------------ publication

  lemma CheckedOk(s: State, step: Step, s': State)
    requires ReleasesOk(s) && (step.CheckPreview? || step.CheckStable?) && PublicationStep(s, step, s')
    requires step.record.identity in s.identities && IdentityOk(step.record.identity)
    ensures JobOk(s', step.record.identity.line, s'.jobs[step.record.identity.line])
  {
  }

  lemma CheckKeepsInv(s: State, step: Step, s': State, legacy: set<Tag>)
    requires Inv(s, legacy) && (step.CheckPreview? || step.CheckStable?) && PublicationStep(s, step, s')
    ensures Inv(s', legacy)
  {
    assert Keeps(OfReleases, s, legacy) && Keeps(OfSuffixes, s, legacy) && Keeps(OfJobs, s, legacy);
    assert IdentityOk(step.record.identity);
    CheckedOk(s, step, s');
    OtherJobs(s, s', legacy, step.record.identity.line);
    SameRepoKeepsInv(s, s', legacy);
  }

  lemma TagStepKeepsInv(s: State, step: Step, s': State, legacy: set<Tag>)
    requires Inv(s, legacy) && step.TagStep? && PublicationStep(s, step, s')
    ensures Inv(s', legacy)
  {
    InvIsAllAspects(s, legacy);
    var job := s.jobs[step.line];
    assert JobOk(s, step.line, job);
    assert IdentityOk(job.record.identity) && Preceded(s.repo, legacy, job.record.identity);
    MovedTagKeepsInv(s, s', legacy, step.line, job.record.draftId, job.record.identity.tag);
  }

  lemma FlipKeepsInv(s: State, step: Step, s': State, legacy: set<Tag>)
    requires Inv(s, legacy) && step.Flip? && PublicationStep(s, step, s')
    ensures Inv(s', legacy)
  {
    assert Keeps(OfJobs, s, legacy);
    assert JobOk(s, step.line, s.jobs[step.line]);
    PublishingKeepsInv(s, s', legacy, s.jobs[step.line].record);
  }

  lemma StagingKeepsInv(s: State, step: Step, s': State, legacy: set<Tag>)
    requires Inv(s, legacy) && StagingStep(s, step, s')
    ensures Inv(s', legacy)
  {
    match step
    case SelectStep(_, _) => SelectKeepsInv(s, step, s', legacy);
    case DropTag(_) => DropTagKeepsInv(s, step, s', legacy);
    case Announce(_) => AnnounceKeepsInv(s, step, s', legacy);
    case _ => WritingKeepsInv(s, step, s', legacy);
  }

  lemma PublicationKeepsInv(s: State, step: Step, s': State, legacy: set<Tag>)
    requires Inv(s, legacy) && PublicationStep(s, step, s')
    ensures Inv(s', legacy)
  {
    match step
    case TagStep(_) => TagStepKeepsInv(s, step, s', legacy);
    case Flip(_) => FlipKeepsInv(s, step, s', legacy);
    case _ => CheckKeepsInv(s, step, s', legacy);
  }

  lemma NextKeepsInv(s: State, s': State, legacy: set<Tag>)
    requires Inv(s, legacy) && Next(s, s')
    ensures Inv(s', legacy)
  {
    var step :| Do(s, step, s');
    if EnvironmentStep(s, step, s') {
      EnvironmentKeepsInv(s, step, s', legacy);
    } else if ResolveStep(s, step, s') {
      ResolveKeepsInv(s, step, s', legacy);
    } else if StagingStep(s, step, s') {
      StagingKeepsInv(s, step, s', legacy);
    } else {
      PublicationKeepsInv(s, step, s', legacy);
    }
  }
}
