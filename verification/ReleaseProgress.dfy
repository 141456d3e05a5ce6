/** The guards of the release pipeline never wedge it: from any reachable state a live
    preview candidate can be published, unless a draft of the next suffix belongs to
    another pull request or another base, and then staging refuses it. */
module ReleaseProgress {
  import opened Wrappers
  import opened Tags
  import opened Candidates
  import opened Publication
  import opened ReleaseProtocol
  import opened ReleaseInvariants
  import opened ReleaseSafety
  import opened ReleaseRuns

  // -------------------------------------------------------------- paths

  ghost predicate IsPath(path: seq<State>, s: State, t: State) {
    && |path| > 0 && path[0] == s && path[|path| - 1] == t
    && forall i: nat :: i + 1 < |path| ==> StepsAt(path, i)
  }

  /** Some sequence of steps leads from one state to another. */
  ghost predicate Leads(s: State, t: State) {
    exists path :: IsPath(path, s, t)
  }

  lemma Stays(s: State)
    ensures Leads(s, s)
  {
    assert IsPath([s], s, s);
  }

  lemma ThenStep(s: State, m: State, step: Step, t: State)
    requires Leads(s, m) && Do(m, step, t)
    ensures Leads(s, t)
  {
    var path :| IsPath(path, s, m);
    var longer := path + [t];
    forall i: nat | i + 1 < |longer| ensures StepsAt(longer, i) {
      if i + 1 < |path| {
        assert StepsAt(path, i);
      }
    }
    assert IsPath(longer, s, t);
  }

  // ------------------------------------------------------------ listings

  lemma ListTags(tags: set<Tag>) returns (listed: seq<Tag>)
    ensures forall t :: t in listed <==> t in tags
  {
    listed := [];
    var left := tags;
    while left != {}
      invariant left <= tags
      invariant forall t :: t in listed <==> t in tags && t !in left
      decreases |left|
    {
      var t :| t in left;
      left := left - {t};
      listed := listed + [t];
    }
  }

  lemma ListReleases(s: State) returns (listed: seq<Release>)
    requires ReleasesOk(s)
    ensures Lists(listed, s.repo)
  {
    listed := [];
    var left := s.repo.releases.Keys;
    while left != {}
      invariant left <= s.repo.releases.Keys
      invariant forall r :: r in listed ==> r.id in s.repo.releases && r.id !in left && s.repo.releases[r.id] == r
      invariant forall id :: id in s.repo.releases && id !in left ==> s.repo.releases[id] in listed
      invariant forall j, k :: 0 <= j < k < |listed| ==> listed[j].id != listed[k].id
      decreases |left|
    {
      var id :| id in left;
      assert ReleaseOk(id, s.repo.releases[id], s.identities);
      forall j | 0 <= j < |listed| ensures listed[j].id != id {
        assert listed[j] in listed;
      }
      left := left - {id};
      listed := listed + [s.repo.releases[id]];
    }
  }

  lemma FreshId(ids: set<nat>) returns (unused: nat)
    ensures unused !in ids
  {
    unused := LargestSuffix(ids);
    unused := unused + 1;
  }

  // ------------------------------------------------------------- staging

  /** Every release with the candidate tag is a draft this candidate may write. */
  ghost predicate Writable(repo: Repo, i: Identity) {
    forall id :: HasTag(repo, id, i.tag) ==>
      var r := repo.releases[id];
      && r.draft && r.body.Some? && r.prerelease == i.phase.Some?
      && r.body.value.line == i.line && r.body.value.pr == i.pr && r.body.value.baseSha == i.baseSha
  }

  /** select_draft accepts exactly the writable inventories. */
  lemma SelectsExactlyWritable(s: State, listed: seq<Release>, i: Identity)
    requires ReleasesOk(s) && Lists(listed, s.repo)
    ensures SelectDraftFrom(listed, i, None).Success? <==> Writable(s.repo, i)
  {
    if id :| HasTag(s.repo, id, i.tag) {
      assert s.repo.releases[id] in listed;
      var k: nat :| k < |listed| && listed[k] == s.repo.releases[id];
      forall j | 0 <= j < |listed| && listed[j].tag == i.tag ensures j == k {
        assert listed[j] in listed && listed[k] in listed;
      }
      assert OnlyMatch(listed, i.tag, k);
      SelectsTheOnly(listed, i, k);
      assert forall other :: HasTag(s.repo, other, i.tag) ==> other == id;
      assert Writable(s.repo, i) <==> Admit(listed[k], i).Success?;
    } else {
      forall j | 0 <= j < |listed| ensures listed[j].tag != i.tag {
        assert listed[j] in listed;
        assert HasTag(s.repo, listed[j].id, listed[j].tag);
      }
      SelectsNothing(listed, i, None);
    }
  }

  /** The draft is staged in full for this identity and no lock is held. */
  predicate Staged(s: State, i: Identity, id: nat) {
    && i in s.identities
    && i.line !in s.jobs
    && id in s.repo.releases && s.repo.releases[id].assets.Some?
    && var upload := s.repo.releases[id].assets.value;
    Record(i, id, upload) in s.records && s.repo.releases[id] == Full(i, id, upload)
  }

  /** Everything but the drafts, their tags and the messages is left alone. */
  ghost predicate StagesOnly(s: State, t: State) {
    && t.live == s.live && t.merges == s.merges && t.history == s.history
    && t.identities == s.identities && t.seen == s.seen
    && forall id :: id in t.repo.releases && !t.repo.releases[id].draft ==>
      id in s.repo.releases && t.repo.releases[id] == s.repo.releases[id]
  }

  /** From an emptied draft, assets and record are uploaded and announced. */
  lemma FinishStaging(s: State, i: Identity, id: nat) returns (t: State)
    requires i.line in s.jobs && s.jobs[i.line] == Empty(i, id) && i in s.identities
    ensures Leads(s, t) && Staged(t, i, id) && StagesOnly(s, t) && t.repo.tags == s.repo.tags
    ensures t.repo.releases[id].assets == Some(s.uploads) && t.uploads == s.uploads + 1
    ensures t.jobs == s.jobs - {i.line}
  {
    var uploaded := WithJob(WithRelease(s, id, Full(i, id, s.uploads)), i.line, Uploaded(i, id, s.uploads))
      .(uploads := s.uploads + 1);
    t := WithoutJob(uploaded, i.line).(records := uploaded.records + {Record(i, id, s.uploads)});
    Stays(s);
    assert StagingStep(s, Upload(i.line), uploaded);
    ThenStep(s, s, Upload(i.line), uploaded);
    assert StagingStep(uploaded, Announce(i.line), t);
    ThenStep(s, uploaded, Announce(i.line), t);
  }

  lemma ThenLeads(s: State, m: State, t: State)
    requires Leads(s, m) && Leads(m, t)
    ensures Leads(s, t)
  {
    var a :| IsPath(a, s, m);
    var b :| IsPath(b, m, t);
    var joined := a + b[1..];
    forall i: nat | i + 1 < |joined| ensures StepsAt(joined, i) {
      if i + 1 < |a| {
        assert StepsAt(a, i);
      } else {
        assert StepsAt(b, i + 1 - |a|);
        assert joined[i] == b[i + 1 - |a|] && joined[i + 1] == b[i + 2 - |a|];
      }
    }
    assert IsPath(joined, s, t);
  }

  lemma StageFresh(s: State, i: Identity, listed: seq<Release>, id: nat) returns (t: State)
    requires id !in s.repo.releases
    requires i in s.identities && i.line !in s.jobs && Lists(listed, s.repo)
    requires SelectDraftFrom(listed, i, None) == Success(None)
    ensures Leads(s, t) && Staged(t, i, id) && StagesOnly(s, t) && t.repo.tags == s.repo.tags
    ensures t.repo.releases[id].assets == Some(s.uploads) && t.uploads == s.uploads + 1
    ensures t.jobs == s.jobs
  {
    var selected := WithJob(s, i.line, Selected(i, None));
    var created := WithJob(WithRelease(selected, id, Emptied(i, id)), i.line, Empty(i, id));
    Stays(s);
    assert StagingStep(s, SelectStep(i, listed), selected);
    ThenStep(s, s, SelectStep(i, listed), selected);
    assert StagingStep(selected, CreateDraft(i.line, id), created);
    ThenStep(s, selected, CreateDraft(i.line, id), created);
    t := FinishStaging(created, i, id);
    ThenLeads(s, created, t);
    assert created.jobs - {i.line} == s.jobs;
  }

  lemma StageRetry(s: State, i: Identity, listed: seq<Release>, id: nat) returns (t: State)
    requires i in s.identities && i.line !in s.jobs && Lists(listed, s.repo)
    requires SelectDraftFrom(listed, i, None) == Success(Some(DraftSelection(id, None)))
    ensures Leads(s, t) && Staged(t, i, id) && StagesOnly(s, t) && t.repo.tags == s.repo.tags
    ensures t.repo.releases[id].assets == Some(s.uploads) && t.uploads == s.uploads + 1
    ensures t.jobs == s.jobs
  {
    var selected := WithJob(s, i.line, Selected(i, Some(DraftSelection(id, None))));
    var cleared := WithJob(WithRelease(selected, id, Emptied(i, id)), i.line, Empty(i, id));
    Stays(s);
    assert StagingStep(s, SelectStep(i, listed), selected);
    ThenStep(s, s, SelectStep(i, listed), selected);
    assert StagingStep(selected, Clear(i.line), cleared);
    ThenStep(s, selected, Clear(i.line), cleared);
    t := FinishStaging(cleared, i, id);
    ThenLeads(s, cleared, t);
    assert cleared.jobs - {i.line} == s.jobs;
  }

  /** A superseded draft without its tag is rewritten, emptied and filled. */
  lemma FinishSuperseding(s: State, i: Identity, id: nat) returns (t: State)
    requires i.line in s.jobs && s.jobs[i.line] == Untagged(i, id) && i in s.identities
    requires id in s.repo.releases
    ensures Leads(s, t) && Staged(t, i, id) && StagesOnly(s, t) && t.repo.tags == s.repo.tags
  {
    var emptied := Emptied(i, id);
    var dirty := Retitled(i, id, s.repo.releases[id]);
    var rewritten := WithJob(WithRelease(s, id, dirty), i.line, Dirty(i, id));
    var cleared := WithJob(WithRelease(rewritten, id, emptied), i.line, Empty(i, id));
    Stays(s);
    assert StagingStep(s, Rewrite(i.line), rewritten);
    ThenStep(s, s, Rewrite(i.line), rewritten);
    assert StagingStep(rewritten, Clear(i.line), cleared);
    ThenStep(s, rewritten, Clear(i.line), cleared);
    t := FinishStaging(cleared, i, id);
    ThenLeads(s, cleared, t);
  }

  lemma StageSuperseding(s: State, i: Identity, listed: seq<Release>, id: nat, stale: Sha) returns (t: State)
    requires i in s.identities && i.line !in s.jobs && Lists(listed, s.repo)
    requires SelectDraftFrom(listed, i, None) == Success(Some(DraftSelection(id, Some(stale))))
    requires id in s.repo.releases
    requires i.tag in s.repo.tags ==> s.repo.tags[i.tag] == stale
    ensures Leads(s, t) && Staged(t, i, id) && StagesOnly(s, t) && t.repo.tags == s.repo.tags - {i.tag}
  {
    var selected := WithJob(s, i.line, Selected(i, Some(DraftSelection(id, Some(stale)))));
    var untagged := selected.(repo := s.repo.(tags := s.repo.tags - {i.tag}));
    var dropped := WithJob(untagged, i.line, Untagged(i, id));
    Stays(s);
    assert StagingStep(s, SelectStep(i, listed), selected);
    ThenStep(s, s, SelectStep(i, listed), selected);
    assert StagingStep(selected, DropTag(i.line), dropped);
    ThenStep(s, selected, DropTag(i.line), dropped);
    t := FinishSuperseding(dropped, i, id);
    ThenLeads(s, dropped, t);
  }

  /** The tag of a draft that is to be superseded is free or names the stale build. */
  ghost predicate TagReplaceable(repo: Repo, i: Identity) {
    forall id :: HasTag(repo, id, i.tag) && repo.releases[id].body.Some? && repo.releases[id].body.value != i ==>
      i.tag in repo.tags ==> repo.tags[i.tag] == repo.releases[id].body.value.buildSha
  }

  /** What staging does with the tag: it is gone if another identity held the draft. */
  ghost predicate TagAfter(s: State, t: State, i: Identity) {
    t.repo.tags ==
      if exists id :: HasTag(s.repo, id, i.tag) && s.repo.releases[id].body != Some(i) then s.repo.tags - {i.tag}
      else s.repo.tags
  }

  /** Any delivered identity, preview or stable, with a writable draft and a replaceable
      tag can be staged to its end, whatever a dead run left behind. */
  lemma CanStage(s: State, i: Identity) returns (t: State, id: nat)
    requires ReleasesOk(s) && i in s.identities && i.line !in s.jobs
    requires Writable(s.repo, i) && TagReplaceable(s.repo, i)
    ensures Leads(s, t) && Staged(t, i, id) && StagesOnly(s, t) && TagAfter(s, t, i)
    ensures forall other :: HasTag(s.repo, other, i.tag) ==> other == id
  {
    var listed := ListReleases(s);
    SelectsExactlyWritable(s, listed, i);
    SelectDraftMeaning(listed, i);
    var selection := SelectDraftFrom(listed, i, None).value;
    if selection.None? {
      NoReleaseListed(s, listed, i.tag);
      id := FreshId(s.repo.releases.Keys);
      t := StageFresh(s, i, listed, id);
    } else {
      id := ListedSelection(s, listed, i, selection.value);
      if selection.value.staleBuild.None? {
        t := StageRetry(s, i, listed, id);
      } else {
        t := StageSuperseding(s, i, listed, id, selection.value.staleBuild.value);
      }
    }
  }

  lemma ListedSelection(s: State, listed: seq<Release>, i: Identity, selected: DraftSelection) returns (id: nat)
    requires ReleasesOk(s) && Lists(listed, s.repo)
    requires SelectDraftFrom(listed, i, None) == Success(Some(selected))
    ensures id == selected.id && HasTag(s.repo, id, i.tag) && s.repo.releases[id].body.Some?
    ensures selected.staleBuild ==
      if s.repo.releases[id].body == Some(i) then None else Some(s.repo.releases[id].body.value.buildSha)
    ensures forall other :: HasTag(s.repo, other, i.tag) ==> other == id
  {
    SelectDraftMeaning(listed, i);
    var k: nat :| OnlyMatch(listed, i.tag, k) && Admit(listed[k], i) == Success(selected);
    assert listed[k] in listed;
    id := selected.id;
  }

  lemma NoReleaseListed(s: State, listed: seq<Release>, tag: Tag)
    requires Lists(listed, s.repo) && forall j :: 0 <= j < |listed| ==> listed[j].tag != tag
    ensures forall id :: !HasTag(s.repo, id, tag)
  {
    forall id ensures !HasTag(s.repo, id, tag) {
      if id in s.repo.releases {
        assert s.repo.releases[id] in listed;
      }
    }
  }

  /** For previews the tag is always replaceable, and afterwards it is free or names the
      build of the candidate. */
  lemma PreviewTagIsReplaceable(s: State, legacy: set<Tag>, i: Identity)
    requires TagsOk(s, legacy) && DraftsTagged(s) && ReleasesOk(s)
    requires forall j :: j in s.identities ==> IdentityOk(j)
    requires Preceded(s.repo, legacy, i) && IdentityOk(i) && i.phase.Some? && Writable(s.repo, i)
    ensures TagReplaceable(s.repo, i)
    ensures forall t :: TagAfter(s, t, i) && i.tag in t.repo.tags ==> t.repo.tags[i.tag] == i.buildSha
  {
    forall id | HasTag(s.repo, id, i.tag)
      ensures i.tag in s.repo.tags ==> s.repo.tags[i.tag] == s.repo.releases[id].body.value.buildSha
    {
      assert ReleaseOk(id, s.repo.releases[id], s.identities);
    }
    if i.tag in s.repo.tags {
      assert i.tag !in legacy;
      assert TagHasRelease(s.repo, i.tag);
      var id :| HasTag(s.repo, id, i.tag);
    }
  }

  // --------------------------------------------------------- publication

  /** With the tag checked, the two mutations publish the draft. */
  lemma FinishPublishing(s: State, i: Identity, id: nat, upload: nat) returns (t: State)
    requires i.line in s.jobs && s.jobs[i.line] == Checked(Record(i, id, upload), i.buildSha) && i.tag.Preview?
    requires id in s.repo.releases && s.repo.releases[id] == Full(i, id, upload)
    requires i.tag in s.repo.tags ==> s.repo.tags[i.tag] == i.buildSha
    requires i.phase.Some?
    ensures Leads(s, t) && Carries(t.repo, id, i.phase.value, i.snapshot)
  {
    var r := Record(i, id, upload);
    var tagged := WithJob(s.(repo := EnsureTag(s.repo, i.tag, i.buildSha).value), i.line, Tagged(r, i.buildSha));
    t := WithoutJob(tagged.(repo := PublishRelease(tagged.repo, r, false)), i.line);
    Stays(s);
    assert PublicationStep(s, TagStep(i.line), tagged);
    ThenStep(s, s, TagStep(i.line), tagged);
    assert PublicationStep(tagged, Flip(i.line), t);
    ThenStep(s, tagged, Flip(i.line), t);
  }

  lemma CanPublish(s: State, i: Identity, id: nat, live: LivePr) returns (t: State)
    requires Staged(s, i, id) && IdentityOk(i) && i.phase.Some?
    requires i.tag in s.repo.tags ==> s.repo.tags[i.tag] == i.buildSha
    requires i.pr in s.live && s.live[i.pr] == live && live in s.seen && LiveMatches(i, live) && live.authorized
    ensures Leads(s, t) && Carries(t.repo, id, i.phase.value, i.snapshot)
  {
    var upload := s.repo.releases[id].assets.value;
    var r := Record(i, id, upload);
    var checked := WithJob(s, i.line, Checked(r, i.buildSha));
    Stays(s);
    assert PlanPreview(s.repo, i, r, live, live) == Mutate(i.buildSha);
    assert PublicationStep(s, CheckPreview(r, live), checked);
    ThenStep(s, s, CheckPreview(r, live), checked);
    t := FinishPublishing(checked, i, id, upload);
    ThenLeads(s, checked, t);
  }

  // -------------------------------------------------------- no wedging

  /** A draft of this base and phase that another pull request or another base left. */
  ghost predicate Blocked(s: State, live: LivePr, phase: Phase) {
    exists id :: id in s.repo.releases && Blocks(s.repo.releases[id], live, phase)
  }

  predicate Blocks(r: Release, live: LivePr, phase: Phase) {
    && r.draft && r.body.Some?
    && r.tag.Preview? && r.tag.base == live.snapshot.prepared && r.tag.phase == phase
    && (r.body.value.pr != live.number || r.body.value.baseSha != live.baseSha)
  }

  /** The candidate of a live pull request, with the suffix that follows the published ones. */
  function Candidate(live: LivePr, phase: Phase, suffix: nat): Identity {
    WithBuild(Identity(live.line, live.number, live.baseSha, live.headSha, live.snapshot, Some(phase),
                       Preview(live.snapshot.prepared, phase, suffix), live.headSha))
  }

  predicate Publishable(live: LivePr, phase: Phase) {
    && live.open && live.authorized && live.labels == {phase}
    && live.line >= 1 && live.snapshot.prepared.major == live.line
  }

  /** The controller can emit the candidate from fresh reads. */
  lemma CanResolve(s: State, legacy: set<Tag>, live: LivePr, phase: Phase) returns (t: State, i: Identity)
    requires ReleasesOk(s) && SuffixesOk(s, legacy) && PublishedTagged(s) && Publishable(live, phase)
    requires live in s.seen && forall id :: !Carries(s.repo, id, phase, live.snapshot)
    ensures Leads(s, t) && t == s.(tagReads := t.tagReads, identities := s.identities + {i})
    ensures i.tag.Preview? && i == Candidate(live, phase, i.tag.number) && !TagPublished(s.repo, i.tag)
  {
    var read := s.(tagReads := s.tagReads + {s.repo.tags.Keys});
    Stays(s);
    assert EnvironmentStep(s, ReadTags, read);
    ThenStep(s, s, ReadTags, read);
    var tags := ListTags(s.repo.tags.Keys);
    assert (set u | u in tags) == s.repo.tags.Keys;
    var listed := ListReleases(s);
    i := ResolvesLive(s, legacy, live, phase, tags, listed);
    t := read.(identities := read.identities + {i});
    assert ResolveStep(read, Resolve(live, live, tags, listed), t);
    ThenStep(s, read, Resolve(live, live, tags, listed), t);
  }

  /** What current reads of an unpublished snapshot resolve to. */
  lemma ResolvesLive(
      s: State, legacy: set<Tag>, live: LivePr, phase: Phase, tags: seq<Tag>, listed: seq<Release>)
    returns (i: Identity)
    requires ReleasesOk(s) && SuffixesOk(s, legacy) && PublishedTagged(s) && Publishable(live, phase)
    requires Lists(listed, s.repo) && forall u :: u in tags <==> u in s.repo.tags
    requires forall id :: !Carries(s.repo, id, phase, live.snapshot)
    ensures
      forall staged ::
        var resolved := ResolveCandidate(live, live, tags, listed, staged);
        resolved.Success? && resolved.value.Some? && WithBuild(resolved.value.value) == i
    ensures i.tag.Preview? && i == Candidate(live, phase, i.tag.number) && !TagPublished(s.repo, i.tag)
  {
    assert forall j :: j in s.identities ==> IdentityOk(j);
    SnapshotsReadable(s, listed);
    ListedSnapshots(s, listed, phase, live.snapshot);
    ActivePhaseIsTheOnlyLabel(live.labels, phase);
    i := WithBuild(ResolveCandidate(live, live, tags, listed, false).value.value);
    if TagPublished(s.repo, i.tag) {
      PublishedSuffixIsListed(s, tags, listed, i.tag);
    }
  }

  lemma UnblockedIsWritable(s: State, legacy: set<Tag>, live: LivePr, phase: Phase, i: Identity)
    requires ReleasesOk(s) && SuffixesOk(s, legacy) && LegacyOk(s.repo, legacy) && i in s.identities
    requires i.tag.Preview? && i == Candidate(live, phase, i.tag.number) && !Blocked(s, live, phase)
    requires !TagPublished(s.repo, i.tag)
    ensures Writable(s.repo, i)
  {
    forall id | HasTag(s.repo, id, i.tag)
      ensures
        var r := s.repo.releases[id];
        && r.draft && r.body.Some? && r.prerelease == i.phase.Some?
        && r.body.value.line == i.line && r.body.value.pr == i.pr && r.body.value.baseSha == i.baseSha
    {
      var r := s.repo.releases[id];
      assert !IsPublished(s.repo, id, i.tag);
      assert ReleaseOk(id, r, s.identities) && IdentityOk(r.body.value) && IdentityOk(i);
      assert !Blocks(r, live, phase);
    }
  }

  lemma LeadsKeepsInv(s: State, t: State, legacy: set<Tag>)
    requires Inv(s, legacy) && Leads(s, t)
    ensures Inv(t, legacy)
  {
    var path :| IsPath(path, s, t);
    PathKeepsInv(path, |path| - 1, legacy);
  }

  /** A blocked candidate is refused by staging as long as the foreign draft stays. */
  lemma BlockedIsRefused(s: State, listed: seq<Release>, live: LivePr, phase: Phase, id: nat)
    requires ReleasesOk(s) && Lists(listed, s.repo)
    requires id in s.repo.releases && Blocks(s.repo.releases[id], live, phase)
    ensures SelectDraftFrom(listed, Candidate(live, phase, s.repo.releases[id].tag.number), None).Failure?
  {
    var i := Candidate(live, phase, s.repo.releases[id].tag.number);
    assert HasTag(s.repo, id, i.tag);
    SelectsExactlyWritable(s, listed, i);
  }

  /** From any reachable state in which the line is unlocked, an open, authorised and
      labelled pull request whose snapshot is not yet published in its phase can be
      published, unless a foreign draft blocks its suffix. */
  lemma NothingElseBlocksAPreview(run: seq<State>, at: nat, live: LivePr, phase: Phase) returns (t: State, id: nat)
    requires IsRun(run) && at < |run| && Publishable(live, phase)
    requires live.number in run[at].live && run[at].live[live.number] == live && live.line !in run[at].jobs
    requires forall other :: !Carries(run[at].repo, other, phase, live.snapshot)
    requires !Blocked(run[at], live, phase)
    ensures Leads(run[at], t) && Carries(t.repo, id, phase, live.snapshot)
  {
    RunKeepsInv(run, at);
    InvIsAllAspects(run[at], Legacy(run[0]));
    LiveIsSeen(run, at);
    var s, legacy := run[at], Legacy(run[0]);
    var resolved, i := CanResolve(s, legacy, live, phase);
    LeadsKeepsInv(s, resolved, legacy);
    InvIsAllAspects(resolved, legacy);
    UnblockedIsWritable(resolved, legacy, live, phase, i);
    var staged;
    PreviewTagIsReplaceable(resolved, legacy, i);
    staged, id := CanStage(resolved, i);
    ThenLeads(s, resolved, staged);
    t := CanPublish(staged, i, id, live);
    ThenLeads(s, staged, t);
  }
}
