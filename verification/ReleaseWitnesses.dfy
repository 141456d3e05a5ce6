/** Reachable states that show where the pipeline stops: a stale draft is not replaced after
    the base of its pull request moved or a stable publication died with its tag made, and a
    merged stable that was staged again is lost, while one that was merely taken over is not. */
module ReleaseWitnesses {
  import opened Wrappers
  import opened Tags
  import opened Candidates
  import opened Publication
  import opened ReleaseProtocol
  import opened ReleaseInvariants
  import opened ReleaseSafety
  import opened ReleaseRuns
  import opened ReleaseOwners
  import opened ReleaseProgress
  import opened ReleaseBlocking
  import opened ReleaseLosses
  import opened ReleaseStables
  import opened Trees
  import StableMerge

  /** A repository without tags and releases. */
  function Unused(h: StableMerge.History): State {
    State(Repo(map[], map[], None), map[], map[], {}, {}, {}, map[], h, {}, 0)
  }

  lemma UnusedIsInitial(h: StableMerge.History)
    ensures Init(Unused(h)) && Inv(Unused(h), {})
  {
    InvIsAllAspects(Unused(h), {});
  }

  ghost predicate NothingPublished(s: State) {
    forall id :: id in s.repo.releases ==> s.repo.releases[id].draft
  }

  lemma Moves(s: State, live: LivePr) returns (t: State)
    requires live.number !in s.merges
    ensures t == Enters(s, live.number, live) && Leads(s, t)
  {
    t := Enters(s, live.number, live);
    Stays(s);
    assert EnvironmentStep(s, MovePr(live), t);
    ThenStep(s, s, MovePr(live), t);
  }

  // ------------------------------------------------------------ moved base

  /** Before anything is published a preview gets the first suffix. */
  lemma FirstSuffix(s: State, i: Identity)
    requires Inv(s, {}) && NothingPublished(s) && i in s.identities && i.tag.Preview?
    ensures i.tag.number == 1
  {
    assert Keeps(OfSuffixes, s, {});
    assert IdentityOk(i) && Preceded(s.repo, {}, i);
    assert !TagPublished(s.repo, Preview(i.tag.base, i.tag.phase, 1));
  }

  /** The candidate of a live pull request is resolved. */
  lemma Resolved(s: State, live: LivePr, phase: Phase) returns (t: State, i: Identity)
    requires Inv(s, {}) && NothingPublished(s) && Publishable(live, phase) && live in s.seen
    ensures Leads(s, t) && Inv(t, {}) && t == s.(tagReads := t.tagReads, identities := s.identities + {i})
    ensures i == Candidate(live, phase, 1) && i.tag == Preview(live.snapshot.prepared, phase, 1)
  {
    InvIsAllAspects(s, {});
    t, i := CanResolve(s, {}, live, phase);
    LeadsKeepsInv(s, t, {});
    FirstSuffix(t, i);
  }

  /** The candidate of a live pull request is resolved and staged. */
  lemma StagesPreview(h: StableMerge.History, live: LivePr, phase: Phase) returns (s: State, id: nat, b: Identity)
    requires Publishable(live, phase)
    ensures Leads(Unused(h), s) && Inv(s, {}) && NothingPublished(s) && s.merges == map[]
    ensures Staged(s, b, id) && b == Candidate(live, phase, 1)
  {
    UnusedIsInitial(h);
    var current := Moves(Unused(h), live);
    LeadsKeepsInv(Unused(h), current, {});
    var first;
    first, b := Resolved(current, live, phase);
    ThenLeads(Unused(h), current, first);
    s, id := StageInUnused(first, b);
    ThenLeads(Unused(h), first, s);
    LeadsKeepsInv(Unused(h), s, {});
  }

  /** A preview is staged, then the base of its pull request moves. The candidate of the
      moved pull request gets the same tag, and staging refuses it. */
  lemma MovedBaseIsRefused(h: StableMerge.History, live: LivePr, moved: LivePr, phase: Phase)
    returns (s: State, id: nat, b: Identity, i: Identity)
    requires Publishable(live, phase) && moved == live.(baseSha := moved.baseSha) && moved.baseSha != live.baseSha
    ensures Leads(Unused(h), s) && moved.number in s.live && s.live[moved.number] == moved
    ensures i in s.identities && i.line !in s.jobs && LiveMatches(i, moved)
    ensures DraftOf(s.repo, id, i.tag) && s.repo.releases[id].body == Some(b)
    ensures b.line == i.line && b.pr == i.pr && b.baseSha != i.baseSha
    ensures forall listed :: Lists(listed, s.repo) ==> SelectDraftFrom(listed, i, None).Failure?
  {
    var staged;
    staged, id, b := StagesPreview(h, live, phase);
    var later := Moves(staged, moved);
    ThenLeads(Unused(h), staged, later);
    LeadsKeepsInv(staged, later, {});
    s, i := Resolved(later, moved, phase);
    ThenLeads(Unused(h), later, s);
    assert Keeps(OfReleases, s, {});
    forall listed | Lists(listed, s.repo) ensures SelectDraftFrom(listed, i, None).Failure? {
      BlockedIsRefused(s, listed, moved, phase, id);
    }
  }

  lemma StageInUnused(s: State, i: Identity) returns (t: State, id: nat)
    requires Inv(s, {}) && s.repo == Repo(map[], map[], None) && s.jobs == map[] && i in s.identities
    ensures Leads(s, t) && Staged(t, i, id) && StagesOnly(s, t) && NothingPublished(t)
  {
    assert Keeps(OfReleases, s, {});
    t, id := CanStage(s, i);
  }

  // ------------------------------------------- a stable publication that died

  /** A base, a tested source on it, and the squash of the source with its record. */
  function SquashHistory(r: Record): StableMerge.History {
    StableMerge.History(
      map[
        Commit(0) := StableMerge.GitCommit([], map[]),
        Commit(1) := StableMerge.GitCommit([Commit(0)], map[]),
        Commit(2) := StableMerge.GitCommit([Commit(0)], map[RECORD_PATH := Entry("100644", "r")])],
      map["r" := r],
      map[r := "r"])
  }

  /** The history holds these three commits and the record. */
  ghost predicate HoldsSquash(h: StableMerge.History, r: Record) {
    && StableMerge.IsHistory(h) && r in h.dumps
    && Commit(0) in h.commits && Commit(1) in h.commits && Commit(2) in h.commits
    && h.commits[Commit(0)] == StableMerge.GitCommit([], map[])
    && h.commits[Commit(1)].tree == map[]
    && h.commits[Commit(2)] == StableMerge.GitCommit([Commit(0)], map[RECORD_PATH := Entry("100644", h.dumps[r])])
  }

  lemma HeldSquashIsAccepted(h: StableMerge.History, r: Record)
    requires HoldsSquash(h, r) && r.identity.baseSha == Commit(0) && r.identity.sourceSha == Commit(1)
    ensures StableMerge.RecordAccepted(h, r, Commit(2))
  {
    StableMerge.ChainSteps(h, Commit(2));
    assert StableMerge.FirstParents(h, Commit(2))[1] == Commit(0);
    assert Equivalent(StableMerge.TreeOf(h, Commit(1)), StableMerge.TreeOf(h, Commit(2)));
  }

  lemma SquashIsAccepted(r: Record)
    requires r.identity.baseSha == Commit(0) && r.identity.sourceSha == Commit(1)
    ensures StableMerge.RecordAccepted(SquashHistory(r), r, Commit(2))
  {
    var h := SquashHistory(r);
    assert Valid(map[RECORD_PATH := Entry("100644", "r")]);
    assert HoldsSquash(h, r);
    HeldSquashIsAccepted(h, r);
  }

  /** A stable pull request whose head is the tested source. */
  predicate IsStablePr(live: LivePr) {
    && live.open && live.labels == {} && live.line >= 1 && live.snapshot.prepared.major == live.line
    && live.baseSha == Commit(0) && live.headSha == Commit(1)
  }

  /** In a repository without releases an unlabelled pull request resolves. */
  lemma ResolvedStable(s: State, live: LivePr) returns (t: State, i: Identity)
    requires s.repo == Repo(map[], map[], None) && !StableMerge.HeadIsStaged(s.history, live)
    requires live.number !in s.merges
    requires live.open && live.labels == {} && live.line >= 1 && live.snapshot.prepared.major == live.line
    ensures i == PlainIdentity(live) && Leads(s, t)
    ensures t == s.(live := t.live, seen := t.seen, tagReads := t.tagReads, identities := s.identities + {i})
  {
    var moved := Moves(s, live);
    var read := moved.(tagReads := moved.tagReads + {s.repo.tags.Keys});
    i := PlainIdentity(live);
    t := read.(identities := read.identities + {i});
    assert EnvironmentStep(moved, ReadTags, read);
    ThenStep(s, moved, ReadTags, read);
    var tags: seq<Tag> := [];
    assert (set u | u in tags) == s.repo.tags.Keys;
    assert ResolveCandidate(live, live, tags, [], false) == Success(Some(i));
    assert ResolveStep(read, Resolve(live, live, tags, []), t);
    ThenStep(s, read, Resolve(live, live, tags, []), t);
  }

  /** The pull request of a staged stable is merged by an accepted push. */
  lemma Merges(s: State, r: Record, push: Sha) returns (t: State)
    requires r in s.records && r.identity.phase.None? && r.identity.pr !in s.merges
    requires StableMerge.RecordAccepted(s.history, r, push)
    ensures Leads(s, t) && t == Merged(s, r.identity.pr, push) && IsMerged(t, r, push)
    ensures t == s.(live := t.live, seen := t.seen, merges := s.merges[r.identity.pr := push])
  {
    t := Merged(s, r.identity.pr, push);
    Stays(s);
    assert EnvironmentStep(s, MergePr(r.identity.pr, push), t);
    ThenStep(s, s, MergePr(r.identity.pr, push), t);
  }

  lemma ChecksMerged(s: State, r: Record, push: Sha) returns (t: State)
    requires IsMerged(s, r, push) && r.identity.line !in s.jobs
    requires r.draftId in s.repo.releases && s.repo.releases[r.draftId] == Full(r.identity, r.draftId, r.upload)
    requires r.identity.tag !in s.repo.tags
    ensures Leads(s, t) && t == WithJob(s, r.identity.line, Checked(r, push))
  {
    t := WithJob(s, r.identity.line, Checked(r, push));
    Stays(s);
    assert PlanStable(s.repo, r, push, MergeOf(s, r.identity.pr), true) == Mutate(push);
    assert PublicationStep(s, CheckStable(r, push), t);
    ThenStep(s, s, CheckStable(r, push), t);
  }

  lemma TagsAndDies(s: State, r: Record, push: Sha) returns (t: State)
    requires r.identity.line in s.jobs && s.jobs[r.identity.line] == Checked(r, push)
    requires r.identity.tag !in s.repo.tags
    ensures Leads(s, t)
    ensures t == s.(
      repo := s.repo.(tags := s.repo.tags[r.identity.tag := push]), jobs := s.jobs - {r.identity.line})
  {
    var i := r.identity;
    var repo := s.repo.(tags := s.repo.tags[i.tag := push]);
    var tagged := WithJob(s.(repo := repo), i.line, Tagged(r, push));
    t := WithoutJob(tagged, i.line);
    Stays(s);
    assert PublicationStep(s, TagStep(i.line), tagged);
    ThenStep(s, s, TagStep(i.line), tagged);
    assert EnvironmentStep(tagged, Die(i.line), t);
    ThenStep(s, tagged, Die(i.line), t);
    assert t.jobs == s.jobs - {i.line};
  }

  /** The publication of a merged draft dies after the tag. */
  lemma DiesTagged(s: State, r: Record, push: Sha) returns (t: State)
    requires IsMerged(s, r, push) && r.identity.line !in s.jobs
    requires r.draftId in s.repo.releases && s.repo.releases[r.draftId] == Full(r.identity, r.draftId, r.upload)
    requires r.identity.tag !in s.repo.tags
    ensures Leads(s, t) && t == s.(repo := s.repo.(tags := s.repo.tags[r.identity.tag := push]))
  {
    var checked := ChecksMerged(s, r, push);
    t := TagsAndDies(checked, r, push);
    ThenLeads(s, checked, t);
    assert t.jobs == s.jobs;
  }

  /** Where the stable runs below start, and the record of their first upload. */
  function FirstRecord(live: LivePr): Record {
    Record(PlainIdentity(live), 0, 0)
  }

  function Start(live: LivePr): State {
    Unused(SquashHistory(FirstRecord(live)))
  }

  /** The first of two identities is staged and merged. */
  predicate FirstIsMerged(s: State, live: LivePr, b: Identity, i: Identity) {
    && b == PlainIdentity(live) && i == PlainIdentity(live.(headSha := Commit(5)))
    && Staged(s, b, 0) && s.repo.releases[0].assets == Some(0) && s.uploads == 1
    && s.identities == {b, i} && s.repo.tags == map[] && s.jobs == map[]
    && s.history == SquashHistory(FirstRecord(live))
  }

  lemma StagesFirst(live: LivePr) returns (s: State, b: Identity, i: Identity)
    requires IsStablePr(live)
    ensures Leads(Start(live), s) && FirstIsMerged(s, live, b, i) && s.merges == map[]
  {
    b := PlainIdentity(live);
    var start := Start(live);
    var first, _ := ResolvedStable(start, live);
    var second;
    second, i := ResolvedStable(first, live.(headSha := Commit(5)));
    ThenLeads(start, first, second);
    assert Lists([], second.repo);
    s := StageFresh(second, b, [], 0);
    ThenLeads(start, second, s);
    assert s.identities == {b, i};
  }

  lemma StagesAndMerges(live: LivePr) returns (s: State, b: Identity, i: Identity)
    requires IsStablePr(live)
    ensures Leads(Start(live), s) && FirstIsMerged(s, live, b, i)
    ensures IsMerged(s, FirstRecord(live), Commit(2)) && Attached(s, FirstRecord(live)) && Inv(s, {})
  {
    var staged;
    staged, b, i := StagesFirst(live);
    SquashIsAccepted(FirstRecord(live));
    s := Merges(staged, FirstRecord(live), Commit(2));
    ThenLeads(Start(live), staged, s);
    UnusedIsInitial(SquashHistory(FirstRecord(live)));
    LeadsKeepsInv(Start(live), s, {});
  }

  /** Two identities of one stable pull request and base. The first is staged, merged and
      tagged when its publication dies. The draft is selected for the second, but its tag
      names the merge instead of the stale build, so the draft is not replaced. */
  lemma DeadStableIsNotReplaced(live: LivePr) returns (s: State, b: Identity, i: Identity)
    requires IsStablePr(live)
    ensures Leads(Start(live), s)
    ensures b in s.identities && i in s.identities && b != i && SameOwner(b, i) && s.jobs == map[]
    ensures DraftOf(s.repo, 0, i.tag) && s.repo.releases[0].body == Some(b)
    ensures forall listed :: Lists(listed, s.repo) ==> SelectDraftFrom(listed, i, None).Success?
    ensures forall listed, m, t :: !TakesOver(s, i, listed, m, t)
  {
    var merged;
    merged, b, i := StagesAndMerges(live);
    s := DiesTagged(merged, FirstRecord(live), Commit(2));
    ThenLeads(Start(live), merged, s);
    LeadsKeepsInv(merged, s, {});
    assert Keeps(OfReleases, s, {}) && Keeps(OfSuffixes, s, {});
    IsSelectedButNotReplaced(s, b, i);
  }

  // ----------------------------------------- staging after the merge

  /** A stable is staged and merged, and a late staging run of the same identity replaces
      its assets. The draft, its body and its tag are as the push expects them, yet no
      continuation publishes the merged record. */
  lemma RestagedStableIsLost(live: LivePr) returns (s: State)
    requires IsStablePr(live)
    ensures Leads(Start(live), s) && IsMerged(s, FirstRecord(live), Commit(2)) && s.jobs == map[]
    ensures 0 in s.repo.releases && s.repo.releases[0] == Full(PlainIdentity(live), 0, 1) && s.repo.tags == map[]
    ensures forall t :: Leads(s, t) ==> !PublishedAs(t, FirstRecord(live))
  {
    var merged, b, i := StagesAndMerges(live);
    assert Keeps(OfReleases, merged, {});
    var listed := SelectsOwned(merged, 0, b, b);
    s := StageRetry(merged, b, listed, 0);
    ThenLeads(Start(live), merged, s);
    MergedLater(merged, s, FirstRecord(live), Commit(2));
    forall t | Leads(s, t) ensures !PublishedAs(t, FirstRecord(live)) {
      var path :| IsPath(path, s, t);
      PathStaysLost(path, |path| - 1, FirstRecord(live));
    }
  }

  /** A late run of another identity takes the draft of a merged stable over and dies before
      it deletes the assets. The draft is not the candidate's any more, and still some
      continuation publishes the merged record. */
  lemma InterruptedTakeOverIsUndone(live: LivePr) returns (s: State, i: Identity, t: State)
    requires IsStablePr(live)
    ensures Leads(Start(live), s) && IsMerged(s, FirstRecord(live), Commit(2)) && s.jobs == map[]
    ensures DraftOf(s.repo, 0, i.tag) && s.repo.releases[0].body == Some(i) && i != PlainIdentity(live)
    ensures Leads(s, t) && PublishedAs(t, FirstRecord(live))
  {
    var merged, b;
    merged, b, i := StagesAndMerges(live);
    assert Keeps(OfReleases, merged, {});
    TakesOverAndDies(merged, 0, b, i);
    s := TakenOver(merged, i, 0);
    ThenLeads(Start(live), merged, s);
    LeadsKeepsInv(merged, s, {});
    assert Keeps(OfReleases, s, {});
    t := PublishTakenOver(s, FirstRecord(live), Commit(2), i);
  }

  lemma IsSelectedButNotReplaced(s: State, b: Identity, i: Identity)
    requires ReleasesOk(s) && b in s.identities && i in s.identities && b != i && SameOwner(b, i)
    requires b.phase.None? && i.phase.None? && WellFormed(b) && WellFormed(i) && s.jobs == map[]
    requires 0 in s.repo.releases && s.repo.releases[0] == Full(b, 0, 0)
    requires b.tag in s.repo.tags && s.repo.tags[b.tag] != b.buildSha
    ensures forall listed :: Lists(listed, s.repo) ==> SelectDraftFrom(listed, i, None).Success?
    ensures forall listed, m, t :: !TakesOver(s, i, listed, m, t)
  {
    assert HasTag(s.repo, 0, i.tag);
    forall listed | Lists(listed, s.repo) ensures SelectDraftFrom(listed, i, None).Success? {
      SelectsExactlyWritable(s, listed, i);
      assert forall other :: HasTag(s.repo, other, i.tag) ==> other == 0;
    }
    StaleDraftIsReplacedExactly(s, 0, b, i);
  }
}
