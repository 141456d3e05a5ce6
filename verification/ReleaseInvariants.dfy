/** Every step of the release protocol keeps its invariants. The remote effects are
    few: a draft is written, a tag is created, the tag of a draft is dropped, a draft
    is published. Each effect is shown once to keep each invariant. */
module ReleaseInvariants {
  import opened Wrappers
  import opened Tags
  import opened Candidates
  import opened Publication
  import opened ReleaseProtocol

  function LineOf(t: Tag): nat {
    match t
    case Plain(base) => base.major
    case Preview(base, _, _) => base.major
    case Foreign(_) => 0
  }

  // -------------------------------------------------------------- growth

  /** Releases are never removed or renamed, and published ones never change. */
  ghost predicate Grows(a: Repo, b: Repo) {
    forall id :: id in a.releases ==>
      && id in b.releases
      && b.releases[id].tag == a.releases[id].tag
      && (!a.releases[id].draft ==> b.releases[id] == a.releases[id])
  }

  lemma GrowthKeepsTag(a: Repo, b: Repo, t: Tag)
    requires Grows(a, b)
    ensures TagHasRelease(a, t) ==> TagHasRelease(b, t)
    ensures TagPublished(a, t) ==> TagPublished(b, t)
  {
    if id :| HasTag(a, id, t) {
      assert HasTag(b, id, t);
    }
    if id :| IsPublished(a, id, t) {
      assert IsPublished(b, id, t);
    }
  }

  lemma GrowthKeepsBacked(a: Repo, b: Repo, tags: set<Tag>, legacy: set<Tag>)
    requires Grows(a, b) && TagsBacked(tags, a, legacy)
    ensures TagsBacked(tags, b, legacy)
  {
    forall t | t in tags && t.Preview? && t !in legacy ensures TagHasRelease(b, t) {
      GrowthKeepsTag(a, b, t);
    }
  }

  lemma GrowthKeepsPreceded(a: Repo, b: Repo, legacy: set<Tag>, i: Identity)
    requires Grows(a, b) && Preceded(a, legacy, i)
    ensures Preceded(b, legacy, i)
  {
    if i.tag.Preview? {
      forall m: nat | 1 <= m < i.tag.number
        ensures InLegacy(legacy, i.tag.base, i.tag.phase, m) || TagPublished(b, Preview(i.tag.base, i.tag.phase, m))
      {
        GrowthKeepsTag(a, b, Preview(i.tag.base, i.tag.phase, m));
      }
    }
  }

  /** Nothing is published by the change. */
  ghost predicate PublishesNothing(a: Repo, b: Repo) {
    forall id :: id in b.releases && !b.releases[id].draft ==> id in a.releases && a.releases[id] == b.releases[id]
  }

  lemma UnpublishedKeepsSuffixes(s: State, s': State, legacy: set<Tag>)
    requires SuffixesOk(s, legacy) && NoDuplicate(s.repo) && s'.identities == s.identities
    requires Grows(s.repo, s'.repo) && PublishesNothing(s.repo, s'.repo)
    ensures SuffixesOk(s', legacy) && NoDuplicate(s'.repo)
  {
    forall i | i in s'.identities
      ensures IdentityOk(i) && Preceded(s'.repo, legacy, i) && FirstOfSnapshot(s'.repo, i)
    {
      GrowthKeepsPreceded(s.repo, s'.repo, legacy, i);
      assert forall id, phase, snapshot ::
        Carries(s'.repo, id, phase, snapshot) ==> Carries(s.repo, id, phase, snapshot);
    }
    forall a, b, phase, snapshot | Carries(s'.repo, a, phase, snapshot) && Carries(s'.repo, b, phase, snapshot)
      ensures a == b
    {
      assert Carries(s.repo, a, phase, snapshot) && Carries(s.repo, b, phase, snapshot);
    }
  }

  lemma UnpublishedKeepsLatest(a: Repo, b: Repo)
    requires LatestIsGreatest(a) && a.latest == b.latest
    requires Grows(a, b) && PublishesNothing(a, b)
    ensures LatestIsGreatest(b)
  {
    if a.latest.Some? {
      var id :| id in a.releases && IsStable(a.releases[id], a.latest.value);
      assert id in b.releases && IsStable(b.releases[id], a.latest.value);
    }
  }

  lemma GrowthKeepsReads(s: State, s': State, legacy: set<Tag>)
    requires TagsOk(s, legacy) && Grows(s.repo, s'.repo)
    requires TagsBacked(s'.repo.tags.Keys, s'.repo, legacy)
    requires s'.tagReads == s.tagReads
    ensures TagsOk(s', legacy)
  {
    forall tags | tags in s'.tagReads ensures TagsBacked(tags, s'.repo, legacy) {
      GrowthKeepsBacked(s.repo, s'.repo, tags, legacy);
    }
  }

  // ---------------------------------------------------------- job frames

  /** The two repositories agree on everything named after one release line. */
  ghost predicate SameOnLine(a: Repo, b: Repo, line: nat) {
    && (forall id :: id in a.releases && LineOf(a.releases[id].tag) == line ==>
          id in b.releases && b.releases[id] == a.releases[id])
    && (forall id :: id in b.releases && LineOf(b.releases[id].tag) == line ==>
          id in a.releases && a.releases[id] == b.releases[id])
    && (forall t :: LineOf(t) == line ==> (t in a.tags <==> t in b.tags))
    && (forall t :: LineOf(t) == line && t in a.tags && t in b.tags ==> a.tags[t] == b.tags[t])
  }

  function JobIdentity(job: Job): Identity {
    match job
    case Checked(r, _) => r.identity
    case Tagged(r, _) => r.identity
    case _ => job.identity
  }

  lemma JobFrame(s: State, s': State, line: nat, job: Job)
    requires JobOk(s, line, job) && LineOf(JobIdentity(job).tag) == line
    requires s.identities <= s'.identities
    requires forall pr :: pr in s.merges ==> pr in s'.merges && s'.merges[pr] == s.merges[pr]
    requires SameOnLine(s.repo, s'.repo, line)
    ensures JobOk(s', line, job)
  {
  }

  /** Jobs of the other lines survive a change made on one line. */
  lemma OtherJobs(s: State, s': State, legacy: set<Tag>, line: nat)
    requires JobsOk(s) && SuffixesOk(s, legacy)
    requires s.identities <= s'.identities && s'.merges == s.merges
    requires forall r :: r in s'.records ==> r.identity in s.identities
    requires forall other :: other != line ==> SameOnLine(s.repo, s'.repo, other)
    requires forall other :: other in s'.jobs && other != line ==> other in s.jobs && s'.jobs[other] == s.jobs[other]
    requires line in s'.jobs ==> JobOk(s', line, s'.jobs[line])
    ensures JobsOk(s')
  {
    forall other | other in s'.jobs ensures JobOk(s', other, s'.jobs[other]) {
      if other != line {
        assert IdentityOk(JobIdentity(s.jobs[other]));
        JobFrame(s, s', other, s.jobs[other]);
      }
    }
  }

  /** A step that only takes, changes or drops a job. */
  lemma SameRepoKeepsInv(s: State, s': State, legacy: set<Tag>)
    requires Inv(s, legacy) && Keeps(OfJobs, s', legacy)
    requires s'.repo == s.repo && s'.identities == s.identities && s'.merges == s.merges && s'.tagReads == s.tagReads
    ensures Inv(s', legacy)
  {
    forall aspect ensures Keeps(aspect, s', legacy) {
      assert Keeps(aspect, s, legacy);
    }
  }

  // ----------------------------------------------------- writing a draft

  /** A fresh draft of an unused tag, or a rewrite of the draft of that tag. */
  ghost predicate WritesDraft(s: State, id: nat, d: Release) {
    && d.draft
    && d.body.Some?
    && ReleaseOk(id, d, s.identities)
    && (DraftOf(s.repo, id, d.tag) || (id !in s.repo.releases && !TagHasRelease(s.repo, d.tag)))
  }

  lemma DraftKeepsReleases(s: State, s': State, id: nat, d: Release)
    requires ReleasesOk(s) && WritesDraft(s, id, d)
    requires s'.repo == s.repo.(releases := s.repo.releases[id := d]) && s'.identities == s.identities
    ensures ReleasesOk(s')
    ensures Grows(s.repo, s'.repo) && PublishesNothing(s.repo, s'.repo)
  {
    forall other | other in s.repo.releases && other != id ensures s.repo.releases[other].tag != d.tag {
      assert HasTag(s.repo, other, s.repo.releases[other].tag);
    }
  }

  lemma DraftKeepsTags(s: State, s': State, legacy: set<Tag>)
    requires TagsOk(s, legacy) && Grows(s.repo, s'.repo)
    requires s'.repo.tags == s.repo.tags && s'.tagReads == s.tagReads
    ensures TagsOk(s', legacy)
  {
    GrowthKeepsBacked(s.repo, s'.repo, s.repo.tags.Keys, legacy);
    GrowthKeepsReads(s, s', legacy);
  }

  /** What a run that writes a draft leaves alone. */
  ghost predicate OnlyDraft(s: State, s': State, line: nat, id: nat, d: Release) {
    && WritesDraft(s, id, d) && LineOf(d.tag) == line
    && s'.repo == s.repo.(releases := s.repo.releases[id := d])
    && s'.identities == s.identities && s'.merges == s.merges && s'.tagReads == s.tagReads && s'.records == s.records
    && (forall other :: other in s'.jobs && other != line ==> other in s.jobs && s'.jobs[other] == s.jobs[other])
  }

  lemma DraftKeepsShape(s: State, s': State, legacy: set<Tag>, line: nat, id: nat, d: Release)
    requires Inv(s, legacy) && OnlyDraft(s, s', line, id, d)
    ensures forall aspect :: IsShape(aspect) ==> Keeps(aspect, s', legacy)
  {
    assert Keeps(OfLegacy, s, legacy) && Keeps(OfReleases, s, legacy) && Keeps(OfTags, s, legacy);
    assert Keeps(OfPublished, s, legacy);
    DraftKeepsReleases(s, s', id, d);
    DraftKeepsTags(s, s', legacy);
  }

  lemma DraftKeepsHistory(s: State, s': State, legacy: set<Tag>, line: nat, id: nat, d: Release)
    requires Inv(s, legacy) && OnlyDraft(s, s', line, id, d)
    ensures forall aspect :: IsHistory(aspect) ==> Keeps(aspect, s', legacy)
  {
    assert Keeps(OfReleases, s, legacy) && Keeps(OfSuffixes, s, legacy);
    assert Keeps(OfDuplicates, s, legacy) && Keeps(OfLatest, s, legacy);
    DraftKeepsReleases(s, s', id, d);
    UnpublishedKeepsSuffixes(s, s', legacy);
    UnpublishedKeepsLatest(s.repo, s'.repo);
  }

  lemma DraftKeepsJobs(s: State, s': State, legacy: set<Tag>, line: nat, id: nat, d: Release)
    requires Inv(s, legacy) && OnlyDraft(s, s', line, id, d)
    requires line in s'.jobs ==> JobOk(s', line, s'.jobs[line])
    ensures Keeps(OfJobs, s', legacy)
  {
    assert Keeps(OfReleases, s, legacy) && Keeps(OfSuffixes, s, legacy) && Keeps(OfJobs, s, legacy);
    OtherJobs(s, s', legacy, line);
  }

  lemma DraftKeepsInv(s: State, s': State, legacy: set<Tag>, line: nat, id: nat, d: Release)
    requires Inv(s, legacy) && OnlyDraft(s, s', line, id, d)
    requires line in s'.jobs ==> JobOk(s', line, s'.jobs[line])
    requires DraftsTagged(s')
    ensures Inv(s', legacy)
  {
    DraftKeepsShape(s, s', legacy, line, id, d);
    DraftKeepsHistory(s, s', legacy, line, id, d);
    DraftKeepsJobs(s, s', legacy, line, id, d);
    assert Keeps(OfDrafts, s', legacy);
  }

  // ------------------------------------------------------- moving a tag

  /** Only the tag of a draft is created or dropped. */
  ghost predicate MovesDraftTag(s: State, s': State, id: nat, t: Tag) {
    && DraftOf(s.repo, id, t)
    && s'.repo.releases == s.repo.releases && s'.repo.latest == s.repo.latest
    && s'.repo.tags.Keys - {t} == s.repo.tags.Keys - {t}
    && (forall u :: u in s.repo.tags && u in s'.repo.tags && u != t ==> s'.repo.tags[u] == s.repo.tags[u])
  }

  lemma MovedTagKeepsTags(s: State, s': State, legacy: set<Tag>, id: nat, t: Tag)
    requires TagsOk(s, legacy) && MovesDraftTag(s, s', id, t) && t !in legacy && s'.tagReads == s.tagReads
    ensures TagsOk(s', legacy)
  {
    assert HasTag(s'.repo, id, t);
    assert forall u :: u != t ==> (u in s'.repo.tags.Keys - {t} <==> u in s'.repo.tags);
    assert forall u :: u != t ==> (u in s.repo.tags.Keys - {t} <==> u in s.repo.tags);
    forall u | u in s'.repo.tags && u.Preview? && u !in legacy ensures TagHasRelease(s'.repo, u) {
      if u != t {
        GrowthKeepsTag(s.repo, s'.repo, u);
      }
    }
    GrowthKeepsReads(s, s', legacy);
  }

  lemma MovedTagKeepsPublished(s: State, s': State, id: nat, t: Tag)
    requires ReleasesOk(s) && PublishedTagged(s) && MovesDraftTag(s, s', id, t) && s'.merges == s.merges
    ensures PublishedTagged(s')
  {
    assert forall u :: u != t ==> (u in s'.repo.tags.Keys - {t} <==> u in s'.repo.tags);
    assert forall u :: u != t ==> (u in s.repo.tags.Keys - {t} <==> u in s.repo.tags);
    forall other | other in s'.repo.releases && !s'.repo.releases[other].draft
      ensures s'.repo.releases[other].tag != t
    {
    }
  }

  /** What a run that moves the tag of a draft leaves alone. */
  ghost predicate OnlyTag(s: State, s': State, line: nat, id: nat, t: Tag) {
    && MovesDraftTag(s, s', id, t) && LineOf(t) == line
    && s'.identities == s.identities && s'.merges == s.merges && s'.tagReads == s.tagReads && s'.records == s.records
    && (forall other :: other in s'.jobs && other != line ==> other in s.jobs && s'.jobs[other] == s.jobs[other])
  }

  lemma MovedTagKeepsShape(s: State, s': State, legacy: set<Tag>, line: nat, id: nat, t: Tag)
    requires Inv(s, legacy) && OnlyTag(s, s', line, id, t) && t !in legacy
    ensures forall aspect :: IsShape(aspect) ==> Keeps(aspect, s', legacy)
  {
    assert Keeps(OfLegacy, s, legacy) && Keeps(OfReleases, s, legacy) && Keeps(OfTags, s, legacy);
    assert Keeps(OfPublished, s, legacy);
    MovedTagKeepsTags(s, s', legacy, id, t);
    MovedTagKeepsPublished(s, s', id, t);
  }

  lemma MovedTagKeepsHistory(s: State, s': State, legacy: set<Tag>, line: nat, id: nat, t: Tag)
    requires Inv(s, legacy) && OnlyTag(s, s', line, id, t)
    ensures forall aspect :: IsHistory(aspect) ==> Keeps(aspect, s', legacy)
  {
    assert Keeps(OfSuffixes, s, legacy) && Keeps(OfDuplicates, s, legacy) && Keeps(OfLatest, s, legacy);
    UnpublishedKeepsSuffixes(s, s', legacy);
    UnpublishedKeepsLatest(s.repo, s'.repo);
  }

  lemma MovedTagKeepsJobs(s: State, s': State, legacy: set<Tag>, line: nat, id: nat, t: Tag)
    requires Inv(s, legacy) && OnlyTag(s, s', line, id, t)
    requires line in s'.jobs ==> JobOk(s', line, s'.jobs[line])
    ensures Keeps(OfJobs, s', legacy)
  {
    assert Keeps(OfReleases, s, legacy) && Keeps(OfSuffixes, s, legacy) && Keeps(OfJobs, s, legacy);
    assert forall u :: u != t ==> (u in s'.repo.tags.Keys - {t} <==> u in s'.repo.tags);
    assert forall u :: u != t ==> (u in s.repo.tags.Keys - {t} <==> u in s.repo.tags);
    OtherJobs(s, s', legacy, line);
  }

  lemma MovedTagKeepsInv(s: State, s': State, legacy: set<Tag>, line: nat, id: nat, t: Tag)
    requires Inv(s, legacy) && OnlyTag(s, s', line, id, t) && t !in legacy
    requires line in s'.jobs ==> JobOk(s', line, s'.jobs[line])
    requires DraftsTagged(s')
    ensures Inv(s', legacy)
  {
    MovedTagKeepsShape(s, s', legacy, line, id, t);
    MovedTagKeepsHistory(s, s', legacy, line, id, t);
    MovedTagKeepsJobs(s, s', legacy, line, id, t);
    assert Keeps(OfDrafts, s', legacy);
  }

  // ---------------------------------------------------------- publishing

  /** A draft is published with the record of its body. */
  ghost predicate Publishes(s: State, s': State, r: Record) {
    && r.identity in s.identities
    && DraftOf(s.repo, r.draftId, r.identity.tag)
    && s.repo.releases[r.draftId].body == Some(r.identity)
    && s.repo.releases[r.draftId].assets == Some(r.upload)
    && (r.identity.phase.Some? ==> s.repo.releases[r.draftId].record == Some(r))
    && r.identity.tag in s.repo.tags
    && IsTarget(s.merges, r.identity, s.repo.tags[r.identity.tag])
    && s'.repo == PublishRelease(s.repo, r, r.identity.tag.Plain? && IsGreatestStable(s.repo, r.identity.tag.base))
    && s'.identities == s.identities && s'.merges == s.merges && s'.tagReads == s.tagReads && s'.records == s.records
  }

  lemma PublishingKeepsReleases(s: State, s': State, r: Record)
    requires ReleasesOk(s) && PublishedTagged(s) && Publishes(s, s', r)
    ensures ReleasesOk(s') && PublishedTagged(s') && Grows(s.repo, s'.repo)
  {
  }

  /** What the newly published release carries, and that nothing else is new. */
  lemma PublishingCarries(s: State, s': State, r: Record, id: nat, phase: Phase, snapshot: Snapshot)
    requires ReleasesOk(s) && Publishes(s, s', r) && IdentityOk(r.identity)
    ensures Carries(s'.repo, id, phase, snapshot) <==>
      || Carries(s.repo, id, phase, snapshot)
      || (id == r.draftId && r.identity.phase == Some(phase) && r.identity.snapshot == snapshot)
  {
  }

  lemma DraftTagIsUnpublished(s: State, id: nat, t: Tag)
    requires UniqueTags(s.repo) && DraftOf(s.repo, id, t)
    ensures !TagPublished(s.repo, t)
  {
    forall other ensures !IsPublished(s.repo, other, t) {
    }
  }

  /** A suffix below the one of a sent identity is either older than the pipeline or
      published, so no draft holds it. */
  lemma NoDraftBelow(s: State, legacy: set<Tag>, r: Record, i: Identity)
    requires ReleasesOk(s) && SuffixesOk(s, legacy)
    requires r.identity in s.identities && DraftOf(s.repo, r.draftId, r.identity.tag)
    requires i in s.identities && i.tag.Preview? && r.identity.tag.Preview?
    requires i.tag.phase == r.identity.tag.phase && i.snapshot == r.identity.snapshot
    ensures r.identity.tag.number >= i.tag.number
  {
    assert IdentityOk(i) && IdentityOk(r.identity);
    assert Preceded(s.repo, legacy, r.identity) && Preceded(s.repo, legacy, i);
    assert r.identity.tag == Preview(i.tag.base, i.tag.phase, r.identity.tag.number);
    DraftTagIsUnpublished(s, r.draftId, r.identity.tag);
  }

  lemma PublishingKeepsSuffixes(s: State, s': State, legacy: set<Tag>, r: Record)
    requires ReleasesOk(s) && SuffixesOk(s, legacy) && Publishes(s, s', r) && Grows(s.repo, s'.repo)
    ensures SuffixesOk(s', legacy)
  {
    assert IdentityOk(r.identity);
    forall i | i in s'.identities
      ensures IdentityOk(i) && Preceded(s'.repo, legacy, i) && FirstOfSnapshot(s'.repo, i)
    {
      GrowthKeepsPreceded(s.repo, s'.repo, legacy, i);
      if i.tag.Preview? {
        forall id | Carries(s'.repo, id, i.tag.phase, i.snapshot)
          ensures !(s'.repo.releases[id].tag.Preview? && s'.repo.releases[id].tag.number < i.tag.number)
        {
          PublishingCarries(s, s', r, id, i.tag.phase, i.snapshot);
          if !Carries(s.repo, id, i.tag.phase, i.snapshot) {
            NoDraftBelow(s, legacy, r, i);
          }
        }
      }
    }
  }

  /** A snapshot that is already published in this phase leaves no publishable draft. */
  lemma PublishedSnapshotIsFinal(s: State, legacy: set<Tag>, r: Record, id: nat)
    requires ReleasesOk(s) && SuffixesOk(s, legacy) && r.identity in s.identities
    requires DraftOf(s.repo, r.draftId, r.identity.tag) && r.identity.phase.Some?
    ensures !Carries(s.repo, id, r.identity.phase.value, r.identity.snapshot)
  {
    assert id in s.repo.releases && !s.repo.releases[id].draft ==> s.repo.releases[id].tag != r.identity.tag;
    if Carries(s.repo, id, r.identity.phase.value, r.identity.snapshot) {
      var k := s.repo.releases[id].body.value;
      assert ReleaseOk(id, s.repo.releases[id], s.identities);
      assert IdentityOk(r.identity) && IdentityOk(k);
      assert FirstOfSnapshot(s.repo, r.identity);
      NoDraftBelow(s, legacy, r, k);
    }
  }

  lemma PublishingKeepsNoDuplicate(s: State, s': State, legacy: set<Tag>, r: Record)
    requires ReleasesOk(s) && SuffixesOk(s, legacy) && NoDuplicate(s.repo) && Publishes(s, s', r)
    ensures NoDuplicate(s'.repo)
  {
    assert IdentityOk(r.identity);
    forall a, b, phase, snapshot | Carries(s'.repo, a, phase, snapshot) && Carries(s'.repo, b, phase, snapshot)
      ensures a == b
    {
      PublishingCarries(s, s', r, a, phase, snapshot);
      PublishingCarries(s, s', r, b, phase, snapshot);
      if r.identity.phase == Some(phase) && r.identity.snapshot == snapshot {
        PublishedSnapshotIsFinal(s, legacy, r, a);
        PublishedSnapshotIsFinal(s, legacy, r, b);
      }
    }
  }

  lemma PublishingKeepsLatest(s: State, s': State, r: Record)
    requires ReleasesOk(s) && LatestIsGreatest(s.repo) && Publishes(s, s', r) && IdentityOk(r.identity)
    ensures LatestIsGreatest(s'.repo)
  {
    var repo, repo' := s.repo, s'.repo;
    if r.identity.phase.Some? {
      assert forall id, v :: id in repo'.releases && IsStable(repo'.releases[id], v) ==>
        id in repo.releases && IsStable(repo.releases[id], v);
      if repo.latest.Some? {
        var id :| id in repo.releases && IsStable(repo.releases[id], repo.latest.value);
        assert id in repo'.releases && IsStable(repo'.releases[id], repo.latest.value);
      }
    } else {
      var v := r.identity.tag.base;
      assert IsStable(repo'.releases[r.draftId], v);
      if !IsGreatestStable(repo, v) {
        var above :| above in repo.releases && !repo.releases[above].draft && !repo.releases[above].prerelease
          && repo.releases[above].tag.Plain? && Below(v, repo.releases[above].tag.base);
        assert IsStable(repo.releases[above], repo.releases[above].tag.base);
        var id :| id in repo.releases && IsStable(repo.releases[id], repo.latest.value);
        assert id in repo'.releases && IsStable(repo'.releases[id], repo.latest.value);
      }
    }
  }

  lemma PublishingKeepsShape(s: State, s': State, legacy: set<Tag>, r: Record)
    requires Inv(s, legacy) && Publishes(s, s', r)
    ensures forall aspect: Aspect :: IsShape(aspect) || aspect.OfDrafts? ==> Keeps(aspect, s', legacy)
  {
    assert Keeps(OfLegacy, s, legacy) && Keeps(OfReleases, s, legacy) && Keeps(OfTags, s, legacy);
    assert Keeps(OfPublished, s, legacy) && Keeps(OfDrafts, s, legacy);
    PublishingKeepsReleases(s, s', r);
    GrowthKeepsBacked(s.repo, s'.repo, s.repo.tags.Keys, legacy);
    GrowthKeepsReads(s, s', legacy);
  }

  lemma PublishingKeepsHistory(s: State, s': State, legacy: set<Tag>, r: Record)
    requires Inv(s, legacy) && Publishes(s, s', r)
    ensures forall aspect :: IsHistory(aspect) ==> Keeps(aspect, s', legacy)
  {
    assert Keeps(OfReleases, s, legacy) && Keeps(OfSuffixes, s, legacy) && Keeps(OfPublished, s, legacy);
    assert Keeps(OfDuplicates, s, legacy) && Keeps(OfLatest, s, legacy);
    assert IdentityOk(r.identity);
    PublishingKeepsReleases(s, s', r);
    PublishingKeepsSuffixes(s, s', legacy, r);
    PublishingKeepsNoDuplicate(s, s', legacy, r);
    PublishingKeepsLatest(s, s', r);
  }

  lemma PublishingIsLocal(s: State, s': State, r: Record, other: nat)
    requires ReleasesOk(s) && Publishes(s, s', r) && other != LineOf(r.identity.tag)
    ensures SameOnLine(s.repo, s'.repo, other)
  {
  }

  lemma PublishingKeepsJobs(s: State, s': State, legacy: set<Tag>, r: Record)
    requires Inv(s, legacy) && Publishes(s, s', r)
    requires s'.jobs == s.jobs - {r.identity.line}
    ensures Keeps(OfJobs, s', legacy)
  {
    assert Keeps(OfReleases, s, legacy) && Keeps(OfSuffixes, s, legacy) && Keeps(OfJobs, s, legacy);
    assert IdentityOk(r.identity) && LineOf(r.identity.tag) == r.identity.line;
    forall other | other != r.identity.line ensures SameOnLine(s.repo, s'.repo, other) {
      PublishingIsLocal(s, s', r, other);
    }
    OtherJobs(s, s', legacy, r.identity.line);
  }

  lemma PublishingKeepsInv(s: State, s': State, legacy: set<Tag>, r: Record)
    requires Inv(s, legacy) && Publishes(s, s', r)
    requires s'.jobs == s.jobs - {r.identity.line}
    ensures Inv(s', legacy)
  {
    PublishingKeepsShape(s, s', legacy, r);
    PublishingKeepsHistory(s, s', legacy, r);
    PublishingKeepsJobs(s, s', legacy, r);
  }
}
