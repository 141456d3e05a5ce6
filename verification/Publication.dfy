/** Publication of a verified draft: the guards of publish_preview and
    publish_stable, and the two GitHub mutations they make, which are creating the
    immutable tag and flipping the draft. A run may die between the two. */
module Publication {
  import opened Wrappers
  import opened Tags
  import opened Candidates

  /** The remote state publication reads and changes. */
  datatype Repo = Repo(tags: map<Tag, Sha>, releases: map<nat, Release>, latest: Option<Version>)

  // ------------------------------------------------------------ mutations

  /** _ensure_tag: an existing tag must already point at the target. */
  function EnsureTag(repo: Repo, tag: Tag, target: Sha): Result<Repo, Rejection> {
    if tag !in repo.tags then Success(repo.(tags := repo.tags[tag := target]))
    else if repo.tags[tag] != target then Failure(TagMoved)
    else Success(repo)
  }

  /** _publish_release: one PATCH of the recorded draft. */
  function PublishRelease(repo: Repo, record: Record, makeLatest: bool): Repo
    requires record.draftId in repo.releases
  {
    var flipped := repo.releases[record.draftId].(
      tag := record.identity.tag, draft := false, prerelease := record.identity.phase.Some?);
    repo.(releases := repo.releases[record.draftId := flipped],
          latest := if makeLatest && record.identity.tag.Plain? then Some(record.identity.tag.base) else repo.latest)
  }

  /** A published stable release. */
  predicate IsStable(r: Release, v: Version) {
    !r.draft && !r.prerelease && r.tag == Plain(v)
  }

  /** should_make_latest over the releases the API lists. */
  predicate IsGreatestStable(repo: Repo, version: Version) {
    forall id :: id in repo.releases ==>
      var r := repo.releases[id];
      !r.draft && !r.prerelease && r.tag.Plain? ==> !Below(version, r.tag.base)
  }

  // --------------------------------------------------------------- guards

  /** assert_live_identity. */
  predicate LiveMatches(expected: Identity, live: LivePr) {
    && live.open
    && ActivePhase(live.labels) == Success(expected.phase)
    && live.number == expected.pr
    && live.line == expected.line
    && live.baseSha == expected.baseSha
    && live.headSha == expected.sourceSha
    && live.snapshot == expected.snapshot
    && !expected.tag.Foreign?
    && live.snapshot.prepared == expected.tag.base
  }

  /** _assert_release_shape: the payload is the recorded release for this identity, with
      the recorded assets. */
  predicate HasShape(release: Release, record: Record) {
    && release.id == record.draftId
    && release.tag == record.identity.tag
    && release.prerelease == record.identity.phase.Some?
    && release.body == Some(record.identity)
    && release.assets == Some(record.upload)
  }

  /** What a publication run decides before its first mutation. */
  datatype Plan = Refuse(reason: Rejection) | NothingToDo | Mutate(target: Sha)

  /** The guards of publish_preview, in their order. `refreshed` is the pull request
      read again after the draft bytes were verified. */
  function PlanPreview(repo: Repo, expected: Identity, record: Record, live: LivePr, refreshed: LivePr): Plan {
    if expected.phase.None? || expected.buildSha == expected.sourceSha then Refuse(NotPreview)
    else if record.identity != expected then Refuse(RecordMismatch)
    else if !LiveMatches(expected, live) then Refuse(LiveMismatch)
    else if !live.authorized then Refuse(Unauthorized)
    else if record.draftId !in repo.releases || !HasShape(repo.releases[record.draftId], record) then
      Refuse(ReleaseMismatch)
    else if expected.tag in repo.tags && repo.tags[expected.tag] != expected.buildSha then Refuse(TagMoved)
    else if !repo.releases[record.draftId].draft then NothingToDo
    else if repo.releases[record.draftId].record != Some(record) then Refuse(DraftUnverified)
    else if !LiveMatches(expected, refreshed) then Refuse(LiveMismatch)
    else if !refreshed.authorized then Refuse(Unauthorized)
    else Mutate(expected.buildSha)
  }

  /** The guards of publish_stable. `merge` is the merge commit of the candidate pull
      request, `pushAccepted` the outcome of the three checks on the pushed commit. A
      push that is not the candidate merge is a successful no-op. */
  function PlanStable(repo: Repo, record: Record, push: Sha, merge: Option<Sha>, pushAccepted: bool): Plan {
    if record.identity.phase.Some? then Refuse(NotStable)
    else if merge != Some(push) then NothingToDo
    else if !pushAccepted then Refuse(DraftUnverified)
    else if record.draftId !in repo.releases || !HasShape(repo.releases[record.draftId], record) then
      Refuse(ReleaseMismatch)
    else if record.identity.tag in repo.tags && repo.tags[record.identity.tag] != push then Refuse(TagMoved)
    else if !repo.releases[record.draftId].draft then NothingToDo
    else Mutate(push)
  }

  /** The state a run leaves when it dies after `mutations` of its two mutations. */
  function Execute(repo: Repo, record: Record, plan: Plan, mutations: nat): Repo {
    if !plan.Mutate? || mutations == 0 then repo
    else match EnsureTag(repo, record.identity.tag, plan.target)
      case Failure(_) => repo
      case Success(tagged) =>
        if mutations == 1 || record.draftId !in tagged.releases then tagged
        else PublishRelease(tagged, record,
                            record.identity.tag.Plain? && IsGreatestStable(tagged, record.identity.tag.base))
  }

  // ----------------------------------------------------- crash and retry

  /** Runs the same preview publication once per element, each dying after that many
      mutations. */
  function PreviewAttempts(
      repo: Repo, expected: Identity, record: Record, live: LivePr, refreshed: LivePr, deaths: seq<nat>): Repo
    decreases |deaths|
  {
    if deaths == [] then repo
    else
      PreviewAttempts(Execute(repo, record, PlanPreview(repo, expected, record, live, refreshed), deaths[0]),
                      expected, record, live, refreshed, deaths[1..])
  }

  function StableAttempts(
      repo: Repo, record: Record, push: Sha, merge: Option<Sha>, pushAccepted: bool, deaths: seq<nat>): Repo
    decreases |deaths|
  {
    if deaths == [] then repo
    else
      StableAttempts(Execute(repo, record, PlanStable(repo, record, push, merge, pushAccepted), deaths[0]),
                     record, push, merge, pushAccepted, deaths[1..])
  }

  /** However often a preview publication dies, a complete rerun reaches the state one
      uninterrupted run reaches, and a further rerun changes nothing. */
  lemma {:induction false} PreviewRetryConverges(
      repo: Repo, expected: Identity, record: Record, live: LivePr, refreshed: LivePr, deaths: seq<nat>)
    ensures
      var once := Execute(repo, record, PlanPreview(repo, expected, record, live, refreshed), 2);
      && PreviewAttempts(repo, expected, record, live, refreshed, deaths + [2]) == once
      && Execute(once, record, PlanPreview(once, expected, record, live, refreshed), 2) == once
    decreases |deaths|
  {
    if deaths != [] {
      var next := Execute(repo, record, PlanPreview(repo, expected, record, live, refreshed), deaths[0]);
      assert (deaths + [2])[1..] == deaths[1..] + [2];
      PreviewRetryConverges(next, expected, record, live, refreshed, deaths[1..]);
    } else {
      assert [2][1..] == [];
    }
  }

  lemma {:induction false} StableRetryConverges(
      repo: Repo, record: Record, push: Sha, merge: Option<Sha>, pushAccepted: bool, deaths: seq<nat>)
    ensures
      var once := Execute(repo, record, PlanStable(repo, record, push, merge, pushAccepted), 2);
      && StableAttempts(repo, record, push, merge, pushAccepted, deaths + [2]) == once
      && Execute(once, record, PlanStable(once, record, push, merge, pushAccepted), 2) == once
    decreases |deaths|
  {
    if deaths != [] {
      var next := Execute(repo, record, PlanStable(repo, record, push, merge, pushAccepted), deaths[0]);
      assert (deaths + [2])[1..] == deaths[1..] + [2];
      StableRetryConverges(next, record, push, merge, pushAccepted, deaths[1..]);
    } else {
      assert [2][1..] == [];
    }
  }

  // ------------------------------------------------------------ outcomes

  /** The recorded release is there, with the tag, body and assets that were recorded. */
  predicate CarriesRecord(releases: map<nat, Release>, record: Record) {
    && record.draftId in releases
    && var r := releases[record.draftId];
    r == Release(record.draftId, record.identity.tag, r.draft, record.identity.phase.Some?,
                 Some(record.identity), r.record, Some(record.upload))
  }

  /** The tag may be made at the target, or is there. */
  predicate TagFits(tags: map<Tag, Sha>, tag: Tag, target: Sha) {
    tag in tags ==> tags[tag] == target
  }

  /** The record is published at the target. */
  predicate IsOut(repo: Repo, record: Record, target: Sha) {
    && CarriesRecord(repo.releases, record)
    && !repo.releases[record.draftId].draft
    && record.identity.tag in repo.tags && repo.tags[record.identity.tag] == target
  }

  /** The record became published, and nothing else changed but the latest mark. */
  predicate PublishesOnly(before: Repo, after: Repo, record: Record, target: Sha) {
    && IsOut(after, record, target)
    && after.tags == before.tags[record.identity.tag := target]
    && record.draftId in before.releases
    && after.releases == before.releases[record.draftId := before.releases[record.draftId].(draft := false)]
  }

  /** A preview publication succeeds exactly for a derived build whose pull request is live
      and authorised and whose recorded release is there under a fitting tag; a draft also
      needs its attached record and a pull request that is still live. */
  lemma PreviewOutcome(
      repo: Repo, expected: Identity, record: Record, live: LivePr, refreshed: LivePr)
    requires WellFormed(expected)
    ensures
      var plan := PlanPreview(repo, expected, record, live, refreshed);
      && (!plan.Refuse? <==>
            && expected.phase.Some? && expected.buildSha != expected.sourceSha && record.identity == expected
            && LiveMatches(expected, live) && live.authorized
            && CarriesRecord(repo.releases, record) && TagFits(repo.tags, expected.tag, expected.buildSha)
            && (repo.releases[record.draftId].draft ==>
                  && repo.releases[record.draftId].record == Some(record)
                  && LiveMatches(expected, refreshed) && refreshed.authorized))
      && (plan.Mutate? ==>
            && PublishesOnly(repo, Execute(repo, record, plan, 2), record, expected.buildSha)
            && Execute(repo, record, plan, 2).latest == repo.latest)
  {
  }

  /** A stable publication succeeds exactly for a push that is not the merge of the
      candidate, and for an accepted merge whose recorded release is there under a fitting
      tag. */
  lemma StableOutcome(repo: Repo, record: Record, push: Sha, merge: Option<Sha>, pushAccepted: bool)
    requires WellFormed(record.identity)
    ensures
      var plan := PlanStable(repo, record, push, merge, pushAccepted);
      && (!plan.Refuse? <==>
            && record.identity.phase.None?
            && (merge == Some(push) ==>
                  && pushAccepted && CarriesRecord(repo.releases, record)
                  && TagFits(repo.tags, record.identity.tag, push)))
      && (plan.Mutate? <==> !plan.Refuse? && merge == Some(push) && repo.releases[record.draftId].draft)
      && (plan.Mutate? ==> PublishesOnly(repo, Execute(repo, record, plan, 2), record, push))
  {
  }

  /** A rerun after a successful publication succeeds and has nothing to do. */
  lemma PreviewRerunIsQuiet(repo: Repo, expected: Identity, record: Record, live: LivePr, refreshed: LivePr)
    requires WellFormed(expected) && PlanPreview(repo, expected, record, live, refreshed).Mutate?
    ensures
      var after := Execute(repo, record, PlanPreview(repo, expected, record, live, refreshed), 2);
      forall again :: PlanPreview(after, expected, record, live, again) == NothingToDo
  {
    PreviewOutcome(repo, expected, record, live, refreshed);
    var after := Execute(repo, record, PlanPreview(repo, expected, record, live, refreshed), 2);
    forall again ensures PlanPreview(after, expected, record, live, again) == NothingToDo {
      PreviewOutcome(after, expected, record, live, again);
    }
  }

  lemma StableRerunIsQuiet(repo: Repo, record: Record, push: Sha)
    requires WellFormed(record.identity) && PlanStable(repo, record, push, Some(push), true).Mutate?
    ensures
      var after := Execute(repo, record, PlanStable(repo, record, push, Some(push), true), 2);
      PlanStable(after, record, push, Some(push), true) == NothingToDo
  {
    StableOutcome(repo, record, push, Some(push), true);
    StableOutcome(Execute(repo, record, PlanStable(repo, record, push, Some(push), true), 2),
                  record, push, Some(push), true);
  }

  // ------------------------------------------------------ remote repository

  /** The GitHub repository that the publication functions mutate. */
  class GitHub {
    var tags: map<Tag, Sha>
    var releases: map<nat, Release>
    var latest: Option<Version>

    ghost function State(): Repo
      reads this
    {
      Repo(tags, releases, latest)
    }

    method CreateTag(tag: Tag, target: Sha) returns (done: Result<(), Rejection>)
      modifies this
      ensures done.Success? <==> EnsureTag(old(State()), tag, target).Success?
      ensures done.Success? ==> State() == EnsureTag(old(State()), tag, target).value
      ensures done.Success? <==> TagFits(old(tags), tag, target)
      ensures done.Success? ==> State() == old(State()).(tags := old(tags)[tag := target])
      ensures done.Failure? ==> State() == old(State()) && done.error == TagMoved
    {
      if tag in tags {
        if tags[tag] != target {
          return Failure(TagMoved);
        }
        return Success(());
      }
      tags := tags[tag := target];
      return Success(());
    }

    method FlipDraft(record: Record, makeLatest: bool)
      requires record.draftId in releases
      modifies this
      ensures State() == PublishRelease(old(State()), record, makeLatest)
    {
      var flipped := releases[record.draftId].(
        tag := record.identity.tag, draft := false, prerelease := record.identity.phase.Some?);
      releases := releases[record.draftId := flipped];
      if makeLatest && record.identity.tag.Plain? {
        latest := Some(record.identity.tag.base);
      }
    }

    /** _published_stable_versions: tags of the published, non-prerelease releases. */
    method PublishedStable() returns (stable: seq<Tag>)
      ensures forall t :: t in stable <==>
        exists id :: id in releases && !releases[id].draft && !releases[id].prerelease && releases[id].tag == t
    {
      stable := [];
      var left := releases.Keys;
      while left != {}
        invariant left <= releases.Keys
        invariant forall t :: t in stable <==>
          exists id ::
            id in releases.Keys - left && !releases[id].draft && !releases[id].prerelease && releases[id].tag == t
        decreases |left|
      {
        var id :| id in left;
        ghost var before := left;
        left := left - {id};
        assert releases.Keys - left == (releases.Keys - before) + {id};
        if !releases[id].draft && !releases[id].prerelease {
          stable := stable + [releases[id].tag];
        }
      }
    }

    /** publish_preview, run to its end. */
    method PublishPreview(expected: Identity, record: Record, live: LivePr, refreshed: LivePr)
      returns (published: Result<(), Rejection>)
      requires WellFormed(expected)
      modifies this
      ensures State() == Execute(old(State()), record, PlanPreview(old(State()), expected, record, live, refreshed), 2)
      ensures published.Failure? <==> PlanPreview(old(State()), expected, record, live, refreshed).Refuse?
      ensures published.Success? <==>
        && expected.phase.Some? && expected.buildSha != expected.sourceSha && record.identity == expected
        && LiveMatches(expected, live) && live.authorized
        && CarriesRecord(old(releases), record) && TagFits(old(tags), expected.tag, expected.buildSha)
        && (old(releases)[record.draftId].draft ==>
              && old(releases)[record.draftId].record == Some(record)
              && LiveMatches(expected, refreshed) && refreshed.authorized)
      ensures published.Failure? ==> State() == old(State())
      ensures published.Success? && old(releases)[record.draftId].draft ==>
        PublishesOnly(old(State()), State(), record, expected.buildSha) && latest == old(latest)
      ensures published.Success? && !old(releases)[record.draftId].draft ==> State() == old(State())
    {
      PreviewOutcome(State(), expected, record, live, refreshed);
      ghost var plan := PlanPreview(State(), expected, record, live, refreshed);
      if expected.phase.None? || expected.buildSha == expected.sourceSha {
        return Failure(NotPreview);
      }
      if record.identity != expected {
        return Failure(RecordMismatch);
      }
      if !LiveMatches(expected, live) {
        return Failure(LiveMismatch);
      }
      if !live.authorized {
        return Failure(Unauthorized);
      }
      if record.draftId !in releases || !HasShape(releases[record.draftId], record) {
        return Failure(ReleaseMismatch);
      }
      if expected.tag in tags && tags[expected.tag] != expected.buildSha {
        return Failure(TagMoved);
      }
      if !releases[record.draftId].draft {
        return Success(());
      }
      if releases[record.draftId].record != Some(record) {
        return Failure(DraftUnverified);
      }
      if !LiveMatches(expected, refreshed) {
        return Failure(LiveMismatch);
      }
      if !refreshed.authorized {
        return Failure(Unauthorized);
      }
      assert plan == Mutate(expected.buildSha);
      published := CreateTag(expected.tag, expected.buildSha);
      FlipDraft(record, false);
    }

    /** publish_stable, run to its end. */
    method PublishStable(record: Record, push: Sha, merge: Option<Sha>, pushAccepted: bool)
      returns (published: Result<(), Rejection>)
      requires WellFormed(record.identity)
      modifies this
      ensures State() == Execute(old(State()), record, PlanStable(old(State()), record, push, merge, pushAccepted), 2)
      ensures published.Failure? <==> PlanStable(old(State()), record, push, merge, pushAccepted).Refuse?
      ensures published.Success? <==>
        && record.identity.phase.None?
        && (merge == Some(push) ==>
              && pushAccepted && CarriesRecord(old(releases), record)
              && TagFits(old(tags), record.identity.tag, push))
      ensures published.Failure? || merge != Some(push) ==> State() == old(State())
      ensures published.Success? && merge == Some(push) && old(releases)[record.draftId].draft ==>
        && PublishesOnly(old(State()), State(), record, push)
        && latest ==
           if IsGreatestStable(old(State()), record.identity.tag.base) then Some(record.identity.tag.base)
           else old(latest)
      ensures published.Success? && merge == Some(push) && !old(releases)[record.draftId].draft ==>
        State() == old(State())
    {
      StableOutcome(State(), record, push, merge, pushAccepted);
      ghost var plan := PlanStable(State(), record, push, merge, pushAccepted);
      if record.identity.phase.Some? {
        return Failure(NotStable);
      }
      if merge != Some(push) {
        return Success(());
      }
      if !pushAccepted {
        return Failure(DraftUnverified);
      }
      if record.draftId !in releases || !HasShape(releases[record.draftId], record) {
        return Failure(ReleaseMismatch);
      }
      if record.identity.tag in tags && tags[record.identity.tag] != push {
        return Failure(TagMoved);
      }
      if !releases[record.draftId].draft {
        return Success(());
      }
      assert plan == Mutate(push);
      published := CreateTag(record.identity.tag, push);
      ghost var tagged := State();
      var stable := PublishedStable();
      var makeLatest := ShouldMakeLatest(record.identity.tag.base, stable);
      assert makeLatest == IsGreatestStable(tagged, record.identity.tag.base) by {
        assert forall id ::
          id in releases && !releases[id].draft && !releases[id].prerelease ==> releases[id].tag in stable;
      }
      FlipDraft(record, makeLatest);
    }
  }
}
