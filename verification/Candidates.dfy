/** The values of the release pipeline and the decisions taken over them: which
    identity a live pull request resolves to, which draft a staging run may write,
    and whether a stable release becomes the latest one.

    Commits and snapshots stand for the hashes that name them. A snapshot covers
    Cargo.toml, so it determines the prepared stable version. A derived preview
    commit is a function of its source commit and version. */
module Candidates {
  import opened Wrappers
  import opened Tags

  datatype Sha = Commit(id: nat) | Derived(source: Sha, version: Tag)

  /** A snapshot stands for the text that its digest is taken of. */
  datatype Snapshot = Snapshot(prepared: Version, text: string)

  /** CandidateIdentity. The version is held as the tag that spells it. */
  datatype Identity = Identity(
    line: nat,
    pr: nat,
    baseSha: Sha,
    sourceSha: Sha,
    snapshot: Snapshot,
    phase: Option<Phase>,
    tag: Tag,
    buildSha: Sha)

  /** CandidateRecord. The ids of its assets are given out by one upload and never again, so
      the number of the upload stands for them. */
  datatype Record = Record(identity: Identity, draftId: nat, upload: nat)

  /** A GitHub release. `body` is the identity the staging run wrote, `record` the
      attached gel-candidate.json; releases older than the pipeline carry neither.
      `assets` is the upload whose assets are attached in full, if there is one. */
  datatype Release = Release(
    id: nat,
    tag: Tag,
    draft: bool,
    prerelease: bool,
    body: Option<Identity>,
    record: Option<Record>,
    assets: Option<nat>)

  datatype LivePr = LivePr(
    number: nat,
    line: nat,
    baseSha: Sha,
    headSha: Sha,
    snapshot: Snapshot,
    labels: set<Phase>,
    open: bool,
    authorized: bool)

  datatype Rejection =
    | NotOpen
    | ManyPhaseLabels
    | WrongPr
    | BaseMoved
    | WrongMajor
    | UnreadableRecord
    | AlreadyPublished
    | LineOrPrMismatch
    | BaseMismatch
    | NoIdentity
    | PrereleaseMismatch
    | DuplicateDraft
    | NotPreview
    | NotStable
    | RecordMismatch
    | LiveMismatch
    | Unauthorized
    | ReleaseMismatch
    | TagMoved
    | DraftUnverified

  /** The checks CandidateIdentity makes on itself. */
  predicate WellFormed(i: Identity) {
    match i.phase
    case None => i.tag.Plain? && i.tag.base.major == i.line && i.buildSha == i.sourceSha
    case Some(phase) =>
      && i.tag.Preview?
      && i.tag.phase == phase
      && i.tag.base.major == i.line
      && i.tag.number >= 1
  }

  // ---------------------------------------------------------------- labels

  /** phase_from_labels: the one active phase, or none; two phases are refused. */
  function ActivePhase(labels: set<Phase>): Result<Option<Phase>, Rejection> {
    if labels == {} then Success(None)
    else if labels == {Alpha} then Success(Some(Alpha))
    else if labels == {Beta} then Success(Some(Beta))
    else if labels == {Rc} then Success(Some(Rc))
    else Failure(ManyPhaseLabels)
  }

  lemma ActivePhaseIsTheOnlyLabel(labels: set<Phase>, phase: Phase)
    ensures ActivePhase(labels) == Success(Some(phase)) <==> labels == {phase}
    ensures ActivePhase(labels) == Success(None) <==> labels == {}
    ensures ActivePhase(labels).Failure? <==> exists p, q :: p in labels && q in labels && p != q
  {
    if labels != {} {
      var p :| p in labels;
      if labels != {p} {
        var q :| q in labels && q != p;
        assert p in labels && q in labels;
        assert forall one: Phase :: labels != {one} by {
          forall one: Phase ensures labels != {one} {
            assert p in {one} && q in {one} ==> p == q;
          }
        }
      }
    }
  }

  // ------------------------------------------------------- tag inventory

  /** _published_tag_inventory: tags still attached only to drafts do not count. */
  function PublishedTagInventory(tags: seq<Tag>, releases: seq<Release>): (inventory: seq<Tag>)
    ensures forall t :: t in inventory <==>
      && t in tags
      && ((forall r :: r in releases && r.draft ==> r.tag != t)
          || exists r :: r in releases && !r.draft && r.tag == t)
  {
    if tags == [] then []
    else
      var rest := PublishedTagInventory(tags[1..], releases);
      var drafts := set r | r in releases && r.draft :: r.tag;
      var published := set r | r in releases && !r.draft :: r.tag;
      if tags[0] !in drafts || tags[0] in published then [tags[0]] + rest else rest
  }

  /** What publishes at most once. */
  datatype PhaseSnapshot = PhaseSnapshot(phase: Phase, snapshot: Snapshot)

  /** published_snapshots: one entry per published preview that has a record. */
  function PublishedSnapshots(releases: seq<Release>): (result: Result<set<PhaseSnapshot>, Rejection>)
    ensures result.Success? ==> forall phase, snapshot ::
      PhaseSnapshot(phase, snapshot) in result.value <==>
      exists r :: r in releases && IsPublishedPreview(r, phase, snapshot)
    ensures result.Failure? ==> result.error == UnreadableRecord
    ensures result.Failure? <==>
      exists r :: r in releases && !r.draft && r.prerelease && r.record.Some? && r.record.value.identity.phase.None?
  {
    if releases == [] then Success({})
    else
      var last := releases[|releases| - 1];
      var before := PublishedSnapshots(releases[..|releases| - 1]);
      assert releases == releases[..|releases| - 1] + [last];
      if before.Failure? then before
      else if last.draft || !last.prerelease || last.record.None? then before
      else if last.record.value.identity.phase.None? then Failure(UnreadableRecord)
      else
        assert IsPublishedPreview(last, last.record.value.identity.phase.value, last.record.value.identity.snapshot);
        var published := last.record.value.identity;
        Success(before.value + {PhaseSnapshot(published.phase.value, published.snapshot)})
  }

  predicate IsPublishedPreview(r: Release, phase: Phase, snapshot: Snapshot) {
    && !r.draft
    && r.prerelease
    && r.record.Some?
    && r.record.value.identity.phase == Some(phase)
    && r.record.value.identity.snapshot == snapshot
  }

  /** The loop of published_snapshots. */
  method CollectPublishedSnapshots(releases: seq<Release>)
    returns (result: Result<set<PhaseSnapshot>, Rejection>)
    ensures result == PublishedSnapshots(releases)
  {
    var found: set<PhaseSnapshot> := {};
    for i := 0 to |releases|
      invariant PublishedSnapshots(releases[..i]) == Success(found)
    {
      var release := releases[i];
      assert releases[..i + 1][..i] == releases[..i] && releases[..i + 1][i] == release;
      if release.draft || !release.prerelease || release.record.None? {
        continue;
      }
      var record := release.record.value;
      if record.identity.phase.None? {
        assert release in releases;
        return Failure(UnreadableRecord);
      }
      found := found + {PhaseSnapshot(record.identity.phase.value, record.identity.snapshot)};
    }
    assert releases[..|releases|] == releases;
    return Success(found);
  }

  // ------------------------------------------------------- resolve_candidate

  /** The stable identity of a live pull request. */
  function PlainIdentity(live: LivePr): Identity {
    Identity(live.line, live.number, live.baseSha, live.headSha, live.snapshot,
             None, Plain(live.snapshot.prepared), live.headSha)
  }

  /** resolve_candidate. `requested` is the pull request the controller was asked
      about, `staged` whether the head already carries this exact stable record.
      The result has no derived build commit yet. */
  function ResolveCandidate(
      requested: LivePr, live: LivePr, tags: seq<Tag>, releases: seq<Release>,
      staged: bool): Result<Option<Identity>, Rejection>
  {
    if !live.open then Failure(NotOpen)
    else if ActivePhase(live.labels).Failure? then Failure(ManyPhaseLabels)
    else if live.number != requested.number || live.line != requested.line then Failure(WrongPr)
    else if live.baseSha != requested.baseSha then Failure(BaseMoved)
    else if live.line < 1 || live.snapshot.prepared.major != live.line then Failure(WrongMajor)
    else
      var published :- PublishedSnapshots(releases);
      var phase := ActivePhase(live.labels).value;
      var stable := live.snapshot.prepared;
      var plain := PlainIdentity(live);
      if phase.None? then
        if staged then Success(None)
        else if exists r :: r in releases && !r.draft && r.tag == plain.tag then Failure(AlreadyPublished)
        else Success(Some(plain))
      else if PhaseSnapshot(phase.value, live.snapshot) in published then Success(None)
      else
        var next := Highest(PublishedTagInventory(tags, releases), stable, phase.value) + 1;
        Success(Some(plain.(phase := phase, tag := Preview(stable, phase.value, next))))
  }

  /** A preview is built from a commit derived from its source and version. */
  function WithBuild(i: Identity): Identity {
    if i.phase.Some? then i.(buildSha := Derived(i.sourceSha, i.tag)) else i
  }

  /** The controller was asked about this pull request on this base. */
  predicate AsksFor(requested: LivePr, live: LivePr) {
    requested.number == live.number && requested.line == live.line && requested.baseSha == live.baseSha
  }

  /** What resolves at all: the open pull request the controller was asked about, on the
      same line and base, with at most one phase label and a version of its line, among
      releases with readable records, unless its version is published. It resolves to
      nothing when its head is staged or its snapshot is published in its phase. */
  lemma ResolvesExactly(requested: LivePr, live: LivePr, tags: seq<Tag>, releases: seq<Release>, staged: bool)
    ensures ResolveCandidate(requested, live, tags, releases, staged).Success? <==>
      && live.open
      && live.number == requested.number && live.line == requested.line && live.baseSha == requested.baseSha
      && (forall p, q :: p in live.labels && q in live.labels ==> p == q)
      && live.line >= 1 && live.snapshot.prepared.major == live.line
      && (forall r :: r in releases && !r.draft && r.prerelease && r.record.Some? ==>
            r.record.value.identity.phase.Some?)
      && (live.labels == {} && !staged ==>
            forall r :: r in releases && r.tag == Plain(live.snapshot.prepared) ==> r.draft)
    ensures ResolveCandidate(requested, live, tags, releases, staged) == Success(None) ==>
      if live.labels == {} then staged
      else exists phase, r :: phase in live.labels && r in releases && IsPublishedPreview(r, phase, live.snapshot)
  {
    ActivePhaseIsTheOnlyLabel(live.labels, Alpha);
    ActivePhaseIsTheOnlyLabel(live.labels, Beta);
    ActivePhaseIsTheOnlyLabel(live.labels, Rc);
    if phase :| phase in live.labels && ActivePhase(live.labels) == Success(Some(phase)) {
      var published := PublishedSnapshots(releases);
      assert published.Success? && PhaseSnapshot(phase, live.snapshot) in published.value ==>
        exists r :: r in releases && IsPublishedPreview(r, phase, live.snapshot);
    }
  }

  /** An identity that is resolved is that of the pull request asked for, at the live head
      and with the live snapshot. Its phase is the only label, it is not published, and its
      version is the prepared one or the preview of it with the next suffix. */
  lemma ResolvedIdentityIs(
      requested: LivePr, live: LivePr, tags: seq<Tag>, releases: seq<Release>, staged: bool, i: Identity)
    requires ResolveCandidate(requested, live, tags, releases, staged) == Success(Some(i))
    ensures i.pr == requested.number && i.line == requested.line && i.baseSha == requested.baseSha
    ensures i.sourceSha == live.headSha && i.snapshot == live.snapshot
    ensures live.labels == if i.phase.Some? then {i.phase.value} else {}
    ensures
      match i.phase
      case None => !staged && i.tag == Plain(live.snapshot.prepared) && WithBuild(i).buildSha == live.headSha
      case Some(phase) =>
        && (forall r :: r in releases ==> !IsPublishedPreview(r, phase, live.snapshot))
        && WithBuild(i).buildSha == Derived(live.headSha, i.tag)
        && i.tag.Preview? && i.tag.base == live.snapshot.prepared && i.tag.phase == phase
        && i.tag.number >= 1
        && IsHighest(PublishedTagInventory(tags, releases), i.tag.base, phase, i.tag.number - 1)
  {
  }

  // ----------------------------------------------------------- select_draft

  /** `staleBuild` is the build of the superseded draft, or none for a retry. */
  datatype DraftSelection = DraftSelection(id: nat, staleBuild: Option<Sha>)

  /** The checks select_draft makes on a release that carries the candidate tag. */
  function Admit(release: Release, expected: Identity): Result<DraftSelection, Rejection> {
    if !release.draft then Failure(AlreadyPublished)
    else if release.body.None? then Failure(NoIdentity)
    else
      var actual := release.body.value;
      if actual != expected && (actual.line != expected.line || actual.pr != expected.pr) then
        Failure(LineOrPrMismatch)
      else if actual != expected && actual.baseSha != expected.baseSha then Failure(BaseMismatch)
      else if release.prerelease != expected.phase.Some? then Failure(PrereleaseMismatch)
      else Success(DraftSelection(release.id, if actual == expected then None else Some(actual.buildSha)))
  }

  function SelectDraftFrom(
      releases: seq<Release>, expected: Identity,
      selected: Option<DraftSelection>): Result<Option<DraftSelection>, Rejection>
  {
    if releases == [] then Success(selected)
    else if releases[0].tag != expected.tag then SelectDraftFrom(releases[1..], expected, selected)
    else
      var admitted :- Admit(releases[0], expected);
      if selected.Some? then Failure(DuplicateDraft)
      else SelectDraftFrom(releases[1..], expected, Some(admitted))
  }

  /** The loop of select_draft over the listed releases. */
  method SelectDraft(releases: seq<Release>, expected: Identity)
    returns (result: Result<Option<DraftSelection>, Rejection>)
    ensures result == SelectDraftFrom(releases, expected, None)
  {
    var selected: Option<DraftSelection> := None;
    for i := 0 to |releases|
      invariant SelectDraftFrom(releases, expected, None) == SelectDraftFrom(releases[i..], expected, selected)
    {
      assert releases[i..][1..] == releases[i + 1..];
      var release := releases[i];
      if release.tag != expected.tag {
        continue;
      }
      var admitted := Admit(release, expected);
      if admitted.Failure? {
        return Failure(admitted.error);
      }
      if selected.Some? {
        return Failure(DuplicateDraft);
      }
      selected := Some(admitted.value);
    }
    return Success(selected);
  }

  /** The selection when a single release has the tag. */
  function Only(admitted: Result<DraftSelection, Rejection>): Result<Option<DraftSelection>, Rejection> {
    match admitted
    case Success(selection) => Success(Some(selection))
    case Failure(error) => Failure(error)
  }

  predicate OnlyMatch(releases: seq<Release>, tag: Tag, k: nat) {
    && k < |releases|
    && releases[k].tag == tag
    && forall j :: 0 <= j < |releases| && releases[j].tag == tag ==> j == k
  }

  lemma {:induction false} SelectsNothing(releases: seq<Release>, expected: Identity, selected: Option<DraftSelection>)
    requires forall j :: 0 <= j < |releases| ==> releases[j].tag != expected.tag
    ensures SelectDraftFrom(releases, expected, selected) == Success(selected)
  {
    if releases != [] {
      assert forall j :: 0 <= j < |releases| - 1 ==> releases[1..][j] == releases[j + 1];
      SelectsNothing(releases[1..], expected, selected);
    }
  }

  /** Another release with the tag is refused. */
  lemma {:induction false} SelectsOnce(
      releases: seq<Release>, expected: Identity, selected: Option<DraftSelection>, k: nat)
    requires k < |releases| && releases[k].tag == expected.tag && selected.Some?
    ensures SelectDraftFrom(releases, expected, selected).Failure?
  {
    if releases[0].tag != expected.tag {
      assert releases[1..][k - 1] == releases[k];
      SelectsOnce(releases[1..], expected, selected, k - 1);
    }
  }

  lemma {:induction false} SelectsTheOnly(releases: seq<Release>, expected: Identity, k: nat)
    requires OnlyMatch(releases, expected.tag, k)
    ensures SelectDraftFrom(releases, expected, None) == Only(Admit(releases[k], expected))
  {
    var rest := releases[1..];
    assert forall j :: 0 <= j < |rest| ==> rest[j] == releases[j + 1];
    if k > 0 {
      assert OnlyMatch(rest, expected.tag, k - 1);
      SelectsTheOnly(rest, expected, k - 1);
    } else if Admit(releases[0], expected).Success? {
      SelectsNothing(rest, expected, Some(Admit(releases[0], expected).value));
    }
  }

  lemma {:induction false} SelectsNoneOfTwo(releases: seq<Release>, expected: Identity, i: nat, j: nat)
    requires i < j < |releases| && releases[i].tag == releases[j].tag == expected.tag
    ensures SelectDraftFrom(releases, expected, None).Failure?
  {
    var rest := releases[1..];
    assert rest[j - 1] == releases[j];
    if releases[0].tag != expected.tag {
      assert rest[i - 1] == releases[i];
      SelectsNoneOfTwo(rest, expected, i - 1, j - 1);
    } else if Admit(releases[0], expected).Success? {
      SelectsOnce(rest, expected, Some(Admit(releases[0], expected).value), j - 1);
    }
  }

  /** What select_draft decides: no release carries the tag, or exactly one does and
      it is an admissible draft; every other inventory is refused. */
  lemma SelectDraftMeaning(releases: seq<Release>, expected: Identity)
    ensures SelectDraftFrom(releases, expected, None) == Success(None)
      <==> forall j :: 0 <= j < |releases| ==> releases[j].tag != expected.tag
    ensures forall s ::
      (SelectDraftFrom(releases, expected, None) == Success(Some(s)) <==>
       exists k: nat :: OnlyMatch(releases, expected.tag, k) && Admit(releases[k], expected) == Success(s))
  {
    if k: nat :| k < |releases| && releases[k].tag == expected.tag {
      if OnlyMatch(releases, expected.tag, k) {
        SelectsTheOnly(releases, expected, k);
      } else {
        var j: nat :| j < |releases| && releases[j].tag == expected.tag && j != k;
        SelectsNoneOfTwo(releases, expected, if j < k then j else k, if j < k then k else j);
      }
    } else {
      SelectsNothing(releases, expected, None);
    }
  }

  // ------------------------------------------------------- latest selection

  /** should_make_latest over the tags of the published stable releases. Tags that
      do not spell a plain version are ignored. */
  method ShouldMakeLatest(version: Version, published: seq<Tag>) returns (latest: bool)
    ensures latest <==> forall t :: t in published && t.Plain? ==> !Below(version, t.base)
  {
    var maximum := version;
    for i := 0 to |published|
      invariant !Below(maximum, version)
      invariant maximum == version || Plain(maximum) in published[..i]
      invariant forall t :: t in published[..i] && t.Plain? ==> !Below(maximum, t.base)
    {
      var value := published[i];
      assert published[..i + 1] == published[..i] + [value];
      if value.Plain? && Below(maximum, value.base) {
        maximum := value.base;
      }
    }
    assert published[..|published|] == published;
    latest := version == maximum;
    assert !latest ==> Below(version, maximum) && Plain(maximum) in published;
  }
}
