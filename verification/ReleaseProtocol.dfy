/** The release pipeline as a step system: controllers that resolve identities from
    reads taken at different times, staging runs and publication runs that hold the
    mutation lock of their line and may die between any two remote mutations, and an
    environment that moves and merges pull requests. */
module ReleaseProtocol {
  import opened Wrappers
  import opened Tags
  import opened Candidates
  import opened Publication
  import StableMerge

  /** What the run holding the lock of a line does next. */
  datatype Job =
    | Selected(identity: Identity, selection: Option<DraftSelection>) // select_draft answered
    | Untagged(identity: Identity, id: nat)                           // the stale tag is gone
    | Dirty(identity: Identity, id: nat)                              // the body is this identity, assets are old
    | Empty(identity: Identity, id: nat)                              // the draft carries no asset
    | Uploaded(identity: Identity, id: nat, upload: nat)              // assets and record are attached
    | Checked(record: Record, target: Sha)                            // publication guards passed
    | Tagged(record: Record, target: Sha)                             // the tag exists

  /** `tagReads` are the tag listings taken so far; `identities` and `records` the
      messages sent so far, each deliverable at any later time and any number of times.
      `history` holds all commits that are ever made: their names are hashes, so what they
      hold is fixed. `seen` are the states a pull request has been in, `uploads` counts the
      uploads made so far. */
  datatype State = State(
    repo: Repo,
    live: map<nat, LivePr>,
    merges: map<nat, Sha>,
    tagReads: set<set<Tag>>,
    identities: set<Identity>,
    records: set<Record>,
    jobs: map<nat, Job>,
    history: StableMerge.History,
    seen: set<LivePr>,
    uploads: nat)

  datatype Step =
    | MovePr(live: LivePr)
    | MergePr(number: nat, merge: Sha)
    | ReadTags
    | Resolve(requested: LivePr, view: LivePr, tags: seq<Tag>, listed: seq<Release>)
    | SelectStep(identity: Identity, listed: seq<Release>)
    | CreateDraft(line: nat, id: nat)
    | DropTag(line: nat)
    | Rewrite(line: nat)
    | Clear(line: nat)
    | Upload(line: nat)
    | Announce(line: nat)
    | CheckPreview(record: Record, view: LivePr)
    | CheckStable(record: Record, push: Sha)
    | TagStep(line: nat)
    | Flip(line: nat)
    | Die(line: nat)

  // ------------------------------------------------------------- the steps

  ghost predicate Lists(listed: seq<Release>, repo: Repo) {
    && (forall r :: r in listed ==> r.id in repo.releases && repo.releases[r.id] == r)
    && (forall id :: id in repo.releases ==> repo.releases[id] in listed)
    && (forall j, k :: 0 <= j < k < |listed| ==> listed[j].id != listed[k].id)
  }

  /** A draft without assets. While assets are deleted or uploaded one by one, too, none of
      the uploads is attached in full. */
  function Emptied(i: Identity, id: nat): Release {
    Release(id, i.tag, true, i.phase.Some?, Some(i), None, None)
  }

  /** A draft with a new body and its old record and assets. */
  function Retitled(i: Identity, id: nat, was: Release): Release {
    Emptied(i, id).(record := was.record, assets := was.assets)
  }

  /** A draft with the assets of one upload, and the record of a preview. */
  function Full(i: Identity, id: nat, upload: nat): Release {
    Emptied(i, id).(
      record := if i.phase.Some? then Some(Record(i, id, upload)) else None,
      assets := Some(upload))
  }

  /** The pull request enters a state. */
  function Enters(s: State, number: nat, live: LivePr): State {
    s.(live := s.live[number := live], seen := s.seen + {live})
  }

  /** Merging closes the pull request. */
  function Merged(s: State, number: nat, merge: Sha): State {
    var closed := if number in s.live then Enters(s, number, s.live[number].(open := false)) else s;
    closed.(merges := s.merges[number := merge])
  }

  function MergeOf(s: State, pr: nat): Option<Sha> {
    if pr in s.merges then Some(s.merges[pr]) else None
  }

  function WithRelease(s: State, id: nat, release: Release): State {
    s.(repo := s.repo.(releases := s.repo.releases[id := release]))
  }

  function WithJob(s: State, line: nat, job: Job): State {
    s.(jobs := s.jobs[line := job])
  }

  function WithoutJob(s: State, line: nat): State {
    s.(jobs := s.jobs - {line})
  }

  ghost predicate EnvironmentStep(s: State, step: Step, s': State) {
    match step
    case MovePr(live) => (live.open ==> live.number !in s.merges) && s' == Enters(s, live.number, live)
    case MergePr(number, merge) => number !in s.merges && s' == Merged(s, number, merge)
    case ReadTags => s' == s.(tagReads := s.tagReads + {s.repo.tags.Keys})
    case Die(line) => line in s.jobs && s' == WithoutJob(s, line)
    case _ => false
  }

  /** What the controller answers, with the staged head looked up in the history. */
  ghost function ResolvedBy(s: State, step: Step): Result<Option<Identity>, Rejection>
    requires step.Resolve?
  {
    ResolveCandidate(step.requested, step.view, step.tags, step.listed,
                     StableMerge.HeadIsStaged(s.history, step.view))
  }

  /** The controller: the pull request view may be arbitrarily old, and the tags were
      listed before the releases. A merged pull request is never opened again. */
  ghost predicate ResolveStep(s: State, step: Step, s': State) {
    && step.Resolve?
    && step.view in s.seen
    && (set t | t in step.tags) in s.tagReads
    && Lists(step.listed, s.repo)
    && var resolved := ResolvedBy(s, step);
    && resolved.Success?
    && resolved.value.Some?
    && s' == s.(identities := s.identities + {WithBuild(resolved.value.value)})
  }

  /** The staging run of one delivered identity. */
  ghost predicate StagingStep(s: State, step: Step, s': State) {
    match step
    case SelectStep(i, listed) =>
      && i in s.identities
      && i.line !in s.jobs
      && Lists(listed, s.repo)
      && SelectDraftFrom(listed, i, None).Success?
      && s' == WithJob(s, i.line, Selected(i, SelectDraftFrom(listed, i, None).value))
    case CreateDraft(line, id) =>
      && line in s.jobs && s.jobs[line].Selected? && s.jobs[line].selection.None?
      && id !in s.repo.releases
      && var i := s.jobs[line].identity;
      s' == WithJob(WithRelease(s, id, Emptied(i, id)), line, Empty(i, id))
    case DropTag(line) =>
      && line in s.jobs && s.jobs[line].Selected? && s.jobs[line].selection.Some?
      && s.jobs[line].selection.value.staleBuild.Some?
      && var i := s.jobs[line].identity;
      && (i.tag in s.repo.tags ==> s.repo.tags[i.tag] == s.jobs[line].selection.value.staleBuild.value)
      && var untagged := s.(repo := s.repo.(tags := s.repo.tags - {i.tag}));
      s' == WithJob(untagged, line, Untagged(i, s.jobs[line].selection.value.id))
    case Rewrite(line) =>
      && line in s.jobs && s.jobs[line].Untagged?
      && s.jobs[line].id in s.repo.releases
      && var i, id := s.jobs[line].identity, s.jobs[line].id;
      s' == WithJob(WithRelease(s, id, Retitled(i, id, s.repo.releases[id])), line, Dirty(i, id))
    case Clear(line) =>
      && line in s.jobs
      && var job := s.jobs[line];
      && (job.Dirty? || (job.Selected? && job.selection.Some? && job.selection.value.staleBuild.None?))
      && var i, id := job.identity, if job.Dirty? then job.id else job.selection.value.id;
      s' == WithJob(WithRelease(s, id, Emptied(i, id)), line, Empty(i, id))
    case Upload(line) =>
      && line in s.jobs && s.jobs[line].Empty?
      && var i, id := s.jobs[line].identity, s.jobs[line].id;
      s' == WithJob(WithRelease(s, id, Full(i, id, s.uploads)), line, Uploaded(i, id, s.uploads))
        .(uploads := s.uploads + 1)
    case Announce(line) =>
      && line in s.jobs && s.jobs[line].Uploaded?
      && var job := s.jobs[line];
      s' == WithoutJob(s, line).(records := s.records + {Record(job.identity, job.id, job.upload)})
    case _ => false
  }

  /** A publication run: its guards, the tag, the flip. The inventory read for the
      latest flag and the flip are one step. */
  ghost predicate PublicationStep(s: State, step: Step, s': State) {
    match step
    case CheckPreview(r, view) =>
      && r in s.records && view in s.seen
      && r.identity.line !in s.jobs
      && r.identity.pr in s.live
      && var plan := PlanPreview(s.repo, r.identity, r, view, s.live[r.identity.pr]);
      && plan.Mutate?
      && s' == WithJob(s, r.identity.line, Checked(r, plan.target))
    case CheckStable(r, push) =>
      && r in s.records
      && r.identity.line !in s.jobs
      && var accepted := StableMerge.RecordAccepted(s.history, r, push);
      && var plan := PlanStable(s.repo, r, push, MergeOf(s, r.identity.pr), accepted);
      && plan.Mutate?
      && s' == WithJob(s, r.identity.line, Checked(r, plan.target))
    case TagStep(line) =>
      && line in s.jobs && s.jobs[line].Checked?
      && var tagged := EnsureTag(s.repo, s.jobs[line].record.identity.tag, s.jobs[line].target);
      && tagged.Success?
      && s' == WithJob(s.(repo := tagged.value), line, Tagged(s.jobs[line].record, s.jobs[line].target))
    case Flip(line) =>
      && line in s.jobs && s.jobs[line].Tagged?
      && var r := s.jobs[line].record;
      && r.draftId in s.repo.releases
      && var latest := r.identity.tag.Plain? && IsGreatestStable(s.repo, r.identity.tag.base);
      s' == WithoutJob(s.(repo := PublishRelease(s.repo, r, latest)), line)
    case _ => false
  }

  ghost predicate Do(s: State, step: Step, s': State) {
    || EnvironmentStep(s, step, s')
    || ResolveStep(s, step, s')
    || StagingStep(s, step, s')
    || PublicationStep(s, step, s')
  }

  ghost predicate Next(s: State, s': State) {
    exists step :: Do(s, step, s')
  }

  // -------------------------------------------------------- initial states

  ghost predicate LatestIsGreatest(repo: Repo) {
    match repo.latest
    case None => forall id, v :: id in repo.releases ==> !IsStable(repo.releases[id], v)
    case Some(v) =>
      && IsGreatestStable(repo, v)
      && exists id :: id in repo.releases && IsStable(repo.releases[id], v)
  }

  /** Any repository in which no run has started: its releases predate the pipeline. */
  ghost predicate Init(s: State) {
    && (forall id :: id in s.repo.releases ==>
          var r := s.repo.releases[id];
          r.id == id && !r.draft && r.body.None? && r.record.None? && r.tag in s.repo.tags)
    && UniqueTags(s.repo)
    && LatestIsGreatest(s.repo)
    && s.tagReads == {} && s.identities == {} && s.records == {} && s.jobs == map[]
    && (forall pr :: pr in s.live ==> s.live[pr] in s.seen)
    && (forall id :: id in s.repo.releases && s.repo.releases[id].assets.Some? ==>
          s.repo.releases[id].assets.value < s.uploads)
  }

  /** A run of the system. */
  ghost predicate IsRun(run: seq<State>) {
    && |run| > 0
    && Init(run[0])
    && forall i: nat :: i + 1 < |run| ==> StepsAt(run, i)
  }

  ghost predicate StepsAt(run: seq<State>, i: nat)
    requires i + 1 < |run|
  {
    Next(run[i], run[i + 1])
  }

  // ----------------------------------------------------- repository shape

  ghost predicate UniqueTags(repo: Repo) {
    forall a, b :: a in repo.releases && b in repo.releases && repo.releases[a].tag == repo.releases[b].tag ==> a == b
  }

  predicate HasTag(repo: Repo, id: nat, t: Tag) {
    id in repo.releases && repo.releases[id].tag == t
  }

  predicate IsPublished(repo: Repo, id: nat, t: Tag) {
    HasTag(repo, id, t) && !repo.releases[id].draft
  }

  ghost predicate TagHasRelease(repo: Repo, t: Tag) {
    exists id :: HasTag(repo, id, t)
  }

  ghost predicate TagPublished(repo: Repo, t: Tag) {
    exists id :: IsPublished(repo, id, t)
  }

  /** A draft of this tag whose body is some sent identity. */
  predicate DraftOf(repo: Repo, id: nat, t: Tag) {
    HasTag(repo, id, t) && repo.releases[id].draft
  }

  /** Every release is filed under its id; its body is an identity that was sent, and a
      published preview carries the record of its own body. */
  predicate ReleaseOk(id: nat, r: Release, identities: set<Identity>) {
    && r.id == id
    && (r.draft ==> r.body.Some?)
    && (r.body.None? ==> r.record.None?)
    && (r.body.Some? ==>
          && r.body.value in identities
          && r.tag == r.body.value.tag
          && r.prerelease == r.body.value.phase.Some?)
    && (r.body.Some? && !r.draft && r.prerelease ==>
          r.assets.Some? && r.record == Some(Record(r.body.value, id, r.assets.value)))
  }

  ghost predicate ReleasesOk(s: State) {
    && UniqueTags(s.repo)
    && forall id :: id in s.repo.releases ==> ReleaseOk(id, s.repo.releases[id], s.identities)
  }

  predicate IdentityOk(i: Identity) {
    && WellFormed(i)
    && i.line >= 1
    && i.snapshot.prepared == i.tag.base
    && (i.phase.Some? ==> i.buildSha != i.sourceSha)
  }

  // --------------------------------------------------------- tag invariants

  /** The tags of previews older than the pipeline stay, and every other preview tag
      ever listed belongs to a release. */
  ghost predicate TagsBacked(tags: set<Tag>, repo: Repo, legacy: set<Tag>) {
    && (forall t :: t in legacy && t.Preview? ==> t in tags)
    && (forall t :: t in tags && t.Preview? && t !in legacy ==> TagHasRelease(repo, t))
  }

  /** Only releases older than the pipeline carry no identity. */
  ghost predicate LegacyOk(repo: Repo, legacy: set<Tag>) {
    && (forall t :: t in legacy ==> t.Preview?)
    && (forall id :: id in repo.releases && repo.releases[id].body.None? && repo.releases[id].tag.Preview? ==>
          repo.releases[id].tag in legacy)
  }

  ghost predicate TagsOk(s: State, legacy: set<Tag>) {
    && TagsBacked(s.repo.tags.Keys, s.repo, legacy)
    && forall tags :: tags in s.tagReads ==> TagsBacked(tags, s.repo, legacy)
  }

  /** The commit the tag of a published identity must name. */
  predicate IsTarget(merges: map<nat, Sha>, i: Identity, target: Sha) {
    if i.phase.Some? then target == i.buildSha else i.pr in merges && merges[i.pr] == target
  }

  ghost predicate PublishedTagged(s: State) {
    forall id :: id in s.repo.releases && !s.repo.releases[id].draft ==>
      var r := s.repo.releases[id];
      && r.tag in s.repo.tags
      && (r.body.Some? ==> IsTarget(s.merges, r.body.value, s.repo.tags[r.tag]))
  }

  /** The tag left by a preview publication that died names the build of its draft. */
  ghost predicate DraftsTagged(s: State) {
    forall id :: id in s.repo.releases && s.repo.releases[id].draft ==>
      var r := s.repo.releases[id];
      r.body.Some? && r.body.value.phase.Some? && r.tag in s.repo.tags ==> s.repo.tags[r.tag] == r.body.value.buildSha
  }

  // ------------------------------------------------------ suffix invariants

  ghost predicate InLegacy(legacy: set<Tag>, base: Version, phase: Phase, m: nat) {
    exists n: nat :: n >= m && Preview(base, phase, n) in legacy
  }

  /** The suffix of a sent preview identity is new, and every smaller suffix that is
      not older than the pipeline is published. */
  ghost predicate Preceded(repo: Repo, legacy: set<Tag>, i: Identity) {
    i.tag.Preview? ==>
      && !InLegacy(legacy, i.tag.base, i.tag.phase, i.tag.number)
      && forall m: nat :: 1 <= m < i.tag.number ==>
        InLegacy(legacy, i.tag.base, i.tag.phase, m) || TagPublished(repo, Preview(i.tag.base, i.tag.phase, m))
  }

  /** A published release whose record names this phase and snapshot. */
  predicate Carries(repo: Repo, id: nat, phase: Phase, snapshot: Snapshot) {
    id in repo.releases && IsPublishedPreview(repo.releases[id], phase, snapshot)
  }

  /** No release published under a smaller suffix carries the snapshot of a sent identity. */
  ghost predicate FirstOfSnapshot(repo: Repo, i: Identity) {
    i.tag.Preview? ==> forall id :: Carries(repo, id, i.tag.phase, i.snapshot) ==>
      !(repo.releases[id].tag.Preview? && repo.releases[id].tag.number < i.tag.number)
  }

  ghost predicate SuffixesOk(s: State, legacy: set<Tag>) {
    forall i :: i in s.identities ==>
      IdentityOk(i) && Preceded(s.repo, legacy, i) && FirstOfSnapshot(s.repo, i)
  }

  /** No two published previews carry the same phase and source snapshot. */
  ghost predicate NoDuplicate(repo: Repo) {
    forall a, b, phase, snapshot :: Carries(repo, a, phase, snapshot) && Carries(repo, b, phase, snapshot) ==> a == b
  }

  // --------------------------------------------------------- job invariants

  predicate JobOk(s: State, line: nat, job: Job) {
    match job
    case Selected(i, selection) =>
      && i in s.identities && i.line == line
      && (match selection
          case None => forall id :: id in s.repo.releases ==> s.repo.releases[id].tag != i.tag
          case Some(x) =>
            && DraftOf(s.repo, x.id, i.tag)
            && s.repo.releases[x.id].body.Some?
            && (x.staleBuild.None? ==> s.repo.releases[x.id].body == Some(i)))
    case Untagged(i, id) => i in s.identities && i.line == line && DraftOf(s.repo, id, i.tag) && i.tag !in s.repo.tags
    case Dirty(i, id) => WritableOk(s, line, i, id)
    case Empty(i, id) => WritableOk(s, line, i, id)
    case Uploaded(i, id, _) => WritableOk(s, line, i, id)
    case Checked(r, target) => PublishableOk(s, line, r, target)
    case Tagged(r, target) => PublishableOk(s, line, r, target) && r.identity.tag in s.repo.tags
  }

  predicate WritableOk(s: State, line: nat, i: Identity, id: nat) {
    i in s.identities && i.line == line && DraftOf(s.repo, id, i.tag) && s.repo.releases[id].body == Some(i)
  }

  predicate PublishableOk(s: State, line: nat, r: Record, target: Sha) {
    && r.identity in s.identities && r.identity.line == line
    && DraftOf(s.repo, r.draftId, r.identity.tag)
    && s.repo.releases[r.draftId].body == Some(r.identity)
    && s.repo.releases[r.draftId].assets == Some(r.upload)
    && (r.identity.phase.Some? ==> s.repo.releases[r.draftId].record == Some(r))
    && IsTarget(s.merges, r.identity, target)
    && (r.identity.tag in s.repo.tags ==> s.repo.tags[r.identity.tag] == target)
  }

  ghost predicate JobsOk(s: State) {
    && (forall line :: line in s.jobs ==> JobOk(s, line, s.jobs[line]))
    && (forall r :: r in s.records ==> r.identity in s.identities)
  }

  /** The aspects of the invariant. */
  datatype Aspect =
    | OfLegacy | OfReleases | OfTags | OfPublished | OfDrafts | OfSuffixes | OfDuplicates | OfJobs | OfLatest

  ghost predicate Keeps(aspect: Aspect, s: State, legacy: set<Tag>) {
    match aspect
    case OfLegacy => LegacyOk(s.repo, legacy)
    case OfReleases => ReleasesOk(s)
    case OfTags => TagsOk(s, legacy)
    case OfPublished => PublishedTagged(s)
    case OfDrafts => DraftsTagged(s)
    case OfSuffixes => SuffixesOk(s, legacy)
    case OfDuplicates => NoDuplicate(s.repo)
    case OfJobs => JobsOk(s)
    case OfLatest => LatestIsGreatest(s.repo)
  }

  /** The aspects of releases and tags, and those of what was published. */
  predicate IsShape(aspect: Aspect) {
    aspect.OfLegacy? || aspect.OfReleases? || aspect.OfTags? || aspect.OfPublished?
  }

  predicate IsHistory(aspect: Aspect) {
    aspect.OfSuffixes? || aspect.OfDuplicates? || aspect.OfLatest?
  }

  /** The invariant. A proof sees the aspects it names. */
  ghost predicate Inv(s: State, legacy: set<Tag>) {
    forall aspect :: Keeps(aspect, s, legacy)
  }

  /** All aspects at once. */
  ghost predicate AllAspects(s: State, legacy: set<Tag>) {
    && LegacyOk(s.repo, legacy)
    && ReleasesOk(s)
    && TagsOk(s, legacy)
    && PublishedTagged(s)
    && DraftsTagged(s)
    && SuffixesOk(s, legacy)
    && NoDuplicate(s.repo)
    && JobsOk(s)
    && LatestIsGreatest(s.repo)
  }

  lemma InvIsAllAspects(s: State, legacy: set<Tag>)
    ensures Inv(s, legacy) <==> AllAspects(s, legacy)
  {
    if Inv(s, legacy) {
      assert Keeps(OfLegacy, s, legacy) && Keeps(OfReleases, s, legacy) && Keeps(OfTags, s, legacy);
      assert Keeps(OfPublished, s, legacy) && Keeps(OfDrafts, s, legacy) && Keeps(OfSuffixes, s, legacy);
      assert Keeps(OfDuplicates, s, legacy) && Keeps(OfJobs, s, legacy) && Keeps(OfLatest, s, legacy);
    }
  }
}
