# Verified models of the release pipeline and of the command line's text and table machinery

This project models the parts of the repository in which several steps, several
processes or two independent computations have to agree, and proves what they
promise. `dafny verify dfyconfig.toml` checks all of it.

**The release protocol** (`Candidates`, `Publication`, `ReleaseProtocol`,
`ReleaseInvariants`, `ReleaseSafety`, `ReleaseRuns`, `ReleaseProvenance`,
`ReleaseProgress`, `ReleaseBlocking`, `ReleaseOwners`, `ReleaseLosses`,
`ReleaseStables`, `ReleaseWitnesses`). The controller, the staging workflow and
the two publication functions of `gel_release/github_release.py` are one step
system over tags, releases, commits, live pull requests, and messages that may
arrive late and more than once. Staging and publication take one GitHub
mutation per step and may die between any two. The theorems hold in every state
of every run: a phase and source snapshot is published at most once; published
suffixes are exactly 1..k; a published release, its tag and the commit the tag
names never change again; the latest release is the greatest stable one; a
published preview had a live and authorised pull request with exactly its
content; the tag of a published stable names a merge that carries the tested
source and the record. Unless a draft of another pull request or base holds the
next suffix, a live preview can always be carried to publication; while such a
draft stays, nothing of its base and phase is published. A merged stable can be
published as long as the assets it was merged with stay attached, and no longer.

**History and trees** (`Text`, `Trees`, `TreeAmbiguity`, `StableMerge`). The
text that the snapshot digest is taken of and the difference list of `compare`
decide the same relation; the three merge methods of GitHub all pass
publication, and whatever passes carries the tested tree; staging a stable
record is a fixed point.

**Versions** (`Tags`, `Versions`, `PackageOrder`, `RpmOrder`). The tag and
version grammar is the inverse of printing, and the Linux package versions keep
the precedence of Semantic Versioning 2.0.0 (section 11), for Debian under the
comparison of section 5.6.12 of the Debian Policy Manual and for RPM under its
`rpmvercmp`.

**Query analysis** (`TableWidths`, `WordWrap`, `TableLayout`, `Contexts`). The
width distribution of the table is exact and terminates; the height automaton
and the text automaton of a cell agree; printed lines show every cell in its
column and stay within the terminal; the numbering of query contexts is
consistent, dense and in reading order.

**Text machines** (`Backslash`, `Highlight`, `Completion`, `LineCollector`) and
**the signal event** (`Interrupt`, `InterruptFates`), the latter as an
interleaving of its atomic operations.

Eight expectations turn out to be false of the code. The code is modelled as it
is; each case has a concrete witness or an exact condition, or both:

- An empty word list has height 1 but writes no line: height and number of
  lines agree if and only if there is a word (`WordWrap.HeightIsLineCount`).
- Paths with newlines make `meaningful_tree` ambiguous. A tree shares its text
  with a different tree if and only if the text splits into the lines of two or
  more entries (`TreeAmbiguity.AmbiguousExactlyWhenSplit`, with the witness
  `TreeAmbiguity.SharedTextExample`).
- The boundary found by `full_statement` can move with the text that follows
  it: `'b;c'` ends at 3, but `'b;` and a line feed ends at 4
  (`Backslash.QuotedStartExample`). It is fixed if and only if the text before
  it does not begin with an open quote (`Backslash.BoundaryIsStableIff`).
- After a completed `Event::clear` the event can still hold a signal: if and
  only if a delivery exchanged it in between the two stores
  (`InterruptFates.ClearLeavesASignalExactly`). Signals can be lost to the
  waiting task: if and only if they were overwritten or cleared while waiting
  (`InterruptFates.SignalFate`; `Interrupt.RacingSignalIsMissed` is a run that
  does both).
- A plan node can be left without a number although all its locations are
  marked (`Contexts.NodeWithoutANumber`); `Contexts.Preprocess` says exactly
  when a node has a number.
- A push can pass as introducing the record although its first parent holds
  the same record already (`StableMerge.ModeOnlyPushExample`): if and only if
  it changes only the mode of that file (`StableMerge.ParentLacksRecordExactly`).
- `README.md:139-144` of the repository has a stale draft of the same tag,
  line and pull request replaced after the line moved. The code replaces it if
  and only if its base did not move and its tag is free or names the stale
  build (`ReleaseBlocking.StaleDraftIsReplacedExactly`; for previews the tag is
  never in the way, `ReleaseBlocking.StalePreviewIsReplacedExactly`). Both
  conditions can fail in reachable states: the base moves
  (`ReleaseWitnesses.MovedBaseIsRefused`), or a stable publication dies after
  creating the tag (`ReleaseWitnesses.DeadStableIsNotReplaced`). A draft of a
  moved base blocks its base and phase as long as its pull request is not open
  on the old base again (`ReleaseBlocking.ForeignDraftBlocksForGood`).
- `README.md:197-201` of the repository has a failed publication of a merged
  stable retried until it succeeds. A staging run that comes late, even one of the
  same identity, deletes the recorded assets, and the push is refused from then on
  (`ReleaseWitnesses.RestagedStableIsLost`). Unless the tag is older than the
  pipeline, some continuation publishes the merged stable if and only if the
  release still carries the assets of its record
  (`ReleaseStables.StableIsPublishableWhileAttached`). It does not matter whose
  identity is in the body of the draft: a run that took the draft over and died
  before it deleted the assets is undone by a run of the candidate that dies at the
  same place (`ReleaseWitnesses.InterruptedTakeOverIsUndone`). For any tag, one
  made by hand included, `ReleaseStables.StableIsPublishableExactly` gives the
  condition.

The documentation of `assert_merge_equivalent` speaks of four generated paths
(`gel_release/source_equivalence.py:115`); the allowlist holds one, and the model follows
the allowlist.

## Assumptions

- Hashes (Git object names, SHA-256, BLAKE2b) are injective. A source snapshot
  covers `Cargo.toml`, so it determines the prepared version. A derived preview
  commit is a function of its source and version and differs from its source.
- Staging and publication of one release line hold a mutation lock. The
  workflows use one lock for all lines (`.github/workflows/release-candidate.yml:395-397`,
  `.github/workflows/release-publish.yml:40-53`); the model
  only needs one for each line and interleaves the lines freely.
- In the initial repository the latest mark is on the greatest published stable
  release, or on none if there is none. No two initial releases share a tag.
- The inventory read for the latest flag and the release flip are one step.
- A staging run creates or selects the draft, removes the tag of a superseded one,
  rewrites its body, clears its assets, uploads and announces, one mutation a step
  (`.github/workflows/release-candidate.yml:464-600`). From the first deletion to the
  last upload no upload counts as attached.
- GitHub gives out an asset id once, so one number for each upload stands for the ids
  of its assets. A merged pull request is not opened again, and merging closes it.
- A controller lists tags before releases
  (`.github/workflows/release-controller.yml:220-231`), with any steps of others in between; its
  view of the pull request may be arbitrarily old, but is one the pull request has had.
- Releases that predate the pipeline are published, tagged and carry no record.
- The history holds all commits that are ever made during a run; a commit names only
  commits and records that were made before it.
- A waiting task is the only one polling an event; registering and waking its
  waker are single steps.
- In tables every character is one column wide, words are not empty, and the
  `f64` quotient of the width distribution is exact before it is truncated.

## Model

| member | source | states |
|---|---|---|
| Candidates.ActivePhaseIsTheOnlyLabel | gel_release/release_state.py:97-112 | a phase is active exactly when it is the only phase label; two different labels are refused |
| Candidates.PublishedTagInventory | gel_release/github_release.py:539-560 | a tag counts exactly when no draft carries it or some published release does |
| Tags.Highest | gel_release/preview.py:96-107 | the result is in use, or zero, and no suffix of this base and phase is greater |
| Candidates.PublishedSnapshots | gel_release/github_release.py:499-536 | holds exactly the pairs carried by published previews with a record; fails exactly when such a record has no phase |
| Candidates.CollectPublishedSnapshots | gel_release/github_release.py:513-536 | the loop computes that set |
| Candidates.SelectDraft | gel_release/github_release.py:389-427 | the loop over the listing computes the selection whose meaning the next row gives |
| Candidates.SelectDraftMeaning | gel_release/github_release.py:375-427 | nothing is selected exactly when no release has the tag; a draft is selected exactly when it is the only release with the tag and is admissible |
| Candidates.ResolvesExactly | gel_release/github_release.py:629-674 | a controller's question is answered exactly for the open pull request it asked about, on the same line and base, with at most one phase label, a version of its line, readable records and an unpublished version |
| Candidates.ResolvedIdentityIs | gel_release/github_release.py:641-697 | a resolved identity has the pull request, line and base that were asked for, the live head and snapshot, the only label as its phase, and the prepared version or the preview after the highest published one |
| Candidates.ShouldMakeLatest | gel_release/github_release.py:1467-1482 | true exactly when no published plain version is greater |
| Publication.GitHub.CreateTag | gel_release/github_release.py:1065-1075 | succeeds exactly when the tag is free or names the target, and then the tag names it; nothing else changes |
| Publication.GitHub.FlipDraft | gel_release/github_release.py:1078-1096 | one release becomes published, the latest mark moves only when asked, nothing else changes |
| Publication.GitHub.PublishedStable | gel_release/github_release.py:1435-1455 | lists exactly the tags of published releases that are not prereleases |
| Publication.GitHub.PublishPreview | gel_release/github_release.py:1184-1249 | succeeds exactly for a live, authorised derived build whose recorded release is there under a fitting tag; then that release is published under that tag and nothing else changes; a failure and a rerun change nothing |
| Publication.GitHub.PublishStable | gel_release/github_release.py:1485-1541 | the same for an accepted merge, with the latest mark decided over the published inventory; a push that is not the merge of the candidate succeeds and changes nothing |
| Publication.PreviewRetryConverges | gel_release/github_release.py:1218-1244 | however often a run dies between the mutations, a rerun ends where one uninterrupted run ends, and another rerun changes nothing |
| Publication.StableRetryConverges | gel_release/github_release.py:1513-1536 | the same for stable publications |
| Publication.PreviewOutcome | gel_release/github_release.py:1204-1244 | the guards accept exactly such releases, field by field, and the mutations publish the release and change nothing else |
| Publication.StableOutcome | gel_release/github_release.py:1494-1536 | the same for stables |
| Publication.PreviewRerunIsQuiet | gel_release/github_release.py:1224-1233 | a rerun after a successful publication succeeds and has nothing to do |
| Publication.StableRerunIsQuiet | README.md:199-201 | the same for stables |
| ReleaseInvariants.PublishedSnapshotIsFinal | gel_release/github_release.py:499-536 | at the moment a draft is published no other release carries its phase and snapshot |
| ReleaseInvariants.NoDraftBelow | gel_release/github_release.py:539-560 | while a draft exists, no identity ever sent with its phase and snapshot has a greater suffix |
| ReleaseInvariants.PublishingKeepsInv | gel_release/github_release.py:1078-1096 | flipping a checked and tagged draft keeps all invariants |
| ReleaseInvariants.DraftKeepsInv | gel_release/github_release.py:353-372 | creating, rewriting, clearing and filling a draft keep all invariants |
| ReleaseInvariants.MovedTagKeepsInv | gel_release/github_release.py:1065-1075 | deleting or creating the tag of an unpublished draft keeps all invariants |
| ReleaseSafety.NextSuffixIsPreceded | gel_release/preview.py:72-109 | also from tags listed at an earlier time, every suffix below the selected one is published or older than the pipeline, and the selected one is new |
| ReleaseSafety.ResolvedIsFirst | gel_release/github_release.py:499-536 | no published release carries the phase and snapshot of an identity when it is resolved |
| ReleaseSafety.ResolveKeepsInv | gel_release/github_release.py:607-697 | emitting a resolved identity keeps all invariants, and what is emitted belongs to the pull request, line and base that were asked for |
| ReleaseSafety.SelectKeepsInv | gel_release/github_release.py:375-427 | what select_draft accepts is a draft that this run may write |
| ReleaseSafety.DropTagKeepsInv | gel_release/github_release.py:353-372 | removing the tag of a superseded draft never removes a published tag |
| ReleaseSafety.WritingKeepsInv | gel_release/github_release.py:375-387 | every other write of a staging run keeps all invariants |
| ReleaseSafety.CheckKeepsInv | gel_release/github_release.py:1206-1243 | guards that passed stay true while the lock is held |
| ReleaseSafety.FlipKeepsInv | gel_release/github_release.py:1243-1244 | so does publication |
| ReleaseSafety.NextKeepsInv | gel_release/github_release.py:375-427 | every step of the system keeps all invariants |
| ReleaseRuns.RunKeepsInv | gel_release/github_release.py:607-697 | all invariants hold in every state of every run |
| ReleaseRuns.NoDuplicatePublication | gel_release/github_release.py:499-512 | in every run no two published previews carry one phase and source snapshot |
| ReleaseRuns.PublishedSuffixesAreDense | README.md:113-117 | started without tags of a base and phase, the published suffixes are exactly 1..k |
| ReleaseRuns.OnlyTheNextSuffixIsPublishable | gel_release/preview.py:80-84 | any draft that exists at any time holds the suffix right after the published ones |
| ReleaseRuns.ResolvesToTheNextSuffix | gel_release/github_release.py:676-697 | with current reads of the pull request asked for, a published phase and snapshot resolves to nothing, any other to the suffix after the published ones |
| ReleaseRuns.ResolvesToThePreparedVersion | gel_release/github_release.py:641-674 | the unlabelled pull request asked for resolves to nothing when its head is staged in the history, is refused exactly when its version is published, and otherwise resolves to an identity the live check accepts |
| ReleaseRuns.StagedCandidateResolvesToNothing | gel_release/github_release.py:563-604 | with the record of the tested source committed on top of it the pull request keeps its snapshot and resolves to nothing |
| ReleaseRuns.ResolvedIdentityMatchesExactly | gel_release/github_release.py:160-211 | the live check accepts a resolved identity exactly as long as the pull request is open and its labels, line, base, head and snapshot stay |
| ReleaseRuns.NextKeepsPublished | README.md:197-201 | no step of any run touches a published release or its tag |
| ReleaseRuns.PublishedIsImmutable | gel_release/github_release.py:1065-1096 | from publication on a release, its tag and the tag's commit never change, and the commit is the derived build or the merge |
| ReleaseRuns.LatestIsMaximum | README.md:211-213 | started with a correct mark, in every state of every run the release marked latest is the greatest published stable version |
| ReleaseProvenance.PublicationsWereLive | gel_release/github_release.py:1206-1244 | in every run a publishing job and a published preview had a live, matching, authorised pull request at an earlier state |
| ReleaseProvenance.PublishedPreviewWasAuthorised | gel_release/github_release.py:1218-1244 | every published preview was open, authorised and labelled with exactly its phase at an earlier state, with the published source, base and snapshot |
| ReleaseProvenance.StablesWereAccepted | gel_release/github_release.py:1485-1536 | in every run every stable publishing job and the tag of every published stable have a target that passed the three checks on the pushed commit |
| ReleaseProvenance.PublishedStableIsTheTestedSource | README.md:197-209 | the tag of every published stable names the merge of its pull request, with the tested tree outside the record path, the exact record of the assets attached to the release, and the recorded base one or two first parents down |
| ReleaseProgress.SelectsExactlyWritable | gel_release/github_release.py:375-427 | in every reachable inventory a draft selection succeeds exactly when all releases with the tag are drafts of the same line, pull request and base with the right flag |
| ReleaseProgress.CanStage | gel_release/github_release.py:375-427 | whatever a dead run left behind, any delivered identity, preview or stable, whose draft is writable and whose tag is free or names the stale build can be staged to its end |
| ReleaseProgress.PreviewTagIsReplaceable | gel_release/github_release.py:353-372 | for previews the tag is always so, and after staging it is free or names the build of the candidate |
| ReleaseProgress.CanPublish | gel_release/github_release.py:1184-1244 | a staged preview whose pull request still matches can be published |
| ReleaseProgress.CanResolve | gel_release/github_release.py:607-697 | an unpublished snapshot resolves from fresh reads to an unpublished suffix |
| ReleaseProgress.BlockedIsRefused | gel_release/github_release.py:405-416 | a draft of the next suffix by another pull request or base makes staging refuse |
| ReleaseProgress.NothingElseBlocksAPreview | gel_release/github_release.py:375-427 | from every reachable state without such a draft and with the line unlocked, some continuation publishes the live preview |
| ReleaseBlocking.DraftHoldsItsPhase | gel_release/preview.py:80-84 | as long as a draft stays a draft no other preview of its base and phase is published |
| ReleaseBlocking.DraftStays | gel_release/github_release.py:405-416 | a draft stays with its line, pull request and base as long as that pull request is not open on that base |
| ReleaseBlocking.ForeignDraftBlocksForGood | gel_release/github_release.py:405-416 | then every candidate it blocks is refused and nothing of its base and phase is published, on every continuation |
| ReleaseBlocking.StaleDraftIsReplacedExactly | README.md:139-144 | a draft that another identity of the tag, line and pull request holds is taken over exactly when the base is the same and the tag is free or names the stale build |
| ReleaseBlocking.StalePreviewIsReplacedExactly | README.md:139-144 | a stale preview draft is taken over exactly when the base is the same |
| ReleaseBlocking.WrongTagStopsStaging | gel_release/github_release.py:353-372 | a staging run that selected a draft whose tag names something else has no next step |
| ReleaseWitnesses.MovedBaseIsRefused | gel_release/github_release.py:411-416 | from every staged preview whose base then moves a state is reached in which the live candidate has the tag of the draft and is refused |
| ReleaseWitnesses.DeadStableIsNotReplaced | gel_release/github_release.py:1065-1096 | a reachable state in which a stable draft is selected for another identity of its pull request but not taken over |
| ReleaseOwners.AnnouncedRecordsKeepTheirOwner | gel_release/github_release.py:375-427 | in every run an announced record keeps naming a release of its own tag, line, pull request and base |
| ReleaseLosses.StaysLost | gel_release/github_release.py:969-980 | once the assets a record names are deleted, no step attaches them again |
| ReleaseLosses.StaysStuck | gel_release/github_release.py:1513-1518 | a draft whose tag is in the way of the merged record and of every identity still to come stays as it is, whatever step is taken |
| ReleaseStables.PublishedIsTheRecord | gel_release/github_release.py:1509-1513 | the release of a merged record, once published, is published with the identity and the assets of that record |
| ReleaseStables.StableIsPublishableExactly | README.md:197-201 | from every reachable state with the line unlocked, some continuation publishes a merged and accepted stable with its recorded assets exactly when the release still carries them and, if it is a draft, its tag is free, names the push while the candidate holds the draft, or names the build of the identity that holds the draft while the pull request has another identity |
| ReleaseStables.PlainTagsWereMade | gel_release/github_release.py:1485-1541 | in every run every plain tag that is not older than the pipeline names the merge of an accepted record whose identity is in the body of its release |
| ReleaseStables.StableIsPublishableWhileAttached | README.md:197-201 | without a tag that is older than the pipeline, exactly when the release still carries the recorded assets |
| ReleaseWitnesses.RestagedStableIsLost | gel_release/github_release.py:974-980 | a reachable state in which a merged stable was staged again by its own identity, and no continuation publishes the merged record |
| ReleaseWitnesses.InterruptedTakeOverIsUndone | gel_release/github_release.py:375-427 | a reachable state in which another identity holds the draft of a merged stable, and a continuation that publishes the merged record |
| Trees.LineIsInjective | gel_release/source_equivalence.py:60-65 | a canonical line determines path, mode and object name |
| Trees.MeaningfulTree | gel_release/source_equivalence.py:50-67 | the loop and the sort yield the joined sorted lines of the entries outside the allowlist |
| Trees.LinesExample | gel_release/source_equivalence.py:60-67 | the text of a tree of one file and the record |
| Trees.Compare | gel_release/source_equivalence.py:80-97 | reports exactly the paths that were added, removed or changed, the record path left out, once and in path order; empty exactly when the trees are equivalent |
| Trees.TextDecidesEquivalence | gel_release/source_equivalence.py:50-97 | on trees without newlines in paths two texts are equal exactly when the trees are equivalent |
| TreeAmbiguity.AmbiguousExactlyWhenSplit | gel_release/source_equivalence.py:60-67 | for every tree: its text is shared by an inequivalent tree exactly when it splits into the increasing lines of two or more entries with different paths |
| TreeAmbiguity.AmbiguousExactlyWhenSeveral | gel_release/source_equivalence.py:60-67 | for trees without newlines in paths: exactly when the tree has two or more entries |
| TreeAmbiguity.SeveralEntriesAreAmbiguous | gel_release/source_equivalence.py:60-67 | such a tree exists: one path that swallows the middle of the text |
| TreeAmbiguity.SharedTextExample | gel_release/source_equivalence.py:60-67 | two files and one file with a newline in its name have the same text |
| StableMerge.BaseLacksRecord | gel_release/github_release.py:1378-1403 | a base cannot already hold the record of a source built on it |
| StableMerge.EveryMergeMethodIsAccepted | README.md:203-209 | merge commit, squash and rebase of a prepared pull request all pass the push-base, record and source checks |
| StableMerge.AcceptedPushCarriesTheTestedTree | gel_release/github_release.py:1340-1410 | an accepted push has the tested tree outside the record path, the exact record, a first parent that differs at the record path, and the recorded base one or two first parents down |
| StableMerge.ParentLacksRecordExactly | gel_release/github_release.py:1378-1403 | the first parent of an accepted push lacks the record exactly when the push does not change its mode alone, and always when it is no younger than the tested source |
| StableMerge.ModeOnlyPushExample | gel_release/github_release.py:1378-1403 | a push that changes only the mode is accepted on top of a parent with the same record |
| StableMerge.SuccessorKeepsSnapshot | gel_release/source_equivalence.py:144-182 | a record-only successor is hashed from the same text as its source |
| StableMerge.StagingIsAFixedPoint | gel_release/github_release.py:563-604 | the head that holds the record of the tested source has the same snapshot and counts as staged |
| StableMerge.StagedHeadHasTheTestedTree | gel_release/github_release.py:586-597 | a head that counts as staged has the tested tree outside the record path and the same hashed text, and its record names this pull request, line, base, snapshot and version |
| StableMerge.HeadsOfOneSourceAreSiblings | gel_release/github_release.py:563-604 | heads staged from one source, by whatever records, have that source as only parent and the same tree outside the record path, and none is built on another |
| Versions.ParseIsInverseOfPrint | gel_release/registry_manifest.py:27-30 | the grammar accepts exactly the printed versions and reads back what was printed |
| Versions.VersionTextIsInjective | gel_release/registry_manifest.py:27-30 | different versions are written differently |
| Versions.PrintedTagParses | gel_release/preview.py:11-14 | a printed tag reads back as itself |
| Versions.ParseTagIs | gel_release/preview.py:11-14 | a tag name is read as a version exactly when it is the name of that version |
| Versions.ParsePhaseIs | gel_release/preview.py:43-45 | a word is read as a phase exactly when it spells the phase |
| Versions.VersionTextExample | gel_release/registry_manifest.py:27-30 | how a version and a preview of it are written |
| Versions.NextPreviewVersion | gel_release/preview.py:72-109 | malformed requests are refused, a published phase and snapshot selects nothing, any other selects the text of the preview after the largest number whose tag is among the names |
| Versions.HighestSuffix | gel_release/preview.py:96-107 | the loop finds the greatest suffix of the base and phase among the tags |
| PackageOrder.PackageManagerVersionIs | gel_release/linux_packages.py:24-27 | the rewriting turns the phase hyphen and nothing else into a tilde |
| PackageOrder.PackageTextExample | gel_release/linux_packages.py:24-27 | what the package manager sees of a preview |
| PackageOrder.OnlySupportedIsPackaged | gel_release/linux_packages.py:24-27 | exactly the supported versions are accepted |
| PackageOrder.PrecedenceIs | README.md:230-232 | precedence orders by the three numbers, then alpha, beta, rc and the plain version, then the suffix; it is total and zero exactly for equal versions |
| PackageOrder.CompareBases | gel_release/linux_packages.py:24-27 | the Debian comparison orders the three numbers first and then what follows them |
| PackageOrder.PackageTextKeepsPrecedence | gel_release/linux_packages.py:24-27 | upstream versions compare as the releases do |
| PackageOrder.DebVersionKeepsPrecedence | gel_release/linux_packages.py:30-38 | for all supported versions the Debian comparison of the emitted strings equals Semantic Versioning precedence |
| RpmOrder.CompareDigitsIs | gel_release/linux_packages.py:46-57 | printed numbers compare in RPM as numbers |
| RpmOrder.RpmBases | gel_release/linux_packages.py:24-27 | the RPM comparison orders the three numbers first and then what follows them |
| RpmOrder.RpmVersionKeepsPrecedence | README.md:230-232 | for all supported versions the RPM comparison of the emitted strings equals Semantic Versioning precedence |
| TableWidths.ColumnBounds | src/analyze/table.rs:80-90 | bounds dominate every cell of the column, and are ordered when the cells' are |
| TableWidths.BoundsAreReached | src/analyze/table.rs:80-90 | each bound is that of some cell, or zero |
| TableWidths.SumOfColumn | src/analyze/table.rs:80-90 | the sum is the total of the cell widths of the column |
| TableWidths.Widest | src/analyze/table.rs:97-102 | the last column with the greatest minimum |
| TableWidths.SharesDoNotExceed | src/analyze/table.rs:114-123 | the shares never exceed the spare width, so the remainder does not underflow, and leave fewer units than there are columns |
| TableWidths.ShareOut | src/analyze/table.rs:114-122 | every column gets its minimum and the largest whole number of units not above its due in proportion to the sums, within the total |
| TableWidths.TopUp | src/analyze/table.rs:123-132 | the cyclic loop ends with the exact total; columns are raised round by round, each up to its natural width |
| TableWidths.ChooseWidths | src/analyze/table.rs:91-134 | natural widths when they fit; otherwise columns and borders sum exactly to the terminal width with every minimum kept; otherwise the widest minimum is cut to fit, or nothing is |
| TableWidths.RenderWidths | src/analyze/table.rs:76-134 | cells get their natural width when the table fits and their smallest width when the minima fit; a column with a word never vanishes; columns and borders stay within the terminal unless cutting the widest column cannot help |
| WordWrap.HeightPrinter.Word | src/analyze/table.rs:365-382 | one step of the height automaton |
| WordWrap.TextPrinter.HardWrap | src/analyze/table.rs:415-431 | the break after every full line of a word |
| WordWrap.TextPrinter.Word | src/analyze/table.rs:384-413 | one step of the text automaton |
| WordWrap.CellHeight | src/analyze/table.rs:330-340 | the loop runs the height automaton |
| WordWrap.CellText | src/analyze/table.rs:341-348 | the loop runs the text automaton |
| WordWrap.HardWrapPage | src/analyze/table.rs:415-431 | hard wrapping fills whole lines and leaves the remainder open |
| WordWrap.AutomataCorrespond | src/analyze/table.rs:365-413 | the two automata correspond after every list of words |
| WordWrap.HeightIsLineCount | src/analyze/table.rs:318-349 | height equals the number of lines written exactly when there is a word, and no line exceeds the width |
| WordWrap.BreaksExactlyWhenFull | src/analyze/table.rs:384-413 | a word no longer than a line goes on the open line exactly if it fits there after a blank, and starts the next line otherwise |
| WordWrap.PageSpells | src/analyze/table.rs:170-173 | the lines of a text are what stands between its line breaks |
| WordWrap.TextKeepsWords | src/analyze/table.rs:384-431 | every character of every word is written once and in order, blanks inside words included, and only blanks and line breaks are put in between |
| WordWrap.FittingWordsStayWhole | src/analyze/table.rs:384-413 | words that fit are never broken |
| WordWrap.WidthPrinter.Word | src/analyze/table.rs:351-362 | the new minimum and natural width of the list |
| WordWrap.WidthBounds | src/analyze/table.rs:319-329 | the longest word, and the width of all words on one line |
| WordWrap.NaturalWidthIsOneLine | src/analyze/table.rs:318-349 | at its natural width a cell is one line of all words |
| TableLayout.ComposeLine | src/analyze/table.rs:175-189 | every text starts at its column, columns do not run into each other, everything else is blank, and the line is no wider than all columns |
| TableLayout.RenderRow | src/analyze/table.rs:154-193 | a row has as many lines as its highest cell, each with its part of every cell in its column and blanks elsewhere |
| TableLayout.RowHeight | src/analyze/table.rs:135-144 | the height of a row is the number of its lines, except that a row of empty cells has height one |
| TableLayout.Render | src/analyze/table.rs:76-194 | the same for all rows of a table at the widths chosen for it, with no line wider than the terminal unless cutting the widest column cannot help |
| Contexts.Gather.ScanGroup | src/analyze/contexts.rs:46-55 | both indexes hold exactly the scanned contexts: first length and all ids of a location, last node of an id |
| Contexts.Gather.Scan | src/analyze/contexts.rs:46-87 | the same for a tree of nodes in scan order |
| Contexts.Gather.ScanAll | src/analyze/contexts.rs:28-45 | the same for the coarse, fine and debug trees |
| Contexts.AllGroupsAreOfNodes | src/analyze/contexts.rs:28-45 | the scan collects the contexts of exactly the nodes that can be reached from one of the three roots |
| Contexts.ScanOrderExample | src/analyze/contexts.rs:28-87 | the order of the scan over three trees |
| Contexts.InOrder | src/analyze/contexts.rs:99 | the keys in ascending buffer and offset |
| Contexts.Mark | src/analyze/contexts.rs:99-124 | one location keeps the meaning of all numbers and shows the number it should |
| Contexts.Preprocess | src/analyze/contexts.rs:90-137 | a node is numbered exactly when some location it touches shares no node with an earlier such location, with the rank of that location; every context of every node of the three trees has a span at its start, every span is one, and spans ascend |
| Contexts.OneNumberOrNone | src/analyze/contexts.rs:108-119 | contexts of one node share one number or none has one |
| Contexts.NumberedOnce | src/analyze/contexts.rs:100-107 | no node touches two locations that brought a number |
| Contexts.NumbersAreDense | src/analyze/contexts.rs:106-107 | the numbers in use are exactly those below their count |
| Contexts.NumbersAppearInOrder | src/analyze/contexts.rs:99-124 | all earlier locations show smaller numbers than the one where a number first appears |
| Contexts.ShownNumberBelongs | src/analyze/contexts.rs:100-105 | the number shown belongs to a context at the location |
| Contexts.FirstNumberIsShown | src/analyze/contexts.rs:100-105 | where no number is brought, the first context in scan order gives its number if it has one |
| Contexts.OneSpanPerLocation | src/analyze/contexts.rs:121-123 | every location of a buffer has exactly one span, in ascending order |
| Contexts.NodeWithoutANumber | src/analyze/contexts.rs:100-105 | a node can stay unnumbered although its location is marked |
| Backslash.Parser.Quote | src/commands/backslash.rs:175-224 | the inner loop finds the closing quote, the line break or the end |
| Backslash.Parser.Scan | src/commands/backslash.rs:167-253 | the outer loop finds the end of the word over its quoted parts |
| Backslash.Parser.CurrentToken | src/commands/backslash.rs:159-281 | the current token, whose meaning NextTokenIs gives |
| Backslash.Parser.Next | src/commands/backslash.rs:283-295 | yields the token, always moves past it, and changes nothing at the end |
| Backslash.NextToken | src/commands/backslash.rs:159-281 | a token is not empty and starts after the offset; there is none exactly when only blanks are left |
| Backslash.WordIs | src/commands/backslash.rs:165-253 | a word ends outside quotes before a blank, semicolon, line break or the end, at the line break that cuts its open quote, or not at all |
| Backslash.NextTokenIs | src/commands/backslash.rs:159-281 | a separator is its characters; a first word is a command or in error, a later one an argument with the text of the word; a cut quote is an error and an open one incomplete |
| Backslash.Tokens | src/commands/backslash.rs:283-295 | spans are ordered, disjoint and not empty |
| Backslash.TokensAre | src/commands/backslash.rs:283-295 | every token has this meaning where the one before it ended, and only blanks follow the last |
| Backslash.OnlyTheFirstIsACommand | src/commands/backslash.rs:255-281 | only the first token can be a command, exactly when the input starts with a complete word that begins with a backslash and no hyphen after it; the first is never an argument; separators are known by their characters |
| Backslash.QuotedArgumentExample | src/commands/backslash.rs:757-773 | a command and an argument in each kind of quotes |
| Backslash.StatementEndsAtFirstStop | src/commands/backslash.rs:419-427 | a statement ends with the first semicolon or line break among the tokens |
| Backslash.FullStatement | src/commands/backslash.rs:419-427 | the end of the first separator token, or of the input |
| Backslash.BoundaryIsStableIff | src/commands/backslash.rs:419-427 | a boundary at a semicolon or line feed depends on the text before it alone exactly when that text does not begin with a word whose quote is open |
| Backslash.UnquotedBoundaryIsStable | src/commands/backslash.rs:419-427 | so it never moves when the first character is not a quote |
| Backslash.OpenStartIsUnstable | src/commands/backslash.rs:181-203 | a line feed moves the boundary of a text that begins with an open quote |
| Backslash.QuotedStartExample | src/commands/backslash.rs:256-266 | a concrete input whose boundary moves |
| Highlight.EmitInsignificant | src/highlight.rs:64-79 | erasing styles gives the text back; exactly the terminated comments are styled, each up to its line break |
| Highlight.HighlightBackslash | src/highlight.rs:37-62 | erasing styles gives the input back, and the marks are exactly those of the tokens in order |
| Highlight.MarkIs | src/highlight.rs:46-56 | valid tokens are styled as commands, invalid ones as errors, others not at all |
| Completion.PrefixRangeIsConvex | src/completion.rs:663-679 | the names with a prefix are consecutive from the prefix on |
| Completion.Range | src/completion.rs:236-242 | the range cut at the first other name holds exactly the names with the prefix |
| Completion.LookUp | src/completion.rs:236-246 | a name is hinted exactly when it is the whole input or the only name with the prefix; unknown exactly when there is none |
| Completion.Validate | src/completion.rs:570-590 | valid exactly when the command is a name, invalid exactly when no name starts with it |
| Interrupt.StepKeepsInv | src/interrupt.rs:78-98 | every atomic step of every delivery, poll and clear keeps the invariant |
| Interrupt.NoLostWakeUp | src/interrupt.rs:260-277 | a parked task with a signal waiting is scheduled, or its waker is in place and a delivery is about to wake it |
| Interrupt.WaitingSignalIsReturned | src/interrupt.rs:260-277 | at most one wake and one poll later the waiting task has the signal |
| Interrupt.CellsHoldEarliestAndLatest | src/interrupt.rs:87-98 | `first` is the earliest signal since it was cleared, `last` the latest not yet taken |
| Interrupt.SignalsAreReturnedOnce | src/interrupt.rs:260-277 | polls return signals in order and none twice |
| Interrupt.RacingSignalIsMissed | src/interrupt.rs:95-98 | a run in which a signal that races a clear stays in `first` and is lost to the waiting task |
| InterruptFates.ClearLeavesASignalExactly | src/interrupt.rs:87-98 | after every completed clear `last` is empty, and `first` holds a signal exactly when a delivery exchanged one between the two stores |
| InterruptFates.SignalFate | src/interrupt.rs:78-98 | every stored signal is held, returned or lost, and it is lost exactly when it was overwritten or cleared while held |
| Interrupt.Event.Set | src/interrupt.rs:87-91 | an undisturbed call is the three atomic steps of a delivery: the earliest signal is kept, the latest stored, and the answer is whether a waker was taken |
| Interrupt.Event.Clear | src/interrupt.rs:95-98 | an undisturbed call is the two stores of a clear, and leaves the waker |
| Interrupt.Event.Poll | src/interrupt.rs:260-277 | an undisturbed poll is its atomic steps, ready exactly with the stored signal |
| Interrupt.Event.ErrIfOccurred | src/interrupt.rs:242-248 | reports the earliest signal and clears, or changes nothing |
| LineCollector.RawLinesConcatenate | gel-cli-instance/src/lib.rs:248-290 | raw lines have one break at their end, at most the last lacks it, and together they are the stream |
| LineCollector.RawLinesAreUnique | gel-cli-instance/src/lib.rs:248-290 | there is no other way to cut a stream so |
| LineCollector.Reader.ReadLine | gel-cli-instance/src/lib.rs:252-286 | takes the next raw line off the stream, wherever its chunks end |
| LineCollector.Collect | gel-cli-instance/src/lib.rs:248-303 | for every chunking the lines are the raw lines of the whole stream |
| LineCollector.Tail.Handle | gel-cli-instance/src/lib.rs:127-134 | the kept lines are always the last ten |

## Left out

- Backslash.FullStatement: offsets count characters where the source counts bytes; error messages are dropped.
- Publication.GitHub.PublishPreview: asset ids are one number for each upload; asset bytes, sizes, attestations and the timeline that authorises a phase are not modelled; authorisation is one flag of the pull request.
- Publication.GitHub.PublishStable: the branch and repository checks on the merged pull request are part of one given value, the merge commit of the candidate; the three checks on the pushed commit enter as their outcome, which the protocol takes from StableMerge; asset ids are one number for each upload, and the verification of bytes is dropped.
- Candidates.SelectDraft: the `name` field of a release and malformed payloads are not modelled.
- Contexts.Preprocess: context ids are distinct, as the global counter makes them; the printing of numbers into the query text is not modelled.
- TableWidths.RenderWidths: a table whose rows are all empty makes `cols - 1` underflow in the source and is excluded.
- TableLayout.Render: the title and cells other than word lists are not modelled.
- WordWrap.HeightIsLineCount: wide characters, escape sequences and empty words are not modelled.
- RpmOrder.RpmVersionKeepsPrecedence: the RPM release number and epoch, which are the same for all packages, are not modelled.
- LineCollector.Collect: I/O errors, the decoding of a line as UTF-8 and the trimming of its break are not modelled.
- Interrupt.NoLostWakeUp: signal masks, the global handler state and the blocking trap are not modelled.
- Highlight.HighlightBackslash: the validator is a parameter; highlighting of queries rests on a tokenizer that is not part of this model.
- Completion.LookUp: the fuzzy suggestions for unknown names and the text of hints are not modelled.
- Git, GitHub and Cargo calls, JSON and TOML handling, archives, temporary directories and the workflow files themselves: they are replaced by the abstract repository state and its steps.
- Inputs of the wrong type: values are well typed, and only guards that decide acceptance are kept.
- The latest flag under overlapping publications on different lines: it is only claimed for one publication at a time.
- File locking, cloud client, connections, installation, upgrades, branches, option parsing, prompts and printing: I/O or simple decisions.
