/** The Git history around a stable candidate: the record-only commit that stages it,
    and the three checks publication makes on the commit pushed to the release line. */
module StableMerge {
  import Text
  import opened Wrappers
  import opened Tags
  import opened Candidates
  import opened Trees

  datatype GitCommit = GitCommit(parents: seq<Sha>, tree: Tree)

  /** Commits by name, the candidate records that blobs parse as, by object name, and the
      object name of the bytes that a record is dumped to. As names are hashes, a history
      can hold every commit that is ever made. */
  datatype History = History(
    commits: map<Sha, GitCommit>,
    records: map<string, Record>,
    dumps: map<Record, string>)

  /** Ids are given out in the order in which commits are made. */
  function Age(c: Sha): nat {
    match c
    case Commit(id) => id
    case Derived(source, _) => Age(source) + 1
  }

  /** Hashes only name what existed before: parents precede their child, and a record in
      a tree names a source that precedes the commit. A dumped record parses as itself. */
  ghost predicate IsHistory(h: History) {
    && (forall c :: c in h.commits ==>
          && Valid(h.commits[c].tree)
          && (forall k :: 0 <= k < |h.commits[c].parents| ==>
                h.commits[c].parents[k] in h.commits && Age(h.commits[c].parents[k]) < Age(c))
          && (RECORD_PATH in h.commits[c].tree && h.commits[c].tree[RECORD_PATH].oid in h.records ==>
                Age(h.records[h.commits[c].tree[RECORD_PATH].oid].identity.sourceSha) < Age(c)))
    && (forall r :: r in h.dumps ==> h.dumps[r] in h.records && h.records[h.dumps[r]] == r)
  }

  function TreeOf(h: History, c: Sha): Tree
    requires c in h.commits
  {
    h.commits[c].tree
  }

  // --------------------------------------------------------- the checks

  /** assert_record_present: the revision holds exactly the record bytes. */
  predicate RecordPresent(t: Tree, blob: string) {
    RECORD_PATH in t && t[RECORD_PATH].oid == blob
  }

  /** The trees differ at this path. */
  predicate DiffersAt(a: Tree, b: Tree, path: string) {
    (path in a) != (path in b) || (path in a && path in b && a[path] != b[path])
  }

  /** The trees differ at the record path in the file mode alone. */
  predicate ModeOnly(a: Tree, b: Tree) {
    && RECORD_PATH in a && RECORD_PATH in b
    && a[RECORD_PATH].oid == b[RECORD_PATH].oid
    && a[RECORD_PATH].mode != b[RECORD_PATH].mode
  }

  /** assert_record_successor: one parent, only the record changed, exact bytes. */
  ghost predicate IsRecordSuccessor(h: History, source: Sha, successor: Sha, blob: string) {
    && source in h.commits && successor in h.commits
    && h.commits[successor].parents == [source]
    && (forall path :: DiffersAt(TreeOf(h, source), TreeOf(h, successor), path) <==> path == RECORD_PATH)
    && RecordPresent(TreeOf(h, successor), blob)
  }

  /** rev-list --first-parent: the commit and its first-parent ancestors. */
  function FirstParents(h: History, c: Sha): seq<Sha>
    requires IsHistory(h) && c in h.commits
    decreases Age(c)
  {
    if h.commits[c].parents == [] then [c] else [c] + FirstParents(h, h.commits[c].parents[0])
  }

  /** _assert_line_push_base: the recorded base is one or two first parents away. Ages fall
      along the chain, so the base occurs in it once. */
  ghost predicate PushBaseOk(h: History, record: Record, push: Sha)
    requires IsHistory(h) && push in h.commits
  {
    var chain := FirstParents(h, push);
    exists steps :: 1 <= steps <= 2 && steps < |chain| && chain[steps] == record.identity.baseSha
  }

  /** _assert_record_introduced: present, and changed against the first parent. */
  ghost predicate RecordIntroduced(h: History, blob: string, push: Sha)
    requires IsHistory(h) && push in h.commits
  {
    && RecordPresent(TreeOf(h, push), blob)
    && h.commits[push].parents != []
    && DiffersAt(TreeOf(h, push), TreeOf(h, h.commits[push].parents[0]), RECORD_PATH)
  }

  /** The three checks of publish_stable on the pushed commit. */
  ghost predicate PushAccepted(h: History, blob: string, push: Sha) {
    && IsHistory(h) && push in h.commits && blob in h.records
    && h.records[blob].identity.sourceSha in h.commits
    && PushBaseOk(h, h.records[blob], push)
    && RecordIntroduced(h, blob, push)
    && Equivalent(TreeOf(h, h.records[blob].identity.sourceSha), TreeOf(h, push))
  }

  /** publish_stable compares with the bytes the record is dumped to. */
  ghost predicate RecordAccepted(h: History, record: Record, push: Sha) {
    record in h.dumps && PushAccepted(h, h.dumps[record], push)
  }

  /** A push is accepted for one record only. */
  lemma OneRecordIsAccepted(h: History, r: Record, q: Record, push: Sha)
    requires RecordAccepted(h, r, push) && RecordAccepted(h, q, push)
    ensures r == q
  {
  }

  // ------------------------------------------------------ merge methods

  /** A generated pull request: at most one preparation commit above the base, then the
      commit that records the tested source. */
  ghost predicate IsPreparedPr(h: History, blob: string, head: Sha) {
    && blob in h.records
    && h.records[blob] in h.dumps && h.dumps[h.records[blob]] == blob
    && var r := h.records[blob].identity;
    && r.baseSha in h.commits && r.sourceSha in h.commits
    && (r.sourceSha == r.baseSha || h.commits[r.sourceSha].parents == [r.baseSha])
    && IsRecordSuccessor(h, r.sourceSha, head, blob)
  }

  ghost predicate IsMergeCommit(h: History, base: Sha, head: Sha, push: Sha) {
    && push in h.commits && head in h.commits
    && h.commits[push] == GitCommit([base, head], TreeOf(h, head))
  }

  ghost predicate IsSquash(h: History, base: Sha, head: Sha, push: Sha) {
    && push in h.commits && head in h.commits
    && h.commits[push] == GitCommit([base], TreeOf(h, head))
  }

  /** The rebased commits keep their trees; without a preparation commit there is one. */
  ghost predicate IsRebase(h: History, base: Sha, source: Sha, head: Sha, push: Sha) {
    && push in h.commits && head in h.commits && source in h.commits
    && h.commits[push].tree == TreeOf(h, head)
    && |h.commits[push].parents| == 1
    && var below := h.commits[push].parents[0];
    if source == base then below == base
    else below in h.commits && h.commits[below] == GitCommit([base], TreeOf(h, source))
  }

  /** No commit made before the source can hold the record of the source. */
  lemma EarlierLacksRecord(h: History, blob: string, c: Sha)
    requires IsHistory(h) && c in h.commits && blob in h.records && Age(c) <= Age(h.records[blob].identity.sourceSha)
    ensures !RecordPresent(TreeOf(h, c), blob)
  {
  }

  /** The base cannot hold the record of a source made on top of it. */
  lemma BaseLacksRecord(h: History, blob: string, head: Sha)
    requires IsHistory(h) && IsPreparedPr(h, blob, head)
    ensures !RecordPresent(TreeOf(h, h.records[blob].identity.baseSha), blob)
  {
    var r := h.records[blob].identity;
    assert r.sourceSha != r.baseSha ==> h.commits[r.sourceSha].parents[0] == r.baseSha;
  }

  lemma ChainHead(h: History, c: Sha)
    requires IsHistory(h) && c in h.commits
    ensures |FirstParents(h, c)| >= 1 && FirstParents(h, c)[0] == c
  {
  }

  /** The first step down the chain is the first parent, the second is its first parent. */
  lemma ChainSteps(h: History, c: Sha)
    requires IsHistory(h) && c in h.commits && h.commits[c].parents != []
    ensures
      var chain, below := FirstParents(h, c), h.commits[c].parents[0];
      && |chain| >= 2 && chain[1] == below
      && (|chain| > 2 <==> h.commits[below].parents != [])
      && (|chain| > 2 ==> chain[2] == h.commits[below].parents[0])
  {
    var below := h.commits[c].parents[0];
    ChainHead(h, below);
    assert FirstParents(h, c) == [c] + FirstParents(h, below);
    if h.commits[below].parents != [] {
      ChainHead(h, h.commits[below].parents[0]);
    }
  }

  /** Merge commits, squashes and rebases of a prepared pull request onto its recorded
      base all pass publication. */
  lemma EveryMergeMethodIsAccepted(h: History, blob: string, head: Sha, push: Sha)
    requires IsHistory(h) && IsPreparedPr(h, blob, head)
    requires
      var r := h.records[blob].identity;
      || IsMergeCommit(h, r.baseSha, head, push)
      || IsSquash(h, r.baseSha, head, push)
      || IsRebase(h, r.baseSha, r.sourceSha, head, push)
    ensures PushAccepted(h, blob, push) && RecordAccepted(h, h.records[blob], push)
  {
    var r := h.records[blob].identity;
    BaseLacksRecord(h, blob, head);
    ChainSteps(h, push);
    var chain := FirstParents(h, push);
    var below := h.commits[push].parents[0];
    if below == r.baseSha {
      assert chain[1] == r.baseSha;
    } else {
      assert chain[2] == r.baseSha;
    }
    SuccessorIsEquivalent(h, r.sourceSha, head, blob);
    assert DiffersAt(TreeOf(h, r.sourceSha), TreeOf(h, head), RECORD_PATH);
  }

  lemma SuccessorIsEquivalent(h: History, source: Sha, head: Sha, blob: string)
    requires IsRecordSuccessor(h, source, head, blob)
    ensures Equivalent(TreeOf(h, source), TreeOf(h, head))
  {
    forall path | !Allowed(path)
      ensures
        var a, b := TreeOf(h, source), TreeOf(h, head);
        (path in a <==> path in b) && (path in a && path in b ==> a[path] == b[path])
    {
      assert !DiffersAt(TreeOf(h, source), TreeOf(h, head), path);
    }
  }

  /** Whatever produced it, an accepted push carries the tested tree outside the record
      path and the exact record, differs at the record path from its first parent, and
      has the recorded base as its first or second first-parent. */
  lemma AcceptedPushCarriesTheTestedTree(h: History, blob: string, push: Sha)
    requires PushAccepted(h, blob, push)
    ensures Equivalent(TreeOf(h, h.records[blob].identity.sourceSha), TreeOf(h, push))
    ensures RecordPresent(TreeOf(h, push), blob)
    ensures
      var parents, base := h.commits[push].parents, h.records[blob].identity.baseSha;
      && parents != []
      && DiffersAt(TreeOf(h, parents[0]), TreeOf(h, push), RECORD_PATH)
      && (parents[0] == base
          || (h.commits[parents[0]].parents != [] && h.commits[parents[0]].parents[0] == base))
  {
    ChainSteps(h, push);
  }

  /** The first parent of an accepted push lacks the exact record unless the push changed
      the mode of the file alone. When that parent was made before the tested source, as
      the recorded base is, it always lacks the record. */
  lemma ParentLacksRecordExactly(h: History, blob: string, push: Sha)
    requires PushAccepted(h, blob, push)
    ensures
      var parent := h.commits[push].parents[0];
      && (!RecordPresent(TreeOf(h, parent), blob) <==> !ModeOnly(TreeOf(h, parent), TreeOf(h, push)))
      && (Age(parent) <= Age(h.records[blob].identity.sourceSha) ==> !RecordPresent(TreeOf(h, parent), blob))
  {
    var parent := h.commits[push].parents[0];
    if Age(parent) <= Age(h.records[blob].identity.sourceSha) {
      EarlierLacksRecord(h, blob, parent);
    }
  }

  /** A line that got the record in one commit and another mode for it in the next. */
  ghost predicate IsModeChange(h: History, blob: string) {
    && IsHistory(h) && blob in h.records
    && Commit(1) in h.commits && Commit(2) in h.commits && Commit(3) in h.commits
    && h.commits[Commit(1)] == GitCommit([], map[])
    && h.commits[Commit(2)] == GitCommit([Commit(1)], map[RECORD_PATH := Entry("100644", blob)])
    && h.commits[Commit(3)] == GitCommit([Commit(2)], map[RECORD_PATH := Entry("100755", blob)])
    && h.records[blob].identity.baseSha == h.records[blob].identity.sourceSha == Commit(1)
  }

  /** The push of its last commit is accepted, and the first parent holds the record. */
  lemma ModeChangeIsAccepted(h: History, blob: string)
    requires IsModeChange(h, blob)
    ensures PushAccepted(h, blob, Commit(3)) && RecordPresent(TreeOf(h, Commit(2)), blob)
  {
    ChainSteps(h, Commit(3));
    assert FirstParents(h, Commit(3))[2] == Commit(1);
    assert Entry("100755", blob).mode != Entry("100644", blob).mode;
    assert Equivalent(TreeOf(h, Commit(1)), TreeOf(h, Commit(3)));
  }

  lemma ModeOnlyPushExample(i: Identity) returns (h: History)
    requires i.baseSha == i.sourceSha == Commit(1)
    ensures IsModeChange(h, "r")
    ensures PushAccepted(h, "r", Commit(3)) && RecordPresent(TreeOf(h, Commit(2)), "r")
  {
    var first: Tree, second: Tree := map[RECORD_PATH := Entry("100644", "r")], map[RECORD_PATH := Entry("100755", "r")];
    assert Valid(first) && Valid(second) && Valid(map[]);
    h := History(
      map[
        Commit(1) := GitCommit([], map[]),
        Commit(2) := GitCommit([Commit(1)], first),
        Commit(3) := GitCommit([Commit(2)], second)],
      map["r" := Record(i, 0, 0)],
      map[Record(i, 0, 0) := "r"]);
    ModeChangeIsAccepted(h, "r");
  }

  // ------------------------------------------------------------- staging

  /** _stable_record_staged: the head is the record-only successor of the record's own
      source, and the record names this candidate. */
  ghost predicate StableRecordStaged(h: History, i: Identity, head: Sha) {
    && head in h.commits
    && RECORD_PATH in TreeOf(h, head)
    && TreeOf(h, head)[RECORD_PATH].oid in h.records
    && var blob := TreeOf(h, head)[RECORD_PATH].oid;
    var r := h.records[blob].identity;
    && r.phase.None? && r.buildSha == r.sourceSha
    && IsRecordSuccessor(h, r.sourceSha, head, blob)
    && r == i.(sourceSha := r.sourceSha, buildSha := r.buildSha, phase := None)
  }

  /** What the controller asks about the head of a live pull request. */
  ghost predicate HeadIsStaged(h: History, live: LivePr) {
    StableRecordStaged(h, PlainIdentity(live), live.headSha)
  }

  /** The tree is hashed to this snapshot. */
  ghost predicate IsSnapshotOf(snapshot: Snapshot, t: Tree) {
    IsText(snapshot.text, t)
  }

  /** A record-only successor is hashed from the same text as its source. */
  lemma SuccessorKeepsSnapshot(h: History, source: Sha, head: Sha, blob: string, text: string)
    requires IsRecordSuccessor(h, source, head, blob)
    ensures IsText(text, TreeOf(h, source)) <==> IsText(text, TreeOf(h, head))
  {
    SuccessorIsEquivalent(h, source, head, blob);
    SharedLines(TreeOf(h, source), TreeOf(h, head));
    SameLinesSameText(TreeOf(h, source), TreeOf(h, head), text);
    SameLinesSameText(TreeOf(h, head), TreeOf(h, source), text);
  }

  lemma SameLinesSameText(a: Tree, b: Tree, text: string)
    requires Lines(a) == Lines(b)
    ensures IsText(text, a) ==> IsText(text, b)
  {
    if lines :| IsCanonical(lines, a) && text == Text.Join(lines) {
      assert IsCanonical(lines, b);
    }
  }

  /** Staging reaches a fixed point: once the record of the tested source is committed on
      top of it, the pull request keeps its snapshot and the new head counts as staged. */
  lemma StagingIsAFixedPoint(h: History, tested: LivePr, live: LivePr, blob: string)
    requires tested.headSha in h.commits && IsSnapshotOf(tested.snapshot, TreeOf(h, tested.headSha))
    requires blob in h.records && h.records[blob].identity == PlainIdentity(tested)
    requires IsRecordSuccessor(h, tested.headSha, live.headSha, blob)
    requires live == tested.(headSha := live.headSha)
    ensures IsSnapshotOf(live.snapshot, TreeOf(h, live.headSha))
    ensures HeadIsStaged(h, live)
  {
    SuccessorKeepsSnapshot(h, tested.headSha, live.headSha, blob, tested.snapshot.text);
  }

  /** The record at a staged head. */
  function RecordAt(h: History, head: Sha): Record
    requires head in h.commits && RECORD_PATH in TreeOf(h, head) && TreeOf(h, head)[RECORD_PATH].oid in h.records
  {
    h.records[TreeOf(h, head)[RECORD_PATH].oid]
  }

  /** A head counts as staged only as long as its tree is the tested one outside the record
      path, so any later change of the source ends that. */
  lemma StagedHeadHasTheTestedTree(h: History, i: Identity, head: Sha, text: string)
    requires StableRecordStaged(h, i, head)
    ensures
      var source := RecordAt(h, head).identity.sourceSha;
      && Equivalent(TreeOf(h, source), TreeOf(h, head))
      && (IsText(text, TreeOf(h, source)) <==> IsText(text, TreeOf(h, head)))
    ensures
      var r := RecordAt(h, head).identity;
      && r.pr == i.pr && r.line == i.line && r.baseSha == i.baseSha && r.snapshot == i.snapshot && r.tag == i.tag
      && r.phase.None? && r.buildSha == r.sourceSha
  {
    var blob := TreeOf(h, head)[RECORD_PATH].oid;
    var source := h.records[blob].identity.sourceSha;
    SuccessorIsEquivalent(h, source, head, blob);
    SuccessorKeepsSnapshot(h, source, head, blob, text);
  }

  /** Two heads staged from one source have that source as their only parent and the same
      tree outside the record path, and neither is built on the other, whatever records
      they carry. The same record stands for the same identity. */
  lemma HeadsOfOneSourceAreSiblings(h: History, i: Identity, head: Sha, j: Identity, later: Sha)
    requires IsHistory(h) && StableRecordStaged(h, i, head) && StableRecordStaged(h, j, later)
    requires RecordAt(h, head).identity.sourceSha == RecordAt(h, later).identity.sourceSha
    ensures h.commits[head].parents == h.commits[later].parents == [RecordAt(h, head).identity.sourceSha]
    ensures head !in h.commits[later].parents && later !in h.commits[head].parents
    ensures Equivalent(TreeOf(h, head), TreeOf(h, later))
    ensures RecordAt(h, head) == RecordAt(h, later) ==>
      i.line == j.line && i.pr == j.pr && i.baseSha == j.baseSha && i.snapshot == j.snapshot && i.tag == j.tag
  {
    var source := RecordAt(h, head).identity.sourceSha;
    SuccessorIsEquivalent(h, source, head, TreeOf(h, head)[RECORD_PATH].oid);
    SuccessorIsEquivalent(h, source, later, TreeOf(h, later)[RECORD_PATH].oid);
    assert h.commits[head].parents[0] == source;
  }
}
