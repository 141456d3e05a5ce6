/** Source equivalence of Git trees: the canonical text that the snapshot digest is
    taken of, and the comparison that lists differences, decide the same relation on
    trees without newlines in their paths. The digest itself is taken as injective. */
module Trees {
  import opened Text

  /** A tree entry: file mode and object name. */
  datatype Entry = Entry(mode: string, oid: string)

  type Tree = map<string, Entry>

  const RECORD_PATH := "packaging/release-candidate.json"

  /** The generated paths that source equivalence ignores. */
  predicate Allowed(path: string) {
    path == RECORD_PATH
  }

  /** No separator occurs in a mode or an object name. */
  predicate Bare(word: string) {
    ' ' !in word && '\n' !in word
  }

  ghost predicate Valid(t: Tree) {
    forall path :: path in t ==> Bare(t[path].mode) && Bare(t[path].oid)
  }

  ghost predicate NewlineFree(t: Tree) {
    forall path :: path in t ==> '\n' !in path
  }

  predicate Meaningful(t: Tree, path: string) {
    path in t && !Allowed(path)
  }

  /** The two trees agree on every path outside the allowlist. */
  ghost predicate Equivalent(a: Tree, b: Tree) {
    forall path :: !Allowed(path) ==>
      (path in a <==> path in b) && (path in a && path in b ==> a[path] == b[path])
  }

  // ----------------------------------------------------------- the lines

  function Line(path: string, e: Entry): string {
    e.mode + " " + path + " " + e.oid + "\n"
  }

  function Lines(t: Tree): set<string> {
    LinesOf(t, t.Keys)
  }

  function LinesOf(t: Tree, paths: set<string>): set<string> {
    set path | path in paths && path in t && !Allowed(path) :: Line(path, t[path])
  }

  /** The lines of the tree in the order they are hashed. */
  ghost predicate IsCanonical(lines: seq<string>, t: Tree) {
    Increasing(lines) && forall l :: l in lines <==> l in Lines(t)
  }

  /** `text` is what meaningful_tree hashes. */
  ghost predicate IsText(text: string, t: Tree) {
    exists lines :: IsCanonical(lines, t) && text == Join(lines)
  }

  /** A line names its entry: the first and the last space delimit the path. */
  lemma LineIsInjective(p: string, e: Entry, q: string, f: Entry)
    requires Bare(e.mode) && Bare(e.oid) && Bare(f.mode) && Bare(f.oid)
    requires Line(p, e) == Line(q, f)
    ensures p == q && e == f
  {
    var l := Line(p, e);
    assert |e.mode| == |f.mode| by {
      assert l[|e.mode|] == ' ' && l[|f.mode|] == ' ';
      assert forall k :: 0 <= k < |e.mode| ==> l[k] == e.mode[k] && l[k] != ' ';
      assert forall k :: 0 <= k < |f.mode| ==> l[k] == f.mode[k] && l[k] != ' ';
    }
    LineTail(p, e);
    LineTail(q, f);
    assert |e.oid| == |f.oid| by {
      var i, j := |l| - 2 - |e.oid|, |l| - 2 - |f.oid|;
      assert l[i] == ' ' && l[j] == ' ';
    }
    assert l[..|e.mode|] == e.mode && l[..|f.mode|] == f.mode;
    assert l[|e.mode| + 1..|l| - 2 - |e.oid|] == p && l[|f.mode| + 1..|l| - 2 - |f.oid|] == q;
    assert l[|l| - 1 - |e.oid|..|l| - 1] == e.oid && l[|l| - 1 - |f.oid|..|l| - 1] == f.oid;
  }

  /** After the last space of a line only the object name is left. */
  lemma LineTail(p: string, e: Entry)
    requires Bare(e.oid)
    ensures
      var l := Line(p, e);
      && l[|l| - 2 - |e.oid|] == ' '
      && forall k :: |l| - 2 - |e.oid| < k < |l| ==> l[k] != ' '
  {
    var l := Line(p, e);
    var start := |l| - 1 - |e.oid|;
    assert l[start..|l| - 1] == e.oid;
    forall k | start <= k < |l| - 1 ensures l[k] != ' ' {
      assert l[k] == e.oid[k - start];
    }
  }

  lemma LineIsLine(p: string, e: Entry)
    requires Bare(e.mode) && Bare(e.oid) && '\n' !in p
    ensures IsLine(Line(p, e))
  {
    var l := Line(p, e);
    var front := e.mode + " " + p + " " + e.oid;
    assert l == front + "\n";
    assert forall k :: 0 <= k < |front| ==>
      front[k] in e.mode || front[k] == ' ' || front[k] in p || front[k] in e.oid;
  }

  /** What is hashed of a file, and of the file of the record. */
  lemma LinesExample()
    ensures
      var t := map["a b" := Entry("100644", "0f"), RECORD_PATH := Entry("100644", "1f")];
      IsText("100644 a b 0f\n", t)
  {
    var t := map["a b" := Entry("100644", "0f"), RECORD_PATH := Entry("100644", "1f")];
    var line := "100644 a b 0f\n";
    assert t["a b"] == Entry("100644", "0f") && Line("a b", t["a b"]) == line;
    assert "a b" in t && !Allowed("a b") && Allowed(RECORD_PATH);
    forall l ensures l in Lines(t) <==> l == line {
    }
    assert [line][1..] == [] && IsCanonical([line], t) && Join([line]) == line;
  }

  // ---------------------------------------------------------- the methods

  /** A path not yet visited has a line of its own. */
  lemma NewLine(t: Tree, done: set<string>, path: string)
    requires Valid(t) && path in t && path !in done && !Allowed(path)
    ensures Line(path, t[path]) !in LinesOf(t, done)
    ensures LinesOf(t, done + {path}) == LinesOf(t, done) + {Line(path, t[path])}
  {
    forall other | other in t && other in done ensures Line(other, t[other]) != Line(path, t[path]) {
      if Line(other, t[other]) == Line(path, t[path]) {
        LineIsInjective(other, t[other], path, t[path]);
      }
    }
  }

  ghost predicate AllDifferent(lines: seq<string>) {
    forall i, j :: 0 <= i < j < |lines| ==> lines[i] != lines[j]
  }

  /** The lines of the paths done so far, each once. */
  ghost predicate HoldsLines(lines: seq<string>, t: Tree, done: set<string>) {
    AllDifferent(lines) && forall l :: l in lines <==> l in LinesOf(t, done)
  }

  lemma NextPath(lines: seq<string>, t: Tree, done: set<string>, path: string)
    requires Valid(t) && path in t && path !in done && HoldsLines(lines, t, done)
    ensures Allowed(path) ==> HoldsLines(lines, t, done + {path})
    ensures !Allowed(path) ==> HoldsLines(lines + [Line(path, t[path])], t, done + {path})
  {
    if Allowed(path) {
      assert LinesOf(t, done + {path}) == LinesOf(t, done);
    } else {
      NewLine(t, done, path);
    }
  }

  /** meaningful_tree: one line for each entry outside the allowlist, sorted and joined. */
  method MeaningfulTree(t: Tree) returns (text: string)
    requires Valid(t)
    ensures IsText(text, t)
  {
    var canonical: seq<string> := [];
    var left := t.Keys;
    ghost var done: set<string> := {};
    while left != {}
      invariant left + done == t.Keys && left !! done
      invariant HoldsLines(canonical, t, done)
      decreases |left|
    {
      var path :| path in left;
      left := left - {path};
      NextPath(canonical, t, done, path);
      if !Allowed(path) {
        canonical := canonical + [Line(path, t[path])];
      }
      done := done + {path};
    }
    assert done == t.Keys;
    var sorted := Sort(canonical);
    assert IsCanonical(sorted, t);
    text := Join(sorted);
  }

  datatype Difference = Added(path: string) | Removed(path: string) | Changed(path: string)

  /** The difference compare reports for a path outside the allowlist. */
  predicate Reports(d: Difference, base: Tree, head: Tree) {
    && !Allowed(d.path)
    && match d
       case Added(path) => path !in base && path in head
       case Removed(path) => path in base && path !in head
       case Changed(path) => path in base && path in head && base[path] != head[path]
  }

  /** Enumerates a set of paths in sorted order. */
  method SortedPaths(paths: set<string>) returns (sorted: seq<string>)
    ensures Increasing(sorted)
    ensures forall x :: x in sorted <==> x in paths
  {
    var listed: seq<string> := [];
    var left := paths;
    while left != {}
      invariant left <= paths
      invariant forall x :: x in listed <==> x in paths && x !in left
      invariant forall i, j :: 0 <= i < j < |listed| ==> listed[i] != listed[j]
      decreases |left|
    {
      var x :| x in left;
      left := left - {x};
      listed := listed + [x];
    }
    sorted := Sort(listed);
  }

  /** The differences at the first i paths, in their order. */
  ghost predicate ReportsUpTo(differences: seq<Difference>, base: Tree, head: Tree, paths: seq<string>, i: nat)
    requires i <= |paths|
  {
    && (forall d :: d in differences <==> Reports(d, base, head) && d.path in paths[..i])
    && forall j, k :: 0 <= j < k < |differences| ==> Less(differences[j].path, differences[k].path)
  }

  /** The difference at a path, if there is one. */
  function DifferenceAt(base: Tree, head: Tree, path: string): (found: seq<Difference>)
    ensures forall d :: d in found <==> Reports(d, base, head) && d.path == path
    ensures |found| <= 1
  {
    if Allowed(path) || (path !in base && path !in head) then []
    else if path in base && path in head && base[path] == head[path] then []
    else [if path !in base then Added(path) else if path !in head then Removed(path) else Changed(path)]
  }

  lemma ReportNext(differences: seq<Difference>, base: Tree, head: Tree, paths: seq<string>, i: nat)
    requires i < |paths| && Increasing(paths) && ReportsUpTo(differences, base, head, paths, i)
    ensures ReportsUpTo(differences + DifferenceAt(base, head, paths[i]), base, head, paths, i + 1)
  {
    var path, found := paths[i], DifferenceAt(base, head, paths[i]);
    assert paths[..i + 1] == paths[..i] + [path];
    forall d ensures d in differences + found <==> Reports(d, base, head) && d.path in paths[..i + 1] {
    }
    forall j | 0 <= j < |differences| ensures Less(differences[j].path, path) {
      assert differences[j] in differences;
    }
  }

  /** compare: every difference outside the allowlist, once, in path order. */
  method Compare(base: Tree, head: Tree) returns (differences: seq<Difference>)
    ensures forall d :: d in differences <==> Reports(d, base, head)
    ensures forall path :: Added(path) in differences <==> path != RECORD_PATH && path in head && path !in base
    ensures forall path :: Removed(path) in differences <==> path != RECORD_PATH && path in base && path !in head
    ensures forall path :: Changed(path) in differences <==>
      path != RECORD_PATH && path in base && path in head && base[path] != head[path]
    ensures forall i, j :: 0 <= i < j < |differences| ==> Less(differences[i].path, differences[j].path)
    ensures differences == [] <==> Equivalent(base, head)
  {
    differences := [];
    var paths := SortedPaths(base.Keys + head.Keys);
    for i := 0 to |paths|
      invariant ReportsUpTo(differences, base, head, paths, i)
    {
      var path := paths[i];
      assert path in paths;
      ReportNext(differences, base, head, paths, i);
      assert differences + [] == differences;
      if Allowed(path) {
        continue;
      }
      if path in base && path in head && base[path] == head[path] {
        continue;
      }
      var difference := if path !in base then Added(path) else if path !in head then Removed(path) else Changed(path);
      differences := differences + [difference];
    }
    ReportsAll(differences, base, head, paths);
    ReportsByKind(differences, base, head);
  }

  lemma ReportsByKind(differences: seq<Difference>, base: Tree, head: Tree)
    requires forall d :: d in differences <==> Reports(d, base, head)
    ensures forall path :: Added(path) in differences <==> path != RECORD_PATH && path in head && path !in base
    ensures forall path :: Removed(path) in differences <==> path != RECORD_PATH && path in base && path !in head
    ensures forall path :: Changed(path) in differences <==>
      path != RECORD_PATH && path in base && path in head && base[path] != head[path]
  {
  }

  lemma ReportsAll(differences: seq<Difference>, base: Tree, head: Tree, paths: seq<string>)
    requires forall path :: path in base || path in head ==> path in paths
    requires ReportsUpTo(differences, base, head, paths, |paths|)
    ensures forall d :: d in differences <==> Reports(d, base, head)
    ensures differences == [] <==> Equivalent(base, head)
  {
    assert paths[..|paths|] == paths;
    assert forall d :: Reports(d, base, head) ==> d.path in paths;
    NoReportMeansEquivalent(base, head);
    assert differences != [] ==> differences[0] in differences;
  }

  lemma NoReportMeansEquivalent(base: Tree, head: Tree)
    ensures (forall d :: !Reports(d, base, head)) <==> Equivalent(base, head)
  {
    if forall d :: !Reports(d, base, head) {
      forall path | !Allowed(path)
        ensures (path in base <==> path in head) && (path in base && path in head ==> base[path] == head[path])
      {
        assert !Reports(Added(path), base, head) && !Reports(Removed(path), base, head);
        assert !Reports(Changed(path), base, head);
      }
    }
  }

  // ------------------------------------------------- the same relation

  lemma EqualLinesMeanEquivalent(a: Tree, b: Tree)
    requires Valid(a) && Valid(b)
    ensures Lines(a) == Lines(b) <==> Equivalent(a, b)
  {
    if Lines(a) == Lines(b) {
      forall path | !Allowed(path)
        ensures (path in a <==> path in b) && (path in a && path in b ==> a[path] == b[path])
      {
        SharedEntry(a, b, path);
        SharedEntry(b, a, path);
      }
    } else {
      assert !Equivalent(a, b) by {
        if Equivalent(a, b) {
          SharedLines(a, b);
        }
      }
    }
  }

  lemma SharedLines(a: Tree, b: Tree)
    requires Equivalent(a, b)
    ensures Lines(a) == Lines(b)
  {
    forall l ensures l in Lines(a) <==> l in Lines(b) {
      if l in Lines(a) {
        var path :| path in a && !Allowed(path) && l == Line(path, a[path]);
        assert path in b && l == Line(path, b[path]);
      }
      if l in Lines(b) {
        var path :| path in b && !Allowed(path) && l == Line(path, b[path]);
        assert path in a && l == Line(path, a[path]);
      }
    }
  }

  lemma SharedEntry(a: Tree, b: Tree, path: string)
    requires Valid(a) && Valid(b) && Lines(a) == Lines(b) && !Allowed(path)
    ensures path in a ==> path in b && b[path] == a[path]
  {
    if path in a {
      assert Line(path, a[path]) in Lines(b);
      var other :| other in b && !Allowed(other) && Line(other, b[other]) == Line(path, a[path]);
      LineIsInjective(other, b[other], path, a[path]);
    }
  }

  /** On trees without newlines in paths the hashed text and the comparison agree. */
  lemma TextDecidesEquivalence(a: Tree, b: Tree, x: string, y: string)
    requires Valid(a) && Valid(b) && NewlineFree(a) && NewlineFree(b)
    requires IsText(x, a) && IsText(y, b)
    ensures x == y <==> Equivalent(a, b)
  {
    var ls :| IsCanonical(ls, a) && x == Join(ls);
    var ms :| IsCanonical(ms, b) && y == Join(ms);
    EqualLinesMeanEquivalent(a, b);
    if Equivalent(a, b) {
      IncreasingIsUnique(ls, ms);
    }
    if x == y {
      CanonicalLinesAreLines(a, ls);
      CanonicalLinesAreLines(b, ms);
      JoinIsInjective(ls, ms);
      assert forall l :: l in Lines(a) <==> l in Lines(b);
    }
  }

  lemma CanonicalLinesAreLines(t: Tree, lines: seq<string>)
    requires Valid(t) && NewlineFree(t) && IsCanonical(lines, t)
    ensures forall k :: 0 <= k < |lines| ==> IsLine(lines[k])
  {
    forall k | 0 <= k < |lines| ensures IsLine(lines[k]) {
      assert lines[k] in Lines(t);
      var path :| path in t && !Allowed(path) && lines[k] == Line(path, t[path]);
      LineIsLine(path, t[path]);
    }
  }
}
