/** Which trees share the text that their snapshot is taken of. Git allows newlines in
    paths, and a path with a newline can swallow what would otherwise be whole lines. */
module TreeAmbiguity {
  import opened Text
  import opened Trees

  /** Some tree with different meaningful entries is hashed from the same text. */
  ghost predicate Ambiguous(t: Tree, text: string) {
    exists other :: Valid(other) && IsText(text, other) && !Equivalent(t, other)
  }

  /** Two or more entries outside the allowlist. */
  ghost predicate HasSeveral(t: Tree) {
    exists p, q :: Meaningful(t, p) && Meaningful(t, q) && p != q
  }

  /** A path may hold the whole middle of a text, so every tree with several entries
      shares its text with a tree of one entry. */
  lemma SeveralEntriesAreAmbiguous(t: Tree, text: string)
    requires Valid(t) && IsText(text, t) && HasSeveral(t)
    ensures Ambiguous(t, text)
  {
    var lines :| IsCanonical(lines, t) && text == Join(lines);
    var p, q :| Meaningful(t, p) && Meaningful(t, q) && p != q;
    assert Line(p, t[p]) in lines && Line(q, t[q]) in lines;
    assert Line(p, t[p]) != Line(q, t[q]) by {
      if Line(p, t[p]) == Line(q, t[q]) {
        LineIsInjective(p, t[p], q, t[q]);
      }
    }
    assert |lines| >= 2;
    var path, e := MergedEntry(t, lines);
    var other: Tree := map[path := e];
    assert Lines(other) == {Line(path, e)};
    assert IsCanonical([text], other);
    assert Join([text]) == text by {
      assert [text][1..] == [];
    }
    assert !Equivalent(t, other) by {
      assert p !in other || q !in other;
    }
  }

  /** The entry whose single line is the concatenation of several lines. */
  lemma MergedEntry(t: Tree, lines: seq<string>) returns (path: string, e: Entry)
    requires Valid(t) && IsCanonical(lines, t) && |lines| >= 2
    ensures Bare(e.mode) && Bare(e.oid) && !Allowed(path)
    ensures Line(path, e) == Join(lines)
  {
    assert lines[0] in Lines(t) && lines[|lines| - 1] in Lines(t);
    var p :| p in t && !Allowed(p) && lines[0] == Line(p, t[p]);
    var q :| q in t && !Allowed(q) && lines[|lines| - 1] == Line(q, t[q]);
    var middle := Join(lines[1..|lines| - 1]);
    path := (p + " " + t[p].oid + "\n") + middle + (t[q].mode + " " + q);
    e := Entry(t[p].mode, t[q].oid);
    JoinSplits(lines);
    assert path[|p + " " + t[p].oid|] == '\n';
    assert '\n' !in RECORD_PATH;
    FirstLine(p, t[p]);
    AroundMiddle(t[p].mode + " ", p + " " + t[p].oid + "\n", middle, t[q].mode + " " + q, " " + t[q].oid + "\n");
    MergedLine(path, e);
    MergedLine(q, t[q]);
    assert t[q].mode + " " + q + " " + t[q].oid + "\n" == t[q].mode + " " + q + (" " + t[q].oid + "\n");
  }

  lemma FirstLine(p: string, e: Entry)
    ensures Line(p, e) == (e.mode + " ") + (p + " " + e.oid + "\n")
  {
    AroundMiddle(e.mode + " ", p, " ", e.oid, "\n");
  }

  lemma MergedLine(path: string, e: Entry)
    ensures Line(path, e) == (e.mode + " ") + path + (" " + e.oid + "\n")
  {
  }

  lemma AroundMiddle(a: string, b: string, c: string, d: string, e: string)
    ensures a + (b + c + d) + e == (a + b) + c + (d + e)
    ensures a + b + c + d + e == a + (b + c + d + e)
  {
  }

  lemma {:induction false} JoinSplits(lines: seq<string>)
    requires |lines| >= 2
    ensures Join(lines) == lines[0] + Join(lines[1..|lines| - 1]) + lines[|lines| - 1]
  {
    if |lines| == 2 {
      assert lines[1..][1..] == [] && lines[1..1] == [];
    } else {
      JoinSplits(lines[1..]);
      assert lines[1..][1..|lines| - 2] == lines[2..|lines| - 1] == lines[1..|lines| - 1][1..];
    }
  }

  lemma TwoLinesMeanSeveral(t: Tree, ls: seq<string>)
    requires IsCanonical(ls, t) && |ls| >= 2
    ensures HasSeveral(t)
  {
    LessIsTotal(ls[0], ls[0]);
    assert Less(ls[0], ls[1]);
    assert ls[0] in Lines(t) && ls[1] in Lines(t);
    var p :| p in t && !Allowed(p) && ls[0] == Line(p, t[p]);
    var q :| q in t && !Allowed(q) && ls[1] == Line(q, t[q]);
    assert Meaningful(t, p) && Meaningful(t, q) && p != q;
  }

  predicate EndsLine(line: string) {
    |line| > 0 && line[|line| - 1] == '\n'
  }

  lemma InnerNewline(ms: seq<string>)
    requires |ms| >= 2 && EndsLine(ms[0]) && EndsLine(ms[1])
    ensures |Join(ms)| > |ms[0]| && Join(ms)[|ms[0]| - 1] == '\n'
  {
    assert ms[1..][0] == ms[1];
    assert |Join(ms[1..])| >= |ms[1]|;
  }


  // ------------------------------------------------- splitting the text

  datatype Piece = Piece(path: string, entry: Entry)

  function PieceLines(pieces: seq<Piece>): seq<string> {
    seq(|pieces|, k requires 0 <= k < |pieces| => Line(pieces[k].path, pieces[k].entry))
  }

  /** Two or more entries of one tree, in the order of their lines. */
  ghost predicate AreEntries(pieces: seq<Piece>) {
    && |pieces| >= 2
    && (forall k :: 0 <= k < |pieces| ==>
          Bare(pieces[k].entry.mode) && Bare(pieces[k].entry.oid) && !Allowed(pieces[k].path))
    && (forall j, k :: 0 <= j < k < |pieces| ==> pieces[j].path != pieces[k].path)
    && Increasing(PieceLines(pieces))
  }

  /** The text can be cut, at some of its newlines, into the increasing lines of two or
      more entries with different paths outside the allowlist. */
  ghost predicate Splits(text: string) {
    exists pieces :: AreEntries(pieces) && Join(PieceLines(pieces)) == text
  }

  /** The entries of a tree in the order of its canonical lines. */
  lemma PiecesOf(t: Tree, lines: seq<string>) returns (pieces: seq<Piece>)
    requires Valid(t) && IsCanonical(lines, t)
    ensures PieceLines(pieces) == lines
    ensures forall k :: 0 <= k < |pieces| ==> Meaningful(t, pieces[k].path) && pieces[k].entry == t[pieces[k].path]
  {
    pieces := [];
    for i := 0 to |lines|
      invariant |pieces| == i
      invariant forall k :: 0 <= k < i ==>
        && Meaningful(t, pieces[k].path) && pieces[k].entry == t[pieces[k].path]
        && Line(pieces[k].path, pieces[k].entry) == lines[k]
    {
      assert lines[i] in Lines(t);
      var path :| path in t && !Allowed(path) && lines[i] == Line(path, t[path]);
      pieces := pieces + [Piece(path, t[path])];
    }
  }

  lemma SeveralEntriesSplit(t: Tree, text: string)
    requires Valid(t) && IsText(text, t) && HasSeveral(t)
    ensures Splits(text)
  {
    var lines :| IsCanonical(lines, t) && text == Join(lines);
    var pieces := PiecesOf(t, lines);
    SeveralLines(t, lines);
    forall j, k | 0 <= j < k < |pieces| ensures pieces[j].path != pieces[k].path {
      LessIsTotal(lines[j], lines[k]);
      assert PieceLines(pieces)[j] == lines[j] && PieceLines(pieces)[k] == lines[k];
    }
    assert AreEntries(pieces);
  }

  lemma SeveralLines(t: Tree, lines: seq<string>)
    requires Valid(t) && IsCanonical(lines, t) && HasSeveral(t)
    ensures |lines| >= 2
  {
    var p, q :| Meaningful(t, p) && Meaningful(t, q) && p != q;
    assert Line(p, t[p]) in lines && Line(q, t[q]) in lines;
    if Line(p, t[p]) == Line(q, t[q]) {
      LineIsInjective(p, t[p], q, t[q]);
    }
  }

  /** The tree of the pieces. */
  lemma TreeOfPieces(pieces: seq<Piece>) returns (t: Tree)
    requires AreEntries(pieces)
    ensures Valid(t) && HasSeveral(t) && IsText(Join(PieceLines(pieces)), t)
  {
    t := map[];
    for i := 0 to |pieces|
      invariant forall k :: 0 <= k < i ==> pieces[k].path in t && t[pieces[k].path] == pieces[k].entry
      invariant forall path :: path in t ==> exists k :: 0 <= k < i && pieces[k].path == path
    {
      t := t[pieces[i].path := pieces[i].entry];
    }
    assert Meaningful(t, pieces[0].path) && Meaningful(t, pieces[1].path);
    PiecesAreLines(pieces, t);
  }

  lemma PiecesAreLines(pieces: seq<Piece>, t: Tree)
    requires AreEntries(pieces)
    requires forall k :: 0 <= k < |pieces| ==> pieces[k].path in t && t[pieces[k].path] == pieces[k].entry
    requires forall path :: path in t ==> exists k :: 0 <= k < |pieces| && pieces[k].path == path
    ensures IsText(Join(PieceLines(pieces)), t)
  {
    var lines := PieceLines(pieces);
    forall l ensures l in lines <==> l in Lines(t) {
      if l in lines {
        var k :| 0 <= k < |lines| && lines[k] == l;
        assert l == Line(pieces[k].path, t[pieces[k].path]);
      }
      if l in Lines(t) {
        var path :| path in t && !Allowed(path) && l == Line(path, t[path]);
        var k :| 0 <= k < |pieces| && pieces[k].path == path;
        assert lines[k] == l;
      }
    }
    assert IsCanonical(lines, t);
  }

  /** Two trees with at most one entry each that share a text are equivalent. */
  lemma FewEntriesShareNothing(t: Tree, other: Tree, text: string)
    requires Valid(t) && IsText(text, t) && !HasSeveral(t)
    requires Valid(other) && IsText(text, other) && !HasSeveral(other)
    ensures Equivalent(t, other)
  {
    var ls :| IsCanonical(ls, t) && text == Join(ls);
    var ms :| IsCanonical(ms, other) && text == Join(ms);
    AtMostOneLine(t, ls);
    AtMostOneLine(other, ms);
    assert ls == ms;
    assert forall l :: l in Lines(t) <==> l in Lines(other);
    EqualLinesMeanEquivalent(t, other);
  }

  lemma AtMostOneLine(t: Tree, lines: seq<string>)
    requires Valid(t) && IsCanonical(lines, t) && !HasSeveral(t)
    ensures lines == [] || (lines == [Join(lines)] && Join(lines) != "")
  {
    if |lines| >= 2 {
      TwoLinesMeanSeveral(t, lines);
      assert false;
    }
    if |lines| == 1 {
      assert lines[0] in Lines(t);
      assert lines[1..] == [] && Join(lines) == lines[0];
      assert lines == [lines[0]];
    }
  }

  /** Of all trees: one is hashed from a text that a different tree has too exactly when
      the text splits into the lines of several entries. */
  lemma AmbiguousExactlyWhenSplit(t: Tree, text: string)
    requires Valid(t) && IsText(text, t)
    ensures Ambiguous(t, text) <==> Splits(text)
  {
    if HasSeveral(t) {
      SeveralEntriesAreAmbiguous(t, text);
      SeveralEntriesSplit(t, text);
    } else if Splits(text) {
      var pieces :| AreEntries(pieces) && Join(PieceLines(pieces)) == text;
      var other := TreeOfPieces(pieces);
      var p, q :| Meaningful(other, p) && Meaningful(other, q) && p != q;
      assert Equivalent(t, other) ==> Meaningful(t, p) && Meaningful(t, q);
    } else {
      forall other | Valid(other) && IsText(text, other) ensures Equivalent(t, other) {
        if HasSeveral(other) {
          SeveralEntriesSplit(other, text);
          assert false;
        }
        FewEntriesShareNothing(t, other, text);
      }
    }
  }

  /** A tree without newlines in paths: exactly when it has two or more entries. */
  lemma AmbiguousExactlyWhenSeveral(t: Tree, text: string)
    requires Valid(t) && NewlineFree(t) && IsText(text, t)
    ensures Ambiguous(t, text) <==> HasSeveral(t)
  {
    if HasSeveral(t) {
      SeveralEntriesAreAmbiguous(t, text);
    } else {
      AmbiguousExactlyWhenSplit(t, text);
      if Splits(text) {
        OneLineDoesNotSplit(t, text);
        assert false;
      }
    }
  }

  lemma OneLineDoesNotSplit(t: Tree, text: string)
    requires Valid(t) && NewlineFree(t) && IsText(text, t) && !HasSeveral(t)
    ensures !Splits(text)
  {
    var ls :| IsCanonical(ls, t) && text == Join(ls);
    AtMostOneLine(t, ls);
    CanonicalLinesAreLines(t, ls);
    forall pieces | AreEntries(pieces) ensures Join(PieceLines(pieces)) != text {
      InnerNewline(PieceLines(pieces));
      assert ls != [] ==> ls[0] == text;
    }
  }

  // ------------------------------------------------------------ a witness

  lemma {:induction false} LessAfter(front: string, a: string, b: string)
    requires Less(a, b)
    ensures Less(front + a, front + b)
  {
    if front == "" {
      assert front + a == a && front + b == b;
    } else {
      LessAfter(front[1..], a, b);
      assert (front + a)[1..] == front[1..] + a && (front + b)[1..] == front[1..] + b;
    }
  }

  lemma OneEntryText(p: string, e: Entry)
    requires !Allowed(p)
    ensures IsText(Line(p, e), map[p := e])
  {
    var t: Tree := map[p := e];
    assert Lines(t) == {Line(p, e)};
    assert IsCanonical([Line(p, e)], t);
    assert [Line(p, e)][1..] == [] && Join([Line(p, e)]) == Line(p, e);
  }

  lemma TwoEntryText(p: string, e: Entry, q: string, f: Entry)
    requires !Allowed(p) && !Allowed(q) && p != q && Less(Line(p, e), Line(q, f))
    ensures IsText(Line(p, e) + Line(q, f), map[p := e, q := f])
  {
    var t: Tree := map[p := e, q := f];
    var lines := [Line(p, e), Line(q, f)];
    forall l ensures l in lines <==> l in Lines(t) {
      assert t[p] == e && t[q] == f;
    }
    assert IsCanonical(lines, t);
    assert lines[1..] == [Line(q, f)] && [Line(q, f)][1..] == [] && Join([Line(q, f)]) == Line(q, f);
    assert Join(lines) == Line(p, e) + Line(q, f);
  }

  /** Two files, and one file whose name holds the middle of their text. */
  lemma SharedTextExample()
    ensures
      var one, two := Entry("100644", "1"), Entry("100644", "2");
      var a: Tree, b: Tree := map["a" := one, "b" := two], map["a 1\n100644 b" := two];
      && IsText("100644 a 1\n100644 b 2\n", a) && IsText("100644 a 1\n100644 b 2\n", b)
      && !Equivalent(a, b) && NewlineFree(a) && !HasSeveral(b)
  {
    var one, two := Entry("100644", "1"), Entry("100644", "2");
    ExampleLines();
    TwoEntryText("a", one, "b", two);
    OneEntryText("a 1\n100644 b", two);
    var a: Tree, b: Tree := map["a" := one, "b" := two], map["a 1\n100644 b" := two];
    assert "a" in a && "a" !in b;
  }

  lemma ExampleText()
    ensures
      var one, two := Entry("100644", "1"), Entry("100644", "2");
      && Line("a", one) + Line("b", two) == "100644 a 1\n100644 b 2\n"
      && Line("a 1\n100644 b", two) == "100644 a 1\n100644 b 2\n"
  {
  }

  lemma ExampleLines()
    ensures
      var one, two := Entry("100644", "1"), Entry("100644", "2");
      && Line("a", one) + Line("b", two) == Line("a 1\n100644 b", two) == "100644 a 1\n100644 b 2\n"
      && Less(Line("a", one), Line("b", two))
      && !Allowed("a") && !Allowed("b") && !Allowed("a 1\n100644 b")
  {
    ExampleText();
    var a, b := "a" + (" " + "1" + "\n"), "b" + (" " + "2" + "\n");
    assert a[0] == 'a' && b[0] == 'b';
    LessAfter("100644" + " ", a, b);
    FrontOf("a", Entry("100644", "1"));
    FrontOf("b", Entry("100644", "2"));
  }

  lemma FrontOf(path: string, e: Entry)
    ensures Line(path, e) == (e.mode + " ") + (path + (" " + e.oid + "\n"))
  {
  }
}
