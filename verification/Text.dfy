/** Code-point order on strings and sorting by it. */
module Text {

  /** Lexicographic order by code point. */
  predicate Less(a: string, b: string) {
    b != [] && (a == [] || a[0] < b[0] || (a[0] == b[0] && Less(a[1..], b[1..])))
  }

  lemma {:induction false} LessIsTotal(a: string, b: string)
    ensures Less(a, b) || Less(b, a) || a == b
    ensures !(Less(a, b) && Less(b, a)) && !Less(a, a)
  {
    if a != [] {
      LessIsTotal(a[1..], a[1..]);
    }
    if a != [] && b != [] && a[0] == b[0] {
      LessIsTotal(a[1..], b[1..]);
      assert a == [a[0]] + a[1..] && b == [b[0]] + b[1..];
    }
  }

  lemma {:induction false} LessIsTransitive(a: string, b: string, c: string)
    requires Less(a, b) && Less(b, c)
    ensures Less(a, c)
  {
    if a != [] && a[0] == b[0] && b[0] == c[0] {
      LessIsTransitive(a[1..], b[1..], c[1..]);
    }
  }

  /** Strictly increasing, so without repetitions. */
  ghost predicate Increasing(lines: seq<string>) {
    forall i, j :: 0 <= i < j < |lines| ==> Less(lines[i], lines[j])
  }

  /** Inserts a line into a sorted list that does not contain it. */
  function Insert(line: string, sorted: seq<string>): (r: seq<string>)
    requires Increasing(sorted) && line !in sorted
    ensures Increasing(r)
    ensures forall x :: x in r <==> x == line || x in sorted
    ensures |r| == |sorted| + 1
  {
    if sorted == [] then [line]
    else
      LessIsTotal(line, sorted[0]);
      if Less(line, sorted[0]) then
        assert forall j :: 0 <= j < |sorted| ==> Less(line, sorted[j]) by {
          forall j | 0 < j < |sorted| ensures Less(line, sorted[j]) {
            LessIsTransitive(line, sorted[0], sorted[j]);
          }
        }
        [line] + sorted
      else
        var rest := Insert(line, sorted[1..]);
        assert forall x :: x in rest ==> Less(sorted[0], x);
        [sorted[0]] + rest
  }

  /** Sorts lines that are pairwise different. */
  function Sort(lines: seq<string>): (r: seq<string>)
    requires forall i, j :: 0 <= i < j < |lines| ==> lines[i] != lines[j]
    ensures Increasing(r)
    ensures forall x :: x in r <==> x in lines
    ensures |r| == |lines|
  {
    if lines == [] then [] else Insert(lines[0], Sort(lines[1..]))
  }

  /** An increasing list is determined by its elements. */
  lemma {:induction false} IncreasingIsUnique(a: seq<string>, b: seq<string>)
    requires Increasing(a) && Increasing(b) && forall x :: x in a <==> x in b
    ensures a == b
  {
    assert a != [] ==> a[0] in a;
    assert b != [] ==> b[0] in b;
    if a != [] {
      assert a[0] in b && b[0] in a;
      LessIsTotal(a[0], b[0]);
      forall x ensures x in a[1..] <==> x in b[1..] {
        LessIsTotal(a[0], a[0]);
        assert x in a <==> x == a[0] || x in a[1..];
        assert x in b <==> x == b[0] || x in b[1..];
      }
      IncreasingIsUnique(a[1..], b[1..]);
    }
  }

  function Join(lines: seq<string>): string {
    if lines == [] then "" else lines[0] + Join(lines[1..])
  }

  /** Exactly one newline, at the end. */
  predicate IsLine(line: string) {
    && |line| > 0
    && line[|line| - 1] == '\n'
    && forall k :: 0 <= k < |line| - 1 ==> line[k] != '\n'
  }

  /** Concatenated lines split in one way only. */
  lemma {:induction false} JoinIsInjective(a: seq<string>, b: seq<string>)
    requires forall k :: 0 <= k < |a| ==> IsLine(a[k])
    requires forall k :: 0 <= k < |b| ==> IsLine(b[k])
    requires Join(a) == Join(b)
    ensures a == b
  {
    assert a != [] ==> IsLine(a[0]) && |Join(a)| >= |a[0]|;
    assert b != [] ==> IsLine(b[0]) && |Join(b)| >= |b[0]|;
    if a != [] && b != [] {
      var t := Join(a);
      assert t[..|a[0]|] == a[0] && t[..|b[0]|] == b[0];
      assert |a[0]| == |b[0]| by {
        assert t[|a[0]| - 1] == '\n' && t[|b[0]| - 1] == '\n';
        assert forall k :: 0 <= k < |a[0]| - 1 ==> t[k] == a[0][k];
        assert forall k :: 0 <= k < |b[0]| - 1 ==> t[k] == b[0][k];
      }
      assert t[|a[0]|..] == Join(a[1..]) && t[|b[0]|..] == Join(b[1..]);
      JoinIsInjective(a[1..], b[1..]);
    }
  }

  lemma Regroup<T>(a: seq<T>, b: seq<T>, c: seq<T>)
    ensures a + (b + c) == (a + b) + c
  {
  }
}
