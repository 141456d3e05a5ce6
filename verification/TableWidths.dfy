/** Column widths of the analysis table. The quotient that shares out spare width is
    taken as exact floor division. */
module TableWidths {

  /** Smallest and natural width of one cell. */
  datatype Cell = Cell(min: nat, max: nat)

  /** Of one column: largest cell minimum, largest cell width, sum of cell widths. */
  datatype Bounds = Bounds(min: nat, max: nat, sum: nat)

  function Max(a: nat, b: nat): nat {
    if a >= b then a else b
  }

  ghost predicate CellsOk(table: seq<seq<Cell>>) {
    forall r, c :: 0 <= r < |table| && 0 <= c < |table[r]| ==> table[r][c].min <= table[r][c].max
  }

  /** The natural widths in a column; a short row counts as an empty cell. */
  ghost function CellWidths(table: seq<seq<Cell>>, c: nat): seq<nat> {
    seq(|table|, r requires 0 <= r < |table| => if c < |table[r]| then table[r][c].max else 0)
  }

  /** The fold over the cells of a column; a short row counts as an empty cell. */
  function ColumnBounds(table: seq<seq<Cell>>, c: nat): (b: Bounds)
    ensures CellsOk(table) ==> b.min <= b.max <= b.sum
    ensures forall r :: 0 <= r < |table| && c < |table[r]| ==> table[r][c].min <= b.min && table[r][c].max <= b.max
  {
    if table == [] then Bounds(0, 0, 0)
    else
      var before := ColumnBounds(table[..|table| - 1], c);
      var row := table[|table| - 1];
      assert CellsOk(table) ==> CellsOk(table[..|table| - 1]);
      assert forall r :: 0 <= r < |table| - 1 ==> table[..|table| - 1][r] == table[r];
      var cell := if c < |row| then row[c] else Cell(0, 0);
      Bounds(Max(before.min, cell.min), Max(before.max, cell.max), before.sum + cell.max)
  }

  /** The bounds are no larger than some cell's. */
  lemma {:induction false} BoundsAreReached(table: seq<seq<Cell>>, c: nat)
    ensures
      var b := ColumnBounds(table, c);
      && (b.min == 0 || exists r :: 0 <= r < |table| && c < |table[r]| && table[r][c].min == b.min)
      && (b.max == 0 || exists r :: 0 <= r < |table| && c < |table[r]| && table[r][c].max == b.max)
  {
    if table != [] {
      var front, row := table[..|table| - 1], table[|table| - 1];
      BoundsAreReached(front, c);
      assert forall r :: 0 <= r < |front| ==> front[r] == table[r];
      assert table[|front|] == row;
    }
  }

  /** The sum is that of all cell widths of the column. */
  lemma {:induction false} SumOfColumn(table: seq<seq<Cell>>, c: nat)
    ensures ColumnBounds(table, c).sum == Sum(CellWidths(table, c))
  {
    if table != [] {
      SumOfColumn(table[..|table| - 1], c);
      assert CellWidths(table, c)[..|table| - 1] == CellWidths(table[..|table| - 1], c);
    }
  }

  // ---------------------------------------------------------------- sums

  function Sum(s: seq<nat>): nat {
    if s == [] then 0 else Sum(s[..|s| - 1]) + s[|s| - 1]
  }

  function Mins(bounds: seq<Bounds>): seq<nat> {
    seq(|bounds|, i requires 0 <= i < |bounds| => bounds[i].min)
  }

  function Maxes(bounds: seq<Bounds>): seq<nat> {
    seq(|bounds|, i requires 0 <= i < |bounds| => bounds[i].max)
  }

  function Sums(bounds: seq<Bounds>): seq<nat> {
    seq(|bounds|, i requires 0 <= i < |bounds| => bounds[i].sum)
  }

  lemma {:induction false} SumAppend(s: seq<nat>, x: nat)
    ensures Sum(s + [x]) == Sum(s) + x
  {
    assert (s + [x])[..|s|] == s;
  }

  lemma SumPrefix(s: seq<nat>, i: nat)
    requires i < |s|
    ensures Sum(s[..i + 1]) == Sum(s[..i]) + s[i]
  {
    SumAppend(s[..i], s[i]);
    assert s[..i + 1] == s[..i] + [s[i]];
  }

  lemma {:induction false} SumUpdate(s: seq<nat>, k: nat, x: nat)
    requires k < |s|
    ensures Sum(s[k := x]) + s[k] == Sum(s) + x
  {
    var t := s[k := x];
    if k == |s| - 1 {
      assert t[..|s| - 1] == s[..|s| - 1];
    } else {
      SumUpdate(s[..|s| - 1], k, x);
      assert t[..|s| - 1] == s[..|s| - 1][k := x];
    }
  }

  lemma {:induction false} SumIsMonotone(a: seq<nat>, b: seq<nat>)
    requires |a| == |b| && forall k :: 0 <= k < |a| ==> a[k] <= b[k]
    ensures Sum(a) <= Sum(b)
  {
    if a != [] {
      SumIsMonotone(a[..|a| - 1], b[..|b| - 1]);
    }
  }

  lemma {:induction false} SumBounds(s: seq<nat>, k: nat)
    requires k < |s|
    ensures s[k] <= Sum(s)
  {
    if k < |s| - 1 {
      SumBounds(s[..|s| - 1], k);
    }
  }

  /** Fewer in total means fewer somewhere. */
  lemma {:induction false} SmallerSomewhere(a: seq<nat>, b: seq<nat>) returns (k: nat)
    requires |a| == |b| && Sum(a) < Sum(b)
    ensures k < |a| && a[k] < b[k]
  {
    k := |a| - 1;
    if a[k] >= b[k] {
      k := SmallerSomewhere(a[..|a| - 1], b[..|b| - 1]);
    }
  }

  // ------------------------------------------------------------ shares

  /** What a column receives of the spare width. */
  function Share(spare: nat, sum: nat, total: nat): nat
    requires total > 0
  {
    spare * sum / total
  }

  function Shares(spare: nat, sums: seq<nat>, total: nat): seq<nat>
    requires total > 0
  {
    seq(|sums|, i requires 0 <= i < |sums| => Share(spare, sums[i], total))
  }

  /** The share is the quotient without its fraction: with one unit more it would exceed
      what is due in proportion to the sums. */
  ghost predicate IsFloor(share: int, spare: nat, sum: nat, total: nat) {
    share >= 0 && total * share <= spare * sum < total * (share + 1)
  }

  lemma ShareIsFloor(spare: nat, sum: nat, total: nat)
    requires total > 0
    ensures total * Share(spare, sum, total) <= spare * sum < total * (Share(spare, sum, total) + 1)
  {
    var n := spare * sum;
    assert n == total * (n / total) + n % total;
    Distribute2(total, n / total, 1);
  }

  /** So much, taken total times, is at most what is due. */
  ghost predicate StaysWithin(spare: nat, due: nat, total: nat, shared: nat) {
    total * shared <= spare * due
  }

  /** With n units more, it is at least n more than what is due. */
  ghost predicate ReachesWith(spare: nat, due: nat, total: nat, shared: nat, n: nat) {
    spare * due + n <= total * (shared + n)
  }

  lemma {:induction false} SharesFit(spare: nat, sums: seq<nat>, total: nat)
    requires total > 0
    ensures StaysWithin(spare, Sum(sums), total, Sum(Shares(spare, sums, total)))
  {
    if sums != [] {
      var front := sums[..|sums| - 1];
      SharesFit(spare, front, total);
      var all := Shares(spare, sums, total);
      assert all[..|sums| - 1] == Shares(spare, front, total);
      ShareIsFloor(spare, sums[|sums| - 1], total);
      Distribute2(total, Sum(all[..|sums| - 1]), all[|sums| - 1]);
      Distribute2(spare, Sum(front), sums[|sums| - 1]);
    }
  }

  lemma Distribute2(a: nat, b: nat, c: nat)
    ensures a * (b + c) == a * b + a * c
  {
  }

  /** Each share falls short of its due by less than one unit. */
  lemma {:induction false} SharesReach(spare: nat, sums: seq<nat>, total: nat)
    requires total > 0
    ensures ReachesWith(spare, Sum(sums), total, Sum(Shares(spare, sums, total)), |sums|)
  {
    if sums != [] {
      var front, all := sums[..|sums| - 1], Shares(spare, sums, total);
      SharesReach(spare, front, total);
      assert all[..|sums| - 1] == Shares(spare, front, total);
      ShareIsFloor(spare, sums[|sums| - 1], total);
      Distribute2(total, Sum(all[..|sums| - 1]) + |front|, all[|sums| - 1] + 1);
      Distribute2(spare, Sum(front), sums[|sums| - 1]);
    }
  }

  /** Shares in proportion to the sums never exceed what is shared, and leave fewer units
      than there are columns. */
  lemma SharesDoNotExceed(spare: nat, sums: seq<nat>)
    requires Sum(sums) > 0
    ensures Sum(Shares(spare, sums, Sum(sums))) <= spare < Sum(Shares(spare, sums, Sum(sums))) + |sums|
  {
    SharesFit(spare, sums, Sum(sums));
    SharesReach(spare, sums, Sum(sums));
    CancelBoth(Sum(sums), Sum(Shares(spare, sums, Sum(sums))), spare, |sums|);
  }

  lemma CancelBoth(total: nat, shared: nat, spare: nat, n: nat)
    requires total > 0 && n > 0
    requires StaysWithin(spare, total, total, shared) && ReachesWith(spare, total, total, shared, n)
    ensures shared <= spare < shared + n
  {
    CancelFactor(total, shared, spare);
    CancelStrictly(total, spare, shared + n);
  }

  lemma CancelStrictly(total: nat, a: nat, b: nat)
    requires a * total < total * b
    ensures a < b
  {
    if b <= a {
      MulIsMonotone(total, b, a);
    }
  }

  lemma CancelFactor(total: nat, a: nat, b: nat)
    requires total > 0 && total * a <= b * total
    ensures a <= b
  {
    Distribute2(total, b, 1);
    if a > b {
      MulIsMonotone(total, b + 1, a);
    }
  }

  lemma MulIsMonotone(total: nat, a: nat, b: nat)
    requires a <= b
    ensures total * a <= total * b
  {
  }

  // ------------------------------------------------------------- widths

  ghost predicate BoundsOk(bounds: seq<Bounds>) {
    |bounds| > 0 && forall i :: 0 <= i < |bounds| ==> bounds[i].min <= bounds[i].max <= bounds[i].sum
  }

  /** max_by_key: the last column with the greatest minimum. */
  function Widest(bounds: seq<Bounds>): (k: nat)
    requires |bounds| > 0
    ensures k < |bounds|
    ensures forall i :: 0 <= i < |bounds| ==> bounds[i].min <= bounds[k].min
    ensures forall i :: k < i < |bounds| ==> bounds[i].min < bounds[k].min
  {
    if |bounds| == 1 then 0
    else
      var before := Widest(bounds[..|bounds| - 1]);
      if bounds[before].min <= bounds[|bounds| - 1].min then |bounds| - 1 else before
  }

  lemma SharesAreFloors(bounds: seq<Bounds>, spare: nat, total: nat, widths: seq<nat>)
    requires total > 0 && |widths| == |bounds|
    requires forall i :: 0 <= i < |bounds| ==> widths[i] == bounds[i].min + Share(spare, bounds[i].sum, total)
    ensures forall i :: 0 <= i < |bounds| ==> IsFloor(widths[i] - bounds[i].min, spare, bounds[i].sum, total)
  {
    forall i | 0 <= i < |bounds| ensures IsFloor(widths[i] - bounds[i].min, spare, bounds[i].sum, total) {
      ShareIsFloor(spare, bounds[i].sum, total);
      assert widths[i] - bounds[i].min == Share(spare, bounds[i].sum, total);
    }
  }

  /** The shared-out part: every column gets its minimum and its share. */
  method ShareOut(bounds: seq<Bounds>, spare: nat) returns (widths: seq<nat>)
    requires BoundsOk(bounds) && Sum(Sums(bounds)) > 0
    ensures |widths| == |bounds|
    ensures forall i :: 0 <= i < |bounds| ==>
      && widths[i] >= bounds[i].min
      && IsFloor(widths[i] - bounds[i].min, spare, bounds[i].sum, Sum(Sums(bounds)))
    ensures Sum(widths) <= Sum(Mins(bounds)) + spare
  {
    ghost var sums, mins := Sums(bounds), Mins(bounds);
    var sum := Sum(Sums(bounds));
    ghost var shares := Shares(spare, sums, sum);
    widths := [];
    for i := 0 to |bounds|
      invariant |widths| == i
      invariant forall k :: 0 <= k < i ==> widths[k] == bounds[k].min + Share(spare, bounds[k].sum, sum)
      invariant Sum(widths) == Sum(mins[..i]) + Sum(shares[..i])
    {
      var width := bounds[i].min + Share(spare, bounds[i].sum, sum);
      SumAppend(widths, width);
      SumPrefix(mins, i);
      SumPrefix(shares, i);
      widths := widths + [width];
    }
    assert mins[..|bounds|] == mins && shares[..|bounds|] == shares;
    SharesDoNotExceed(spare, sums);
    SharesAreFloors(bounds, spare, sum, widths);
  }

  function Next(idx: nat, cols: nat): (next: nat)
    requires idx < cols
    ensures next < cols
  {
    if idx + 1 == cols then 0 else idx + 1
  }

  /** From one column to another, going round. */
  function Distance(from: nat, to: nat, cols: nat): nat
    requires from < cols && to < cols
  {
    if from <= to then to - from else to + cols - from
  }

  /** A width raised by at most so many units, but not above the natural width. */
  function Raised(width: nat, max: nat, units: nat): nat {
    if width >= max then width else if width + units <= max then width + units else max
  }

  /** Some number of whole rounds over the columns, and one more unit for the first few:
      no column below its natural width is more than one unit behind another. */
  ghost predicate Topped(bounds: seq<Bounds>, start: seq<nat>, widths: seq<nat>, rounds: nat, extra: nat) {
    && |start| == |widths| == |bounds|
    && forall i :: 0 <= i < |widths| ==>
      widths[i] == Raised(start[i], bounds[i].max, rounds + if i < extra then 1 else 0)
  }

  /** Visiting the next column adds a unit to it unless it has its natural width. */
  lemma ToppedStep(bounds: seq<Bounds>, start: seq<nat>, widths: seq<nat>, rounds: nat, idx: nat, after: seq<nat>)
    requires idx < |bounds| && Topped(bounds, start, widths, rounds, idx)
    requires after == if widths[idx] < bounds[idx].max then widths[idx := widths[idx] + 1] else widths
    ensures Topped(bounds, start, after, rounds + (if idx + 1 == |bounds| then 1 else 0), Next(idx, |bounds|))
  {
  }

  /** A column still below its natural width, while something remains to be given. */
  lemma ColumnBelow(bounds: seq<Bounds>, widths: seq<nat>, rem: nat) returns (target: nat)
    requires |widths| == |bounds| && rem > 0 && Sum(widths) + rem <= Sum(Maxes(bounds))
    ensures target < |bounds| && widths[target] < bounds[target].max
  {
    target := SmallerSomewhere(widths, Maxes(bounds));
  }

  lemma ComesRound(idx: nat, target: nat, cols: nat)
    requires idx < cols && target < cols
    ensures idx != target ==> Distance(Next(idx, cols), target, cols) < Distance(idx, target, cols)
  {
  }

  /** One column gets one unit, unless it has its natural width. */
  method Visit(bounds: seq<Bounds>, widths: seq<nat>, idx: nat, rem: nat) returns (after: seq<nat>, left: nat)
    requires |widths| == |bounds| && idx < |bounds| && rem > 0
    ensures after == if widths[idx] < bounds[idx].max then widths[idx := widths[idx] + 1] else widths
    ensures left == if widths[idx] < bounds[idx].max then rem - 1 else rem
    ensures Sum(after) + left == Sum(widths) + rem
  {
    after, left := widths, rem;
    if widths[idx] < bounds[idx].max {
      SumUpdate(widths, idx, widths[idx] + 1);
      after := widths[idx := widths[idx] + 1];
      left := rem - 1;
    }
  }

  /** The cyclic top-up: one unit at a time to the columns still below their natural
      width, until nothing remains. It ends because such a column always comes round. */
  method TopUp(bounds: seq<Bounds>, start: seq<nat>, remaining: nat) returns (widths: seq<nat>)
    requires |bounds| > 0 && |start| == |bounds|
    requires Sum(start) + remaining <= Sum(Maxes(bounds))
    ensures exists rounds: nat, extra: nat :: Topped(bounds, start, widths, rounds, extra)
    ensures Sum(widths) == Sum(start) + remaining
  {
    widths := start;
    var rem: nat := remaining;
    var idx: nat := 0;
    ghost var target: nat := 0;
    ghost var rounds: nat := 0;
    if rem > 0 {
      target := ColumnBelow(bounds, widths, rem);
    }
    while rem > 0
      invariant idx < |bounds| && target < |bounds|
      invariant Sum(widths) + rem == Sum(start) + remaining
      invariant Topped(bounds, start, widths, rounds, idx)
      invariant rem > 0 ==> widths[target] < bounds[target].max
      decreases rem, Distance(idx, target, |bounds|)
    {
      ghost var before, was := widths, rem;
      widths, rem := Visit(bounds, widths, idx, rem);
      ToppedStep(bounds, start, before, rounds, idx, widths);
      if 0 < rem < was {
        target := ColumnBelow(bounds, widths, rem);
      }
      ComesRound(idx, target, |bounds|);
      rounds := rounds + if idx + 1 == |bounds| then 1 else 0;
      idx := Next(idx, |bounds|);
    }
  }

  /** Every column at its minimum and its share of the spare width. */
  ghost predicate IsShared(bounds: seq<Bounds>, spare: nat, shared: seq<nat>) {
    && |shared| == |bounds|
    && Sum(Sums(bounds)) > 0
    && forall i :: 0 <= i < |bounds| ==>
      && shared[i] >= bounds[i].min
      && IsFloor(shared[i] - bounds[i].min, spare, bounds[i].sum, Sum(Sums(bounds)))
  }

  /** The widths between the two extremes. */
  ghost predicate IsDistributed(bounds: seq<Bounds>, spare: nat, widths: seq<nat>) {
    exists shared, rounds: nat, extra: nat ::
      IsShared(bounds, spare, shared) && Topped(bounds, shared, widths, rounds, extra)
  }

  lemma DistributedKeepsMinimum(bounds: seq<Bounds>, spare: nat, widths: seq<nat>)
    requires IsDistributed(bounds, spare, widths)
    ensures |widths| == |bounds| && forall i :: 0 <= i < |bounds| ==> widths[i] >= bounds[i].min
  {
  }

  /** Shares first, then the top-up of what the floor divisions left. */
  method Distribute(bounds: seq<Bounds>, spare: nat) returns (widths: seq<nat>)
    requires BoundsOk(bounds) && 0 < spare && Sum(Mins(bounds)) + spare < Sum(Maxes(bounds))
    ensures IsDistributed(bounds, spare, widths)
    ensures Sum(widths) == Sum(Mins(bounds)) + spare
    ensures |widths| == |bounds| && forall i :: 0 <= i < |bounds| ==> widths[i] >= bounds[i].min
  {
    SumIsMonotone(Maxes(bounds), Sums(bounds));
    var shared := ShareOut(bounds, spare);
    var remaining: nat := Sum(Mins(bounds)) + spare - Sum(shared);
    widths := TopUp(bounds, shared, remaining);
    assert IsShared(bounds, spare, shared);
    DistributedKeepsMinimum(bounds, spare, widths);
  }

  /** The widest column is cut to what the others leave. */
  method CutWidest(bounds: seq<Bounds>, columns: nat) returns (widths: seq<nat>)
    requires |bounds| > 0 && columns <= Sum(Mins(bounds)) < columns + bounds[Widest(bounds)].min
    ensures |widths| == |bounds| && Sum(widths) == columns
    ensures 1 <= widths[Widest(bounds)] <= bounds[Widest(bounds)].min
    ensures widths == Mins(bounds)[Widest(bounds) := widths[Widest(bounds)]]
  {
    var k := Widest(bounds);
    var cut: nat := columns - (Sum(Mins(bounds)) - bounds[k].min);
    SumUpdate(Mins(bounds), k, cut);
    widths := Mins(bounds)[k := cut];
  }

  /** The width decision of render, in terms of the sums of smallest and natural widths. */
  ghost predicate IsChosen(bounds: seq<Bounds>, width: nat, borders: nat, mins: nat, maxes: nat, widths: seq<nat>)
    requires |bounds| > 0 && |widths| == |bounds|
  {
    var k := Widest(bounds);
    if maxes + borders <= width then widths == Maxes(bounds)
    else if mins + borders < width then
      && Sum(widths) + borders == width
      && (forall i :: 0 <= i < |bounds| ==> widths[i] >= bounds[i].min)
      && IsDistributed(bounds, width - mins - borders, widths)
    else if mins + borders < width + bounds[k].min then
      && Sum(widths) + borders == width
      && 1 <= widths[k] <= bounds[k].min
      && widths == Mins(bounds)[k := widths[k]]
    else widths == Mins(bounds)
  }

  /** The widths of render for a table with at least one column. */
  method ChooseWidths(bounds: seq<Bounds>, width: nat) returns (widths: seq<nat>)
    requires BoundsOk(bounds)
    ensures |widths| == |bounds|
    ensures IsChosen(bounds, width, |bounds| - 1, Sum(Mins(bounds)), Sum(Maxes(bounds)), widths)
  {
    var borders := |bounds| - 1;
    var mins, maxes := Mins(bounds), Maxes(bounds);
    var minWidth := Sum(mins) + borders;
    var maxWidth := Sum(maxes) + borders;
    if maxWidth <= width {
      widths := maxes;
    } else if minWidth >= width {
      var k := Widest(bounds);
      SumBounds(mins, k);
      if minWidth - bounds[k].min < width {
        widths := CutWidest(bounds, width - borders);
      } else {
        widths := mins;
      }
    } else {
      widths := Distribute(bounds, width - minWidth);
    }
  }

  /** The number of columns: of the longest row, or one for a table without rows. */
  function Columns(table: seq<seq<Cell>>): (cols: nat)
    ensures forall r :: 0 <= r < |table| ==> |table[r]| <= cols
    ensures if table == [] then cols == 1 else exists r :: 0 <= r < |table| && |table[r]| == cols
  {
    if table == [] then 1
    else if |table| == 1 then |table[0]|
    else
      var front, last := table[..|table| - 1], table[|table| - 1];
      var before := Columns(front);
      assert forall r :: 0 <= r < |front| ==> table[r] == front[r];
      assert table[|table| - 1] == last;
      Max(before, |last|)
  }

  function AllBounds(table: seq<seq<Cell>>): seq<Bounds> {
    seq(Columns(table), c requires 0 <= c < Columns(table) => ColumnBounds(table, c))
  }

  /** The column widths of render. Cells get their natural width when the table fits, and
      at least their smallest width when the smallest table is narrower than the terminal;
      a column with a cell that is not empty never vanishes, and columns and borders stay
      within the terminal unless cutting the widest column cannot help. */
  method RenderWidths(table: seq<seq<Cell>>, width: nat) returns (widths: seq<nat>)
    requires CellsOk(table) && Columns(table) > 0
    ensures |widths| == Columns(table)
    ensures
      var bounds := AllBounds(table);
      IsChosen(bounds, width, |bounds| - 1, Sum(Mins(bounds)), Sum(Maxes(bounds)), widths)
    ensures
      var borders, bounds := Columns(table) - 1, AllBounds(table);
      forall r, c :: 0 <= r < |table| && 0 <= c < |table[r]| ==>
        && (Sum(Maxes(bounds)) + borders <= width ==> table[r][c].max <= widths[c])
        && (Sum(Mins(bounds)) + borders < width ==> table[r][c].min <= widths[c])
        && (table[r][c].min > 0 ==> widths[c] > 0)
    ensures
      var borders, bounds := Columns(table) - 1, AllBounds(table);
      Sum(Mins(bounds)) + borders < width + bounds[Widest(bounds)].min ==> Sum(widths) + borders <= width
  {
    var bounds := AllBounds(table);
    assert BoundsOk(bounds);
    widths := ChooseWidths(bounds, width);
    forall r, c | 0 <= r < |table| && 0 <= c < |table[r]|
      ensures table[r][c].min <= bounds[c].min && table[r][c].max <= bounds[c].max && bounds[c].min <= bounds[c].max
    {
      assert bounds[c] == ColumnBounds(table, c);
    }
  }
}
