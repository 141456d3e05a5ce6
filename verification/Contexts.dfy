/** How query analysis numbers the places of a query that its plan refers to:
    src/analyze/contexts.rs.

    The three trees of the source (coarse, fine and debug) are scanned by three
    copies of one function, so one tree type stands for all of them. Context
    ids are drawn from a global counter (src/analyze/model.rs:244-248), which
    is what `Distinct` says. */
module Contexts {
  import opened Wrappers

  datatype Context = Context(start: nat, end: nat, buffer: nat, id: nat)

  datatype Node = Node(contexts: Group, children: seq<Node>)

  /** The contexts of one plan node. */
  type Group = seq<Context>

  datatype Analysis = Analysis(buffers: seq<string>, coarse: Option<Node>, fine: Option<Node>, debug: Option<Node>)

  datatype Location = Location(buffer: nat, offset: nat)

  datatype Bucket = Bucket(length: nat, ids: seq<nat>)

  datatype Span = Span(offset: nat, length: nat, number: nat)

  function Place(context: Context): Location {
    Location(context.buffer, context.start)
  }

  /** A saturating subtraction. */
  function Length(context: Context): nat {
    if context.start <= context.end then context.end - context.start else 0
  }

  // ----- What the scan collects -----

  ghost function Groups(node: Node): seq<Group> {
    [node.contexts] + GroupsOf(node.children)
  }

  ghost function GroupsOf(nodes: seq<Node>): seq<Group> {
    if nodes == [] then [] else GroupsOf(nodes[..|nodes| - 1]) + Groups(nodes[|nodes| - 1])
  }

  ghost function RootGroups(root: Option<Node>): seq<Group> {
    if root.Some? then Groups(root.value) else []
  }

  ghost function AllGroups(data: Analysis): seq<Group> {
    RootGroups(data.coarse) + RootGroups(data.fine) + RootGroups(data.debug)
  }

  /** All contexts of the groups, in scan order. */
  ghost function Flat(groups: seq<Group>): seq<Context> {
    if groups == [] then [] else Flat(groups[..|groups| - 1]) + groups[|groups| - 1]
  }

  /** The contexts that start at a location, in scan order. */
  ghost function At(all: seq<Context>, place: Location): seq<Context> {
    if all == [] then []
    else
      var last := all[|all| - 1];
      At(all[..|all| - 1], place) + (if Place(last) == place then [last] else [])
  }

  ghost function Ids(contexts: seq<Context>): seq<nat> {
    seq(|contexts|, i requires 0 <= i < |contexts| => contexts[i].id)
  }

  ghost predicate HasId(group: Group, id: nat) {
    exists i :: 0 <= i < |group| && group[i].id == id
  }

  /** The last group that holds the id: a later insertion replaces an earlier one. */
  ghost function OwnerOf(groups: seq<Group>, id: nat): Option<Group> {
    if groups == [] then None
    else if HasId(groups[|groups| - 1], id) then Some(groups[|groups| - 1])
    else OwnerOf(groups[..|groups| - 1], id)
  }

  ghost predicate Located(byLocation: map<Location, Bucket>, all: seq<Context>) {
    forall place ::
      && (place in byLocation <==> At(all, place) != [])
      && (place in byLocation ==>
            byLocation[place] == Bucket(Length(At(all, place)[0]), Ids(At(all, place))))
  }

  ghost predicate Owned(siblings: map<nat, Group>, groups: seq<Group>) {
    forall id ::
      && (id in siblings <==> OwnerOf(groups, id).Some?)
      && (id in siblings ==> Some(siblings[id]) == OwnerOf(groups, id))
  }

  lemma GroupsOfSnoc(front: seq<Group>, nodes: seq<Node>, i: nat)
    requires i < |nodes|
    ensures (front + GroupsOf(nodes[..i])) + Groups(nodes[i]) == front + GroupsOf(nodes[..i + 1])
  {
    assert nodes[..i + 1][..i] == nodes[..i];
    assert GroupsOf(nodes[..i + 1]) == GroupsOf(nodes[..i]) + Groups(nodes[i]);
  }

  lemma LocatedSnoc(before: map<Location, Bucket>, all: seq<Context>, context: Context)
    requires Located(before, all)
    ensures
      var place := Place(context);
      var bucket := if place in before then before[place] else Bucket(Length(context), []);
      Located(before[place := bucket.(ids := bucket.ids + [context.id])], all + [context])
  {
    assert (all + [context])[..|all|] == all;
    var place := Place(context);
    var was := At(all, place);
    assert Ids(was + [context]) == Ids(was) + [context.id];
    if was == [] {
      assert At(all + [context], place) == [context];
    } else {
      assert (was + [context])[0] == was[0];
    }
  }

  /** The sibling index while the first i contexts of a group are scanned. */
  ghost predicate OwnedInPart(siblings: map<nat, Group>, before: seq<Group>, group: Group, i: nat)
    requires i <= |group|
  {
    forall id ::
      && (id in siblings <==> HasId(group[..i], id) || OwnerOf(before, id).Some?)
      && (id in siblings ==>
            Some(siblings[id]) == if HasId(group[..i], id) then Some(group) else OwnerOf(before, id))
  }

  lemma ScanStarts(byLocation: map<Location, Bucket>, siblings: map<nat, Group>, before: seq<Group>, group: Group)
    requires Located(byLocation, Flat(before)) && Owned(siblings, before)
    ensures Located(byLocation, Flat(before) + group[..0]) && OwnedInPart(siblings, before, group, 0)
  {
    assert Flat(before) + group[..0] == Flat(before);
  }

  lemma ScanAdvances(
      byLocation: map<Location, Bucket>, siblings: map<nat, Group>, before: seq<Group>, group: Group, i: nat)
    requires i < |group|
    requires Located(byLocation, Flat(before) + group[..i]) && OwnedInPart(siblings, before, group, i)
    ensures
      var place := Place(group[i]);
      var bucket := if place in byLocation then byLocation[place] else Bucket(Length(group[i]), []);
      Located(byLocation[place := bucket.(ids := bucket.ids + [group[i].id])], Flat(before) + group[..i + 1])
    ensures OwnedInPart(siblings[group[i].id := group], before, group, i + 1)
  {
    SplitAt(Flat(before), group, i);
    LocatedSnoc(byLocation, Flat(before) + group[..i], group[i]);
    OwnedAdvances(siblings, before, group, i);
  }

  lemma SplitAt(front: Group, group: Group, i: nat)
    requires i < |group|
    ensures (front + group[..i]) + [group[i]] == front + group[..i + 1]
  {
  }

  lemma OwnedAdvances(siblings: map<nat, Group>, before: seq<Group>, group: Group, i: nat)
    requires i < |group| && OwnedInPart(siblings, before, group, i)
    ensures OwnedInPart(siblings[group[i].id := group], before, group, i + 1)
  {
    HasIdSnoc(group, i);
  }

  lemma ScanEnds(byLocation: map<Location, Bucket>, siblings: map<nat, Group>, before: seq<Group>, group: Group)
    requires Located(byLocation, Flat(before) + group[..|group|]) && OwnedInPart(siblings, before, group, |group|)
    ensures Located(byLocation, Flat(before + [group])) && Owned(siblings, before + [group])
  {
    assert group[..|group|] == group;
    assert (before + [group])[..|before|] == before;
  }

  class Gather {
    var byLocation: map<Location, Bucket>
    var siblings: map<nat, Group>

    constructor ()
      ensures Holds([])
    {
      byLocation, siblings := map[], map[];
    }

    ghost predicate Holds(groups: seq<Group>)
      reads this
    {
      Located(byLocation, Flat(groups)) && Owned(siblings, groups)
    }

    /** The loop over the contexts of one node. */
    method ScanGroup(group: Group, ghost before: seq<Group>)
      requires Holds(before)
      modifies this
      ensures Holds(before + [group])
    {
      var i := 0;
      ScanStarts(byLocation, siblings, before, group);
      while i < |group|
        invariant 0 <= i <= |group|
        invariant Located(byLocation, Flat(before) + group[..i]) && OwnedInPart(siblings, before, group, i)
      {
        var context := group[i];
        var place := Place(context);
        ScanAdvances(byLocation, siblings, before, group, i);
        var bucket := if place in byLocation then byLocation[place] else Bucket(Length(context), []);
        byLocation := byLocation[place := bucket.(ids := bucket.ids + [context.id])];
        siblings := siblings[context.id := group];
        i := i + 1;
      }
      ScanEnds(byLocation, siblings, before, group);
    }

    /** scan_shape, scan_expanded and scan_debug */
    method Scan(node: Node, ghost before: seq<Group>)
      requires Holds(before)
      modifies this
      ensures Holds(before + Groups(node))
      decreases node
    {
      ScanGroup(node.contexts, before);
      var i := 0;
      ghost var front := before + [node.contexts];
      assert front + GroupsOf(node.children[..0]) == front;
      while i < |node.children|
        invariant 0 <= i <= |node.children|
        invariant Holds(front + GroupsOf(node.children[..i]))
      {
        Scan(node.children[i], front + GroupsOf(node.children[..i]));
        GroupsOfSnoc(front, node.children, i);
        i := i + 1;
      }
      assert node.children[..|node.children|] == node.children;
      assert front + GroupsOf(node.children) == before + Groups(node);
    }

    method ScanRoot(root: Option<Node>, ghost before: seq<Group>)
      requires Holds(before)
      modifies this
      ensures Holds(before + RootGroups(root))
    {
      assert before + [] == before;
      if root.Some? {
        Scan(root.value, before);
      }
    }

    method ScanAll(data: Analysis)
      requires Holds([])
      modifies this
      ensures Holds(AllGroups(data))
    {
      ghost var coarse := RootGroups(data.coarse);
      ghost var fine := RootGroups(data.fine);
      ScanRoot(data.coarse, []);
      assert [] + coarse == coarse;
      ScanRoot(data.fine, coarse);
      ScanRoot(data.debug, coarse + fine);
    }
  }

  lemma HasIdSnoc(group: Group, i: nat)
    requires i < |group|
    ensures forall id :: HasId(group[..i + 1], id) <==> HasId(group[..i], id) || id == group[i].id
  {
    forall id
      ensures HasId(group[..i + 1], id) <==> HasId(group[..i], id) || id == group[i].id
    {
      assert group[..i + 1][i] == group[i];
      if HasId(group[..i], id) {
        var k :| 0 <= k < i && group[..i][k].id == id;
        assert group[..i + 1][k].id == id;
      }
      if HasId(group[..i + 1], id) {
        var k :| 0 <= k < i + 1 && group[..i + 1][k].id == id;
        assert k < i ==> group[..i][k].id == id;
      }
    }
  }

  // ----- The order of the locations -----

  predicate Before(p: Location, q: Location) {
    p.buffer < q.buffer || (p.buffer == q.buffer && p.offset < q.offset)
  }

  ghost predicate Ascending(order: seq<Location>) {
    forall i, j :: 0 <= i < j < |order| ==> Before(order[i], order[j])
  }

  predicate IsLeast(least: Location, places: set<Location>) {
    forall other :: other in places ==> other == least || Before(least, other)
  }

  lemma {:induction false} LeastExists(places: set<Location>)
    requires places != {}
    ensures exists least :: least in places && IsLeast(least, places)
  {
    var some :| some in places;
    var rest := places - {some};
    assert forall other :: other in places ==> other == some || other in rest;
    if rest != {} {
      LeastExists(rest);
      var low :| low in rest && IsLeast(low, rest);
      var least := if Before(low, some) then low else some;
      assert least in places && IsLeast(least, places);
    }
  }

  /** The order in which a sorted map yields its keys. */
  method InOrder(places: set<Location>) returns (order: seq<Location>)
    ensures Ascending(order)
    ensures forall i, j :: 0 <= i < j < |order| ==>
      order[i].buffer < order[j].buffer
      || (order[i].buffer == order[j].buffer && order[i].offset < order[j].offset)
    ensures forall place :: place in order <==> place in places
  {
    order := [];
    var todo := places;
    while todo != {}
      invariant todo <= places
      invariant Ascending(order)
      invariant forall place :: place in order <==> place in places && place !in todo
      invariant forall i, place :: 0 <= i < |order| && place in todo ==> Before(order[i], place)
      decreases todo
    {
      LeastExists(todo);
      var least :| least in todo && IsLeast(least, todo);
      order := order + [least];
      todo := todo - {least};
    }
  }

  // ----- Which nodes are scanned -----

  /** The node is the root or somewhere below it. */
  ghost predicate Within(node: Node, root: Node)
    decreases root
  {
    node == root || exists k :: 0 <= k < |root.children| && Within(node, root.children[k])
  }

  /** The node belongs to one of the three trees. */
  ghost predicate IsPlanNode(data: Analysis, node: Node) {
    || (data.coarse.Some? && Within(node, data.coarse.value))
    || (data.fine.Some? && Within(node, data.fine.value))
    || (data.debug.Some? && Within(node, data.debug.value))
  }

  /** Some node of the tree has these contexts. */
  ghost predicate IsGroupIn(g: Group, root: Node) {
    exists node :: Within(node, root) && node.contexts == g
  }

  lemma {:induction false} GroupsOfHold(nodes: seq<Node>, g: Group)
    ensures g in GroupsOf(nodes) <==> exists k :: 0 <= k < |nodes| && g in Groups(nodes[k])
  {
    if nodes != [] {
      var front, last := nodes[..|nodes| - 1], nodes[|nodes| - 1];
      GroupsOfHold(front, g);
      if k :| 0 <= k < |front| && g in Groups(front[k]) {
        assert g in Groups(nodes[k]);
      }
    }
  }

  lemma {:induction false} GroupsAreOfNodes(root: Node)
    ensures forall g :: g in Groups(root) <==> IsGroupIn(g, root)
    decreases root
  {
    forall k | 0 <= k < |root.children|
      ensures forall g :: g in Groups(root.children[k]) <==> IsGroupIn(g, root.children[k])
    {
      GroupsAreOfNodes(root.children[k]);
    }
    forall g ensures g in Groups(root) <==> IsGroupIn(g, root) {
      GroupsOfHold(root.children, g);
      GroupIsHereOrBelow(root, g);
    }
  }

  lemma GroupIsHereOrBelow(root: Node, g: Group)
    ensures IsGroupIn(g, root) <==>
      g == root.contexts || exists k :: 0 <= k < |root.children| && IsGroupIn(g, root.children[k])
  {
    if g == root.contexts {
      assert Within(root, root);
    } else if k :| 0 <= k < |root.children| && IsGroupIn(g, root.children[k]) {
      var node :| Within(node, root.children[k]) && node.contexts == g;
      assert Within(node, root);
    }
    if node :| Within(node, root) && node.contexts == g && node != root {
      var k :| 0 <= k < |root.children| && Within(node, root.children[k]);
      assert IsGroupIn(g, root.children[k]);
    }
  }

  /** The scan collects the contexts of exactly the nodes of the three trees. */
  lemma AllGroupsAreOfNodes(data: Analysis)
    ensures forall g :: g in AllGroups(data) <==> exists node :: IsPlanNode(data, node) && node.contexts == g
  {
    if data.coarse.Some? {
      GroupsAreOfNodes(data.coarse.value);
    }
    if data.fine.Some? {
      GroupsAreOfNodes(data.fine.value);
    }
    if data.debug.Some? {
      GroupsAreOfNodes(data.debug.value);
    }
    forall g ensures g in AllGroups(data) <==> exists node :: IsPlanNode(data, node) && node.contexts == g {
      assert g in AllGroups(data) <==>
        g in RootGroups(data.coarse) || g in RootGroups(data.fine) || g in RootGroups(data.debug);
    }
  }

  /** The trees are scanned one after another, a node before its children. */
  lemma ScanOrderExample(a: Group, b: Group, c: Group, d: Group, e: Group, f: Group)
    ensures
      var coarse := Node(a, [Node(b, [Node(c, [])]), Node(d, [])]);
      AllGroups(Analysis([], Some(coarse), Some(Node(e, [])), Some(Node(f, [])))) == [a, b, c, d, e, f]
  {
    var inner, last := Node(c, []), Node(d, []);
    var first := Node(b, [inner]);
    assert Groups(inner) == [c] && Groups(last) == [d];
    assert [inner][..0] == [] && GroupsOf([inner]) == [c] && Groups(first) == [b, c];
    assert [first][..0] == [] && GroupsOf([first]) == [b, c];
    assert [first, last][..1] == [first] && GroupsOf([first, last]) == [b, c, d];
  }

  // ----- What the numbering means -----

  ghost predicate SameId(g: Group, c: Context, h: Group, d: Context) {
    c in g && d in h && c.id == d.id
  }

  /** No two contexts have one id. */
  ghost predicate Distinct(groups: seq<Group>) {
    forall g, c, h, d {:trigger SameId(g, c, h, d)} ::
      g in groups && h in groups && SameId(g, c, h, d) ==> g == h && c == d
  }

  ghost predicate Touches(group: Group, place: Location) {
    exists c :: c in group && Place(c) == place
  }

  /** One plan node has contexts at both locations. */
  ghost predicate Meets(groups: seq<Group>, p: Location, q: Location) {
    exists group :: group in groups && Touches(group, p) && Touches(group, q)
  }

  /** A location brings a new number unless it shares a plan node with an
      earlier location that did. */
  ghost predicate Fresh(groups: seq<Group>, order: seq<Location>, i: nat)
    requires i < |order|
  {
    forall j: nat :: j < i && Fresh(groups, order, j) ==> !Meets(groups, order[j], order[i])
  }

  /** How many of the first i locations brought a new number. */
  ghost function Rank(groups: seq<Group>, order: seq<Location>, i: nat): nat
    requires i <= |order|
  {
    if i == 0 then 0
    else Rank(groups, order, i - 1) + if Fresh(groups, order, i - 1) then 1 else 0
  }

  /** The node's number comes from location i. */
  ghost predicate NumberedAt(groups: seq<Group>, order: seq<Location>, i: nat, group: Group)
    requires i < |order|
  {
    Fresh(groups, order, i) && Touches(group, order[i])
  }

  /** A node has a number exactly when one of the first n locations it touches
      is fresh, and that is the rank of this location. */
  ghost predicate Numbered(groups: seq<Group>, order: seq<Location>, n: nat, numbers: map<nat, nat>)
    requires n <= |order|
  {
    && (forall g, c :: g in groups && c in g ==>
          (c.id in numbers <==> exists i: nat :: i < n && NumberedAt(groups, order, i, g)))
    && (forall g, c, i: nat :: g in groups && c in g && i < n && NumberedAt(groups, order, i, g) ==>
          c.id in numbers && numbers[c.id] == Rank(groups, order, i))
    && (forall id :: id in numbers ==> HasId(Flat(groups), id))
  }

  /** Item k is the first of the contexts that already had a number below the bound. */
  ghost predicate FirstBelow(here: seq<Context>, numbers: map<nat, nat>, bound: nat, k: nat) {
    && k < |here|
    && here[k].id in numbers && numbers[here[k].id] < bound
    && forall j: nat :: j < k ==> here[j].id !in numbers || numbers[here[j].id] >= bound
  }

  /** What is shown at location i. */
  ghost predicate SpanIs(groups: seq<Group>, order: seq<Location>, numbers: map<nat, nat>, i: nat, span: Span)
    requires i < |order|
  {
    var here := At(Flat(groups), order[i]);
    && here != []
    && span.offset == order[i].offset
    && span.length == Length(here[0])
    && if Fresh(groups, order, i) then
         && span.number == Rank(groups, order, i)
         && forall k :: 0 <= k < |here| ==> here[k].id in numbers && numbers[here[k].id] == span.number
       else
         exists k: nat :: FirstBelow(here, numbers, Rank(groups, order, i), k) && numbers[here[k].id] == span.number
  }

  // ----- The numbering pass -----

  lemma {:induction false} AtAreThere(all: seq<Context>, place: Location)
    ensures forall c :: c in At(all, place) <==> c in all && Place(c) == place
  {
    if all != [] {
      AtAreThere(all[..|all| - 1], place);
      assert all == all[..|all| - 1] + [all[|all| - 1]];
    }
  }

  lemma {:induction false} FlatHolds(groups: seq<Group>)
    ensures forall c :: c in Flat(groups) <==> exists g :: g in groups && c in g
  {
    if groups != [] {
      var front, last := groups[..|groups| - 1], groups[|groups| - 1];
      FlatHolds(front);
      assert groups == front + [last];
      assert forall g :: g in groups <==> g in front || g == last;
    }
  }

  lemma {:induction false} OwnerHolds(groups: seq<Group>, id: nat)
    ensures OwnerOf(groups, id).Some? ==> OwnerOf(groups, id).value in groups && HasId(OwnerOf(groups, id).value, id)
    ensures OwnerOf(groups, id).None? ==> forall g :: g in groups ==> !HasId(g, id)
  {
    if groups != [] {
      var front, last := groups[..|groups| - 1], groups[|groups| - 1];
      OwnerHolds(front, id);
      assert groups == front + [last];
    }
  }

  lemma IdsTellNodesApart(groups: seq<Group>, g: Group, c: Context, h: Group)
    requires Distinct(groups) && g in groups && c in g && h in groups
    ensures HasId(h, c.id) <==> g == h
  {
    if HasId(h, c.id) {
      var k :| 0 <= k < |h| && h[k].id == c.id;
      assert SameId(g, c, h, h[k]);
    }
    var j :| 0 <= j < |g| && g[j] == c;
    assert HasId(g, c.id);
  }

  /** With distinct ids the sibling index names the node of every context. */
  lemma SiblingsAreTheNode(groups: seq<Group>, siblings: map<nat, Group>, g: Group, c: Context)
    requires Distinct(groups) && Owned(siblings, groups) && g in groups && c in g
    ensures c.id in siblings && siblings[c.id] == g
  {
    OwnerHolds(groups, c.id);
    IdsTellNodesApart(groups, g, c, g);
    IdsTellNodesApart(groups, g, c, OwnerOf(groups, c.id).value);
  }

  /** Numbers the context and every context of its node that has no number yet. */
  method NumberNode(numbers: map<nat, nat>, id: nat, siblings: map<nat, Group>, number: nat)
    returns (after: map<nat, nat>)
    requires id !in numbers
    ensures forall other :: other in after <==>
      other in numbers || other == id || (id in siblings && HasId(siblings[id], other))
    ensures forall other :: other in after ==>
      after[other] == if other in numbers then numbers[other] else number
  {
    after := numbers[id := number];
    if id in siblings {
      var group := siblings[id];
      var i := 0;
      while i < |group|
        invariant 0 <= i <= |group|
        invariant forall other :: other in after <==> other in numbers || other == id || HasId(group[..i], other)
        invariant forall other :: other in after ==>
          after[other] == if other in numbers then numbers[other] else number
      {
        HasIdSnoc(group, i);
        if group[i].id !in after {
          after := after[group[i].id := number];
        }
        i := i + 1;
      }
      assert group[..|group|] == group;
    }
  }

  ghost predicate IsFirst(ids: seq<nat>, numbers: map<nat, nat>, k: nat) {
    k < |ids| && ids[k] in numbers && forall j: nat :: j < k ==> ids[j] !in numbers
  }

  /** The number that a context at the location already has, if any. */
  method FirstNumbered(ids: seq<nat>, numbers: map<nat, nat>) returns (found: Option<nat>)
    ensures found.None? <==> forall k :: 0 <= k < |ids| ==> ids[k] !in numbers
    ensures found.Some? ==> exists k: nat :: IsFirst(ids, numbers, k) && numbers[ids[k]] == found.value
  {
    for k: nat := 0 to |ids|
      invariant forall j :: 0 <= j < k ==> ids[j] !in numbers
    {
      if ids[k] in numbers {
        assert IsFirst(ids, numbers, k);
        return Some(numbers[ids[k]]);
      }
    }
    return None;
  }

  /** The index gives all contexts of a node the same node. */
  ghost predicate Closed(siblings: map<nat, Group>) {
    forall id, other :: id in siblings && HasId(siblings[id], other) ==>
      other in siblings && siblings[other] == siblings[id]
  }

  /** The id belongs to the node of one of the first n contexts. */
  ghost predicate ReachedBy(siblings: map<nat, Group>, ids: seq<nat>, n: nat, id: nat)
    requires n <= |ids| && forall k :: 0 <= k < |ids| ==> ids[k] in siblings
  {
    exists k :: 0 <= k < n && HasId(siblings[ids[k]], id)
  }

  lemma ReachedNext(siblings: map<nat, Group>, ids: seq<nat>, i: nat)
    requires i < |ids| && (forall k :: 0 <= k < |ids| ==> ids[k] in siblings)
    ensures forall id :: ReachedBy(siblings, ids, i + 1, id) <==>
      ReachedBy(siblings, ids, i, id) || HasId(siblings[ids[i]], id)
  {
  }

  lemma ReachedAlready(siblings: map<nat, Group>, ids: seq<nat>, i: nat)
    requires i < |ids| && (forall k :: 0 <= k < |ids| ==> ids[k] in siblings)
    requires Closed(siblings) && ReachedBy(siblings, ids, i, ids[i])
    ensures forall id :: HasId(siblings[ids[i]], id) ==> ReachedBy(siblings, ids, i, id)
  {
    var k :| 0 <= k < i && HasId(siblings[ids[k]], ids[i]);
    assert siblings[ids[i]] == siblings[ids[k]];
  }

  /** The ids at a location of which none has a number. */
  ghost predicate Unnumbered(numbers: map<nat, nat>, ids: seq<nat>, siblings: map<nat, Group>) {
    forall k :: 0 <= k < |ids| ==> ids[k] in siblings && HasId(siblings[ids[k]], ids[k]) && ids[k] !in numbers
  }

  /** Exactly the nodes of these ids have received the number. */
  ghost predicate PlaceNumbered(
      numbers: map<nat, nat>, ids: seq<nat>, siblings: map<nat, Group>, number: nat, after: map<nat, nat>)
    requires forall k :: 0 <= k < |ids| ==> ids[k] in siblings
  {
    && (forall other :: other in after <==> other in numbers || ReachedBy(siblings, ids, |ids|, other))
    && (forall other :: other in after ==>
          after[other] == if other in numbers then numbers[other] else number)
  }

  /** Gives the nodes of all contexts at one location the number. */
  method NumberPlace(numbers: map<nat, nat>, ids: seq<nat>, siblings: map<nat, Group>, number: nat)
    returns (after: map<nat, nat>)
    requires Unnumbered(numbers, ids, siblings) && Closed(siblings)
    ensures PlaceNumbered(numbers, ids, siblings, number, after)
  {
    after := numbers;
    var i := 0;
    while i < |ids|
      invariant 0 <= i <= |ids|
      invariant forall other :: other in after <==> other in numbers || ReachedBy(siblings, ids, i, other)
      invariant forall other :: other in after ==>
        after[other] == if other in numbers then numbers[other] else number
    {
      ReachedNext(siblings, ids, i);
      if ids[i] !in after {
        after := NumberNode(after, ids[i], siblings, number);
      } else {
        ReachedAlready(siblings, ids, i);
      }
      i := i + 1;
    }
  }

  lemma {:induction false} RankGrows(groups: seq<Group>, order: seq<Location>, i: nat, j: nat)
    requires i <= j <= |order|
    ensures Rank(groups, order, i) <= Rank(groups, order, j)
    ensures i < j && Fresh(groups, order, i) ==> Rank(groups, order, i) < Rank(groups, order, j)
  {
    if i < j {
      RankGrows(groups, order, i, j - 1);
    }
  }

  lemma NumbersAreSmall(groups: seq<Group>, order: seq<Location>, n: nat, numbers: map<nat, nat>)
    requires n <= |order| && Numbered(groups, order, n, numbers)
    ensures forall id :: id in numbers ==> numbers[id] < Rank(groups, order, n)
  {
    forall id | id in numbers
      ensures numbers[id] < Rank(groups, order, n)
    {
      FlatHolds(groups);
      var k :| 0 <= k < |Flat(groups)| && Flat(groups)[k].id == id;
      var c := Flat(groups)[k];
      assert c in Flat(groups);
      var g: Group :| g in groups && c in g;
      var i: nat :| i < n && NumberedAt(groups, order, i, g);
      RankGrows(groups, order, i, n);
    }
  }

  /** A context at the location has a number already exactly when the location
      is not fresh. */
  lemma SeenExactlyWhenStale(groups: seq<Group>, order: seq<Location>, i: nat, numbers: map<nat, nat>)
    requires i < |order| && Numbered(groups, order, i, numbers)
    ensures (exists c :: c in At(Flat(groups), order[i]) && c.id in numbers) <==> !Fresh(groups, order, i)
  {
    var here := At(Flat(groups), order[i]);
    AtAreThere(Flat(groups), order[i]);
    FlatHolds(groups);
    if c :| c in here && c.id in numbers {
      var g: Group :| g in groups && c in g;
      assert Touches(g, order[i]);
      var j: nat :| j < i && NumberedAt(groups, order, j, g);
      assert Meets(groups, order[j], order[i]);
    }
    if !Fresh(groups, order, i) {
      var j: nat :| j < i && Fresh(groups, order, j) && Meets(groups, order[j], order[i]);
      var g :| g in groups && Touches(g, order[j]) && Touches(g, order[i]);
      var c :| c in g && Place(c) == order[i];
      assert NumberedAt(groups, order, j, g);
      assert c in here && c.id in numbers;
    }
  }

  /** The id belongs to the node of a context at the location. */
  ghost predicate Reached(here: seq<Context>, siblings: map<nat, Group>, id: nat)
    requires forall c :: c in here ==> c.id in siblings
  {
    exists c :: c in here && HasId(siblings[c.id], id)
  }

  /** What numbering the nodes of all contexts at a location adds. */
  ghost predicate Adds(
      numbers: map<nat, nat>, here: seq<Context>, siblings: map<nat, Group>, number: nat, after: map<nat, nat>)
    requires forall c :: c in here ==> c.id in siblings
  {
    && (forall other :: other in after <==> other in numbers || Reached(here, siblings, other))
    && (forall other :: other in after ==>
          after[other] == if other in numbers then numbers[other] else number)
  }

  lemma NodeOf(groups: seq<Group>, place: Location, c: Context) returns (g: Group)
    requires c in At(Flat(groups), place)
    ensures g in groups && c in g && Place(c) == place
  {
    AtAreThere(Flat(groups), place);
    FlatHolds(groups);
    g :| g in groups && c in g;
  }

  lemma IsAt(groups: seq<Group>, place: Location, g: Group, c: Context)
    requires g in groups && c in g && Place(c) == place
    ensures c in At(Flat(groups), place)
  {
    AtAreThere(Flat(groups), place);
    FlatHolds(groups);
  }

  /** A context belongs to the node of a context at the location exactly when
      its own node touches the location. */
  lemma TouchedNode(groups: seq<Group>, place: Location, siblings: map<nat, Group>, g: Group, c: Context)
    requires Distinct(groups) && Owned(siblings, groups) && g in groups && c in g
    requires forall d :: d in At(Flat(groups), place) ==> d.id in siblings
    ensures Reached(At(Flat(groups), place), siblings, c.id) <==> Touches(g, place)
  {
    if Touches(g, place) {
      var d :| d in g && Place(d) == place;
      IsAt(groups, place, g, d);
      SiblingsAreTheNode(groups, siblings, g, d);
      IdsTellNodesApart(groups, g, c, g);
    }
    if d :| d in At(Flat(groups), place) && HasId(siblings[d.id], c.id) {
      var h := NodeOf(groups, place, d);
      SiblingsAreTheNode(groups, siblings, h, d);
      IdsTellNodesApart(groups, g, c, h);
    }
  }

  lemma AddedIdsExist(groups: seq<Group>, place: Location, siblings: map<nat, Group>, id: nat)
    requires Distinct(groups) && Owned(siblings, groups)
    requires forall d :: d in At(Flat(groups), place) ==> d.id in siblings
    requires Reached(At(Flat(groups), place), siblings, id)
    ensures HasId(Flat(groups), id)
  {
    var d :| d in At(Flat(groups), place) && HasId(siblings[d.id], id);
    var h := NodeOf(groups, place, d);
    SiblingsAreTheNode(groups, siblings, h, d);
    var k :| 0 <= k < |h| && h[k].id == id;
    FlatHolds(groups);
    assert h[k] in Flat(groups);
    var m :| 0 <= m < |Flat(groups)| && Flat(groups)[m] == h[k];
  }

  /** The nodes numbered at a fresh location are exactly those that touch it. */
  lemma FreshStep(
      groups: seq<Group>, order: seq<Location>, i: nat, numbers: map<nat, nat>,
      siblings: map<nat, Group>, after: map<nat, nat>)
    requires Distinct(groups) && i < |order| && Owned(siblings, groups)
    requires Numbered(groups, order, i, numbers) && Fresh(groups, order, i)
    requires forall c :: c in At(Flat(groups), order[i]) ==> c.id in siblings
    requires Adds(numbers, At(Flat(groups), order[i]), siblings, Rank(groups, order, i), after)
    ensures Numbered(groups, order, i + 1, after)
  {
    forall g, c | g in groups && c in g
      ensures c.id in after <==> c.id in numbers || NumberedAt(groups, order, i, g)
      ensures c.id in numbers ==> !NumberedAt(groups, order, i, g)
    {
      TouchedNode(groups, order[i], siblings, g, c);
      FreshMeansUnnumbered(groups, order, i, numbers, g, c);
    }
    FreshStepNodes(groups, order, i, numbers, after);
    forall id | id in after
      ensures HasId(Flat(groups), id)
    {
      if id !in numbers {
        AddedIdsExist(groups, order[i], siblings, id);
      }
    }
  }

  lemma FreshMeansUnnumbered(
      groups: seq<Group>, order: seq<Location>, i: nat, numbers: map<nat, nat>, g: Group, c: Context)
    requires i < |order| && Numbered(groups, order, i, numbers) && Fresh(groups, order, i)
    requires g in groups && c in g
    ensures c.id in numbers ==> !NumberedAt(groups, order, i, g)
  {
    if c.id in numbers {
      var j: nat :| j < i && NumberedAt(groups, order, j, g);
      assert !Meets(groups, order[j], order[i]);
    }
  }

  lemma FreshStepNodes(groups: seq<Group>, order: seq<Location>, i: nat, numbers: map<nat, nat>, after: map<nat, nat>)
    requires i < |order| && Numbered(groups, order, i, numbers)
    requires forall g, c :: g in groups && c in g ==>
      && (c.id in after <==> c.id in numbers || NumberedAt(groups, order, i, g))
      && (c.id in numbers ==> !NumberedAt(groups, order, i, g))
    requires forall id :: id in after ==>
      after[id] == if id in numbers then numbers[id] else Rank(groups, order, i)
    ensures forall g, c :: g in groups && c in g ==>
      (c.id in after <==> exists j: nat :: j < i + 1 && NumberedAt(groups, order, j, g))
    ensures forall g, c, j: nat :: g in groups && c in g && j < i + 1 && NumberedAt(groups, order, j, g) ==>
      c.id in after && after[c.id] == Rank(groups, order, j)
  {
  }

  /** Later numbers never change what an earlier span shows. */
  lemma SpanStays(
      groups: seq<Group>, order: seq<Location>, i: nat, n: nat,
      numbers: map<nat, nat>, after: map<nat, nat>, span: Span)
    requires i <= n < |order| && SpanIs(groups, order, numbers, i, span)
    requires forall id :: id in numbers ==> id in after && after[id] == numbers[id]
    requires forall id :: id in after && id !in numbers ==> after[id] == Rank(groups, order, n)
    ensures SpanIs(groups, order, after, i, span)
  {
    RankGrows(groups, order, i, n);
    if !Fresh(groups, order, i) {
      var here := At(Flat(groups), order[i]);
      var bound := Rank(groups, order, i);
      var k: nat :| FirstBelow(here, numbers, bound, k) && numbers[here[k].id] == span.number;
      assert FirstBelow(here, after, bound, k);
    }
  }

  /** The locations of one buffer among the first n. */
  ghost function Where(order: seq<Location>, n: nat, buffer: nat): (where: seq<nat>)
    requires n <= |order|
    ensures forall k :: 0 <= k < |where| ==> where[k] < n
  {
    if n == 0 then []
    else Where(order, n - 1, buffer) + if order[n - 1].buffer == buffer then [n - 1] else []
  }

  /** The spans of one buffer: one for each of its locations, in their order. */
  ghost predicate Laid(
      groups: seq<Group>, order: seq<Location>, numbers: map<nat, nat>, where: seq<nat>, spans: seq<Span>)
    requires forall k :: 0 <= k < |where| ==> where[k] < |order|
  {
    && |spans| == |where|
    && forall k :: 0 <= k < |where| ==> SpanIs(groups, order, numbers, where[k], spans[k])
  }

  lemma LaidStays(
      groups: seq<Group>, order: seq<Location>, n: nat, where: seq<nat>, spans: seq<Span>,
      numbers: map<nat, nat>, after: map<nat, nat>)
    requires n < |order| && forall k :: 0 <= k < |where| ==> where[k] < n
    requires Laid(groups, order, numbers, where, spans)
    requires forall id :: id in numbers ==> id in after && after[id] == numbers[id]
    requires forall id :: id in after && id !in numbers ==> after[id] == Rank(groups, order, n)
    ensures Laid(groups, order, after, where, spans)
  {
    forall k | 0 <= k < |where|
      ensures SpanIs(groups, order, after, where[k], spans[k])
    {
      SpanStays(groups, order, where[k], n, numbers, after, spans[k]);
    }
  }

  lemma IndexIsClosed(groups: seq<Group>, siblings: map<nat, Group>)
    requires Distinct(groups) && Owned(siblings, groups)
    ensures Closed(siblings)
  {
    forall id, other | id in siblings && HasId(siblings[id], other)
      ensures other in siblings && siblings[other] == siblings[id]
    {
      OwnerHolds(groups, id);
      var g := siblings[id];
      var k :| 0 <= k < |g| && g[k].id == other;
      SiblingsAreTheNode(groups, siblings, g, g[k]);
    }
  }

  lemma IndexedIds(groups: seq<Group>, place: Location, siblings: map<nat, Group>)
    requires Distinct(groups) && Owned(siblings, groups)
    ensures forall c :: c in At(Flat(groups), place) ==> c.id in siblings && HasId(siblings[c.id], c.id)
  {
    forall c | c in At(Flat(groups), place)
      ensures c.id in siblings && HasId(siblings[c.id], c.id)
    {
      var g := NodeOf(groups, place, c);
      SiblingsAreTheNode(groups, siblings, g, c);
      IdsTellNodesApart(groups, g, c, g);
    }
  }

  lemma FirstIsBelow(groups: seq<Group>, order: seq<Location>, i: nat, numbers: map<nat, nat>, ids: seq<nat>, k: nat)
    requires i < |order| && Numbered(groups, order, i, numbers)
    requires ids == Ids(At(Flat(groups), order[i])) && IsFirst(ids, numbers, k)
    ensures FirstBelow(At(Flat(groups), order[i]), numbers, Rank(groups, order, i), k)
  {
    NumbersAreSmall(groups, order, i, numbers);
    FirstOfAll(At(Flat(groups), order[i]), numbers, Rank(groups, order, i), ids, k);
  }

  lemma FirstOfAll(here: seq<Context>, numbers: map<nat, nat>, bound: nat, ids: seq<nat>, k: nat)
    requires ids == Ids(here) && IsFirst(ids, numbers, k)
    requires forall id :: id in numbers ==> numbers[id] < bound
    ensures FirstBelow(here, numbers, bound, k)
  {
    forall j: nat | j < k
      ensures here[j].id !in numbers
    {
      assert ids[j] !in numbers;
    }
  }

  lemma StaleSpan(
      groups: seq<Group>, order: seq<Location>, i: nat, numbers: map<nat, nat>, ids: seq<nat>, k: nat, span: Span)
    requires i < |order| && Numbered(groups, order, i, numbers)
    requires ids == Ids(At(Flat(groups), order[i])) && IsFirst(ids, numbers, k)
    requires span == Span(order[i].offset, Length(At(Flat(groups), order[i])[0]), numbers[ids[k]])
    ensures !Fresh(groups, order, i) && SpanIs(groups, order, numbers, i, span)
  {
    var here := At(Flat(groups), order[i]);
    assert here[k] in here;
    SeenExactlyWhenStale(groups, order, i, numbers);
    FirstIsBelow(groups, order, i, numbers, ids, k);
  }

  /** No context at the location has a number: the location is fresh. */
  lemma UnseenIsFresh(groups: seq<Group>, order: seq<Location>, i: nat, numbers: map<nat, nat>, ids: seq<nat>)
    requires i < |order| && Numbered(groups, order, i, numbers)
    requires ids == Ids(At(Flat(groups), order[i])) && forall k :: 0 <= k < |ids| ==> ids[k] !in numbers
    ensures Fresh(groups, order, i)
  {
    var here := At(Flat(groups), order[i]);
    forall c | c in here
      ensures c.id !in numbers
    {
      var k :| 0 <= k < |here| && here[k] == c;
      assert ids[k] == c.id;
    }
    SeenExactlyWhenStale(groups, order, i, numbers);
  }

  /** The contract of NumberPlace in terms of the contexts. */
  lemma PlaceAdds(
      numbers: map<nat, nat>, here: seq<Context>, siblings: map<nat, Group>, number: nat, after: map<nat, nat>)
    requires forall c :: c in here ==> c.id in siblings && HasId(siblings[c.id], c.id)
    requires Unnumbered(numbers, Ids(here), siblings) && PlaceNumbered(numbers, Ids(here), siblings, number, after)
    ensures Adds(numbers, here, siblings, number, after)
    ensures forall k :: 0 <= k < |here| ==> here[k].id in after && after[here[k].id] == number
  {
    forall other
      ensures Reached(here, siblings, other) <==> ReachedBy(siblings, Ids(here), |here|, other)
    {
      ReachedEitherWay(here, siblings, other);
    }
    forall k | 0 <= k < |here|
      ensures here[k].id in after && after[here[k].id] == number
    {
      assert here[k] in here && here[k].id == Ids(here)[k];
      assert Reached(here, siblings, here[k].id);
    }
  }

  lemma ReachedEitherWay(here: seq<Context>, siblings: map<nat, Group>, id: nat)
    requires forall c :: c in here ==> c.id in siblings
    requires forall k :: 0 <= k < |here| ==> Ids(here)[k] in siblings
    ensures Reached(here, siblings, id) <==> ReachedBy(siblings, Ids(here), |here|, id)
  {
    if Reached(here, siblings, id) {
      var c :| c in here && HasId(siblings[c.id], id);
      var k :| 0 <= k < |here| && here[k] == c;
      assert Ids(here)[k] == c.id;
    }
    if ReachedBy(siblings, Ids(here), |here|, id) {
      var k :| 0 <= k < |here| && HasId(siblings[Ids(here)[k]], id);
      assert here[k] in here && Ids(here)[k] == here[k].id;
    }
  }

  lemma FreshMark(
      groups: seq<Group>, order: seq<Location>, i: nat, numbers: map<nat, nat>,
      siblings: map<nat, Group>, ids: seq<nat>, number: nat, after: map<nat, nat>)
    requires Distinct(groups) && Owned(siblings, groups) && i < |order|
    requires Numbered(groups, order, i, numbers) && number == Rank(groups, order, i)
    requires At(Flat(groups), order[i]) != [] && ids == Ids(At(Flat(groups), order[i]))
    requires Unnumbered(numbers, ids, siblings) && PlaceNumbered(numbers, ids, siblings, number, after)
    ensures Numbered(groups, order, i + 1, after) && number + 1 == Rank(groups, order, i + 1)
    ensures SpanIs(groups, order, after, i, Span(order[i].offset, Length(At(Flat(groups), order[i])[0]), number))
  {
    UnseenIsFresh(groups, order, i, numbers, ids);
    IndexedIds(groups, order[i], siblings);
    PlaceAdds(numbers, At(Flat(groups), order[i]), siblings, number, after);
    FreshStep(groups, order, i, numbers, siblings, after);
  }

  lemma IdsAreIndexed(
      groups: seq<Group>, place: Location, siblings: map<nat, Group>, numbers: map<nat, nat>, ids: seq<nat>)
    requires Distinct(groups) && Owned(siblings, groups) && ids == Ids(At(Flat(groups), place))
    requires forall k :: 0 <= k < |ids| ==> ids[k] !in numbers
    ensures Unnumbered(numbers, ids, siblings) && Closed(siblings)
  {
    IndexedIds(groups, place, siblings);
    IndexIsClosed(groups, siblings);
    var here := At(Flat(groups), place);
    assert forall k :: 0 <= k < |ids| ==> ids[k] == here[k].id && here[k] in here;
  }

  /** The number shown at the i-th location and the numbers given there. */
  method Mark(
      bucket: Bucket, siblings: map<nat, Group>, numbers: map<nat, nat>, index: nat,
      ghost groups: seq<Group>, ghost order: seq<Location>, ghost i: nat)
    returns (number: nat, after: map<nat, nat>, next: nat)
    requires Distinct(groups) && Owned(siblings, groups) && i < |order|
    requires var here := At(Flat(groups), order[i]); here != [] && bucket == Bucket(Length(here[0]), Ids(here))
    requires Numbered(groups, order, i, numbers) && index == Rank(groups, order, i)
    ensures Numbered(groups, order, i + 1, after) && next == Rank(groups, order, i + 1)
    ensures SpanIs(groups, order, after, i, Span(order[i].offset, bucket.length, number))
    ensures forall id :: id in numbers ==> id in after && after[id] == numbers[id]
    ensures forall id :: id in after && id !in numbers ==> after[id] == Rank(groups, order, i)
  {
    var found := FirstNumbered(bucket.ids, numbers);
    if found.Some? {
      ghost var k: nat :| IsFirst(bucket.ids, numbers, k) && numbers[bucket.ids[k]] == found.value;
      StaleSpan(groups, order, i, numbers, bucket.ids, k, Span(order[i].offset, bucket.length, found.value));
      assert forall g :: !NumberedAt(groups, order, i, g);
      return found.value, numbers, index;
    }
    IdsAreIndexed(groups, order[i], siblings, numbers, bucket.ids);
    after := NumberPlace(numbers, bucket.ids, siblings, index);
    FreshMark(groups, order, i, numbers, siblings, bucket.ids, index, after);
    return index, after, index + 1;
  }

  ghost predicate IsOrderOf(order: seq<Location>, groups: seq<Group>) {
    && Ascending(order)
    && forall place :: place in order <==> At(Flat(groups), place) != []
  }

  /** Some span starts where the context does. */
  ghost predicate HasSpan(spans: seq<Span>, c: Context) {
    exists k :: 0 <= k < |spans| && spans[k].offset == c.start
  }

  /** Every context of the plan in this buffer has a span. */
  ghost predicate AllHaveSpans(data: Analysis, buffer: nat, spans: seq<Span>) {
    forall node, c :: IsPlanNode(data, node) && c in node.contexts && c.buffer == buffer ==> HasSpan(spans, c)
  }

  /** The span stands for a context of the plan that starts there, and is as long. */
  ghost predicate StandsFor(data: Analysis, buffer: nat, span: Span) {
    exists node, c :: IsPlanNode(data, node) && c in node.contexts && Shows(span, buffer, c)
  }

  predicate Shows(span: Span, buffer: nat, c: Context) {
    && c.buffer == buffer && c.start == span.offset
    && (c.start <= c.end ==> span.offset + span.length == c.end)
    && (c.end <= c.start ==> span.length == 0)
  }

  /** Every context of the plan has a span, and every span a context. */
  lemma SpansAreOfContexts(
      data: Analysis, order: seq<Location>, numbers: map<nat, nat>, buffer: nat, spans: seq<Span>)
    requires IsOrderOf(order, AllGroups(data))
    requires Laid(AllGroups(data), order, numbers, Where(order, |order|, buffer), spans)
    ensures forall j, k :: 0 <= j < k < |spans| ==> spans[j].offset < spans[k].offset
    ensures AllHaveSpans(data, buffer, spans)
    ensures forall k :: 0 <= k < |spans| ==> StandsFor(data, buffer, spans[k])
  {
    var groups := AllGroups(data);
    AllGroupsAreOfNodes(data);
    OneSpanPerLocation(groups, order, numbers, buffer, spans);
    forall node, c | IsPlanNode(data, node) && c in node.contexts && c.buffer == buffer ensures HasSpan(spans, c) {
      assert node.contexts in groups;
      IsAt(groups, Location(buffer, c.start), node.contexts, c);
    }
    SpanPlaces(groups, order, numbers, buffer, spans);
    forall k | 0 <= k < |spans| ensures StandsFor(data, buffer, spans[k]) {
      var i := Where(order, |order|, buffer)[k];
      assert SpanIs(groups, order, numbers, i, spans[k]);
      var c := At(Flat(groups), order[i])[0];
      var g := NodeOf(groups, order[i], c);
      var node :| IsPlanNode(data, node) && node.contexts == g;
      assert Shows(spans[k], buffer, c);
    }
  }

  /** preprocess: the number of every context, and the spans of every buffer. */
  method Preprocess(data: Analysis) returns (numbers: map<nat, nat>, spans: seq<seq<Span>>, ghost order: seq<Location>)
    requires Distinct(AllGroups(data))
    ensures IsOrderOf(order, AllGroups(data))
    ensures Numbered(AllGroups(data), order, |order|, numbers)
    ensures |spans| == |data.buffers|
    ensures forall b :: 0 <= b < |spans| ==>
      Laid(AllGroups(data), order, numbers, Where(order, |order|, b), spans[b])
    ensures forall node, c :: IsPlanNode(data, node) && c in node.contexts && c.buffer < |spans| ==>
      HasSpan(spans[c.buffer], c)
    ensures forall b: nat, k :: b < |spans| && 0 <= k < |spans[b]| ==> StandsFor(data, b, spans[b][k])
    ensures forall b, j, k :: 0 <= b < |spans| && 0 <= j < k < |spans[b]| ==> spans[b][j].offset < spans[b][k].offset
  {
    ghost var groups := AllGroups(data);
    var gather := new Gather();
    gather.ScanAll(data);
    var byLocation, siblings := gather.byLocation, gather.siblings;
    var places := InOrder(byLocation.Keys);
    order := places;
    assert forall place :: place in order <==> place in byLocation;
    numbers, spans := Number(byLocation, siblings, places, |data.buffers|, groups);
    forall b: nat | b < |spans|
      ensures AllHaveSpans(data, b, spans[b])
      ensures forall k :: 0 <= k < |spans[b]| ==> StandsFor(data, b, spans[b][k])
      ensures forall j, k :: 0 <= j < k < |spans[b]| ==> spans[b][j].offset < spans[b][k].offset
    {
      SpansAreOfContexts(data, order, numbers, b, spans[b]);
    }
    forall node, c | IsPlanNode(data, node) && c in node.contexts && c.buffer < |spans|
      ensures HasSpan(spans[c.buffer], c)
    {
      assert AllHaveSpans(data, c.buffer, spans[c.buffer]);
    }
  }

  /** What the pass has done after n locations. */
  ghost predicate Done(
      groups: seq<Group>, order: seq<Location>, n: nat, numbers: map<nat, nat>, index: nat, spans: seq<seq<Span>>)
    requires n <= |order|
  {
    && Numbered(groups, order, n, numbers)
    && index == Rank(groups, order, n)
    && forall b :: 0 <= b < |spans| ==> Laid(groups, order, numbers, Where(order, n, b), spans[b])
  }

  method Number(
      byLocation: map<Location, Bucket>, siblings: map<nat, Group>, order: seq<Location>, buffers: nat,
      ghost groups: seq<Group>)
    returns (numbers: map<nat, nat>, spans: seq<seq<Span>>)
    requires Distinct(groups) && Owned(siblings, groups) && Located(byLocation, Flat(groups))
    requires forall place :: place in order ==> place in byLocation
    ensures Numbered(groups, order, |order|, numbers)
    ensures |spans| == buffers
    ensures forall b :: 0 <= b < |spans| ==> Laid(groups, order, numbers, Where(order, |order|, b), spans[b])
  {
    numbers, spans := map[], seq(buffers, _ => []);
    var index := 0;
    for i: nat := 0 to |order|
      invariant |spans| == buffers
      invariant Done(groups, order, i, numbers, index, spans)
    {
      var bucket := byLocation[order[i]];
      numbers, index, spans := Visit(bucket, siblings, order, i, numbers, index, spans, groups);
    }
  }

  /** One round of the loop over the locations. */
  method Visit(
      bucket: Bucket, siblings: map<nat, Group>, order: seq<Location>, i: nat,
      numbers: map<nat, nat>, index: nat, spans: seq<seq<Span>>, ghost groups: seq<Group>)
    returns (after: map<nat, nat>, next: nat, more: seq<seq<Span>>)
    requires Distinct(groups) && Owned(siblings, groups) && i < |order|
    requires var here := At(Flat(groups), order[i]); here != [] && bucket == Bucket(Length(here[0]), Ids(here))
    requires Done(groups, order, i, numbers, index, spans)
    ensures |more| == |spans| && Done(groups, order, i + 1, after, next, more)
  {
    var number;
    number, after, next := Mark(bucket, siblings, numbers, index, groups, order, i);
    var place := order[i];
    var span := Span(place.offset, bucket.length, number);
    LayNext(groups, order, i, numbers, after, spans, span);
    more := spans;
    if place.buffer < |spans| {
      more := spans[place.buffer := spans[place.buffer] + [span]];
    }
  }

  lemma LayNext(
      groups: seq<Group>, order: seq<Location>, i: nat, numbers: map<nat, nat>, after: map<nat, nat>,
      spans: seq<seq<Span>>, span: Span)
    requires i < |order|
    requires forall b :: 0 <= b < |spans| ==> Laid(groups, order, numbers, Where(order, i, b), spans[b])
    requires SpanIs(groups, order, after, i, span)
    requires forall id :: id in numbers ==> id in after && after[id] == numbers[id]
    requires forall id :: id in after && id !in numbers ==> after[id] == Rank(groups, order, i)
    ensures forall b :: 0 <= b < |spans| ==>
      Laid(groups, order, after, Where(order, i + 1, b), if b == order[i].buffer then spans[b] + [span] else spans[b])
  {
    forall b | 0 <= b < |spans|
      ensures Laid(groups, order, after, Where(order, i + 1, b),
                   if b == order[i].buffer then spans[b] + [span] else spans[b])
    {
      LaidStays(groups, order, i, Where(order, i, b), spans[b], numbers, after);
      if b != order[i].buffer {
        assert Where(order, i + 1, b) == Where(order, i, b);
      } else {
        LaidSnoc(groups, order, after, Where(order, i, b), spans[b], i, span);
      }
    }
  }

  lemma LaidSnoc(
      groups: seq<Group>, order: seq<Location>, numbers: map<nat, nat>, where: seq<nat>, spans: seq<Span>,
      i: nat, span: Span)
    requires forall k :: 0 <= k < |where| ==> where[k] < |order|
    requires i < |order| && Laid(groups, order, numbers, where, spans) && SpanIs(groups, order, numbers, i, span)
    ensures Laid(groups, order, numbers, where + [i], spans + [span])
  {
    forall k | 0 <= k < |where| + 1
      ensures SpanIs(groups, order, numbers, (where + [i])[k], (spans + [span])[k])
    {
      if k < |where| {
        assert SpanIs(groups, order, numbers, where[k], spans[k]);
      }
    }
  }

  // ----- Consequences -----

  /** The contexts of one node share one number, or none of them has one. */
  lemma OneNumberOrNone(groups: seq<Group>, order: seq<Location>, n: nat, numbers: map<nat, nat>, g: Group)
    requires n <= |order| && Numbered(groups, order, n, numbers) && g in groups
    ensures (forall c :: c in g ==> c.id !in numbers)
         || (forall c, d :: c in g && d in g ==> c.id in numbers && d.id in numbers && numbers[c.id] == numbers[d.id])
  {
    if i: nat :| i < n && NumberedAt(groups, order, i, g) {
      forall c | c in g
        ensures c.id in numbers && numbers[c.id] == Rank(groups, order, i)
      {
      }
    } else {
      forall c | c in g
        ensures c.id !in numbers
      {
      }
    }
  }

  /** No node touches two locations that brought a new number. */
  lemma NumberedOnce(groups: seq<Group>, order: seq<Location>, g: Group, i: nat, j: nat)
    requires g in groups && i < |order| && j < |order|
    requires NumberedAt(groups, order, i, g) && NumberedAt(groups, order, j, g)
    ensures i == j
  {
    assert Meets(groups, order[i], order[j]) && Meets(groups, order[j], order[i]);
  }

  lemma {:induction false} RankIsReached(groups: seq<Group>, order: seq<Location>, n: nat, value: nat)
    requires n <= |order| && value < Rank(groups, order, n)
    ensures exists i: nat :: i < n && Fresh(groups, order, i) && Rank(groups, order, i) == value
  {
    if value < Rank(groups, order, n - 1) {
      RankIsReached(groups, order, n - 1, value);
    } else {
      assert Fresh(groups, order, n - 1);
    }
  }

  /** Numbers are used without a gap: those below the count of fresh locations. */
  lemma NumbersAreDense(groups: seq<Group>, order: seq<Location>, numbers: map<nat, nat>, value: nat)
    requires IsOrderOf(order, groups) && Numbered(groups, order, |order|, numbers)
    ensures (exists id :: id in numbers && numbers[id] == value) <==> value < Rank(groups, order, |order|)
  {
    NumbersAreSmall(groups, order, |order|, numbers);
    if value < Rank(groups, order, |order|) {
      RankIsReached(groups, order, |order|, value);
      var i: nat :| i < |order| && Fresh(groups, order, i) && Rank(groups, order, i) == value;
      var c := At(Flat(groups), order[i])[0];
      var g := NodeOf(groups, order[i], c);
      assert NumberedAt(groups, order, i, g);
      assert c.id in numbers && numbers[c.id] == value;
    }
  }

  /** A number is first shown at the location that brought it: earlier
      locations show smaller numbers only. */
  lemma NumbersAppearInOrder(
      groups: seq<Group>, order: seq<Location>, numbers: map<nat, nat>, i: nat, j: nat, early: Span, late: Span)
    requires i < j < |order| && Fresh(groups, order, j)
    requires SpanIs(groups, order, numbers, i, early) && SpanIs(groups, order, numbers, j, late)
    ensures early.number < late.number
  {
    RankGrows(groups, order, i, j);
    if Fresh(groups, order, i) {
      assert early.number < Rank(groups, order, j);
    } else {
      var here := At(Flat(groups), order[i]);
      var k: nat :| FirstBelow(here, numbers, Rank(groups, order, i), k) && numbers[here[k].id] == early.number;
    }
  }

  /** The number shown at a location belongs to a context there. */
  lemma ShownNumberBelongs(groups: seq<Group>, order: seq<Location>, numbers: map<nat, nat>, i: nat, span: Span)
    requires i < |order| && SpanIs(groups, order, numbers, i, span)
    ensures exists c :: c in At(Flat(groups), order[i]) && c.id in numbers && numbers[c.id] == span.number
  {
    var here := At(Flat(groups), order[i]);
    if Fresh(groups, order, i) {
      assert here[0] in here;
    } else {
      var k: nat :| FirstBelow(here, numbers, Rank(groups, order, i), k) && numbers[here[k].id] == span.number;
      assert here[k] in here;
    }
  }

  /** At a location that brings no number, a first context in scan order that already has
      one gives it to the location. */
  lemma FirstNumberIsShown(groups: seq<Group>, order: seq<Location>, numbers: map<nat, nat>, i: nat, span: Span)
    requires i < |order| && SpanIs(groups, order, numbers, i, span) && !Fresh(groups, order, i)
    requires
      var first := At(Flat(groups), order[i])[0];
      first.id in numbers && numbers[first.id] < Rank(groups, order, i)
    ensures span.number == numbers[At(Flat(groups), order[i])[0].id]
  {
    var here := At(Flat(groups), order[i]);
    var k: nat :| FirstBelow(here, numbers, Rank(groups, order, i), k) && numbers[here[k].id] == span.number;
    assert k == 0;
  }

  lemma {:induction false} WhereIsExact(order: seq<Location>, n: nat, buffer: nat)
    requires n <= |order|
    ensures var where := Where(order, n, buffer);
      && (forall j, k :: 0 <= j < k < |where| ==> where[j] < where[k])
      && (forall i: nat :: i in where <==> i < n && order[i].buffer == buffer)
  {
    if n > 0 {
      WhereIsExact(order, n - 1, buffer);
    }
  }

  lemma SpanPlaces(
      groups: seq<Group>, order: seq<Location>, numbers: map<nat, nat>, buffer: nat, spans: seq<Span>)
    requires Laid(groups, order, numbers, Where(order, |order|, buffer), spans)
    ensures forall k :: 0 <= k < |spans| ==>
      order[Where(order, |order|, buffer)[k]] == Location(buffer, spans[k].offset)
  {
    var where := Where(order, |order|, buffer);
    WhereIsExact(order, |order|, buffer);
    forall k | 0 <= k < |spans|
      ensures order[where[k]] == Location(buffer, spans[k].offset)
    {
      assert SpanIs(groups, order, numbers, where[k], spans[k]);
      assert where[k] in where;
    }
  }

  lemma OneSpanAt(order: seq<Location>, buffer: nat, spans: seq<Span>, offset: nat)
    requires |spans| == |Where(order, |order|, buffer)|
    requires forall k :: 0 <= k < |spans| ==>
      order[Where(order, |order|, buffer)[k]] == Location(buffer, spans[k].offset)
    ensures (Location(buffer, offset) in order) <==> (exists k :: 0 <= k < |spans| && spans[k].offset == offset)
  {
    var where := Where(order, |order|, buffer);
    WhereIsExact(order, |order|, buffer);
    if Location(buffer, offset) in order {
      var i: nat :| i < |order| && order[i] == Location(buffer, offset);
      assert i in where;
      var k :| 0 <= k < |where| && where[k] == i;
      assert spans[k].offset == offset;
    }
    if k :| 0 <= k < |spans| && spans[k].offset == offset {
      assert order[where[k]] == Location(buffer, offset);
    }
  }

  /** Every location of a buffer has exactly one span, and the spans follow
      one another by offset. */
  lemma OneSpanPerLocation(
      groups: seq<Group>, order: seq<Location>, numbers: map<nat, nat>, buffer: nat, spans: seq<Span>)
    requires IsOrderOf(order, groups)
    requires Laid(groups, order, numbers, Where(order, |order|, buffer), spans)
    ensures forall j, k :: 0 <= j < k < |spans| ==> spans[j].offset < spans[k].offset
    ensures forall offset: nat ::
      (At(Flat(groups), Location(buffer, offset)) != [])
      <==> (exists k :: 0 <= k < |spans| && spans[k].offset == offset)
  {
    var where := Where(order, |order|, buffer);
    SpanPlaces(groups, order, numbers, buffer, spans);
    WhereIsExact(order, |order|, buffer);
    forall j, k | 0 <= j < k < |spans|
      ensures spans[j].offset < spans[k].offset
    {
      assert Before(order[where[j]], order[where[k]]);
    }
    forall offset: nat
      ensures (Location(buffer, offset) in order) <==> (exists k :: 0 <= k < |spans| && spans[k].offset == offset)
    {
      OneSpanAt(order, buffer, spans, offset);
    }
  }

  /** A node can stay without a number although all its locations are marked:
      here the second node starts where the first one, already numbered, ends up
      a second time. */
  lemma NodeWithoutANumber(numbers: map<nat, nat>)
    requires var first := [Context(0, 3, 0, 0), Context(5, 9, 0, 1)];
             Numbered([first, [Context(5, 7, 0, 2)]], [Location(0, 0), Location(0, 5)], 2, numbers)
    ensures 1 in numbers && numbers[1] == 0 && 2 !in numbers
  {
    var first, second := [Context(0, 3, 0, 0), Context(5, 9, 0, 1)], [Context(5, 7, 0, 2)];
    var groups, order := [first, second], [Location(0, 0), Location(0, 5)];
    assert first[0] in first && first[1] in first && second[0] in second;
    assert first in groups && second in groups by {
      assert groups[0] == first && groups[1] == second;
    }
    assert Fresh(groups, order, 0);
    assert Touches(first, order[0]) && Touches(first, order[1]);
    assert Meets(groups, order[0], order[1]);
    assert !Fresh(groups, order, 1);
    assert NumberedAt(groups, order, 0, first);
    assert !Touches(second, order[0]);
    assert Rank(groups, order, 0) == 0;
  }
}
