/** The category hierarchy: grouping, recursion and lookup, and what the listed tree is for every forest. */
module CategoryTree {
  import opened Wrappers
  import opened Sorting
  import opened Categories

  datatype Node = Node(row: Row, children: seq<Node>)

  /** By order, then name, then id. */
  predicate Before(a: Row, b: Row) {
    a.sortOrder < b.sortOrder
    || (a.sortOrder == b.sortOrder && (if a.name == b.name then StringLe(a.id, b.id) else StringLe(a.name, b.name)))
  }

  lemma BeforeOrders()
    ensures TotalPreorder(Before)
  {
    hide StringLe;
    forall a, b ensures Before(a, b) || Before(b, a) {
      StringLeTotal(a.id, b.id);
      StringLeTotal(a.name, b.name);
    }
    forall a, b, c | Before(a, b) && Before(b, c) ensures Before(a, c) {
      BeforeTransitive(a, b, c);
    }
  }

  lemma BeforeTransitive(a: Row, b: Row, c: Row)
    requires Before(a, b) && Before(b, c)
    ensures Before(a, c)
  {
    hide StringLe;
    if a.sortOrder == b.sortOrder == c.sortOrder {
      if StringLe(a.name, b.name) && StringLe(b.name, c.name) {
        StringLeTransitive(a.name, b.name, c.name);
      }
      StringLeTotal(a.name, b.name);
      StringLeTotal(b.name, c.name);
      if a.name == b.name == c.name {
        StringLeTransitive(a.id, b.id, c.id);
      }
    }
  }

  /** The rows a request asks for: workspace, optional type, archived ones only on request. */
  datatype Query = Query(workspace: string, kind: Option<Kind>, includeArchived: bool)

  predicate Matches(r: Row, q: Query) {
    r.workspace == q.workspace && (q.kind.Some? ==> r.kind == q.kind.value) && (q.includeArchived || r.deletedAt.None?)
  }

  /** The rows found, each once. */
  predicate IsListing(listed: seq<Row>, rows: Table, q: Query) {
    && (forall i :: 0 <= i < |listed| ==> listed[i].id in rows && rows[listed[i].id] == listed[i] && Matches(listed[i], q))
    && (forall k :: k in rows && Matches(rows[k], q) ==> rows[k] in listed)
    && Distinct(listed)
  }

  // ----- grouping -----

  /** The rows under one parent, in listed order. */
  function Under(listed: seq<Row>, parent: Option<string>): seq<Row> {
    if listed == [] then []
    else
      var init := Under(listed[..|listed| - 1], parent);
      if listed[|listed| - 1].parent == parent then init + [listed[|listed| - 1]] else init
  }

  lemma {:induction false} UnderMembers(listed: seq<Row>, parent: Option<string>)
    ensures forall r :: r in Under(listed, parent) <==> r in listed && r.parent == parent
    ensures Distinct(listed) ==> Distinct(Under(listed, parent))
  {
    if listed != [] {
      var init := listed[..|listed| - 1];
      UnderMembers(init, parent);
      assert listed == init + [listed[|listed| - 1]];
      assert forall r :: r in listed <==> r in init || r == listed[|listed| - 1];
    }
  }

  type Groups = map<Option<string>, seq<Row>>

  function Group(groups: Groups, parent: Option<string>): seq<Row> {
    if parent in groups then groups[parent] else []
  }

  /** The loop that fills the map of children. */
  method GroupByParent(listed: seq<Row>) returns (groups: Groups)
    ensures forall p :: Group(groups, p) == Under(listed, p)
    ensures forall p :: p in groups ==> groups[p] != []
  {
    groups := map[];
    var i := 0;
    while i < |listed|
      invariant 0 <= i <= |listed|
      invariant forall p :: Group(groups, p) == Under(listed[..i], p)
      invariant forall p :: p in groups ==> groups[p] != []
    {
      var row := listed[i];
      ghost var before := groups;
      groups := groups[row.parent := Group(groups, row.parent) + [row]];
      assert listed[..i + 1][..i] == listed[..i];
      forall p ensures Group(groups, p) == Under(listed[..i + 1], p) {
        assert Group(before, p) == Under(listed[..i], p);
      }
      i := i + 1;
    }
    assert listed[..i] == listed;
  }

  // ----- the recursion -----

  /** No group hangs under a row of a group that itself hangs under a row. */
  ghost predicate Shallow(groups: Groups) {
    forall p, r {:trigger r in groups[p]} :: p in groups && p.Some? && r in groups[p] ==> Some(r.id) !in groups
  }

  function Level(groups: Groups, parent: Option<string>): nat {
    if parent.None? then 2 else if parent in groups then 1 else 0
  }

  lemma SortedMembers(group: seq<Row>)
    ensures forall r :: r in Sort(group, Before) <==> r in group
    ensures Sorted(Sort(group, Before), Before)
    ensures Distinct(group) ==> Distinct(Sort(group, Before))
  {
    BeforeOrders();
    SortSound(group, Before);
    MultisetMembers(Sort(group, Before), group);
    if Distinct(group) {
      SortDistinct(group, Before);
    }
  }

  lemma LevelDrops(groups: Groups, parent: Option<string>)
    requires Shallow(groups)
    ensures forall r :: r in Sort(Group(groups, parent), Before) ==> Level(groups, Some(r.id)) < Level(groups, parent)
  {
    SortedMembers(Group(groups, parent));
  }

  /** The rows of a group, sorted, each with its own group built. The recursion ends because no chain of groups is longer than two. */
  function Build(groups: Groups, parent: Option<string>): seq<Node>
    requires Shallow(groups)
    decreases Level(groups, parent), 1, 0
  {
    LevelDrops(groups, parent);
    BuildRows(groups, parent, Sort(Group(groups, parent), Before))
  }

  function BuildRows(groups: Groups, parent: Option<string>, rows: seq<Row>): (nodes: seq<Node>)
    requires Shallow(groups)
    requires forall r :: r in rows ==> Level(groups, Some(r.id)) < Level(groups, parent)
    ensures |nodes| == |rows|
    ensures forall i :: 0 <= i < |nodes| ==> nodes[i].row == rows[i] && nodes[i].children == Build(groups, Some(rows[i].id))
    decreases Level(groups, parent), 0, |rows|
  {
    if rows == [] then []
    else
      assert rows[0] in rows && forall r :: r in rows[1..] ==> r in rows;
      [Node(rows[0], Build(groups, Some(rows[0].id)))] + BuildRows(groups, parent, rows[1..])
  }

  // ----- what the tree is -----

  /** Exactly the asked-for rows under one parent, each once, in order. */
  ghost predicate ListsGroup(nodes: seq<Node>, rows: Table, q: Query, parent: Option<string>) {
    && (forall i :: 0 <= i < |nodes| ==> nodes[i].row.id in rows && rows[nodes[i].row.id] == nodes[i].row
                                         && Matches(nodes[i].row, q) && nodes[i].row.parent == parent)
    && (forall k :: k in rows && Matches(rows[k], q) && rows[k].parent == parent ==> exists i :: 0 <= i < |nodes| && nodes[i].row == rows[k])
    && (forall i, j :: 0 <= i < j < |nodes| ==> nodes[i].row != nodes[j].row && Before(nodes[i].row, nodes[j].row))
  }

  predicate Leaves(nodes: seq<Node>) {
    forall j :: 0 <= j < |nodes| ==> nodes[j].children == []
  }

  ghost predicate IsHierarchy(tree: seq<Node>, rows: Table, q: Query) {
    && ListsGroup(tree, rows, q, None)
    && (forall i :: 0 <= i < |tree| ==> Leaves(tree[i].children) && ListsGroup(tree[i].children, rows, q, Some(tree[i].row.id)))
  }

  lemma ListingShallow(groups: Groups, listed: seq<Row>, rows: Table, q: Query)
    requires Forest(rows) && IsListing(listed, rows, q)
    requires forall p :: Group(groups, p) == Under(listed, p)
    requires forall p :: p in groups ==> groups[p] != []
    ensures Shallow(groups)
  {
    hide Forest, ChildOk, Matches;
    forall p, r | p in groups && p.Some? && r in groups[p] ensures Some(r.id) !in groups {
      UnderMembers(listed, p);
      assert Group(groups, p) == Under(listed, p);
      assert rows[r.id] == r && r.parent == p;
      if Some(r.id) in groups {
        var s := groups[Some(r.id)][0];
        UnderMembers(listed, Some(r.id));
        assert Group(groups, Some(r.id)) == Under(listed, Some(r.id));
        TopAbove(rows, s);
      }
    }
  }

  lemma TopAbove(rows: Table, s: Row)
    requires Forest(rows) && s.id in rows && rows[s.id] == s && s.parent.Some?
    ensures s.parent.value in rows && rows[s.parent.value].parent.None?
  {
    assert ChildOk(rows, rows[s.id]);
  }

  lemma BuiltGroup(groups: Groups, listed: seq<Row>, rows: Table, q: Query, parent: Option<string>)
    requires Forest(rows) && IsListing(listed, rows, q) && Shallow(groups)
    requires Group(groups, parent) == Under(listed, parent)
    ensures ListsGroup(Build(groups, parent), rows, q, parent)
  {
    hide Before, Matches, Forest, Sort, Under;
    UnderMembers(listed, parent);
    var sorted := Sort(Group(groups, parent), Before);
    SortedMembers(Group(groups, parent));
    LevelDrops(groups, parent);
    var nodes := Build(groups, parent);
    BuiltRows(groups, parent);
    forall i | 0 <= i < |nodes|
      ensures nodes[i].row.id in rows && rows[nodes[i].row.id] == nodes[i].row && Matches(nodes[i].row, q) && nodes[i].row.parent == parent
    {
      assert sorted[i] in listed;
    }
    forall k | k in rows && Matches(rows[k], q) && rows[k].parent == parent ensures exists i :: 0 <= i < |nodes| && nodes[i].row == rows[k] {
      assert rows[k] in sorted;
      var i :| 0 <= i < |sorted| && sorted[i] == rows[k];
      assert nodes[i].row == rows[k];
    }
  }

  /** The nodes of a group follow its sorted rows. */
  lemma BuiltRows(groups: Groups, parent: Option<string>)
    requires Shallow(groups)
    ensures var sorted, nodes := Sort(Group(groups, parent), Before), Build(groups, parent);
            |nodes| == |sorted| && forall i :: 0 <= i < |nodes| ==> nodes[i].row == sorted[i]
  {
    LevelDrops(groups, parent);
    hide Before, Sort;
  }

  lemma LeavesEnd(groups: Groups, listed: seq<Row>, rows: Table, q: Query, row: Row)
    requires Forest(rows) && IsListing(listed, rows, q) && Shallow(groups)
    requires row.parent.Some? && row in Group(groups, row.parent)
    ensures Build(groups, Some(row.id)) == []
  {
    assert Some(row.id) !in groups;
  }

  /** For every forest the recursion ends and its result is the hierarchy. */
  lemma BuiltHierarchy(groups: Groups, listed: seq<Row>, rows: Table, q: Query)
    requires Forest(rows) && IsListing(listed, rows, q)
    requires forall p :: Group(groups, p) == Under(listed, p)
    requires forall p :: p in groups ==> groups[p] != []
    ensures Shallow(groups) && IsHierarchy(Build(groups, None), rows, q)
  {
    hide ListsGroup, IsListing, Before, Under;
    ListingShallow(groups, listed, rows, q);
    BuiltGroup(groups, listed, rows, q, None);
    var tree := Build(groups, None);
    forall i | 0 <= i < |tree|
      ensures Leaves(tree[i].children) && ListsGroup(tree[i].children, rows, q, Some(tree[i].row.id))
    {
      var p := Some(tree[i].row.id);
      assert Group(groups, p) == Under(listed, p);
      LevelDrops(groups, None);
      assert tree[i].children == Build(groups, p);
      BuiltGroup(groups, listed, rows, q, p);
      ChildrenEnd(groups, listed, rows, q, p);
    }
  }

  lemma ChildrenEnd(groups: Groups, listed: seq<Row>, rows: Table, q: Query, p: Option<string>)
    requires Forest(rows) && IsListing(listed, rows, q) && Shallow(groups)
    requires p.Some? && Group(groups, p) == Under(listed, p)
    ensures Leaves(Build(groups, p))
  {
    hide Before, IsListing;
    LevelDrops(groups, p);
    SortedMembers(Group(groups, p));
    UnderMembers(listed, p);
    var sorted := Sort(Group(groups, p), Before);
    var nodes := Build(groups, p);
    forall j | 0 <= j < |nodes| ensures nodes[j].children == [] {
      assert sorted[j] in Group(groups, p);
      LeavesEnd(groups, listed, rows, q, sorted[j]);
    }
  }

  // ----- every row once -----

  function Flatten(nodes: seq<Node>): seq<string> {
    if nodes == [] then [] else [nodes[0].row.id] + Flatten(nodes[0].children) + Flatten(nodes[1..])
  }

  lemma {:induction false} FlattenLeaves(nodes: seq<Node>)
    requires Leaves(nodes)
    ensures |Flatten(nodes)| == |nodes| && forall i :: 0 <= i < |nodes| ==> Flatten(nodes)[i] == nodes[i].row.id
  {
    if nodes != [] {
      FlattenLeaves(nodes[1..]);
    }
  }

  /** Where an id of the flattened tree sits: a top node, or a child of one. */
  predicate SitsIn(n: Node, id: string) {
    n.row.id == id || exists j :: 0 <= j < |n.children| && n.children[j].row.id == id
  }

  lemma FlattenNode(n: Node, id: string)
    requires Leaves(n.children)
    ensures id in [n.row.id] + Flatten(n.children) <==> SitsIn(n, id)
  {
    FlattenLeaves(n.children);
    if j :| 0 <= j < |n.children| && n.children[j].row.id == id {
      assert Flatten(n.children)[j] == id;
    }
    if id in Flatten(n.children) {
      var j :| 0 <= j < |Flatten(n.children)| && Flatten(n.children)[j] == id;
    }
  }

  lemma {:induction false} FlattenMembers(nodes: seq<Node>, id: string)
    requires forall i :: 0 <= i < |nodes| ==> Leaves(nodes[i].children)
    ensures id in Flatten(nodes) <==> exists i :: 0 <= i < |nodes| && SitsIn(nodes[i], id)
  {
    hide SitsIn;
    if nodes != [] {
      FlattenNode(nodes[0], id);
      FlattenMembers(nodes[1..], id);
      if i :| 0 <= i < |nodes| && SitsIn(nodes[i], id) {
        assert i > 0 ==> nodes[1..][i - 1] == nodes[i];
      }
      if i :| 0 <= i < |nodes[1..]| && SitsIn(nodes[1..][i], id) {
        assert nodes[i + 1] == nodes[1..][i];
      }
    }
  }

  lemma SitsOnce(tree: seq<Node>, rows: Table, q: Query, i: nat, j: nat, id: string)
    requires Forest(rows) && IsHierarchy(tree, rows, q)
    requires i < |tree| && j < |tree| && i != j
    ensures !SitsIn(tree[i], id) || !SitsIn(tree[j], id)
  {
    hide Before, Matches;
  }

  lemma NodeDistinct(tree: seq<Node>, rows: Table, q: Query, i: nat)
    requires Forest(rows) && IsHierarchy(tree, rows, q) && i < |tree|
    ensures Distinct([tree[i].row.id] + Flatten(tree[i].children))
  {
    hide Before, Matches;
    FlattenLeaves(tree[i].children);
  }

  lemma DistinctJoin(a: seq<string>, b: seq<string>)
    requires Distinct(a) && Distinct(b) && forall x :: x in a ==> x !in b
    ensures Distinct(a + b)
  {
    forall i, j | 0 <= i < j < |a + b| ensures (a + b)[i] != (a + b)[j] {
      if i < |a| <= j {
        assert a[i] in a && b[j - |a|] in b;
      }
    }
  }

  function Listed(n: Node): seq<string> {
    [n.row.id] + Flatten(n.children)
  }

  /** What one top-level node lists, the later ones do not. */
  lemma HeadApart(tree: seq<Node>, rows: Table, q: Query, from: nat)
    requires Forest(rows) && IsHierarchy(tree, rows, q) && from < |tree|
    ensures forall x :: x in Listed(tree[from]) ==> x !in Flatten(tree[from + 1..])
  {
    hide SitsIn, Forest, ListsGroup, Flatten;
    var rest := tree[from + 1..];
    forall x | x in Listed(tree[from]) ensures x !in Flatten(rest) {
      FlattenNode(tree[from], x);
      FlattenMembers(rest, x);
      forall j | 0 <= j < |rest| ensures !SitsIn(rest[j], x) {
        SitsOnce(tree, rows, q, from, from + 1 + j, x);
      }
    }
  }

  lemma {:induction false} FlattenDistinct(tree: seq<Node>, rows: Table, q: Query, from: nat)
    requires Forest(rows) && IsHierarchy(tree, rows, q) && from <= |tree|
    ensures Distinct(Flatten(tree[from..]))
    decreases |tree| - from
  {
    hide Forest, IsHierarchy, Distinct;
    if from < |tree| {
      FlattenDistinct(tree, rows, q, from + 1);
      NodeDistinct(tree, rows, q, from);
      HeadApart(tree, rows, q, from);
      assert tree[from..][1..] == tree[from + 1..];
      DistinctJoin(Listed(tree[from]), Flatten(tree[from + 1..]));
    } else {
      assert Distinct<string>([]) by { NothingDistinct(); }
    }
  }

  lemma NothingDistinct()
    ensures Distinct<string>([])
  {
  }

  lemma ParentMatches(rows: Table, q: Query, k: string)
    requires Forest(rows) && k in rows && Matches(rows[k], q) && rows[k].parent.Some?
    ensures rows[k].parent.value in rows && Matches(rows[rows[k].parent.value], q)
            && rows[rows[k].parent.value].parent.None? && rows[rows[k].parent.value].id == rows[k].parent.value
  {
    assert ChildOk(rows, rows[k]);
  }

  /** The hierarchy lists every asked-for row, and nothing else, exactly once. */
  lemma ListedExactlyOnce(tree: seq<Node>, rows: Table, q: Query)
    requires Forest(rows) && IsHierarchy(tree, rows, q)
    ensures Distinct(Flatten(tree))
    ensures forall k :: k in Flatten(tree) <==> k in rows && Matches(rows[k], q)
    ensures forall k :: k in Flatten(tree)
              <==> k in rows && rows[k].workspace == q.workspace && (q.kind.None? || q.kind == Some(rows[k].kind))
                   && (rows[k].deletedAt.Some? ==> q.includeArchived)
  {
    hide Before, SitsIn, IsHierarchy, Flatten;
    EachListedOnce(tree, rows, q);
  }

  lemma EachListedOnce(tree: seq<Node>, rows: Table, q: Query)
    requires Forest(rows) && IsHierarchy(tree, rows, q)
    ensures Distinct(Flatten(tree))
    ensures forall k :: k in Flatten(tree) <==> k in rows && Matches(rows[k], q)
  {
    hide Before, Matches, SitsIn;
    FlattenDistinct(tree, rows, q, 0);
    assert tree[0..] == tree;
    forall k ensures k in Flatten(tree) <==> k in rows && Matches(rows[k], q) {
      FlattenMembers(tree, k);
      ListedSomewhere(tree, rows, q, k);
    }
  }

  lemma ListedSomewhere(tree: seq<Node>, rows: Table, q: Query, k: string)
    requires Forest(rows) && IsHierarchy(tree, rows, q)
    ensures (exists i :: 0 <= i < |tree| && SitsIn(tree[i], k)) <==> k in rows && Matches(rows[k], q)
  {
    hide Before, Matches;
    if k in rows && Matches(rows[k], q) {
      if rows[k].parent.None? {
        var i :| 0 <= i < |tree| && tree[i].row == rows[k];
        assert SitsIn(tree[i], k);
      } else {
        ParentMatches(rows, q, k);
        var i :| 0 <= i < |tree| && tree[i].row == rows[rows[k].parent.value];
        var j :| 0 <= j < |tree[i].children| && tree[i].children[j].row == rows[k];
        assert SitsIn(tree[i], k);
      }
    }
  }

  // ----- lookup -----

  /** Depth-first search for one category. */
  function FindCategory(nodes: seq<Node>, id: string): Option<Node> {
    if nodes == [] then None
    else if nodes[0].row.id == id then Some(nodes[0])
    else if FindCategory(nodes[0].children, id).Some? then FindCategory(nodes[0].children, id)
    else FindCategory(nodes[1..], id)
  }

  lemma {:induction false} FindInFlatten(nodes: seq<Node>, id: string)
    ensures FindCategory(nodes, id).Some? <==> id in Flatten(nodes)
    ensures FindCategory(nodes, id).Some? ==> FindCategory(nodes, id).value.row.id == id
  {
    if nodes != [] {
      FindInFlatten(nodes[0].children, id);
      FindInFlatten(nodes[1..], id);
    }
  }

  /** A category is found in the hierarchy exactly when the request asks for it. */
  lemma FoundExactly(tree: seq<Node>, rows: Table, q: Query, id: string)
    requires Forest(rows) && IsHierarchy(tree, rows, q)
    ensures FindCategory(tree, id).Some? <==> id in rows && Matches(rows[id], q)
    ensures FindCategory(tree, id).Some? ==> rows[id].workspace == q.workspace && (rows[id].deletedAt.Some? ==> q.includeArchived)
  {
    hide IsHierarchy, Forest, Flatten, FindCategory;
    FindInFlatten(tree, id);
    ListedExactlyOnce(tree, rows, q);
  }

  // ----- reordering -----

  predicate Occurs(orders: seq<int>, v: int) {
    exists a :: 0 <= a < |orders| && orders[a] == v
  }

  /** An increasing list that holds each of 1..n holds them in place. */
  lemma {:induction false} CountingUp(orders: seq<int>, n: nat, i: nat)
    requires forall a, b :: 0 <= a < b < |orders| ==> orders[a] < orders[b]
    requires forall a :: 0 <= a < |orders| ==> 1 <= orders[a]
    requires forall v :: 1 <= v <= n ==> Occurs(orders, v)
    requires i < n
    ensures i < |orders| && orders[i] == i + 1
  {
    assert Occurs(orders, i + 1);
    var q :| 0 <= q < |orders| && orders[q] == i + 1;
    if i > 0 {
      CountingUp(orders, n, i - 1);
    }
  }

  lemma {:induction false} AtLeast(orders: seq<int>, a: nat)
    requires forall a, b :: 0 <= a < b < |orders| ==> orders[a] < orders[b]
    requires forall a :: 0 <= a < |orders| ==> 1 <= orders[a]
    requires a < |orders|
    ensures orders[a] >= a + 1
  {
    if a > 0 {
      AtLeast(orders, a - 1);
    }
  }

  function Orders(nodes: seq<Node>): (o: seq<int>)
    ensures |o| == |nodes|
  {
    seq(|nodes|, i requires 0 <= i < |nodes| => nodes[i].row.sortOrder)
  }

  /** Where a renumbered node stands in the request. */
  predicate NumberedBy(n: Node, ids: seq<string>) {
    1 <= n.row.sortOrder <= |ids| && n.row.id == ids[n.row.sortOrder - 1]
  }

  lemma NumberedNode(rows: Table, ids: seq<string>, ws: string, kind: Kind, parent: Option<string>, nodes: seq<Node>, a: nat)
    requires Forest(rows) && Reorder(rows, ids, ws).answer.Ok? && a < |nodes|
    requires forall k :: k in ids <==> k in ActiveGroup(rows, parent, ws, kind)
    requires ListsGroup(nodes, Reorder(rows, ids, ws).rows, Query(ws, Some(kind), false), parent)
    ensures NumberedBy(nodes[a], ids)
  {
    hide Before, Renumbered, AreActiveSiblings;
    RenumberedRows(rows, ids);
    var k := nodes[a].row.id;
    assert k in ActiveGroup(rows, parent, ws, kind);
    var i :| 0 <= i < |ids| && ids[i] == k;
  }

  lemma OrderOccurs(rows: Table, ids: seq<string>, ws: string, kind: Kind, parent: Option<string>, nodes: seq<Node>, v: nat)
    requires Forest(rows) && Reorder(rows, ids, ws).answer.Ok? && 1 <= v <= |ids|
    requires forall k :: k in ids <==> k in ActiveGroup(rows, parent, ws, kind)
    requires ListsGroup(nodes, Reorder(rows, ids, ws).rows, Query(ws, Some(kind), false), parent)
    ensures Occurs(Orders(nodes), v)
  {
    hide Before, Renumbered, AreActiveSiblings;
    RenumberedRows(rows, ids);
    var t, k := Reorder(rows, ids, ws).rows, ids[v - 1];
    assert k in ids && k in ActiveGroup(rows, parent, ws, kind);
    assert t[k] == rows[k].(sortOrder := v);
    var a :| 0 <= a < |nodes| && nodes[a].row == t[k];
    assert Orders(nodes)[a] == v;
  }

  /** Nodes in the tree's order, numbered by the request and no two alike, go up by their numbers. */
  lemma NumbersGoUp(nodes: seq<Node>, ids: seq<string>, a: nat, b: nat)
    requires a < b < |nodes| && NumberedBy(nodes[a], ids) && NumberedBy(nodes[b], ids)
    requires Before(nodes[a].row, nodes[b].row) && nodes[a].row.id != nodes[b].row.id
    ensures Orders(nodes)[a] < Orders(nodes)[b]
  {
    hide StringLe;
  }

  lemma ListedPair(nodes: seq<Node>, rows: Table, q: Query, parent: Option<string>, a: nat, b: nat)
    requires ListsGroup(nodes, rows, q, parent) && a < b < |nodes|
    ensures Before(nodes[a].row, nodes[b].row) && nodes[a].row.id != nodes[b].row.id
  {
    hide Matches, Before;
  }

  /** Numbers going up within 1 to n, each of them there, are 1 to n in place. */
  lemma InPlace(nodes: seq<Node>, ids: seq<string>)
    requires forall a :: 0 <= a < |nodes| ==> NumberedBy(nodes[a], ids)
    requires forall a, b :: 0 <= a < b < |nodes| ==> Orders(nodes)[a] < Orders(nodes)[b]
    requires forall v :: 1 <= v <= |ids| ==> Occurs(Orders(nodes), v)
    ensures |nodes| == |ids| && forall i :: 0 <= i < |ids| ==> nodes[i].row.id == ids[i]
  {
    var orders, n := Orders(nodes), |ids|;
    forall a | 0 <= a < |nodes| ensures 1 <= orders[a] <= n {
      assert NumberedBy(nodes[a], ids);
    }
    forall i | 0 <= i < n ensures i < |nodes| && nodes[i].row.id == ids[i] {
      CountingUp(orders, n, i);
      assert NumberedBy(nodes[i], ids);
    }
    if n > 0 {
      CountingUp(orders, n, n - 1);
    }
    if |orders| > 0 {
      AtLeast(orders, |orders| - 1);
    }
  }

  /** Reordering a whole group shows the group in exactly the requested order. */
  lemma ReorderShows(rows: Table, ids: seq<string>, ws: string, kind: Kind, parent: Option<string>, nodes: seq<Node>)
    requires Forest(rows) && Reorder(rows, ids, ws).answer.Ok?
    requires forall k :: k in ids <==> k in ActiveGroup(rows, parent, ws, kind)
    requires ListsGroup(nodes, Reorder(rows, ids, ws).rows, Query(ws, Some(kind), false), parent)
    ensures |nodes| == |ids| && forall i :: 0 <= i < |ids| ==> nodes[i].row.id == ids[i]
  {
    hide Reorder, ActiveGroup, Forest, ListsGroup, NumberedBy, Before, Orders, Occurs;
    var t := Reorder(rows, ids, ws).rows;
    forall a | 0 <= a < |nodes| ensures NumberedBy(nodes[a], ids) {
      NumberedNode(rows, ids, ws, kind, parent, nodes, a);
    }
    forall v | 1 <= v <= |ids| ensures Occurs(Orders(nodes), v) {
      OrderOccurs(rows, ids, ws, kind, parent, nodes, v);
    }
    forall a, b | 0 <= a < b < |nodes| ensures Orders(nodes)[a] < Orders(nodes)[b] {
      ListedPair(nodes, t, Query(ws, Some(kind), false), parent, a, b);
      NumbersGoUp(nodes, ids, a, b);
    }
    InPlace(nodes, ids);
  }
}
