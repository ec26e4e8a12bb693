/** The department tree the server builds and the subtree ids the client collects from it. */
module DeptTree {
  import opened DeptForest
  import opened DeptRepo

  /** A tree node as the server builds it: the children are set after all nodes exist. */
  class DeptNode {
    const dept: Dept
    var children: seq<DeptNode>

    constructor (d: Dept)
      ensures dept == d && children == []
    {
      dept := d;
      children := [];
    }
  }

  ghost predicate AllIn(nodes: map<int, DeptNode>, ids: seq<int>) {
    forall i :: 0 <= i < |ids| ==> ids[i] in nodes
  }

  /** The nodes of a list of ids. */
  ghost function NodesOf(nodes: map<int, DeptNode>, ids: seq<int>): (r: seq<DeptNode>)
    requires AllIn(nodes, ids)
    ensures |r| == |ids| && forall i :: 0 <= i < |ids| ==> r[i] == nodes[ids[i]]
  {
    seq(|ids|, i requires 0 <= i < |ids| => nodes[ids[i]])
  }

  /** Every node carries its department. */
  ghost predicate Labelled(nodes: map<int, DeptNode>, flat: seq<Dept>) {
    && nodes.Keys == Ids(flat)
    && forall i :: 0 <= i < |flat| ==> flat[i].id in nodes && nodes[flat[i].id].dept == flat[i]
  }

  /** Every node's children are the nodes of its department's children, in list order. */
  ghost predicate Linked(nodes: map<int, DeptNode>, flat: seq<Dept>)
    reads nodes.Values
  {
    && Labelled(nodes, flat)
    && forall p :: AllIn(nodes, ChildIds(flat, p))
                   && (p in nodes ==> nodes[p].children == NodesOf(nodes, ChildIds(flat, p)))
  }

  /** The nodes grouped by parent id. */
  ghost predicate Grouped(nodes: map<int, DeptNode>, byParent: map<int, seq<DeptNode>>, flat: seq<Dept>) {
    forall p :: AllIn(nodes, ChildIds(flat, p))
                && (if p in byParent then byParent[p] else []) == NodesOf(nodes, ChildIds(flat, p))
  }

  lemma ChildIdsAppend(flat: seq<Dept>, d: Dept, p: int)
    ensures ChildIds(flat + [d], p) == ChildIds(flat, p) + if d.parentId == p then [d.id] else []
  {
    assert (flat + [d])[..|flat|] == flat;
  }

  /** A further node leaves the nodes of a list of ids as they were. */
  lemma NodesAppend(nodes: map<int, DeptNode>, ids: seq<int>, id: int, node: DeptNode)
    requires AllIn(nodes, ids) && id !in nodes
    ensures AllIn(nodes[id := node], ids) && NodesOf(nodes[id := node], ids) == NodesOf(nodes, ids)
    ensures AllIn(nodes[id := node], ids + [id])
            && NodesOf(nodes[id := node], ids + [id]) == NodesOf(nodes, ids) + [node]
  {
  }

  /** Adding one department's node to the groups. */
  lemma GroupStep(nodes: map<int, DeptNode>, byParent: map<int, seq<DeptNode>>, flat: seq<Dept>, d: Dept,
                  node: DeptNode)
    requires Grouped(nodes, byParent, flat) && d.id !in nodes
    ensures var group := if d.parentId in byParent then byParent[d.parentId] else [];
            Grouped(nodes[d.id := node], byParent[d.parentId := group + [node]], flat + [d])
  {
    hide ChildIds, AllIn, NodesOf;
    forall p
      ensures AllIn(nodes[d.id := node], ChildIds(flat + [d], p))
      ensures NodesOf(nodes[d.id := node], ChildIds(flat + [d], p))
              == NodesOf(nodes, ChildIds(flat, p)) + if d.parentId == p then [node] else []
    {
      ChildIdsAppend(flat, d, p);
      NodesAppend(nodes, ChildIds(flat, p), d.id, node);
      assert ChildIds(flat, p) + [] == ChildIds(flat, p);
      assert NodesOf(nodes, ChildIds(flat, p)) + [] == NodesOf(nodes, ChildIds(flat, p));
    }
  }

  lemma LabelStep(nodes: map<int, DeptNode>, flat: seq<Dept>, d: Dept, node: DeptNode)
    requires Labelled(nodes, flat) && DistinctIds(flat + [d]) && node.dept == d
    ensures d.id !in nodes && Labelled(nodes[d.id := node], flat + [d])
  {
    forall i | 0 <= i < |flat| ensures flat[i].id != d.id {
      assert (flat + [d])[i] == flat[i] && (flat + [d])[|flat|] == d;
    }
    assert Ids(flat + [d]) == Ids(flat) + {d.id};
  }

  lemma NextPrefix(flat: seq<Dept>, n: nat)
    requires DistinctIds(flat) && n < |flat|
    ensures flat[..n + 1] == flat[..n] + [flat[n]] && DistinctIds(flat[..n] + [flat[n]])
  {
  }

  /** All nodes are different, and none has children yet. */
  ghost predicate Bare(nodes: map<int, DeptNode>)
    reads nodes.Values
  {
    && (forall id :: id in nodes ==> nodes[id].children == [])
    && (forall i, j :: i in nodes && j in nodes && i != j ==> nodes[i] != nodes[j])
  }

  lemma BareStep(nodes: map<int, DeptNode>, id: int, node: DeptNode)
    requires Bare(nodes) && node.children == [] && forall i :: i in nodes ==> nodes[i] != node
    ensures Bare(nodes[id := node])
  {
  }

  /** One node per department, and the nodes grouped by parent id. */
  method MakeNodes(flat: seq<Dept>) returns (nodes: map<int, DeptNode>, byParent: map<int, seq<DeptNode>>)
    requires DistinctIds(flat)
    ensures Labelled(nodes, flat) && Grouped(nodes, byParent, flat)
    ensures Bare(nodes) && forall id :: id in nodes ==> fresh(nodes[id])
  {
    nodes := map[];
    byParent := map[];
    ghost var done: seq<Dept> := [];
    assert Labelled(nodes, done) && Grouped(nodes, byParent, done) && Bare(nodes);
    var i := 0;
    hide *;
    while i < |flat|
      invariant 0 <= i <= |flat| && done == flat[..i]
      invariant Labelled(nodes, done) && Grouped(nodes, byParent, done)
      invariant Bare(nodes) && forall id :: id in nodes ==> fresh(nodes[id])
    {
      var d := flat[i];
      var node := new DeptNode(d);
      NextPrefix(flat, i);
      LabelStep(nodes, done, d, node);
      var group := if d.parentId in byParent then byParent[d.parentId] else [];
      GroupStep(nodes, byParent, done, d, node);
      BareStep(nodes, d.id, node);
      nodes := nodes[d.id := node];
      byParent := byParent[d.parentId := group + [node]];
      done := done + [d];
      i := i + 1;
    }
    assert flat[..i] == flat;
  }

  lemma AllLinked(nodes: map<int, DeptNode>, byParent: map<int, seq<DeptNode>>, flat: seq<Dept>)
    requires Labelled(nodes, flat) && Grouped(nodes, byParent, flat)
    requires forall id :: id in nodes ==> nodes[id].children == if id in byParent then byParent[id] else []
    ensures Linked(nodes, flat)
    ensures (if 0 in byParent then byParent[0] else []) == NodesOf(nodes, ChildIds(flat, 0))
  {
  }

  /** Every grouped parent that has a node gets its group as children. */
  method LinkChildren(nodes: map<int, DeptNode>, byParent: map<int, seq<DeptNode>>)
    requires Bare(nodes)
    modifies nodes.Values
    ensures forall id :: id in nodes ==> nodes[id].children == if id in byParent then byParent[id] else []
  {
    var todo := byParent.Keys;
    while todo != {}
      invariant todo <= byParent.Keys
      invariant forall id :: id in nodes ==>
                             nodes[id].children == if id in byParent.Keys - todo then byParent[id] else []
    {
      if forall x :: x !in todo { assert false; }
      var pid :| pid in todo;
      if pid in nodes {
        nodes[pid].children := byParent[pid];
      }
      todo := todo - {pid};
    }
  }

  method BuildTree(flat: seq<Dept>) returns (roots: seq<DeptNode>, ghost nodes: map<int, DeptNode>)
    requires DistinctIds(flat)
    ensures Linked(nodes, flat)
    ensures AllIn(nodes, ChildIds(flat, 0))
    ensures forall id :: id in nodes ==> fresh(nodes[id])
    ensures roots == NodesOf(nodes, ChildIds(flat, 0))
  {
    var made, byParent := MakeNodes(flat);
    hide *;
    LinkChildren(made, byParent);
    AllLinked(made, byParent, flat);
    roots := if 0 in byParent then byParent[0] else [];
    nodes := made;
  }

  // ---------------------------------------------------------------- the tree as a value

  /** The tree as it is sent to the client. */
  datatype Tree = Tree(dept: Dept, children: seq<Tree>)

  /** The value read off a node and what hangs below it. */
  ghost predicate Represents(n: DeptNode, t: Tree)
    reads *
    decreases t
  {
    && n.dept == t.dept
    && |n.children| == |t.children|
    && forall i :: 0 <= i < |t.children| ==> Represents(n.children[i], t.children[i])
  }

  /** At every node the children are exactly the department's own children, in list order. */
  ghost predicate TreeOf(t: Tree, flat: seq<Dept>) {
    && t.dept in flat
    && |t.children| == |ChildIds(flat, t.dept.id)|
    && (forall i :: 0 <= i < |t.children| ==> t.children[i].dept.id == ChildIds(flat, t.dept.id)[i])
    && (forall i :: 0 <= i < |t.children| ==> TreeOf(t.children[i], flat))
  }

  /** The tree below a department of a listed forest. */
  ghost function Grown(t: Table, flat: seq<Dept>, rank: map<int, int>, bound: nat, id: int): (r: Tree)
    requires Keyed(t) && Ranked(t, rank, bound) && Covers(flat, t) && id in t
    ensures r.dept == t[id] && TreeOf(r, flat)
    decreases bound - rank[id]
  {
    ChildIdsOfTable(flat, t, id);
    var kids := ChildIds(flat, id);
    assert forall i :: 0 <= i < |kids| ==> kids[i] in kids;
    Tree(t[id], seq(|kids|, i requires 0 <= i < |kids| => Grown(t, flat, rank, bound, kids[i])))
  }

  lemma GrownRepresented(t: Table, flat: seq<Dept>, rank: map<int, int>, bound: nat, id: int, nodes: map<int, DeptNode>)
    requires Keyed(t) && Ranked(t, rank, bound) && Covers(flat, t) && id in t
    requires Linked(nodes, flat) && id in nodes
    ensures Represents(nodes[id], Grown(t, flat, rank, bound, id))
    decreases bound - rank[id]
  {
    ChildIdsOfTable(flat, t, id);
    var kids := ChildIds(flat, id);
    assert t[id] in flat;
    forall i | 0 <= i < |kids| ensures Represents(nodes[id].children[i], Grown(t, flat, rank, bound, id).children[i]) {
      assert kids[i] in kids;
      GrownRepresented(t, flat, rank, bound, kids[i], nodes);
    }
  }

  /** One tree for each id of a row. */
  ghost predicate RowOf(trees: seq<Tree>, ids: seq<int>, flat: seq<Dept>) {
    && |trees| == |ids|
    && (forall i :: 0 <= i < |trees| ==> trees[i].dept.id == ids[i])
    && (forall i :: 0 <= i < |trees| ==> TreeOf(trees[i], flat))
  }

  /** The trees of the roots. */
  ghost predicate IsForestOf(trees: seq<Tree>, flat: seq<Dept>) {
    RowOf(trees, ChildIds(flat, 0), flat)
  }

  /** A row of nodes reads as a row of trees. */
  ghost predicate RowRepresents(row: seq<DeptNode>, trees: seq<Tree>)
    reads *
  {
    |row| == |trees| && forall i :: 0 <= i < |trees| ==> Represents(row[i], trees[i])
  }

  /** The trees of a row of departments. */
  ghost function GrownAll(t: Table, flat: seq<Dept>, rank: map<int, int>, bound: nat, ids: seq<int>): (r: seq<Tree>)
    requires Keyed(t) && Ranked(t, rank, bound) && Covers(flat, t) && forall id :: id in ids ==> id in t
    ensures |r| == |ids| && forall i :: 0 <= i < |ids| ==> r[i] == Grown(t, flat, rank, bound, ids[i])
  {
    if ids == [] then [] else [Grown(t, flat, rank, bound, ids[0])] + GrownAll(t, flat, rank, bound, ids[1..])
  }

  lemma AllRepresented(t: Table, flat: seq<Dept>, rank: map<int, int>, bound: nat, ids: seq<int>,
                       nodes: map<int, DeptNode>)
    requires Keyed(t) && Ranked(t, rank, bound) && Covers(flat, t) && forall id :: id in ids ==> id in t
    requires Linked(nodes, flat) && AllIn(nodes, ids)
    ensures RowOf(GrownAll(t, flat, rank, bound, ids), ids, flat)
    ensures RowRepresents(NodesOf(nodes, ids), GrownAll(t, flat, rank, bound, ids))
  {
    hide Covers, Ranked, ChildIds, Linked, Represents, TreeOf, Grown, GrownAll;
    forall i | 0 <= i < |ids|
      ensures Grown(t, flat, rank, bound, ids[i]).dept.id == ids[i]
      ensures Represents(nodes[ids[i]], Grown(t, flat, rank, bound, ids[i]))
    {
      assert ids[i] in ids;
      GrownRepresented(t, flat, rank, bound, ids[i], nodes);
    }
  }

  /** On every valid table the builder's result reads as the forest of that table. */
  method BuildTreeOfTable(ghost t: Table, flat: seq<Dept>) returns (roots: seq<DeptNode>)
    requires Forest(t) && Covers(flat, t)
    ensures exists trees: seq<Tree> :: RowRepresents(roots, trees) && IsForestOf(trees, flat)
  {
    ChildIdsOfTable(flat, t, 0);
    ghost var nodes;
    roots, nodes := BuildTree(flat);
    ghost var rank: map<int, int>, bound: nat :| Ranked(t, rank, bound);
    assert Keyed(t) && forall id :: id in ChildIds(flat, 0) ==> id in t;
    assert forall trees :: RowOf(trees, ChildIds(flat, 0), flat) ==> IsForestOf(trees, flat);
    hide *;
    ghost var trees := GrownAll(t, flat, rank, bound, ChildIds(flat, 0));
    AllRepresented(t, flat, rank, bound, ChildIds(flat, 0), nodes);
    assert RowRepresents(roots, trees) && IsForestOf(trees, flat);
  }

  // ---------------------------------------------------------------- the client

  /** The ids of a row of sibling trees, one subtree after the other. */
  function CollectAll(ts: seq<Tree>): seq<int>
    decreases ts, 0
  {
    if ts == [] then [] else CollectSubtreeIds(ts[0]) + CollectAll(ts[1..])
  }

  function CollectSubtreeIds(t: Tree): seq<int>
    decreases t, 1
  {
    [t.dept.id] + CollectAll(t.children)
  }

  predicate NoRepeats(xs: seq<int>) {
    forall i, j :: 0 <= i < j < |xs| ==> xs[i] != xs[j]
  }

  /** Below, or equal to, one of a list. */
  ghost predicate BelowOne(table: Table, x: int, ids: seq<int>) {
    exists i :: 0 <= i < |ids| && Under(table, x, ids[i])
  }

  lemma OneMoreId(id: int, below: seq<int>)
    requires NoRepeats(below) && id !in below
    ensures NoRepeats([id] + below)
    ensures forall x :: x in [id] + below <==> x == id || x in below
  {
  }

  lemma ListedInTable(flat: seq<Dept>, table: Table, d: Dept)
    requires Forest(table) && Covers(flat, table) && d in flat
    ensures d.id in table
  {
  }

  /** Whatever is below a child is below the department, and the department is not. */
  lemma BelowOwnKid(flat: seq<Dept>, table: Table, x: int, id: int)
    requires Forest(table) && Covers(flat, table) && BelowOne(table, x, ChildIds(flat, id))
    ensures Under(table, x, id) && x != id
  {
    hide Under, Walk, ChildIds;
    var kids := ChildIds(flat, id);
    ChildIdsOfTable(flat, table, id);
    var i :| 0 <= i < |kids| && Under(table, x, kids[i]);
    assert kids[i] in kids;
    UnderSelf(table, id);
    UnderStep(table, kids[i], id);
    UnderTransitive(table, x, kids[i], id);
    NoCycle(table, kids[i]);
  }

  lemma NotBelowOwnKid(flat: seq<Dept>, table: Table, id: int)
    requires Forest(table) && Covers(flat, table)
    ensures !BelowOne(table, id, ChildIds(flat, id))
  {
    hide Forest, Covers, ChildIds, Under, BelowOne;
    if BelowOne(table, id, ChildIds(flat, id)) { BelowOwnKid(flat, table, id, id); }
  }

  lemma KidOnTheWay(table: Table, x: int, id: int) returns (c: int)
    requires Under(table, x, id) && x != id
    ensures c in table && table[c].parentId == id && Under(table, x, c)
  {
    var k: nat :| Walk(table, x, k, id);
    WalkLast(table, x, k, id);
    c :| c in table && table[c].parentId == id && Walk(table, x, k - 1, c);
  }

  /** Below a department through the child that the walk upwards meets last. */
  lemma BelowSomeKid(flat: seq<Dept>, table: Table, x: int, id: int)
    requires Forest(table) && Covers(flat, table) && Under(table, x, id) && x != id
    ensures BelowOne(table, x, ChildIds(flat, id))
  {
    hide Under, Walk, ChildIds;
    ChildIdsOfTable(flat, table, id);
    var c := KidOnTheWay(table, x, id);
    var i :| 0 <= i < |ChildIds(flat, id)| && ChildIds(flat, id)[i] == c;
  }

  /** Strictly below a department means below one of its children. */
  lemma BelowThroughKid(flat: seq<Dept>, table: Table, x: int, id: int)
    requires Forest(table) && Covers(flat, table) && x != id
    ensures Under(table, x, id) <==> BelowOne(table, x, ChildIds(flat, id))
  {
    hide Forest, Covers, ChildIds, Under, BelowOne;
    if Under(table, x, id) {
      BelowSomeKid(flat, table, x, id);
    }
    if BelowOne(table, x, ChildIds(flat, id)) {
      BelowOwnKid(flat, table, x, id);
    }
  }

  /** No department lies below two different children of one department. */
  ghost predicate Apart(table: Table, kids: seq<int>) {
    forall i, j, x :: 0 <= i < j < |kids| ==> !(Under(table, x, kids[i]) && Under(table, x, kids[j]))
  }

  lemma OnceEach(kids: seq<int>, i: nat, j: nat)
    requires i < j < |kids| && forall c :: multiset(kids)[c] <= 1
    ensures kids[i] != kids[j]
  {
    assert kids == kids[..j] + kids[j..];
    assert kids[..j][i] == kids[i] && kids[j..][0] == kids[j];
    assert multiset(kids)[kids[i]] == multiset(kids[..j])[kids[i]] + multiset(kids[j..])[kids[i]];
    assert kids[i] in multiset(kids[..j]) && kids[j] in multiset(kids[j..]);
  }

  lemma SiblingsApart(table: Table, a: int, b: int, id: int, x: int)
    requires Forest(table) && a in table && b in table && a != b && table[a].parentId == id && table[b].parentId == id
    ensures !(Under(table, x, a) && Under(table, x, b))
  {
    if Under(table, x, a) && Under(table, x, b) {
      var k: nat :| Walk(table, x, k, a);
      var l: nat :| Walk(table, x, l, b);
      WalksCompare(table, x, k, a, l, b);
      UnderStep(table, a, b);
      UnderStep(table, b, a);
      UnderStep(table, a, id);
      UnderStep(table, b, id);
      NoCycle(table, a);
      NoCycle(table, b);
    }
  }

  lemma KidsApart(flat: seq<Dept>, table: Table, id: int)
    requires Forest(table) && Covers(flat, table)
    ensures Apart(table, ChildIds(flat, id))
  {
    var kids := ChildIds(flat, id);
    ChildIdsOfTable(flat, table, id);
    hide Forest, Covers, ChildIds;
    forall i, j, x | 0 <= i < j < |kids| ensures !(Under(table, x, kids[i]) && Under(table, x, kids[j])) {
      assert kids[i] in kids && kids[j] in kids;
      OnceEach(kids, i, j);
      SiblingsApart(table, kids[i], kids[j], id, x);
    }
  }

  lemma NoRepeatsConcat(a: seq<int>, b: seq<int>)
    requires NoRepeats(a) && NoRepeats(b)
    requires forall x :: !(x in a && x in b)
    ensures NoRepeats(a + b)
  {
    forall i, j | 0 <= i < j < |a + b| ensures (a + b)[i] != (a + b)[j] {
      if i < |a| <= j {
        assert a[i] in a && b[j - |a|] in b;
      }
    }
  }

  lemma BelowHeadOrTail(table: Table, x: int, ids: seq<int>)
    requires ids != []
    ensures BelowOne(table, x, ids) <==> Under(table, x, ids[0]) || BelowOne(table, x, ids[1..])
    ensures Apart(table, ids) ==> Apart(table, ids[1..]) && !(Under(table, x, ids[0]) && BelowOne(table, x, ids[1..]))
  {
    hide Under;
    if i :| 0 <= i < |ids| && Under(table, x, ids[i]) {
      if i > 0 { assert Under(table, x, ids[1..][i - 1]); }
    }
  }

  lemma {:induction false} CollectAllExact(ts: seq<Tree>, ids: seq<int>, flat: seq<Dept>, table: Table)
    requires Forest(table) && Covers(flat, table) && |ts| == |ids| && Apart(table, ids)
    requires forall i :: 0 <= i < |ts| ==> ts[i].dept.id == ids[i] && TreeOf(ts[i], flat)
    ensures NoRepeats(CollectAll(ts))
    ensures forall x :: x in CollectAll(ts) <==> x in table && BelowOne(table, x, ids)
    decreases ts, 0
  {
    if ts != [] {
      hide Forest, Covers, TreeOf, Under, Apart, NoRepeats;
      var head, tail := CollectSubtreeIds(ts[0]), CollectAll(ts[1..]);
      CollectExact(ts[0], flat, table);
      BelowHeadOrTail(table, 0, ids);
      CollectAllExact(ts[1..], ids[1..], flat, table);
      hide BelowOne;
      forall x
        ensures x in CollectAll(ts) <==> x in table && BelowOne(table, x, ids)
        ensures !(x in head && x in tail)
      {
        BelowHeadOrTail(table, x, ids);
      }
      NoRepeatsConcat(head, tail);
    }
  }

  /** Collecting from a node gives its department and everything below it, each id once. */
  lemma {:induction false} CollectExact(t: Tree, flat: seq<Dept>, table: Table)
    requires Forest(table) && Covers(flat, table) && TreeOf(t, flat)
    ensures NoRepeats(CollectSubtreeIds(t))
    ensures forall x :: x in CollectSubtreeIds(t) <==> x in table && Under(table, x, t.dept.id)
    decreases t, 1
  {
    hide Forest, Covers, ChildIds, Under, BelowOne, Apart, NoRepeats;
    var id, below := t.dept.id, CollectAll(t.children);
    KidsApart(flat, table, id);
    CollectAllExact(t.children, ChildIds(flat, id), flat, table);
    NotBelowOwnKid(flat, table, id);
    OneMoreId(id, below);
    ListedInTable(flat, table, t.dept);
    UnderSelf(table, id);
    forall x ensures x in CollectSubtreeIds(t) <==> x in table && Under(table, x, id) {
      if x != id { BelowThroughKid(flat, table, x, id); }
    }
  }

  /** Main result: on every valid table the client's ids for any node of the tree are the server's subtree ids,
      and the whole tree holds each department of the table exactly once. */
  lemma ClientAgreesWithServer(t: Tree, flat: seq<Dept>, table: Table, server: seq<int>)
    requires Forest(table) && Covers(flat, table) && TreeOf(t, flat) && IsSubtree(table, t.dept.id, server)
    ensures NoRepeats(CollectSubtreeIds(t))
    ensures forall x :: x in CollectSubtreeIds(t) <==> x in server
  {
    CollectExact(t, flat, table);
    assert t.dept.id in table;
    UnderSelf(table, t.dept.id);
  }

  lemma WholeTreeExact(trees: seq<Tree>, flat: seq<Dept>, table: Table)
    requires Forest(table) && Covers(flat, table) && IsForestOf(trees, flat)
    ensures NoRepeats(CollectAll(trees))
    ensures forall x :: x in CollectAll(trees) <==> x in table
  {
    KidsApart(flat, table, 0);
    ChildIdsOfTable(flat, table, 0);
    CollectAllExact(trees, ChildIds(flat, 0), flat, table);
    forall x | x in table ensures BelowOne(table, x, ChildIds(flat, 0)) {
      OneRoot(table, x);
      var r :| IsRoot(table, r) && forall y :: y in table ==> Under(table, y, r);
      assert r in ChildIds(flat, 0);
    }
  }

  // ---------------------------------------------------------------- the tree a restricted user sees

  /** The rows with these ids. */
  ghost function Restricted(t: Table, ids: set<int>): Table {
    map id | id in t && id in ids :: t[id]
  }

  /** With a department the one above it is needed too. */
  lemma NeededClosed(t: Table, visible: seq<Dept>, x: int)
    requires x in t && NeededAbove(t, visible, x) && t[x].parentId in t
    ensures NeededAbove(t, visible, t[x].parentId)
  {
    var i :| 0 <= i < |visible| && (x == visible[i].id || (x in t && Under(t, visible[i].id, x)));
    UnderSelf(t, x);
    UnderSelf(t, t[x].parentId);
    UnderStep(t, x, t[x].parentId);
    UnderTransitive(t, visible[i].id, x, t[x].parentId);
  }

  lemma RestrictedForest(t: Table, visible: seq<Dept>, ids: set<int>)
    requires Forest(t) && forall x :: x in ids <==> x in t && NeededAbove(t, visible, x)
    ensures Forest(Restricted(t, ids))
  {
    var sub := Restricted(t, ids);
    var rank: map<int, int>, bound: nat :| Ranked(t, rank, bound);
    forall x | x in sub && t[x].parentId != 0 ensures t[x].parentId in sub {
      NeededClosed(t, visible, x);
    }
    assert Ranked(sub, rank, bound);
  }

  /** The nodes read as a forest of exactly the visible departments and those above them, each once, and each under
      its own parent. */
  ghost predicate ShowsVisible(roots: seq<DeptNode>, t: Table, visible: seq<Dept>, flat: seq<Dept>, trees: seq<Tree>)
    reads *
  {
    && RowRepresents(roots, trees) && RowsOf(flat, t) && IsForestOf(trees, flat)
    && NoRepeats(CollectAll(trees))
    && forall x :: x in CollectAll(trees) <==> NeededAbove(t, visible, x)
  }

  lemma NeededCovers(t: Table, visible: seq<Dept>, flat: seq<Dept>)
    requires Forest(t) && RowsOf(flat, t) && forall x :: x in Ids(flat) <==> NeededAbove(t, visible, x)
    ensures var sub := Restricted(t, Ids(flat));
            Forest(sub) && Covers(flat, sub) && forall x :: x in sub <==> NeededAbove(t, visible, x)
  {
    var sub := Restricted(t, Ids(flat));
    forall x | x in Ids(flat) ensures x in t && t[x] in flat {
      var d :| d in flat && d.id == x;
      var i :| 0 <= i < |flat| && flat[i] == d;
    }
    forall i | 0 <= i < |flat| ensures flat[i].id in sub {
      assert flat[i] in flat;
    }
    RestrictedForest(t, visible, Ids(flat));
  }

  /** Main result: the tree of the visible rows, completed by their ancestors. */
  method ListTree(t: Table, visible: seq<Dept>) returns (roots: seq<DeptNode>)
    requires Forest(t) && forall i :: 0 <= i < |visible| ==> visible[i].id in t && t[visible[i].id] == visible[i]
    ensures exists flat: seq<Dept>, trees: seq<Tree> :: ShowsVisible(roots, t, visible, flat, trees)
  {
    var flat := ExpandWithAncestors(visible, t);
    ghost var sub := Restricted(t, Ids(flat));
    NeededCovers(t, visible, flat);
    roots := BuildTreeOfTable(sub, flat);
    hide Forest, RowRepresents, IsForestOf, NeededAbove, Covers, CollectAll, RowsOf;
    ghost var trees: seq<Tree> :| RowRepresents(roots, trees) && IsForestOf(trees, flat);
    WholeTreeExact(trees, flat, sub);
    assert ShowsVisible(roots, t, visible, flat, trees);
  }

  // ---------------------------------------------------------------- cascading selection

  /** The subtree ids of every node, later nodes overriding earlier ones. */
  function SubtreeIdMap(ts: seq<Tree>): map<int, seq<int>>
    decreases ts
  {
    if ts == [] then map[]
    else map[ts[0].dept.id := CollectSubtreeIds(ts[0])] + SubtreeIdMap(ts[0].children) + SubtreeIdMap(ts[1..])
  }

  method ToggleDeptScopeCascade(selected: set<int>, deptId: int, checked: bool, tree: seq<Tree>)
    returns (next: set<int>)
    ensures var m := SubtreeIdMap(tree);
            var ids := if deptId in m then m[deptId] else [deptId];
            forall x :: x in next <==> if x in ids then checked else x in selected
  {
    next := selected;
    var m := SubtreeIdMap(tree);
    var ids := if deptId in m then m[deptId] else [deptId];
    var i := 0;
    while i < |ids|
      invariant 0 <= i <= |ids|
      invariant forall x :: x in next <==> if x in ids[..i] then checked else x in selected
    {
      assert ids[..i + 1] == ids[..i] + [ids[i]];
      if checked { next := next + {ids[i]}; } else { next := next - {ids[i]}; }
      i := i + 1;
    }
    assert ids[..i] == ids;
  }

  /** Every department in the trees has an entry, and each entry lists exactly a subtree. */
  ghost predicate ExactMap(m: map<int, seq<int>>, table: Table) {
    forall x, y :: x in m ==> (y in m[x] <==> y in table && Under(table, y, x))
  }

  lemma ExactUnion(a: map<int, seq<int>>, b: map<int, seq<int>>, table: Table)
    requires ExactMap(a, table) && ExactMap(b, table)
    ensures ExactMap(a + b, table)
  {
  }

  lemma ChildrenAreTrees(t: Tree, flat: seq<Dept>)
    requires TreeOf(t, flat)
    ensures forall i :: 0 <= i < |t.children| ==> TreeOf(t.children[i], flat)
  {
  }

  lemma MapUnfolds(ts: seq<Tree>)
    requires ts != []
    ensures SubtreeIdMap(ts)
            == map[ts[0].dept.id := CollectSubtreeIds(ts[0])] + SubtreeIdMap(ts[0].children) + SubtreeIdMap(ts[1..])
    ensures CollectAll(ts) == [ts[0].dept.id] + CollectAll(ts[0].children) + CollectAll(ts[1..])
  {
  }

  lemma {:induction false} MapExact(ts: seq<Tree>, flat: seq<Dept>, table: Table)
    requires Forest(table) && Covers(flat, table)
    requires forall i :: 0 <= i < |ts| ==> TreeOf(ts[i], flat)
    ensures forall x :: x in SubtreeIdMap(ts) <==> x in CollectAll(ts)
    ensures ExactMap(SubtreeIdMap(ts), table)
    decreases ts
  {
    if ts != [] {
      var head := ts[0];
      CollectExact(head, flat, table);
      ChildrenAreTrees(head, flat);
      MapExact(head.children, flat, table);
      MapExact(ts[1..], flat, table);
      hide Forest, Covers, TreeOf, SubtreeIdMap, CollectAll, CollectSubtreeIds;
      MapUnfolds(ts);
      var own := map[head.dept.id := CollectSubtreeIds(head)];
      ExactUnion(own, SubtreeIdMap(head.children), table);
      ExactUnion(own + SubtreeIdMap(head.children), SubtreeIdMap(ts[1..]), table);
    }
  }

  /** Main result: on the tree of a valid table, toggling a department selects or clears exactly it and
      everything below it, and leaves every other department as it was. */
  lemma ToggleMeansSubtree(trees: seq<Tree>, flat: seq<Dept>, table: Table, deptId: int)
    requires Forest(table) && Covers(flat, table) && IsForestOf(trees, flat) && deptId in table
    ensures deptId in SubtreeIdMap(trees)
    ensures forall y :: y in SubtreeIdMap(trees)[deptId] <==> y in table && Under(table, y, deptId)
  {
    WholeTreeExact(trees, flat, table);
    MapExact(trees, flat, table);
    hide Forest, Covers, TreeOf, SubtreeIdMap, CollectAll;
  }
}
