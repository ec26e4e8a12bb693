/** The navigation a user sees: the codes reached from the user's permissions, the tree of catalogs and menus,
    and the tree pruned to those codes. */
module NavTree {
  import opened Wrappers
  import opened PermissionTable

  // ---------------------------------------------------------------- the enabled rows

  function EnabledRows(t: Table): Table {
    map id | id in t && t[id].enabled :: t[id]
  }

  ghost predicate RowsKeyed(t: Table) {
    forall id :: id in t ==> t[id].id == id
  }

  lemma EnabledAcyclic(t: Table)
    requires Acyclic(t)
    ensures Acyclic(EnabledRows(t))
  {
    var rank: map<int, int>, bound: nat :| Ranked(t, rank, bound);
    assert Ranked(EnabledRows(t), rank, bound);
  }

  lemma WalkOneMore(t: Table, x: int, k: nat, a: int)
    requires Walk(t, x, k, a)
    ensures a in t
    ensures t[a].parentId.Some? && t[a].parentId.value in t ==> Walk(t, x, k + 1, t[a].parentId.value)
    decreases k
  {
    if k == 0 {
      if t[a].parentId.Some? && t[a].parentId.value in t {
        assert Walk(t, t[a].parentId.value, 0, t[a].parentId.value);
      }
    } else {
      WalkOneMore(t, t[x].parentId.value, k - 1, a);
    }
  }

  /** A walk of given length has one end, and a longer one goes on from it. */
  lemma WalkUnique(t: Table, x: int, k: nat, a: int, l: nat, b: int)
    requires Walk(t, x, k, a) && Walk(t, x, l, b)
    ensures k == l ==> a == b
    ensures l == k + 1 ==> a in t && t[a].parentId == Some(b) && b in t
    ensures l > k ==> a in t && t[a].parentId.Some? && t[a].parentId.value in t
    decreases k
  {
    if k > 0 && l > 0 {
      WalkUnique(t, t[x].parentId.value, k - 1, a, l - 1, b);
    } else if k == 0 && l > 0 {
      assert Walk(t, t[x].parentId.value, l - 1, b);
    }
  }

  // ---------------------------------------------------------------- the codes reached

  /** A code the user holds, or one with a held interface code bound to it. */
  ghost predicate Direct(bindings: map<string, seq<string>>, codes: set<string>, x: string) {
    x in codes || (x in bindings && exists api :: api in bindings[x] && api in codes)
  }

  /** The code of an enabled row above, or at, an enabled row with a direct code. */
  ghost predicate AboveDirect(e: Table, bindings: map<string, seq<string>>, codes: set<string>, x: string) {
    exists id, a :: id in e && Direct(bindings, codes, e[id].code) && a in e && Below(e, id, a) && e[a].code == x
  }

  ghost predicate InNav(e: Table, bindings: map<string, seq<string>>, codes: set<string>, x: string) {
    Direct(bindings, codes, x) || AboveDirect(e, bindings, codes, x)
  }

  /** The code of a row at most k links above. */
  ghost predicate Within(e: Table, id: int, k: nat, x: string) {
    exists j: nat, a :: 1 <= j <= k && Walk(e, id, j, a) && e[a].code == x
  }

  lemma WithinGrows(e: Table, id: int, k: nat, cur: int, p: int)
    requires Walk(e, id, k, cur) && e[cur].parentId == Some(p) && p in e
    ensures Walk(e, id, k + 1, p)
    ensures forall x :: Within(e, id, k + 1, x) <==> Within(e, id, k, x) || e[p].code == x
  {
    WalkOneMore(e, id, k, cur);
    forall x ensures Within(e, id, k + 1, x) <==> Within(e, id, k, x) || e[p].code == x {
      if Within(e, id, k + 1, x) {
        var j: nat, a :| 1 <= j <= k + 1 && Walk(e, id, j, a) && e[a].code == x;
        if j == k + 1 { WalkUnique(e, id, k + 1, p, j, a); }
      }
    }
  }

  lemma WithinAll(e: Table, id: int, k: nat, cur: int)
    requires Walk(e, id, k, cur) && (e[cur].parentId.None? || e[cur].parentId.value !in e)
    ensures forall x :: Within(e, id, k, x) || e[id].code == x <==>
            exists a :: a in e && Below(e, id, a) && e[a].code == x
  {
    assert Walk(e, id, 0, id) && Below(e, id, id);
    forall x
      ensures Within(e, id, k, x) || e[id].code == x <==> exists a :: a in e && Below(e, id, a) && e[a].code == x
    {
      if Within(e, id, k, x) {
        var j: nat, a :| 1 <= j <= k && Walk(e, id, j, a) && e[a].code == x;
        WalkOneMore(e, id, j, a);
        assert Below(e, id, a);
      }
      if a :| a in e && Below(e, id, a) && e[a].code == x {
        var j: nat :| Walk(e, id, j, a);
        if j > k { WalkUnique(e, id, k, cur, j, a); }
        if j == 0 { assert a == id; }
      }
    }
  }

  /** The inner walk: adds the codes of all rows above one row. */
  method AddAncestors(e: Table, id: int, before: set<string>) returns (ancestors: set<string>)
    requires Acyclic(e) && id in e
    ensures forall x :: x in ancestors || x == e[id].code <==>
                        x in before || (exists a :: a in e && Below(e, id, a) && e[a].code == x)
    ensures before <= ancestors
    ensures forall x :: x in ancestors ==> x in before || (exists a :: a in e && Below(e, id, a) && e[a].code == x)
  {
    ancestors := before;
    ghost var rank: map<int, int>, bound: nat :| Ranked(e, rank, bound);
    ghost var cur, k: nat := id, 0;
    var pid := e[id].parentId;
    while pid.Some? && pid.value in e
      invariant Walk(e, id, k, cur) && cur in e && pid == e[cur].parentId
      invariant forall x :: x in ancestors <==> x in before || Within(e, id, k, x)
      decreases rank[cur]
    {
      WithinGrows(e, id, k, cur, pid.value);
      var parent := e[pid.value];
      ancestors := ancestors + {parent.code};
      cur, k := pid.value, k + 1;
      pid := parent.parentId;
    }
    hide Below, Within;
    WithinAll(e, id, k, cur);
  }

  /** The codes held, and every code that one of them is bound to. */
  method AddBoundMenus(bindings: map<string, seq<string>>, codes: set<string>) returns (expanded: set<string>)
    ensures forall x :: x in expanded <==> Direct(bindings, codes, x)
  {
    expanded := codes;
    var todo := bindings.Keys;
    while todo != {}
      invariant todo <= bindings.Keys
      invariant forall x :: x in expanded <==> x in codes || (x in bindings.Keys - todo && Direct(bindings, codes, x))
    {
      var menu :| menu in todo;
      if exists api :: api in bindings[menu] && api in codes { expanded := expanded + {menu}; }
      todo := todo - {menu};
    }
  }

  /** The codes reached from the user's codes; the inner walk ends because the parent links have no cycle. */
  method ExpandNavCodes(t: Table, bindings: map<string, seq<string>>, codes: set<string>)
    returns (expanded: set<string>)
    requires UniqueCodes(t) && Acyclic(t)
    ensures forall x :: x in expanded <==> codes != {} && InNav(EnabledRows(t), bindings, codes, x)
  {
    if codes == {} { return {}; }
    var e := EnabledRows(t);
    EnabledAcyclic(t);
    var codeToId := map id | id in e :: e[id].code := id;
    expanded := AddBoundMenus(bindings, codes);
    var todo := expanded;
    var ancestors: set<string> := {};
    while todo != {}
      invariant todo <= expanded
      invariant forall x :: x in expanded <==> Direct(bindings, codes, x)
      invariant forall x :: x in ancestors ==> InNav(e, bindings, codes, x)
      invariant forall id, a :: id in e && e[id].code in expanded - todo && a in e && Below(e, id, a) ==>
                                  e[a].code in ancestors || e[a].code in expanded
    {
      hide Acyclic, Below, Direct;
      var code :| code in todo;
      if code in codeToId {
        var id := codeToId[code];
        ancestors := AddAncestors(e, id, ancestors);
      }
      todo := todo - {code};
    }
    hide Acyclic, Below, Direct;
    expanded := expanded + ancestors;
  }

  /** The codes reached are closed upwards: with an enabled row the enabled row above it is reached too. */
  lemma NavClosed(e: Table, bindings: map<string, seq<string>>, codes: set<string>, id: int)
    requires UniqueCodes(e) && id in e && e[id].parentId.Some? && e[id].parentId.value in e
    requires InNav(e, bindings, codes, e[id].code)
    ensures InNav(e, bindings, codes, e[e[id].parentId.value].code)
  {
    var p := e[id].parentId.value;
    var start := id;
    assert Walk(e, id, 0, id) && Below(e, id, id);
    if !Direct(bindings, codes, e[id].code) {
      var s, a :| s in e && Direct(bindings, codes, e[s].code) && a in e && Below(e, s, a) && e[a].code == e[id].code;
      start := s;
    }
    var k: nat :| Walk(e, start, k, id);
    WalkOneMore(e, start, k, id);
    assert Below(e, start, p);
  }

  // ---------------------------------------------------------------- the tree of catalogs and menus

  datatype Node = Node(perm: Perm, children: seq<Node>)

  predicate IsNav(p: Perm) {
    p.enabled && (p.kind == Catalog || p.kind == Menu)
  }

  function NavRows(t: Table): Table {
    map id | id in t && IsNav(t[id]) :: t[id]
  }

  predicate Before(a: Perm, b: Perm) {
    a.sortOrder < b.sortOrder || (a.sortOrder == b.sortOrder && a.id < b.id)
  }

  predicate Ordered(ps: seq<Perm>) {
    forall i, j :: 0 <= i < j < |ps| ==> Before(ps[i], ps[j])
  }

  /** The catalog and menu rows in query order. */
  ghost predicate Lists(rows: seq<Perm>, nav: Table) {
    && Ordered(rows) && RowsKeyed(nav)
    && (forall i :: 0 <= i < |rows| ==> rows[i].id in nav && nav[rows[i].id] == rows[i])
    && (forall id :: id in nav ==> nav[id] in rows)
  }

  /** The rows that pass a test, in order. */
  function Keep(rows: seq<Perm>, test: Perm -> bool): seq<Perm> {
    if rows == [] then []
    else
      var last := rows[|rows| - 1];
      Keep(rows[..|rows| - 1], test) + if test(last) then [last] else []
  }

  lemma KeepOneMore(rows: seq<Perm>, test: Perm -> bool, i: nat)
    requires i < |rows|
    ensures Keep(rows[..i + 1], test) == Keep(rows[..i], test) + if test(rows[i]) then [rows[i]] else []
  {
    assert rows[..i + 1][..i] == rows[..i];
  }

  lemma KeepMembers(rows: seq<Perm>, test: Perm -> bool)
    ensures forall q :: q in Keep(rows, test) <==> q in rows && test(q)
  {
  }

  lemma {:induction false} KeepFirst(p: Perm, rows: seq<Perm>, test: Perm -> bool)
    ensures Keep([p] + rows, test) == (if test(p) then [p] else []) + Keep(rows, test)
  {
    if rows == [] {
      assert [p] + rows == [p] && [p][..0] == [];
    } else {
      var front := rows[..|rows| - 1];
      KeepFirst(p, front, test);
      assert ([p] + rows)[..|rows|] == [p] + front;
    }
  }

  lemma KeepLast(rows: seq<Perm>, p: Perm, test: Perm -> bool)
    ensures Keep(rows + [p], test) == Keep(rows, test) + if test(p) then [p] else []
    ensures Keep(rows + [], test) == Keep(rows, test)
  {
    assert (rows + [p])[..|rows|] == rows && rows + [] == rows;
  }

  lemma {:induction false} KeepTwice(rows: seq<Perm>, f: Perm -> bool, g: Perm -> bool)
    ensures Keep(Keep(rows, f), g) == Keep(Keep(rows, g), f)
  {
    if rows != [] {
      var front, last := rows[..|rows| - 1], rows[|rows| - 1];
      KeepTwice(front, f, g);
      KeepLast(Keep(front, f), last, g);
      KeepLast(Keep(front, g), last, f);
    }
  }

  lemma KeepSame(rows: seq<Perm>, f: Perm -> bool, g: Perm -> bool)
    requires forall q :: q in rows ==> f(q) == g(q)
    ensures Keep(rows, f) == Keep(rows, g)
  {
  }

  /** Selecting keeps the order, so sorting what was selected changes nothing. */
  lemma KeepOrdered(rows: seq<Perm>, test: Perm -> bool)
    requires Ordered(rows)
    ensures Ordered(Keep(rows, test))
  {
    if rows != [] {
      var front, last := rows[..|rows| - 1], rows[|rows| - 1];
      KeepOrdered(front, test);
      KeepMembers(front, test);
      forall i | 0 <= i < |Keep(front, test)| ensures Before(Keep(front, test)[i], last) {
        assert Keep(front, test)[i] in front;
      }
    }
  }

  function HangsUnder(p: int): Perm -> bool {
    (q: Perm) => q.parentId == Some(p)
  }

  function OnTop(ids: set<int>): Perm -> bool {
    (q: Perm) => q.parentId.None? || q.parentId.value !in ids
  }

  /** The rows hanging under p, in order. */
  function Kids(rows: seq<Perm>, p: int): seq<Perm> {
    Keep(rows, HangsUnder(p))
  }

  /** The rows without a parent among ids, in order. */
  function Tops(rows: seq<Perm>, ids: set<int>): seq<Perm> {
    Keep(rows, OnTop(ids))
  }

  lemma KidsMembers(rows: seq<Perm>, p: int)
    ensures forall q :: q in Kids(rows, p) <==> q in rows && q.parentId == Some(p)
  {
    KeepMembers(rows, HangsUnder(p));
  }

  lemma TopsMembers(rows: seq<Perm>, ids: set<int>)
    ensures forall q :: q in Tops(rows, ids) <==> q in rows && (q.parentId.None? || q.parentId.value !in ids)
  {
    KeepMembers(rows, OnTop(ids));
  }

  lemma HangOneMore(rows: seq<Perm>, i: nat, ids: set<int>)
    requires i < |rows|
    ensures var hangs := rows[i].parentId.Some? && rows[i].parentId.value in ids;
            && Tops(rows[..i + 1], ids) == Tops(rows[..i], ids) + (if hangs then [] else [rows[i]])
            && forall id :: id in ids ==>
                              Kids(rows[..i + 1], id)
                              == Kids(rows[..i], id) + if rows[i].parentId == Some(id) then [rows[i]] else []
  {
    KeepOneMore(rows, OnTop(ids), i);
    forall id | id in ids {
      KeepOneMore(rows, HangsUnder(id), i);
    }
  }

  /** Hangs every row under its parent, or at the top when the parent is not in the tree. */
  method HangRows(rows: seq<Perm>) returns (roots: seq<Perm>, children: map<int, seq<Perm>>)
    ensures var ids := set p | p in rows :: p.id;
            && roots == Tops(rows, ids) && children.Keys == ids
            && forall id :: id in ids ==> children[id] == Kids(rows, id)
  {
    var ids := set p | p in rows :: p.id;
    children := map id | id in ids :: [];
    roots := [];
    assert Tops(rows[..0], ids) == [] && forall id :: Kids(rows[..0], id) == [];
    hide Kids, Tops;
    for i := 0 to |rows|
      invariant roots == Tops(rows[..i], ids) && children.Keys == ids
      invariant forall id :: id in ids ==> children[id] == Kids(rows[..i], id)
    {
      var p := rows[i];
      HangOneMore(rows, i, ids);
      if p.parentId.Some? && p.parentId.value in ids {
        children := children[p.parentId.value := children[p.parentId.value] + [p]];
      } else {
        roots := roots + [p];
      }
    }
    assert rows[..|rows|] == rows;
  }

  /** At every node the children are exactly the rows under it, in order. */
  ghost predicate TreeOf(n: Node, rows: seq<Perm>) {
    && n.perm in rows
    && |n.children| == |Kids(rows, n.perm.id)|
    && (forall i :: 0 <= i < |n.children| ==> n.children[i].perm == Kids(rows, n.perm.id)[i])
    && (forall i :: 0 <= i < |n.children| ==> TreeOf(n.children[i], rows))
  }

  ghost predicate ForestOf(ts: seq<Node>, rows: seq<Perm>, tops: seq<Perm>) {
    && |ts| == |tops|
    && (forall i :: 0 <= i < |ts| ==> ts[i].perm == tops[i])
    && (forall i :: 0 <= i < |ts| ==> TreeOf(ts[i], rows))
  }

  /** Listed rows, with at most so many ranks from each to the bound. */
  ghost predicate Near(ps: seq<Perm>, rows: seq<Perm>, rank: map<int, int>, bound: nat, height: nat) {
    forall p :: p in ps ==> p in rows && p.id in rank && bound - rank[p.id] <= height
  }

  lemma KidsNear(nav: Table, rows: seq<Perm>, rank: map<int, int>, bound: nat, p: Perm, height: nat)
    requires Lists(rows, nav) && Ranked(nav, rank, bound) && Near([p], rows, rank, bound, height)
    ensures p.id in nav && height >= 1 && Near(Kids(rows, p.id), rows, rank, bound, height - 1)
  {
    KidsMembers(rows, p.id);
    assert p in [p] && p.id in nav;
  }

  lemma NearSplit(ps: seq<Perm>, rows: seq<Perm>, rank: map<int, int>, bound: nat, height: nat)
    requires ps != [] && Near(ps, rows, rank, bound, height)
    ensures ps[0] in rows && Near([ps[0]], rows, rank, bound, height) && Near(ps[1..], rows, rank, bound, height)
  {
  }

  lemma ForestFirst(n: Node, rest: seq<Node>, rows: seq<Perm>, tops: seq<Perm>)
    requires tops != [] && n.perm == tops[0] && n.perm in rows
    requires ForestOf(n.children, rows, Kids(rows, n.perm.id)) && ForestOf(rest, rows, tops[1..])
    ensures ForestOf([n] + rest, rows, tops)
  {
  }

  lemma NoForest(rows: seq<Perm>)
    ensures ForestOf([], rows, [])
  {
  }

  /** The trees of a list of rows, grown along the lists of children. */
  function Grown(ghost nav: Table, ghost rows: seq<Perm>, ghost rank: map<int, int>, ghost bound: nat,
                 children: map<int, seq<Perm>>, tops: seq<Perm>, ghost height: nat): (r: seq<Node>)
    requires Lists(rows, nav) && Ranked(nav, rank, bound)
    requires children.Keys == nav.Keys && forall id :: id in children ==> children[id] == Kids(rows, id)
    requires Near(tops, rows, rank, bound, height)
    ensures ForestOf(r, rows, tops)
    decreases height, |tops|
  {
    hide Lists, Ranked, Near, ForestOf, Kids;
    if tops == [] then
      NoForest(rows);
      []
    else
      var p := tops[0];
      NearSplit(tops, rows, rank, bound, height);
      KidsNear(nav, rows, rank, bound, p, height);
      var node := Node(p, Grown(nav, rows, rank, bound, children, children[p.id], height - 1));
      var rest := Grown(nav, rows, rank, bound, children, tops[1..], height);
      ForestFirst(node, rest, rows, tops);
      [node] + rest
  }

  // ---------------------------------------------------------------- pruning

  function FilterNav(ts: seq<Node>, allowed: set<string>): seq<Node> {
    if ts == [] then []
    else
      var n := ts[0];
      var children := FilterNav(n.children, allowed);
      (if n.perm.code in allowed || children != [] then [Node(n.perm, children)] else []) + FilterNav(ts[1..], allowed)
  }

  ghost predicate AllTrees(ts: seq<Node>, rows: seq<Perm>) {
    forall i :: 0 <= i < |ts| ==> TreeOf(ts[i], rows)
  }

  /** The rows at the top of a list of trees. */
  function Perms(ts: seq<Node>): (r: seq<Perm>)
    ensures |r| == |ts| && forall i :: 0 <= i < |ts| ==> r[i] == ts[i].perm
  {
    if ts == [] then [] else [ts[0].perm] + Perms(ts[1..])
  }

  /** Some row at or below has an allowed code. */
  ghost predicate Leads(nav: Table, allowed: set<string>, id: int) {
    exists x :: x in nav && nav[x].code in allowed && Below(nav, x, id)
  }

  ghost function Leading(nav: Table, allowed: set<string>): Perm -> bool {
    (q: Perm) => Leads(nav, allowed, q.id)
  }

  lemma LeadsItself(nav: Table, allowed: set<string>, id: int)
    requires id in nav && nav[id].code in allowed
    ensures Leads(nav, allowed, id)
  {
    assert Walk(nav, id, 0, id);
  }

  /** With a row the one above it leads to an allowed row too. */
  lemma LeadsUp(nav: Table, allowed: set<string>, id: int)
    requires Leads(nav, allowed, id) && id in nav && nav[id].parentId.Some? && nav[id].parentId.value in nav
    ensures Leads(nav, allowed, nav[id].parentId.value)
  {
    var x :| x in nav && nav[x].code in allowed && Below(nav, x, id);
    var k: nat :| Walk(nav, x, k, id);
    WalkOneMore(nav, x, k, id);
    assert Below(nav, x, nav[id].parentId.value);
  }

  /** The last row a walk meets before its end. */
  lemma WalkLast(t: Table, x: int, k: nat, a: int) returns (c: int)
    requires k > 0 && Walk(t, x, k, a)
    ensures c in t && t[c].parentId == Some(a) && Walk(t, x, k - 1, c)
    decreases k
  {
    if k == 1 {
      c := x;
    } else {
      c := WalkLast(t, t[x].parentId.value, k - 1, a);
    }
  }

  lemma LeadsDown(nav: Table, allowed: set<string>, id: int) returns (c: int)
    requires Leads(nav, allowed, id) && id in nav && nav[id].code !in allowed
    ensures c in nav && nav[c].parentId == Some(id) && Leads(nav, allowed, c)
  {
    var x :| x in nav && nav[x].code in allowed && Below(nav, x, id);
    var k: nat :| Walk(nav, x, k, id);
    c := WalkLast(nav, x, k, id);
    assert Below(nav, x, c);
  }

  lemma KidsOfNode(n: Node, nav: Table, rows: seq<Perm>)
    requires Lists(rows, nav) && TreeOf(n, rows)
    ensures n.perm.id in nav && nav[n.perm.id] == n.perm && AllTrees(n.children, rows)
    ensures Perms(n.children) == Kids(rows, n.perm.id)
    ensures forall q :: q in Kids(rows, n.perm.id) ==> q.id in nav && nav[q.id] == q && q.parentId == Some(n.perm.id)
  {
    KidsMembers(rows, n.perm.id);
  }

  /** A row leads to an allowed one when it is allowed, or when one of the rows under it does. */
  lemma LeadsThroughKids(n: Node, nav: Table, rows: seq<Perm>, allowed: set<string>)
    requires Lists(rows, nav) && TreeOf(n, rows)
    ensures Leads(nav, allowed, n.perm.id) <==>
            n.perm.code in allowed || Keep(Perms(n.children), Leading(nav, allowed)) != []
  {
    hide Leads;
    var id, kept := n.perm.id, Keep(Perms(n.children), Leading(nav, allowed));
    KidsOfNode(n, nav, rows);
    KidsMembers(rows, id);
    KeepMembers(Perms(n.children), Leading(nav, allowed));
    if n.perm.code in allowed {
      LeadsItself(nav, allowed, id);
    } else if Leads(nav, allowed, id) {
      var c := LeadsDown(nav, allowed, id);
      assert nav[c] in rows && nav[c].id == c;
      assert Leading(nav, allowed)(nav[c]) && nav[c] in kept;
    } else if kept != [] {
      assert kept[0] in kept && Leading(nav, allowed)(kept[0]);
      LeadsUp(nav, allowed, kept[0].id);
    }
  }

  /** A kept node keeps the children that are kept themselves. */
  lemma NodeKept(n: Node, children: seq<Node>, nav: Table, rows: seq<Perm>, test: Perm -> bool)
    requires Lists(rows, nav) && TreeOf(n, rows) && test(n.perm)
    requires Perms(children) == Keep(Perms(n.children), test) && AllTrees(children, Keep(rows, test))
    ensures TreeOf(Node(n.perm, children), Keep(rows, test))
  {
    KidsOfNode(n, nav, rows);
    KeepMembers(rows, test);
    KeepTwice(rows, HangsUnder(n.perm.id), test);
  }

  /** What the filter makes of one node, given what it makes of its children. */
  function Filtered(n: Node, children: seq<Node>, allowed: set<string>): seq<Node> {
    if n.perm.code in allowed || children != [] then [Node(n.perm, children)] else []
  }

  lemma FilterOne(n: Node, children: seq<Node>, nav: Table, rows: seq<Perm>, allowed: set<string>)
    requires Lists(rows, nav) && TreeOf(n, rows)
    requires var test := Leading(nav, allowed);
             Perms(children) == Keep(Perms(n.children), test) && AllTrees(children, Keep(rows, test))
    ensures Perms(Filtered(n, children, allowed)) == if Leading(nav, allowed)(n.perm) then [n.perm] else []
    ensures AllTrees(Filtered(n, children, allowed), Keep(rows, Leading(nav, allowed)))
  {
    hide Lists, Kids, TreeOf, Keep, Leads;
    LeadsThroughKids(n, nav, rows, allowed);
    if Leading(nav, allowed)(n.perm) {
      NodeKept(n, children, nav, rows, Leading(nav, allowed));
    }
  }

  lemma PermsConcat(a: seq<Node>, b: seq<Node>)
    ensures Perms(a + b) == Perms(a) + Perms(b)
  {
  }

  lemma NodeTrees(n: Node, rows: seq<Perm>)
    requires TreeOf(n, rows)
    ensures AllTrees(n.children, rows)
  {
  }

  lemma NothingFiltered(nav: Table, allowed: set<string>)
    ensures FilterNav([], allowed) == [] && Keep(Perms([]), Leading(nav, allowed)) == []
  {
  }

  lemma FilterFirst(ts: seq<Node>, allowed: set<string>)
    requires ts != []
    ensures FilterNav(ts, allowed)
            == Filtered(ts[0], FilterNav(ts[0].children, allowed), allowed) + FilterNav(ts[1..], allowed)
    ensures Perms(ts) == [ts[0].perm] + Perms(ts[1..])
  {
  }

  /** The filter keeps a node for its descendants' sake: exactly the nodes that lead to an allowed one, each where it
      was. */
  lemma {:induction false} FilterForest(ts: seq<Node>, nav: Table, rows: seq<Perm>, allowed: set<string>)
    requires Lists(rows, nav) && AllTrees(ts, rows)
    ensures Perms(FilterNav(ts, allowed)) == Keep(Perms(ts), Leading(nav, allowed))
    ensures AllTrees(FilterNav(ts, allowed), Keep(rows, Leading(nav, allowed)))
  {
    hide Lists, Kids, TreeOf, Keep, Leading, Filtered;
    if ts == [] {
      NothingFiltered(nav, allowed);
    } else {
      var n, rest := ts[0], ts[1..];
      assert TreeOf(n, rows) && AllTrees(rest, rows);
      NodeTrees(n, rows);
      FilterForest(n.children, nav, rows, allowed);
      FilterForest(rest, nav, rows, allowed);
      KeepFirst(n.perm, Perms(rest), Leading(nav, allowed));
      FilterOne(n, FilterNav(n.children, allowed), nav, rows, allowed);
      FilterFirst(ts, allowed);
      PermsConcat(Filtered(n, FilterNav(n.children, allowed), allowed), FilterNav(rest, allowed));
    }
  }

  // ---------------------------------------------------------------- each node once

  /** How often an id occurs in a list of trees. */
  function Count(ts: seq<Node>, id: int): nat {
    if ts == [] then 0
    else (if ts[0].perm.id == id then 1 else 0) + Count(ts[0].children, id) + Count(ts[1..], id)
  }

  function Occurs(ps: seq<Perm>, id: int): nat {
    if ps == [] then 0 else (if ps[0].id == id then 1 else 0) + Occurs(ps[1..], id)
  }

  lemma OccursOnce(ps: seq<Perm>, nav: Table, id: int)
    requires Ordered(ps) && forall q :: q in ps ==> q.id in nav && nav[q.id] == q
    ensures Occurs(ps, id) == if id in nav && nav[id] in ps && nav[id].id == id then 1 else 0
  {
    if ps != [] {
      OccursOnce(ps[1..], nav, id);
      forall i | 0 <= i < |ps[1..]| ensures ps[1..][i] != ps[0] { assert Before(ps[0], ps[i + 1]); }
    }
  }

  lemma OccursAmongKids(n: Node, nav: Table, rows: seq<Perm>, id: int)
    requires Lists(rows, nav) && TreeOf(n, rows) && id in nav
    ensures Occurs(Perms(n.children), id) == if nav[id].parentId == Some(n.perm.id) then 1 else 0
  {
    KidsOfNode(n, nav, rows);
    KidsMembers(rows, n.perm.id);
    KeepOrdered(rows, HangsUnder(n.perm.id));
    OccursOnce(Kids(rows, n.perm.id), nav, id);
  }

  /** A row occurs below the top as often as its parent occurs. */
  lemma {:induction false} CountByParent(ts: seq<Node>, nav: Table, rows: seq<Perm>, id: int)
    requires Lists(rows, nav) && AllTrees(ts, rows) && id in nav
    ensures Count(ts, id)
            == Occurs(Perms(ts), id) + if nav[id].parentId.Some? then Count(ts, nav[id].parentId.value) else 0
  {
    if ts != [] {
      hide Lists, TreeOf;
      var n := ts[0];
      assert TreeOf(n, rows);
      KidsOfNode(n, nav, rows);
      CountByParent(n.children, nav, rows, id);
      CountByParent(ts[1..], nav, rows, id);
      OccursAmongKids(n, nav, rows, id);
      assert Perms(ts)[1..] == Perms(ts[1..]);
    }
  }

  lemma {:induction false} CountNone(ts: seq<Node>, nav: Table, rows: seq<Perm>, id: int)
    requires Lists(rows, nav) && AllTrees(ts, rows) && id !in nav
    ensures Count(ts, id) == 0
  {
    if ts != [] {
      assert TreeOf(ts[0], rows);
      KidsOfNode(ts[0], nav, rows);
      CountNone(ts[0].children, nav, rows, id);
      CountNone(ts[1..], nav, rows, id);
    }
  }

  /** A forest of a table without cycles holds each row exactly once. */
  lemma {:induction false} CountOnce(ts: seq<Node>, nav: Table, rows: seq<Perm>, rank: map<int, int>, bound: nat,
                                     id: int)
    requires Lists(rows, nav) && ForestOf(ts, rows, Tops(rows, nav.Keys)) && Ranked(nav, rank, bound) && id in nav
    ensures Count(ts, id) == 1
    decreases rank[id]
  {
    var tops := Tops(rows, nav.Keys);
    TopsMembers(rows, nav.Keys);
    KeepOrdered(rows, OnTop(nav.Keys));
    OccursOnce(tops, nav, id);
    assert Perms(ts) == tops && nav[id] in rows;
    CountByParent(ts, nav, rows, id);
    if nav[id].parentId.Some? {
      var p := nav[id].parentId.value;
      if p in nav { CountOnce(ts, nav, rows, rank, bound, p); } else { CountNone(ts, nav, rows, p); }
    }
  }

  // ---------------------------------------------------------------- what is shown

  /** The tree built for a table. */
  ghost predicate IsNavTree(ts: seq<Node>, t: Table, rows: seq<Perm>) {
    Lists(rows, NavRows(t)) && ForestOf(ts, rows, Tops(rows, NavRows(t).Keys))
  }

  ghost predicate OrderedNodes(ts: seq<Node>) {
    forall i, j :: 0 <= i < j < |ts| ==> Before(ts[i].perm, ts[j].perm)
  }

  /** Filtering keeps siblings in order, so sorting them again changes nothing. */
  lemma {:induction false} FilterOrdered(ts: seq<Node>, allowed: set<string>)
    requires OrderedNodes(ts)
    ensures OrderedNodes(FilterNav(ts, allowed))
    ensures forall n :: n in FilterNav(ts, allowed) ==> exists m :: m in ts && m.perm == n.perm
  {
    if ts != [] {
      FilterOrdered(ts[1..], allowed);
      var rest := FilterNav(ts[1..], allowed);
      forall n | n in rest ensures Before(ts[0].perm, n.perm) {
        var m :| m in ts[1..] && m.perm == n.perm;
        var i :| 0 <= i < |ts[1..]| && ts[1..][i] == m;
        assert ts[i + 1] == m;
      }
      forall n | n in FilterNav(ts, allowed) ensures exists m :: m in ts && m.perm == n.perm {
        if n in rest {
          var m :| m in ts[1..] && m.perm == n.perm;
          assert m in ts;
        } else {
          assert ts[0] in ts && n.perm == ts[0].perm;
        }
      }
    }
  }

  /** The trees are those of a table, each row once, under its own parent where that is in the table, in order. */
  ghost predicate Shows(ts: seq<Node>, rows: seq<Perm>, nav: Table) {
    && Lists(rows, nav) && ForestOf(ts, rows, Tops(rows, nav.Keys))
    && forall id :: Count(ts, id) == if id in nav then 1 else 0
  }

  lemma ForestShows(ts: seq<Node>, rows: seq<Perm>, nav: Table)
    requires Lists(rows, nav) && ForestOf(ts, rows, Tops(rows, nav.Keys)) && Acyclic(nav)
    ensures Shows(ts, rows, nav)
  {
    var rank: map<int, int>, bound: nat :| Ranked(nav, rank, bound);
    hide Lists, Ranked, Tops, TreeOf;
    forall id ensures Count(ts, id) == if id in nav then 1 else 0 {
      if id in nav { CountOnce(ts, nav, rows, rank, bound, id); } else { CountNone(ts, nav, rows, id); }
    }
  }

  /** The rows that lead to an allowed one. */
  ghost function Kept(nav: Table, allowed: set<string>): Table {
    map id | id in nav && Leads(nav, allowed, id) :: nav[id]
  }

  /** A row is at the top of what is kept exactly when it was at the top before. */
  lemma TopsKept(nav: Table, rows: seq<Perm>, allowed: set<string>)
    requires Lists(rows, nav)
    ensures Tops(Keep(rows, Leading(nav, allowed)), Kept(nav, allowed).Keys)
            == Keep(Tops(rows, nav.Keys), Leading(nav, allowed))
  {
    hide Leads;
    var test, kept := Leading(nav, allowed), Kept(nav, allowed);
    KeepMembers(rows, test);
    forall q | q in Keep(rows, test) ensures OnTop(kept.Keys)(q) == OnTop(nav.Keys)(q) {
      assert test(q) && q.id in nav && nav[q.id] == q;
      if q.parentId.Some? {
        var p := q.parentId.value;
        if p in nav { LeadsUp(nav, allowed, q.id); }
        assert p in kept <==> p in nav;
      }
    }
    KeepSame(Keep(rows, test), OnTop(kept.Keys), OnTop(nav.Keys));
    KeepTwice(rows, OnTop(nav.Keys), test);
  }

  lemma ListsKept(nav: Table, rows: seq<Perm>, allowed: set<string>)
    requires Lists(rows, nav)
    ensures Lists(Keep(rows, Leading(nav, allowed)), Kept(nav, allowed))
  {
    hide Leads;
    var test, shown := Leading(nav, allowed), Kept(nav, allowed);
    KeepMembers(rows, test);
    KeepOrdered(rows, test);
    var kept := Keep(rows, test);
    forall i | 0 <= i < |kept| ensures kept[i].id in shown && shown[kept[i].id] == kept[i] { assert kept[i] in kept; }
  }

  lemma KeptAcyclic(nav: Table, allowed: set<string>)
    requires Acyclic(nav)
    ensures Acyclic(Kept(nav, allowed))
  {
    var rank: map<int, int>, bound: nat :| Ranked(nav, rank, bound);
    assert Ranked(Kept(nav, allowed), rank, bound);
  }

  /** Main result: whatever the codes, the filtered tree is the tree of exactly the rows that lead to an allowed one,
      each once. */
  lemma FilterShows(ts: seq<Node>, rows: seq<Perm>, nav: Table, allowed: set<string>)
    requires Shows(ts, rows, nav) && Acyclic(nav)
    ensures Shows(FilterNav(ts, allowed), Keep(rows, Leading(nav, allowed)), Kept(nav, allowed))
  {
    hide Lists, TreeOf, Keep, Tops, FilterNav, Kept, Acyclic, Leading, Count;
    FilterForest(ts, nav, rows, allowed);
    assert Perms(ts) == Tops(rows, nav.Keys);
    TopsKept(nav, rows, allowed);
    ListsKept(nav, rows, allowed);
    KeptAcyclic(nav, allowed);
    ForestShows(FilterNav(ts, allowed), Keep(rows, Leading(nav, allowed)), Kept(nav, allowed));
  }

  // ---------------------------------------------------------------- who sees too much

  /** The codes are closed upwards in the tree. */
  ghost predicate ClosedUp(nav: Table, allowed: set<string>) {
    forall id :: id in nav && nav[id].code in allowed && nav[id].parentId.Some? && nav[id].parentId.value in nav ==>
                   nav[nav[id].parentId.value].code in allowed
  }

  lemma {:induction false} ClosedWalk(nav: Table, allowed: set<string>, x: int, k: nat, a: int)
    requires ClosedUp(nav, allowed) && Walk(nav, x, k, a) && x in nav && nav[x].code in allowed
    ensures a in nav && nav[a].code in allowed
    decreases k
  {
    if k > 0 { ClosedWalk(nav, allowed, nav[x].parentId.value, k - 1, a); }
  }

  lemma ClosedLeads(nav: Table, allowed: set<string>, id: int)
    requires ClosedUp(nav, allowed) && id in nav
    ensures Leads(nav, allowed, id) <==> nav[id].code in allowed
  {
    if nav[id].code in allowed { LeadsItself(nav, allowed, id); }
    if Leads(nav, allowed, id) {
      var x :| x in nav && nav[x].code in allowed && Below(nav, x, id);
      var k: nat :| Walk(nav, x, k, id);
      ClosedWalk(nav, allowed, x, k, id);
    }
  }

  /** Some row is shown whose own code is not allowed. */
  ghost predicate ShowsMore(ts: seq<Node>, nav: Table, allowed: set<string>) {
    exists id :: id in nav && nav[id].code !in allowed && Count(ts, id) > 0
  }

  /** Exactly when the filter shows nothing but allowed rows: when the codes are closed upwards in the rows the tree was
      built from. */
  lemma FilterExact(ts: seq<Node>, rows: seq<Perm>, nav: Table, allowed: set<string>)
    requires Shows(ts, rows, nav) && Acyclic(nav)
    ensures ShowsMore(FilterNav(ts, allowed), nav, allowed) <==> !ClosedUp(nav, allowed)
  {
    hide Lists, ForestOf, Count, Leads, FilterNav, Acyclic;
    FilterShows(ts, rows, nav, allowed);
    var shown := FilterNav(ts, allowed);
    assert forall id :: Count(shown, id) == if id in nav && Leads(nav, allowed, id) then 1 else 0;
    if ClosedUp(nav, allowed) {
      forall id | id in nav ensures Leads(nav, allowed, id) <==> nav[id].code in allowed {
        ClosedLeads(nav, allowed, id);
      }
    } else {
      var id :| id in nav && nav[id].code in allowed && nav[id].parentId.Some? && nav[id].parentId.value in nav
                && nav[nav[id].parentId.value].code !in allowed;
      LeadsItself(nav, allowed, id);
      LeadsUp(nav, allowed, id);
      assert Count(shown, nav[id].parentId.value) > 0;
    }
  }

  /** The codes reached from held ones in a table. */
  ghost predicate AreReached(allowed: set<string>, t: Table, bindings: map<string, seq<string>>, codes: set<string>) {
    forall x :: x in allowed <==> codes != {} && InNav(EnabledRows(t), bindings, codes, x)
  }

  /** The rows a user is meant to see: enabled catalogs and menus whose own code is reached. */
  ghost function Reached(t: Table, bindings: map<string, seq<string>>, codes: set<string>): Table {
    map id | id in t && IsNav(t[id]) && codes != {} && InNav(EnabledRows(t), bindings, codes, t[id].code) :: t[id]
  }

  lemma ReachedClosed(t: Table, bindings: map<string, seq<string>>, codes: set<string>, allowed: set<string>)
    requires RowsKeyed(t) && UniqueCodes(t) && AreReached(allowed, t, bindings, codes)
    ensures ClosedUp(NavRows(t), allowed)
  {
    hide InNav;
    var nav, e := NavRows(t), EnabledRows(t);
    forall id | id in nav && nav[id].code in allowed && nav[id].parentId.Some? && nav[id].parentId.value in nav
      ensures nav[nav[id].parentId.value].code in allowed
    {
      var p := nav[id].parentId.value;
      assert p in t && IsNav(t[p]) && id in t && IsNav(t[id]);
      assert id in e && p in e && e[id] == nav[id] && InNav(e, bindings, codes, e[id].code);
      NavClosed(e, bindings, codes, id);
    }
  }

  /** Over the table the codes were expanded in, what is kept is what is reached. */
  lemma KeptReached(t: Table, bindings: map<string, seq<string>>, codes: set<string>, allowed: set<string>)
    requires RowsKeyed(t) && UniqueCodes(t) && AreReached(allowed, t, bindings, codes)
    ensures Kept(NavRows(t), allowed) == Reached(t, bindings, codes)
  {
    hide InNav, Leads;
    ReachedClosed(t, bindings, codes, allowed);
    var nav := NavRows(t);
    forall id | id in nav ensures Leads(nav, allowed, id) <==> nav[id].code in allowed {
      ClosedLeads(nav, allowed, id);
    }
    assert Kept(nav, allowed).Keys == Reached(t, bindings, codes).Keys;
  }

  /** A row is reached when it is an enabled catalog or menu, and at or above an enabled row whose code is held or has a
      held code bound to it, or when that is so of its own code. */
  lemma ReachedByRow(t: Table, bindings: map<string, seq<string>>, codes: set<string>, id: int)
    requires UniqueCodes(t) && RowsKeyed(t)
    ensures id in Reached(t, bindings, codes) <==>
            && id in t && t[id].enabled && t[id].kind in {Catalog, Menu}
            && exists x :: && x in t && t[x].enabled && Below(EnabledRows(t), x, id)
                           && (t[x].code in codes
                               || (t[x].code in bindings && exists api :: api in bindings[t[x].code] && api in codes))
  {
    var e := EnabledRows(t);
    if id in e { assert Walk(e, id, 0, id) && Below(e, id, id); }
    if id in e && AboveDirect(e, bindings, codes, e[id].code) {
      var x, a :| x in e && Direct(bindings, codes, e[x].code) && a in e && Below(e, x, a) && e[a].code == e[id].code;
      assert a == id;
    }
  }

  /** In an ordered list sort orders do not decrease, and equal ones stand by id. */
  lemma OrderedByNumber(ps: seq<Perm>, i: nat, j: nat)
    requires Ordered(ps) && i < j < |ps|
    ensures ps[i].sortOrder <= ps[j].sortOrder && (ps[i].sortOrder == ps[j].sortOrder ==> ps[i].id < ps[j].id)
  {
  }

  /** Exactly when the whole tree is the tree of what is reached: when everything is. */
  lemma WholeTreeShown(ts: seq<Node>, t: Table, rows: seq<Perm>, bindings: map<string, seq<string>>, codes: set<string>)
    requires Shows(ts, rows, NavRows(t))
    ensures (exists reached :: Shows(ts, reached, Reached(t, bindings, codes))) <==>
            Reached(t, bindings, codes).Keys == NavRows(t).Keys
  {
    hide Lists, ForestOf, InNav, Count;
    var nav, r := NavRows(t), Reached(t, bindings, codes);
    if r.Keys == nav.Keys {
      assert r == nav;
      assert Shows(ts, rows, r);
    }
    if reached :| Shows(ts, reached, r) {
      forall id ensures id in r <==> id in nav {
        assert Count(ts, id) == if id in nav then 1 else 0;
        assert Count(ts, id) == if id in r then 1 else 0;
      }
    }
  }

  /** A session that still has to select a tenant holds nothing, and is shown every enabled catalog and menu. */
  lemma SelectingSeesAll(ts: seq<Node>, t: Table, rows: seq<Perm>, bindings: map<string, seq<string>>)
    requires Shows(ts, rows, NavRows(t)) && NavRows(t) != map[]
    ensures Reached(t, bindings, {}) == map[] && !exists reached :: Shows(ts, reached, Reached(t, bindings, {}))
  {
    hide Shows;
    WholeTreeShown(ts, t, rows, bindings, {});
    assert Reached(t, bindings, {}).Keys == {};
    assert NavRows(t).Keys == {} <==> NavRows(t) == map[];
  }

  /** The tree of the enabled catalogs and menus. */
  method BuildNavTree(t: Table, rows: seq<Perm>) returns (ts: seq<Node>)
    requires RowsKeyed(t) && Acyclic(t) && Lists(rows, NavRows(t))
    ensures IsNavTree(ts, t, rows)
  {
    var roots, children := HangRows(rows);
    ghost var nav := NavRows(t);
    ghost var rank: map<int, int>, bound: nat :| Ranked(t, rank, bound);
    assert Ranked(nav, rank, bound);
    assert (set p | p in rows :: p.id) == nav.Keys by {
      forall id | id in nav ensures id in set p | p in rows :: p.id { assert nav[id] in rows && nav[id].id == id; }
    }
    TopsMembers(rows, nav.Keys);
    ts := Grown(nav, rows, rank, bound, children, roots, bound);
  }

  lemma NavRowsAcyclic(t: Table)
    requires Acyclic(t)
    ensures Acyclic(NavRows(t))
  {
    var rank: map<int, int>, bound: nat :| Ranked(t, rank, bound);
    assert Ranked(NavRows(t), rank, bound);
  }

  const BEFORE_MOVE: Table := map[1 := Perm(1, "a", Catalog, None, 1, "a", true, false),
                                  2 := Perm(2, "m", Menu, Some(1), 1, "m", true, false),
                                  3 := Perm(3, "c", Catalog, None, 2, "c", true, false)]

  function AfterMove(): Table {
    Apply(State(BEFORE_MOVE, 4), Update(2, UpdateBody(Some(3), None, None))).perms
  }

  lemma MovedMenu()
    ensures AfterMove() == BEFORE_MOVE[2 := BEFORE_MOVE[2].(parentId := Some(3))]
    ensures EnabledRows(AfterMove()) == AfterMove() && NavRows(BEFORE_MOVE) == BEFORE_MOVE
  {
  }

  lemma WalksAfterMove(x: int, k: nat, a: int)
    requires Walk(AfterMove(), x, k, a)
    ensures x == a || (x == 2 && a == 3)
  {
    MovedMenu();
    assert k >= 1 && x == 2 ==> Walk(AfterMove(), 3, k - 1, a);
  }

  lemma ReachedAfterMove()
    ensures AreReached({"m", "c"}, AfterMove(), map[], {"m"})
  {
    MovedMenu();
    var t := AfterMove();
    forall x ensures x in {"m", "c"} <==> InNav(t, map[], {"m"}, x) {
      if AboveDirect(t, map[], {"m"}, x) {
        var id, a :| id in t && Direct(map[], {"m"}, t[id].code) && a in t && Below(t, id, a) && t[a].code == x;
        var k: nat :| Walk(t, id, k, a);
        WalksAfterMove(id, k, a);
      }
      assert Walk(t, 3, 0, 3) && Walk(t, 2, 1, 3);
      assert Below(t, 2, 3) && Direct(map[], {"m"}, t[2].code);
    }
  }

  lemma CountShown(ts: seq<Node>, rows: seq<Perm>, nav: Table, id: int)
    requires Shows(ts, rows, nav) && id in nav
    ensures Count(ts, id) == 1
  {
  }

  lemma BeforeMoveAcyclic()
    ensures Acyclic(NavRows(BEFORE_MOVE))
  {
    hide NavRows;
    MovedMenu();
    assert Ranked(BEFORE_MOVE, map[1 := 0, 2 := 1, 3 := 0], 2);
  }

  lemma OldCatalogLeads()
    ensures Leads(NavRows(BEFORE_MOVE), {"m", "c"}, 1)
  {
    hide NavRows, Leads;
    MovedMenu();
    LeadsItself(BEFORE_MOVE, {"m", "c"}, 2);
    LeadsUp(BEFORE_MOVE, {"m", "c"}, 2);
  }

  /** A menu moves from catalog a to catalog c; a user who holds its code is shown a as well, from the tree built before
      the move, although a is not reached any more. */
  lemma StaleCatalogShown(ts: seq<Node>, rows: seq<Perm>)
    requires Shows(ts, rows, NavRows(BEFORE_MOVE))
    ensures AreReached({"m", "c"}, AfterMove(), map[], {"m"})
    ensures Count(FilterNav(ts, {"m", "c"}), 1) == 1 && BEFORE_MOVE[1].code !in {"m", "c"}
  {
    hide Shows, Leads, NavRows, AreReached, Acyclic, Count, FilterNav, Keep;
    ReachedAfterMove();
    MovedMenu();
    var nav := NavRows(BEFORE_MOVE);
    BeforeMoveAcyclic();
    OldCatalogLeads();
    FilterShows(ts, rows, nav, {"m", "c"});
    CountShown(FilterNav(ts, {"m", "c"}), Keep(rows, Leading(nav, {"m", "c"})), Kept(nav, {"m", "c"}), 1);
  }

  lemma TreeShows(ts: seq<Node>, t: Table, rows: seq<Perm>)
    requires IsNavTree(ts, t, rows) && Acyclic(t)
    ensures Shows(ts, rows, NavRows(t))
  {
    hide Lists, Acyclic, ForestOf, Tops;
    NavRowsAcyclic(t);
    ForestShows(ts, rows, NavRows(t));
  }

  // ---------------------------------------------------------------- the cached tree

  const TTL := 60.0

  /** Whose request it is: whether a tenant is still to be selected, and the codes the database gives the user. */
  datatype Viewer = Viewer(needSelect: bool, codes: set<string>)

  class PermissionService {
    var navCache: Option<(real, seq<Node>)>
    /** The table the cached tree was built from, and its listing. */
    ghost var source: Table
    ghost var listed: seq<Perm>

    ghost predicate Valid()
      reads this
    {
      navCache.Some? ==> Acyclic(NavRows(source)) && Shows(navCache.value.1, listed, NavRows(source))
    }

    constructor ()
      ensures Valid() && navCache == None
    {
      navCache, source, listed := None, map[], [];
    }

    method InvalidateCache()
      modifies this`navCache
      ensures Valid() && navCache == None
    {
      navCache := None;
    }

    method CachedTree(now: real, t: Table, rows: seq<Perm>) returns (tree: seq<Node>)
      requires Valid() && RowsKeyed(t) && Acyclic(t) && Lists(rows, NavRows(t))
      modifies this
      ensures Valid() && navCache.Some? && tree == navCache.value.1
      ensures old(navCache.Some? && now - navCache.value.0 < 60.0) ==> unchanged(this)
      ensures !old(navCache.Some? && now - navCache.value.0 < 60.0) ==> source == t && navCache.value.0 == now
    {
      if navCache.Some? && now - navCache.value.0 < TTL {
        return navCache.value.1;
      }
      hide Acyclic, Lists, RowsKeyed, NavRows, IsNavTree, Shows;
      tree := BuildNavTree(t, rows);
      NavRowsAcyclic(t);
      TreeShows(tree, t, rows);
      navCache, source, listed := Some((now, tree)), t, rows;
    }

    /** Main result: a user who has selected a tenant is shown the tree of exactly those rows of the cached tree's table
        that lead to a code reached today; where that table is today's, exactly the rows reached.  Anybody else is shown
        the whole tree. */
    method ListNavTree(now: real, t: Table, rows: seq<Perm>, today: Table, bindings: map<string, seq<string>>,
                       viewer: Option<Viewer>)
      returns (shown: seq<Node>, ghost allowed: set<string>, ghost shownRows: seq<Perm>)
      requires Valid() && RowsKeyed(t) && Acyclic(t) && Lists(rows, NavRows(t))
      requires RowsKeyed(today) && UniqueCodes(today) && Acyclic(today)
      modifies this
      ensures Valid()
      ensures source == t || (source == old(source) && old(navCache.Some? && now - navCache.value.0 < 60.0))
      ensures viewer.None? || viewer.value.needSelect ==> Shows(shown, shownRows, NavRows(source))
      ensures viewer.Some? && !viewer.value.needSelect ==>
                && AreReached(allowed, today, bindings, viewer.value.codes)
                && Shows(shown, shownRows, Kept(NavRows(source), allowed))
                && (ShowsMore(shown, NavRows(source), allowed) <==> !ClosedUp(NavRows(source), allowed))
                && (source == today ==> Shows(shown, shownRows, Reached(today, bindings, viewer.value.codes)))
    {
      hide Acyclic, Lists, RowsKeyed, UniqueCodes, NavRows, Shows, ShowsMore, ClosedUp, Kept, Reached, InNav, FilterNav;
      shown := CachedTree(now, t, rows);
      shownRows, allowed := listed, {};
      if viewer.Some? && !viewer.value.needSelect {
        var codes := ExpandNavCodes(today, bindings, viewer.value.codes);
        allowed := codes;
        shownRows := Keep(listed, Leading(NavRows(source), allowed));
        FilterShows(shown, listed, NavRows(source), allowed);
        FilterExact(shown, listed, NavRows(source), allowed);
        KeptReached(today, bindings, viewer.value.codes, allowed);
        shown := FilterNav(shown, codes);
      }
    }
  }
}
