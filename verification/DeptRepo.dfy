/** The department repository: guarded writes, the subtree query, the ancestor closure and the tree builder. */
module DeptRepo {
  import opened Wrappers
  import opened DeptForest
  import Text

  // ---------------------------------------------------------------- the flat list

  /** The row order of the flat query: by parent, then sort order, then id. */
  predicate Before(a: Dept, b: Dept) {
    || a.parentId < b.parentId
    || (a.parentId == b.parentId && (a.sortOrder < b.sortOrder || (a.sortOrder == b.sortOrder && a.id < b.id)))
  }

  /** Each row of the table once, in query order. */
  ghost predicate Listing(flat: seq<Dept>, t: Table) {
    && (forall i, j :: 0 <= i < j < |flat| ==> Before(flat[i], flat[j]))
    && (forall i :: 0 <= i < |flat| ==> flat[i].id in t && t[flat[i].id] == flat[i])
    && (forall id :: id in t ==> t[id] in flat)
  }

  /** In a listing parents do not decrease; under one parent sort orders do not; and equal ones stand by id. */
  lemma ListingOrder(flat: seq<Dept>, t: Table, i: nat, j: nat)
    requires Listing(flat, t) && i < j < |flat|
    ensures flat[i].parentId <= flat[j].parentId
    ensures flat[i].parentId == flat[j].parentId ==> flat[i].sortOrder <= flat[j].sortOrder
    ensures flat[i].parentId == flat[j].parentId && flat[i].sortOrder == flat[j].sortOrder ==> flat[i].id < flat[j].id
  {
  }

  lemma FirstExists(t: Table, ids: set<int>)
    requires ids != {} && ids <= t.Keys && Keyed(t)
    ensures exists m :: m in ids && forall o :: o in ids && o != m ==> Before(t[m], t[o])
  {
    if forall x :: x !in ids { assert false; }
    var x :| x in ids;
    var rest := ids - {x};
    if rest != {} {
      FirstExists(t, rest);
      var m :| m in rest && forall o :: o in rest && o != m ==> Before(t[m], t[o]);
      var first := if Before(t[x], t[m]) then x else m;
      assert forall o :: o in ids && o != first ==> Before(t[first], t[o]);
    } else {
      assert ids == {x};
    }
  }

  /** A listing under way: what is listed precedes what remains. */
  ghost predicate Partial(t: Table, flat: seq<Dept>, remaining: set<int>) {
    && Keyed(t) && remaining <= t.Keys
    && (forall i, j :: 0 <= i < j < |flat| ==> Before(flat[i], flat[j]))
    && (forall i :: 0 <= i < |flat| ==> flat[i].id in t && t[flat[i].id] == flat[i])
    && (forall i, id :: 0 <= i < |flat| && id in remaining ==> Before(flat[i], t[id]))
    && (forall id :: id in t ==> id in remaining || t[id] in flat)
  }

  lemma ListingExtends(t: Table, flat: seq<Dept>, remaining: set<int>, id: int)
    requires Partial(t, flat, remaining) && id in remaining
    requires forall o :: o in remaining && o != id ==> Before(t[id], t[o])
    ensures Partial(t, flat + [t[id]], remaining - {id})
  {
  }

  method SortedRows(t: Table) returns (flat: seq<Dept>)
    requires Keyed(t)
    ensures Listing(flat, t)
  {
    flat := [];
    var remaining := t.Keys;
    while remaining != {}
      invariant Partial(t, flat, remaining)
    {
      FirstExists(t, remaining);
      var id :| id in remaining && forall o :: o in remaining && o != id ==> Before(t[id], t[o]);
      ListingExtends(t, flat, remaining, id);
      flat := flat + [t[id]];
      remaining := remaining - {id};
    }
  }

  /** The ids of the children of p, in list order. */
  function ChildIds(flat: seq<Dept>, p: int): (r: seq<int>)
  {
    if flat == [] then []
    else
      var front := ChildIds(flat[..|flat| - 1], p);
      var d := flat[|flat| - 1];
      if d.parentId == p then front + [d.id] else front
  }

  predicate DistinctIds(flat: seq<Dept>) {
    forall i, j :: 0 <= i < j < |flat| ==> flat[i].id != flat[j].id
  }

  lemma ChildIdsExact(flat: seq<Dept>, p: int)
    requires DistinctIds(flat)
    ensures forall c :: c in ChildIds(flat, p) <==>
            exists i :: 0 <= i < |flat| && flat[i].id == c && flat[i].parentId == p
    ensures forall c :: multiset(ChildIds(flat, p))[c] <= 1
    ensures |ChildIds(flat, p)| <= |flat|
  {
    if flat != [] {
      var front := flat[..|flat| - 1];
      var d := flat[|flat| - 1];
      ChildIdsExact(front, p);
      assert flat == front + [d];
      if d.parentId == p {
        assert d.id !in ChildIds(front, p);
        assert multiset(ChildIds(flat, p)) == multiset(ChildIds(front, p)) + multiset{d.id};
      }
    }
  }

  /** Rows of the table, each at most once. */
  ghost predicate RowsOf(flat: seq<Dept>, t: Table) {
    && DistinctIds(flat)
    && forall i :: 0 <= i < |flat| ==> flat[i].id in t && t[flat[i].id] == flat[i]
  }

  /** Every row of the table once, in any order. */
  ghost predicate Covers(flat: seq<Dept>, t: Table) {
    RowsOf(flat, t) && forall id :: id in t ==> t[id] in flat
  }

  lemma ListingCovers(flat: seq<Dept>, t: Table)
    requires Listing(flat, t)
    ensures Covers(flat, t)
  {
  }

  lemma ChildIdsOfTable(flat: seq<Dept>, t: Table, p: int)
    requires Covers(flat, t) && Keyed(t)
    ensures DistinctIds(flat)
    ensures forall c :: c in ChildIds(flat, p) <==> c in t && t[c].parentId == p
    ensures forall c :: multiset(ChildIds(flat, p))[c] <= 1
  {
    ChildIdsExact(flat, p);
    forall c | c in t && t[c].parentId == p ensures c in ChildIds(flat, p) {
      assert t[c] in flat;
    }
  }

  method GroupByParent(flat: seq<Dept>) returns (childrenMap: map<int, seq<int>>)
    ensures forall p :: (if p in childrenMap then childrenMap[p] else []) == ChildIds(flat, p)
  {
    childrenMap := map[];
    var i := 0;
    while i < |flat|
      invariant 0 <= i <= |flat|
      invariant forall p :: (if p in childrenMap then childrenMap[p] else []) == ChildIds(flat[..i], p)
    {
      var d := flat[i];
      assert flat[..i + 1][..i] == flat[..i];
      childrenMap := childrenMap[d.parentId :=
                                 (if d.parentId in childrenMap then childrenMap[d.parentId] else []) + [d.id]];
      i := i + 1;
    }
    assert flat[..i] == flat;
  }

  // ---------------------------------------------------------------- the subtree query

  /** An id together with everything below it. */
  ghost predicate IsSubtree(t: Table, id: int, ids: seq<int>) {
    && (forall x :: multiset(ids)[x] <= 1)
    && (forall x :: x in ids <==> x == id || (x in t && Under(t, x, id)))
  }

  /** The loop invariant of the stack traversal: what has been taken and what is waiting. */
  ghost predicate Traversing(t: Table, id: int, result: seq<int>, stack: seq<int>) {
    && (forall x :: (multiset(result) + multiset(stack))[x] <= 1)
    && (id in result || id in stack)
    && (forall x :: x in result || x in stack ==> x == id || (x in t && t[x].parentId in result && Under(t, x, id)))
    && (forall c :: c in t && t[c].parentId in result ==> c in result || c in stack)
  }

  lemma TraversalStart(t: Table, id: int)
    ensures Traversing(t, id, [], [id])
  {
  }

  lemma TraverseStep(t: Table, id: int, result: seq<int>, stack: seq<int>, kids: seq<int>)
    requires Forest(t) && Traversing(t, id, result, stack) && stack != []
    requires var current := stack[|stack| - 1];
             && (forall c :: c in kids <==> c in t && t[c].parentId == current)
             && (forall c :: multiset(kids)[c] <= 1)
    ensures var current := stack[|stack| - 1];
            current !in result && current in t.Keys + {id}
              && Traversing(t, id, result + [current], stack[..|stack| - 1] + kids)
  {
    var current := stack[|stack| - 1];
    var rest := stack[..|stack| - 1];
    assert stack == rest + [current];
    assert multiset(stack) == multiset(rest) + multiset{current};
    assert current !in result by {
      assert (multiset(result) + multiset(stack))[current] <= 1;
    }
    UnderSelf(t, id);
    assert Under(t, current, id);
    forall c | c in kids ensures c !in result && c !in stack && c != id && Under(t, c, id) {
      UnderStep(t, c, id);
      NoCycle(t, c);
    }
    assert multiset(result + [current]) + multiset(rest + kids) == multiset(result) + multiset(stack) + multiset(kids);
    forall x ensures (multiset(result + [current]) + multiset(rest + kids))[x] <= 1 {
      if x in kids { assert x !in multiset(result) && x !in multiset(stack); }
    }
  }

  lemma TraversalReaches(t: Table, id: int, result: seq<int>, x: int, k: nat)
    requires Traversing(t, id, result, []) && Walk(t, x, k, id)
    ensures x in result
    decreases k
  {
    if k > 0 { TraversalReaches(t, id, result, t[x].parentId, k - 1); }
  }

  lemma TraversalComplete(t: Table, id: int, result: seq<int>)
    requires Traversing(t, id, result, [])
    ensures IsSubtree(t, id, result)
  {
    assert multiset(result) + multiset([]) == multiset(result);
    forall x | x in t && Under(t, x, id) ensures x in result {
      var k: nat :| Walk(t, x, k, id);
      TraversalReaches(t, id, result, x, k);
    }
  }

  lemma ForestKeyed(t: Table)
    requires Forest(t)
    ensures Keyed(t)
  {
  }

  method Descendants(t: Table, flat: seq<Dept>, id: int) returns (result: seq<int>)
    requires Forest(t) && Covers(flat, t)
    ensures IsSubtree(t, id, result)
  {
    hide Traversing, Covers, Forest, IsSubtree;
    var childrenMap := GroupByParent(flat);
    result := [];
    var stack := [id];
    TraversalStart(t, id);
    while stack != []
      invariant Traversing(t, id, result, stack)
      decreases t.Keys + {id} - (set x | x in result)
    {
      var current := stack[|stack| - 1];
      var kids := if current in childrenMap then childrenMap[current] else [];
      assert kids == ChildIds(flat, current);
      ForestKeyed(t);
      ChildIdsOfTable(flat, t, current);
      TraverseStep(t, id, result, stack, kids);
      stack := stack[..|stack| - 1] + kids;
      ghost var left := t.Keys + {id} - (set x | x in result);
      result := result + [current];
      assert t.Keys + {id} - (set x | x in result) == left - {current};
    }
    TraversalComplete(t, id, result);
  }

  // ---------------------------------------------------------------- the ancestor closure

  /** The ids in a list of departments. */
  function Ids(ds: seq<Dept>): set<int> {
    set d | d in ds :: d.id
  }

  /** A department of the table that is visible or above a visible one. */
  ghost predicate NeededAbove(all: Table, visible: seq<Dept>, x: int) {
    exists i :: 0 <= i < |visible| && (x == visible[i].id || (x in all && Under(all, visible[i].id, x)))
  }

  /** The parent of x needs no further adding: it is collected, or zero, or absent. */
  ghost predicate Closed(all: Table, needed: seq<Dept>, x: int) {
    x in all && (all[x].parentId == 0 || all[x].parentId !in all || all[x].parentId in Ids(needed))
  }

  lemma RowsOfAdds(needed: seq<Dept>, all: Table, d: Dept)
    requires RowsOf(needed, all) && d.id !in Ids(needed) && d.id in all && all[d.id] == d
    ensures RowsOf(needed + [d], all) && Ids(needed + [d]) == Ids(needed) + {d.id}
  {
  }

  /** The inner walk: collects parents from a department upwards until one is zero, absent or already collected. */
  method ClimbFrom(collected: seq<Dept>, all: Table, dept: Dept, ghost pending: set<int>) returns (needed: seq<Dept>)
    requires Keyed(all) && RowsOf(collected, all) && dept.id in Ids(collected) && dept.id in all && all[dept.id] == dept
    requires forall y :: y in Ids(collected) ==> Closed(all, collected, y) || y in pending || y == dept.id
    ensures RowsOf(needed, all) && Ids(collected) <= Ids(needed)
    ensures forall y :: y in Ids(needed) ==> y in Ids(collected) || (y in all && Under(all, dept.id, y))
    ensures forall y :: y in Ids(needed) ==> Closed(all, needed, y) || y in pending
  {
    needed := collected;
    var parentId := dept.parentId;
    ghost var x := dept.id;
    UnderSelf(all, x);
    while parentId != 0 && parentId !in Ids(needed)
      invariant RowsOf(needed, all) && Ids(collected) <= Ids(needed)
      invariant x in Ids(needed) && x in all && all[x].parentId == parentId && Under(all, dept.id, x)
      invariant forall y :: y in Ids(needed) ==> y in Ids(collected) || (y in all && Under(all, dept.id, y))
      invariant forall y :: y in Ids(needed) ==> Closed(all, needed, y) || y in pending || y == x
      decreases all.Keys - Ids(needed)
    {
      if parentId !in all { break; }
      var parent := all[parentId];
      RowsOfAdds(needed, all, parent);
      UnderSelf(all, parentId);
      UnderStep(all, x, parentId);
      UnderTransitive(all, dept.id, x, parentId);
      needed := needed + [parent];
      x := parentId;
      parentId := parent.parentId;
    }
  }

  /** The dictionary of the visible departments, in insertion order. */
  method Collect(visible: seq<Dept>, all: Table) returns (needed: seq<Dept>)
    requires forall i :: 0 <= i < |visible| ==> visible[i].id in all && all[visible[i].id] == visible[i]
    ensures RowsOf(needed, all) && Ids(needed) == Ids(visible)
  {
    needed := [];
    var i := 0;
    while i < |visible|
      invariant 0 <= i <= |visible|
      invariant RowsOf(needed, all)
      invariant Ids(needed) == Ids(visible[..i])
    {
      assert visible[..i + 1] == visible[..i] + [visible[i]];
      if visible[i].id !in Ids(needed) {
        RowsOfAdds(needed, all, visible[i]);
        needed := needed + [visible[i]];
      }
      i := i + 1;
    }
    assert visible[..i] == visible;
  }

  lemma ClosedUpwards(all: Table, needed: seq<Dept>, x: int, k: nat, a: int)
    requires Keyed(all) && x in Ids(needed) && a in all && Walk(all, x, k, a)
    requires forall y :: y in Ids(needed) ==> Closed(all, needed, y)
    ensures a in Ids(needed)
    decreases k
  {
    if k > 0 {
      assert Closed(all, needed, x);
      var p := all[x].parentId;
      assert p in all by { if k > 1 { assert Walk(all, p, k - 1, a); } }
      ClosedUpwards(all, needed, p, k - 1, a);
    }
  }

  lemma ClosedHasAll(all: Table, needed: seq<Dept>, visible: seq<Dept>)
    requires Keyed(all) && Ids(visible) <= Ids(needed)
    requires forall x :: x in Ids(needed) ==> Closed(all, needed, x)
    ensures forall x :: NeededAbove(all, visible, x) ==> x in Ids(needed)
  {
    forall x | NeededAbove(all, visible, x) ensures x in Ids(needed) {
      var j :| 0 <= j < |visible| && (x == visible[j].id || (x in all && Under(all, visible[j].id, x)));
      assert visible[j] in visible;
      if x != visible[j].id {
        var k: nat :| Walk(all, visible[j].id, k, x);
        ClosedUpwards(all, needed, visible[j].id, k, x);
      }
    }
  }

  method ExpandWithAncestors(visible: seq<Dept>, all: Table) returns (needed: seq<Dept>)
    requires Keyed(all)
    requires forall i :: 0 <= i < |visible| ==> visible[i].id in all && all[visible[i].id] == visible[i]
    ensures RowsOf(needed, all)
    ensures forall x :: x in Ids(needed) <==> NeededAbove(all, visible, x)
  {
    needed := Collect(visible, all);
    var i := 0;
    forall x | x in Ids(visible) ensures NeededAbove(all, visible, x) {
      var d :| d in visible && d.id == x;
    }
    while i < |visible|
      invariant 0 <= i <= |visible|
      invariant RowsOf(needed, all)
      invariant Ids(visible) <= Ids(needed)
      invariant forall x :: x in Ids(needed) ==> NeededAbove(all, visible, x)
      invariant forall x :: x in Ids(needed) ==> Closed(all, needed, x) || x in Ids(visible[i..])
    {
      assert visible[i..] == [visible[i]] + visible[i + 1..];
      assert visible[i] in visible;
      needed := ClimbFrom(needed, all, visible[i], Ids(visible[i + 1..]));
      i := i + 1;
    }
    ClosedHasAll(all, needed, visible);
  }

  // ---------------------------------------------------------------- the repository

  class DeptRepo {
    var rows: Table
    var nextId: int

    ghost function View(): State
      reads this
    {
      State(rows, nextId)
    }

    ghost predicate Valid()
      reads this
    {
      ValidState(View())
    }

    constructor ()
      ensures View() == EMPTY && Valid()
    {
      rows := map[];
      nextId := 1;
      new;
      EmptyValid();
    }

    method ListAllFlat() returns (flat: seq<Dept>)
      requires Valid()
      ensures Listing(flat, rows)
    {
      flat := SortedRows(rows);
    }

    method ListDescendantIds(deptId: int) returns (result: seq<int>)
      requires Valid()
      ensures IsSubtree(rows, deptId, result)
    {
      var flat := ListAllFlat();
      ListingCovers(flat, rows);
      result := Descendants(rows, flat, deptId);
    }

    method ValidateSingleRoot(deptId: Option<int>, parentId: int) returns (error: Option<string>)
      requires Valid()
      ensures error == if parentId != 0 then None else ParentError(rows, deptId, parentId)
    {
      if parentId != 0 { return None; }
      var flat := ListAllFlat();
      var roots: set<int> := set d | d in flat && d.parentId == 0 :: d.id;
      assert roots != {} <==> HasRoot(rows) by {
        if HasRoot(rows) {
          var r :| IsRoot(rows, r);
          assert rows[r] in flat && r in roots;
        }
        if roots != {} {
          var r :| r in roots;
          assert IsRoot(rows, r);
        }
      }
      if deptId.None? {
        return if roots != {} then Some("second root") else None;
      }
      if deptId.value !in rows || rows[deptId.value].parentId == 0 {
        return None;
      }
      return if roots != {} then Some("second root") else None;
    }

    method ValidateParent(deptId: Option<int>, parentId: int) returns (error: Option<string>)
      requires Valid()
      ensures error == ParentError(rows, deptId, parentId)
    {
      if parentId == 0 {
        error := ValidateSingleRoot(deptId, parentId);
        return;
      }
      if deptId.Some? && parentId == deptId.value { return Some("own parent"); }
      if parentId !in rows { return Some("parent missing"); }
      if deptId.Some? {
        var descendants := ListDescendantIds(deptId.value);
        if parentId in descendants { return Some("parent below"); }
      }
      error := None;
    }

    method CreateDept(body: CreateBody) returns (r: Result<Dept>)
      requires Valid()
      modifies this
      ensures Valid()
      ensures (View(), r) == Created(old(View()), body, Text.Trim(body.name))
      ensures r.Ok? ==> && r.value == Dept(old(nextId), body.parentId, Text.Trim(body.name), body.sortOrder,
                                           body.enabled)
                        && old(nextId) in rows && rows[old(nextId)] == r.value
                        && OthersStay(old(rows), rows, old(nextId))
    {
      CreateStores(View(), body, Text.Trim(body.name));
      CreatedForest(View(), body, Text.Trim(body.name));
      if Text.Trim(body.name) == "" { return Error("empty name"); }
      if body.parentId == 0 && !body.enabled { return Error("root disabled"); }
      var error := ValidateParent(None, body.parentId);
      if error.Some? { return Error(error.value); }
      var d := Dept(nextId, body.parentId, Text.Trim(body.name), body.sortOrder, body.enabled);
      rows := rows[nextId := d];
      nextId := nextId + 1;
      r := Ok(d);
    }

    method UpdateDept(deptId: int, body: UpdateBody) returns (r: Result<Option<Dept>>)
      requires Valid()
      modifies this
      ensures Valid()
      ensures var name := if body.name.Some? then Some(Text.Trim(body.name.value)) else None;
              && (View(), r) == Updated(old(View()), deptId, body, name)
              && (r.Ok? && r.value.Some? ==> && deptId in old(rows) && deptId in rows && rows[deptId] == r.value.value
                                             && HasFields(r.value.value, old(rows)[deptId], body, name)
                                             && OthersStay(old(rows), rows, deptId))
    {
      var stripped := if body.name.Some? then Some(Text.Trim(body.name.value)) else None;
      UpdatedForest(View(), deptId, body, stripped);
      UpdateStores(View(), deptId, body, stripped);
      if deptId !in rows { return Ok(None); }
      var current := rows[deptId];
      if stripped == Some("") { return Error("empty name"); }
      var parentId := GetOr(body.parentId, current.parentId);
      var enabled := GetOr(body.enabled, current.enabled);
      if current.parentId == 0 {
        if parentId != 0 { return Error("root moved"); }
        if body.enabled == Some(false) { return Error("root disabled"); }
        enabled := true;
      }
      var error := ValidateParent(Some(deptId), parentId);
      if error.Some? { return Error(error.value); }
      var d := Dept(deptId, parentId, GetOr(stripped, current.name), GetOr(body.sortOrder, current.sortOrder), enabled);
      rows := rows[deptId := d];
      r := Ok(Some(d));
    }

    /** The three sets hold the departments that users, role scopes and user scopes refer to. */
    method DeleteDept(deptId: int, users: set<int>, roleScopes: set<int>, userScopes: set<int>)
      returns (r: Result<bool>)
      requires Valid()
      modifies this
      ensures Valid()
      ensures (View(), r) == Deleted(old(View()), deptId, deptId in users + roleScopes + userScopes)
      ensures deptId in users || deptId in roleScopes || deptId in userScopes ==> r != Ok(true) && rows == old(rows)
    {
      DeleteStores(View(), deptId, deptId in users + roleScopes + userScopes);
      DeletedForest(View(), deptId, deptId in users + roleScopes + userScopes);
      if deptId !in rows { return Ok(false); }
      if rows[deptId].parentId == 0 { return Error("root deleted"); }
      var flat := ListAllFlat();
      if exists d :: d in flat && d.parentId == deptId {
        return Error("has children");
      }
      assert forall c :: c in rows ==> rows[c] in flat;
      if deptId in users || deptId in roleScopes || deptId in userScopes { return Error("referenced"); }
      rows := rows - {deptId};
      r := Ok(true);
    }
  }
}
