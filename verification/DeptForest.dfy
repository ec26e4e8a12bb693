/** The department table of a tenant and the shape every operation keeps: a single-rooted tree. */
module DeptForest {
  import opened Wrappers

  datatype Dept = Dept(id: int, parentId: int, name: string, sortOrder: int, enabled: bool)

  /** Rows by id; a parent id of zero marks the root. */
  type Table = map<int, Dept>

  predicate Keyed(t: Table) {
    forall id :: id in t ==> id > 0 && t[id].id == id
  }

  /** k parent links lead from x to a. */
  ghost predicate Walk(t: Table, x: int, k: nat, a: int)
    decreases k
  {
    if k == 0 then x == a else x in t && Walk(t, t[x].parentId, k - 1, a)
  }

  /** x is a or lies somewhere below it. */
  ghost predicate Under(t: Table, x: int, a: int) {
    exists k: nat :: Walk(t, x, k, a)
  }

  /** Every parent other than zero is present and has a smaller rank: a certificate that there are no cycles. */
  ghost predicate Ranked(t: Table, rank: map<int, int>, bound: nat) {
    forall id :: id in t ==>
                   && id in rank && 0 <= rank[id] < bound
                   && (t[id].parentId != 0 ==> t[id].parentId in t && t[id].parentId in rank
                                               && rank[t[id].parentId] < rank[id])
  }

  ghost predicate Acyclic(t: Table) {
    exists rank: map<int, int>, bound: nat :: Ranked(t, rank, bound)
  }

  ghost predicate SingleRoot(t: Table) {
    forall i, j :: i in t && j in t && t[i].parentId == 0 && t[j].parentId == 0 ==> i == j
  }

  ghost predicate Forest(t: Table) {
    && Keyed(t)
    && SingleRoot(t)
    && Acyclic(t)
  }

  // ---------------------------------------------------------------- walks

  lemma WalkMore(t: Table, x: int, k: nat, a: int, l: nat, b: int)
    requires Walk(t, x, k, a) && Walk(t, a, l, b)
    ensures Walk(t, x, k + l, b)
    decreases k
  {
    if k > 0 { WalkMore(t, t[x].parentId, k - 1, a, l, b); }
  }

  lemma UnderTransitive(t: Table, x: int, a: int, b: int)
    requires Under(t, x, a) && Under(t, a, b)
    ensures Under(t, x, b)
  {
    var k: nat :| Walk(t, x, k, a);
    var l: nat :| Walk(t, a, l, b);
    WalkMore(t, x, k, a, l, b);
  }

  lemma UnderSelf(t: Table, x: int)
    ensures Under(t, x, x)
  {
    assert Walk(t, x, 0, x);
  }

  /** Below a node means: the node itself, or below it through the parent. */
  lemma UnderStep(t: Table, x: int, a: int)
    ensures Under(t, x, a) <==> x == a || (x in t && Under(t, t[x].parentId, a))
  {
    UnderSelf(t, x);
    if Under(t, x, a) && x != a {
      var k: nat :| Walk(t, x, k, a);
      assert Walk(t, t[x].parentId, k - 1, a);
    }
    if x in t && Under(t, t[x].parentId, a) {
      var k: nat :| Walk(t, t[x].parentId, k, a);
      assert Walk(t, x, k + 1, a);
    }
  }

  lemma WalkDescends(t: Table, rank: map<int, int>, bound: nat, x: int, k: nat, a: int)
    requires Ranked(t, rank, bound) && x in t && k > 0 && Walk(t, x, k, a) && a in t && Keyed(t)
    ensures rank[a] < rank[x]
    decreases k
  {
    if k > 1 { WalkDescends(t, rank, bound, t[x].parentId, k - 1, a); }
  }

  /** A tree has no cycles: no department lies below itself by one or more links. */
  lemma NoCycle(t: Table, x: int)
    requires Forest(t) && x in t
    ensures !Under(t, t[x].parentId, x)
  {
    if Under(t, t[x].parentId, x) {
      var k: nat :| Walk(t, t[x].parentId, k, x);
      var rank: map<int, int>, bound: nat :| Ranked(t, rank, bound);
      assert Walk(t, x, k + 1, x);
      WalkDescends(t, rank, bound, x, k + 1, x);
    }
  }

  lemma ReachesZero(t: Table, rank: map<int, int>, bound: nat, x: int)
    requires Keyed(t) && Ranked(t, rank, bound) && x in t
    ensures exists r :: r in t && t[r].parentId == 0 && Under(t, x, r)
    decreases rank[x]
  {
    UnderSelf(t, x);
    if t[x].parentId != 0 {
      ReachesZero(t, rank, bound, t[x].parentId);
      var r :| r in t && t[r].parentId == 0 && Under(t, t[x].parentId, r);
      UnderStep(t, x, r);
    }
  }

  ghost predicate IsRoot(t: Table, r: int) {
    r in t && t[r].parentId == 0
  }

  /** A non-empty tree has exactly one root, and every department lies below it. */
  lemma OneRoot(t: Table, x: int)
    requires Forest(t) && x in t
    ensures exists r :: IsRoot(t, r) && (forall s :: IsRoot(t, s) ==> s == r) && forall y :: y in t ==> Under(t, y, r)
  {
    var rank: map<int, int>, bound: nat :| Ranked(t, rank, bound);
    ReachesZero(t, rank, bound, x);
    var r :| r in t && t[r].parentId == 0 && Under(t, x, r);
    assert IsRoot(t, r);
    forall y | y in t ensures Under(t, y, r) {
      ReachesZero(t, rank, bound, y);
    }
  }

  /** Of two departments above the same one, one lies above the other. */
  lemma WalksCompare(t: Table, x: int, k: nat, a: int, l: nat, b: int)
    requires Walk(t, x, k, a) && Walk(t, x, l, b)
    ensures Under(t, a, b) || Under(t, b, a)
    decreases k
  {
    if k == 0 || l == 0 {
    } else {
      WalksCompare(t, t[x].parentId, k - 1, a, l - 1, b);
    }
  }

  /** The last link of a walk. */
  lemma WalkLast(t: Table, x: int, k: nat, a: int)
    requires k > 0 && Walk(t, x, k, a)
    ensures exists c :: c in t && t[c].parentId == a && Walk(t, x, k - 1, c)
    decreases k
  {
    if k > 1 {
      WalkLast(t, t[x].parentId, k - 1, a);
      var c :| c in t && t[c].parentId == a && Walk(t, t[x].parentId, k - 2, c);
      assert Walk(t, x, k - 1, c);
    } else {
      assert Walk(t, x, 0, x);
    }
  }

  // ---------------------------------------------------------------- operations on tables

  datatype CreateBody = CreateBody(parentId: int, name: string, sortOrder: int, enabled: bool)

  datatype UpdateBody = UpdateBody(parentId: Option<int>, name: Option<string>, sortOrder: Option<int>,
                                   enabled: Option<bool>)

  datatype State = State(rows: Table, nextId: int)

  ghost predicate ValidState(s: State) {
    Forest(s.rows) && s.nextId > 0 && forall id :: id in s.rows ==> id < s.nextId
  }

  ghost predicate HasRoot(t: Table) {
    exists r :: IsRoot(t, r)
  }

  /** Why a parent is refused for a new department (None) or an existing one, if it is. */
  ghost function ParentError(t: Table, deptId: Option<int>, parentId: int): Option<string> {
    if parentId == 0 then
      if deptId.None? then if HasRoot(t) then Some("second root") else None
      else if deptId.value !in t || IsRoot(t, deptId.value) then None
      else if HasRoot(t) then Some("second root") else None
    else if deptId.Some? && parentId == deptId.value then Some("own parent")
    else if parentId !in t then Some("parent missing")
    else if deptId.Some? && Under(t, parentId, deptId.value) then Some("parent below")
    else None
  }

  function GetOr<T>(o: Option<T>, default: T): T {
    if o.Some? then o.value else default
  }

  ghost function CreateError(t: Table, body: CreateBody, name: string): Option<string> {
    if name == "" then Some("empty name")
    else if body.parentId == 0 && !body.enabled then Some("root disabled")
    else ParentError(t, None, body.parentId)
  }

  /** Name is the submitted name without surrounding blanks. */
  ghost function Created(s: State, body: CreateBody, name: string): (State, Result<Dept>) {
    var error := CreateError(s.rows, body, name);
    if error.Some? then (s, Error(error.value))
    else
      var d := Dept(s.nextId, body.parentId, name, body.sortOrder, body.enabled);
      (State(s.rows[s.nextId := d], s.nextId + 1), Ok(d))
  }

  ghost function UpdateError(t: Table, id: int, body: UpdateBody, name: Option<string>): Option<string>
    requires id in t
  {
    var parentId := GetOr(body.parentId, t[id].parentId);
    if name == Some("") then Some("empty name")
    else if t[id].parentId == 0 && parentId != 0 then Some("root moved")
    else if t[id].parentId == 0 && body.enabled == Some(false) then Some("root disabled")
    else ParentError(t, Some(id), parentId)
  }

  /** Name is the submitted name without surrounding blanks, if one was submitted. */
  ghost function Updated(s: State, id: int, body: UpdateBody, name: Option<string>): (State, Result<Option<Dept>>) {
    if id !in s.rows then (s, Ok(None))
    else
      var error := UpdateError(s.rows, id, body, name);
      if error.Some? then (s, Error(error.value))
      else
        var current := s.rows[id];
        var enabled := if current.parentId == 0 then true else GetOr(body.enabled, current.enabled);
        var d := Dept(id, GetOr(body.parentId, current.parentId), GetOr(name, current.name),
                      GetOr(body.sortOrder, current.sortOrder), enabled);
        (State(s.rows[id := d], s.nextId), Ok(Some(d)))
  }

  /** Referenced: some user or some role or user data scope refers to the department. */
  ghost function Deleted(s: State, id: int, referenced: bool): (State, Result<bool>) {
    if id !in s.rows then (s, Ok(false))
    else if s.rows[id].parentId == 0 then (s, Error("root deleted"))
    else if exists c :: c in s.rows && s.rows[c].parentId == id then (s, Error("has children"))
    else if referenced then (s, Error("referenced"))
    else (State(s.rows - {id}, s.nextId), Ok(true))
  }

  // ---------------------------------------------------------------- what the operations store

  /** Every row but one is as it was. */
  ghost predicate OthersStay(before: Table, after: Table, id: int) {
    forall x :: x != id ==> (x in after <==> x in before) && (x in before ==> after[x] == before[x])
  }

  /** A create is accepted exactly for a name, an enabled root, and a parent that is present, or none in an empty tree;
      the row it stores and returns holds the submitted values under the next id. */
  lemma CreateStores(s: State, body: CreateBody, name: string)
    ensures var (after, r) := Created(s, body, name);
            && (r.Ok? <==> && name != "" && (body.parentId == 0 ==> body.enabled)
                           && if body.parentId == 0 then forall x :: x in s.rows ==> s.rows[x].parentId != 0
                              else body.parentId in s.rows)
            && (r.Ok? ==> && s.nextId in after.rows && r.value == after.rows[s.nextId] && r.value.id == s.nextId
                          && r.value.parentId == body.parentId && r.value.name == name
                          && r.value.sortOrder == body.sortOrder && r.value.enabled == body.enabled
                          && OthersStay(s.rows, after.rows, s.nextId) && after.nextId == s.nextId + 1)
            && (r.Error? ==> after == s)
  {
    assert forall x :: IsRoot(s.rows, x) <==> x in s.rows && s.rows[x].parentId == 0;
  }

  /** The row has each submitted field, and the old value of each absent one; a root stays enabled. */
  predicate HasFields(d: Dept, was: Dept, body: UpdateBody, name: Option<string>) {
    && d.id == was.id
    && (body.parentId.Some? ==> d.parentId == body.parentId.value)
    && (body.parentId.None? ==> d.parentId == was.parentId)
    && (name.Some? ==> d.name == name.value) && (name.None? ==> d.name == was.name)
    && (body.sortOrder.Some? ==> d.sortOrder == body.sortOrder.value)
    && (body.sortOrder.None? ==> d.sortOrder == was.sortOrder)
    && (was.parentId == 0 ==> d.enabled)
    && (was.parentId != 0 && body.enabled.Some? ==> d.enabled == body.enabled.value)
    && (was.parentId != 0 && body.enabled.None? ==> d.enabled == was.enabled)
  }

  /** An accepted update stores and returns a row with the submitted fields; everything else stays. */
  lemma UpdateStores(s: State, id: int, body: UpdateBody, name: Option<string>)
    requires Keyed(s.rows)
    ensures var (after, r) := Updated(s, id, body, name);
            && (r == Ok(None) <==> id !in s.rows)
            && (r.Ok? && r.value.Some? ==> && id in s.rows && id in after.rows && after.rows[id] == r.value.value
                                           && HasFields(r.value.value, s.rows[id], body, name)
                                           && OthersStay(s.rows, after.rows, id) && after.nextId == s.nextId)
            && (!(r.Ok? && r.value.Some?) ==> after == s)
  {
  }

  /** An update of a present department is refused exactly for an empty name, a root that would move or be disabled,
      and a parent that is absent or lies in the department's own subtree, or a second root. */
  lemma UpdateRefused(s: State, id: int, body: UpdateBody, name: Option<string>)
    requires Forest(s.rows) && id in s.rows
    ensures var current := s.rows[id];
            var parentId := if body.parentId.Some? then body.parentId.value else current.parentId;
            Updated(s, id, body, name).1.Error? <==>
            || name == Some("")
            || (current.parentId == 0 && (parentId != 0 || body.enabled == Some(false)))
            || (current.parentId != 0 && (parentId == 0 || parentId !in s.rows || Under(s.rows, parentId, id)))
  {
    UnderSelf(s.rows, id);
    if s.rows[id].parentId != 0 {
      var rank: map<int, int>, bound: nat :| Ranked(s.rows, rank, bound);
      ReachesZero(s.rows, rank, bound, id);
      var r :| r in s.rows && s.rows[r].parentId == 0 && Under(s.rows, id, r);
      assert IsRoot(s.rows, r);
    }
    hide Under, Forest;
    assert IsRoot(s.rows, id) <==> s.rows[id].parentId == 0;
  }

  /** A delete is accepted exactly for a department that is present, no root, without children and not referenced; then
      exactly its row is gone. */
  lemma DeleteStores(s: State, id: int, referenced: bool)
    ensures var (after, r) := Deleted(s, id, referenced);
            && (r == Ok(false) <==> id !in s.rows)
            && (r == Ok(true) <==> && id in s.rows && s.rows[id].parentId != 0 && !referenced
                                   && forall c :: c in s.rows ==> s.rows[c].parentId != id)
            && (r == Ok(true) ==> id !in after.rows && OthersStay(s.rows, after.rows, id) && after.nextId == s.nextId)
            && (r != Ok(true) ==> after == s)
  {
  }

  // ---------------------------------------------------------------- what the operations keep

  lemma AddedRanked(t: Table, id: int, d: Dept, rank: map<int, int>, bound: nat)
    requires Ranked(t, rank, bound) && id !in t && d.id == id && d.parentId != id
    requires d.parentId == 0 || d.parentId in t
    ensures Acyclic(t[id := d])
  {
    var rank' := rank[id := if d.parentId == 0 then 0 else rank[d.parentId] + 1];
    assert Ranked(t[id := d], rank', bound + 1);
  }

  lemma CreatedForest(s: State, body: CreateBody, name: string)
    requires ValidState(s)
    ensures ValidState(Created(s, body, name).0)
  {
    if CreateError(s.rows, body, name).None? {
      var t := s.rows;
      var rank: map<int, int>, bound: nat :| Ranked(t, rank, bound);
      AddedRanked(t, s.nextId, Created(s, body, name).0.rows[s.nextId], rank, bound);
      hide Ranked, Acyclic;
      assert body.parentId == 0 ==> forall r :: r in t ==> !IsRoot(t, r);
    }
  }

  /** Moving a department under one that is not below it shifts the ranks of its subtree. */
  lemma MovedRanked(t: Table, id: int, d: Dept, rank: map<int, int>, bound: nat)
    requires Keyed(t) && Ranked(t, rank, bound) && id in t && d.id == id
    requires d.parentId == 0 || (d.parentId in t && !Under(t, d.parentId, id))
    ensures Acyclic(t[id := d])
  {
    var shift: nat := if d.parentId == 0 then 0 else rank[d.parentId] + 1;
    var rank': map<int, int> := map x | x in t :: if Under(t, x, id) then rank[x] + shift else rank[x];
    var t' := t[id := d];
    forall x | x in t' ensures t'[x].parentId != 0 ==> t'[x].parentId in t' && rank'[t'[x].parentId] < rank'[x] {
      UnderStep(t, x, id);
      UnderSelf(t, id);
    }
    assert Ranked(t', rank', bound + shift);
  }

  lemma UpdatedForest(s: State, id: int, body: UpdateBody, name: Option<string>)
    requires ValidState(s)
    ensures ValidState(Updated(s, id, body, name).0)
  {
    if id in s.rows && UpdateError(s.rows, id, body, name).None? {
      var t := s.rows;
      var t' := Updated(s, id, body, name).0.rows;
      var rank: map<int, int>, bound: nat :| Ranked(t, rank, bound);
      MovedRanked(t, id, t'[id], rank, bound);
      OneRoot(t, id);
    }
  }

  lemma DeletedForest(s: State, id: int, referenced: bool)
    requires ValidState(s)
    ensures ValidState(Deleted(s, id, referenced).0)
  {
    var t' := Deleted(s, id, referenced).0.rows;
    var rank: map<int, int>, bound: nat :| Ranked(s.rows, rank, bound);
    assert Ranked(t', rank, bound);
  }

  // ---------------------------------------------------------------- runs

  datatype Op = Create(createBody: CreateBody, createName: string)
              | Update(updateId: int, updateBody: UpdateBody, updateName: Option<string>)
              | Delete(deleteId: int, referenced: bool)

  ghost function Apply(s: State, op: Op): State {
    match op
    case Create(body, name) => Created(s, body, name).0
    case Update(id, body, name) => Updated(s, id, body, name).0
    case Delete(id, referenced) => Deleted(s, id, referenced).0
  }

  ghost function Run(s: State, ops: seq<Op>): State
    decreases |ops|
  {
    if ops == [] then s else Run(Apply(s, ops[0]), ops[1..])
  }

  const EMPTY := State(map[], 1)

  lemma {:induction false} RunForest(s: State, ops: seq<Op>)
    requires ValidState(s)
    ensures ValidState(Run(s, ops))
    decreases |ops|
  {
    hide ValidState, Created, Updated, Deleted;
    if ops != [] {
      match ops[0] {
        case Create(body, name) => CreatedForest(s, body, name);
        case Update(id, body, name) => UpdatedForest(s, id, body, name);
        case Delete(id, referenced) => DeletedForest(s, id, referenced);
      }
      RunForest(Apply(s, ops[0]), ops[1..]);
    }
  }

  lemma EmptyValid()
    ensures ValidState(EMPTY)
  {
    assert Ranked(map[], map[], 0);
  }

  ghost predicate TreeShaped(t: Table) {
    && (forall y :: y in t && t[y].parentId != 0 ==> t[y].parentId in t)
    && (forall y :: y in t ==> !Under(t, t[y].parentId, y))
    && (t != map[] ==> exists r :: IsRoot(t, r) && (forall s :: IsRoot(t, s) ==> s == r)
                                   && forall y :: y in t ==> Under(t, y, r))
  }

  lemma ForestTreeShaped(t: Table)
    requires Forest(t)
    ensures TreeShaped(t)
  {
    forall y | y in t ensures !Under(t, t[y].parentId, y) { NoCycle(t, y); }
    if t != map[] {
      var x :| x in t;
      OneRoot(t, x);
    }
  }

  /** Main result: after every sequence of creations, updates and deletions from the empty table, every parent
      other than zero is present, no department lies below itself, and a non-empty table has exactly one root,
      which every department lies below. */
  lemma EveryRunIsATree(ops: seq<Op>)
    ensures TreeShaped(Run(EMPTY, ops).rows)
  {
    hide Run, Forest, TreeShaped;
    EmptyValid();
    RunForest(EMPTY, ops);
    ForestTreeShaped(Run(EMPTY, ops).rows);
  }
}
