/** The permission table: guarded writes, and when its parent links stay free of cycles. */
module PermissionTable {
  import opened Wrappers

  datatype Kind = Catalog | Menu | Button | Api

  datatype Perm = Perm(id: int, code: string, kind: Kind, parentId: Option<int>, sortOrder: int, name: string,
                       enabled: bool, system: bool)

  type Table = map<int, Perm>

  /** The rows, and the id the next row gets. */
  datatype State = State(perms: Table, nextId: int)

  datatype CreateBody = CreateBody(code: string, kind: Kind, parentId: Option<int>, sortOrder: int, name: string,
                                   enabled: bool)
  datatype UpdateBody = UpdateBody(parentId: Option<int>, name: Option<string>, sortOrder: Option<int>)

  datatype Op =
    | Create(body: CreateBody)
    | Update(id: int, change: UpdateBody)
    | Delete(id: int, referenced: set<string>)  // the codes some role refers to at that moment

  // ---------------------------------------------------------------- parent links

  /** Every present parent has a smaller rank: a certificate that there are no cycles. */
  ghost predicate Ranked(t: Table, rank: map<int, int>, bound: nat) {
    forall id :: id in t ==>
                   && id in rank && 0 <= rank[id] < bound
                   && (t[id].parentId.Some? && t[id].parentId.value in t ==>
                         t[id].parentId.value in rank && rank[t[id].parentId.value] < rank[id])
  }

  ghost predicate Acyclic(t: Table) {
    exists rank: map<int, int>, bound: nat :: Ranked(t, rank, bound)
  }

  /** k parent links lead from x to a, through present rows. */
  ghost predicate Walk(t: Table, x: int, k: nat, a: int): (walks: bool)
    ensures walks ==> a in t
    decreases k
  {
    x in t && if k == 0 then x == a else t[x].parentId.Some? && Walk(t, t[x].parentId.value, k - 1, a)
  }

  /** x is a or lies below it. */
  ghost predicate Below(t: Table, x: int, a: int) {
    exists k: nat :: Walk(t, x, k, a)
  }

  ghost predicate Keyed(s: State) {
    forall id :: id in s.perms ==> s.perms[id].id == id && id < s.nextId
  }

  ghost predicate UniqueCodes(t: Table) {
    forall i, j :: i in t && j in t && t[i].code == t[j].code ==> i == j
  }

  ghost predicate ParentsPresent(t: Table) {
    forall id :: id in t && t[id].parentId.Some? ==> t[id].parentId.value in t
  }

  /** Catalogs sit at the root or under catalogs. */
  ghost predicate CatalogsHigh(t: Table) {
    forall id :: id in t && t[id].kind == Catalog && t[id].parentId.Some? && t[id].parentId.value in t ==>
                   t[t[id].parentId.value].kind == Catalog
  }

  /** What the database and the guards keep. */
  ghost predicate Consistent(s: State) {
    Keyed(s) && UniqueCodes(s.perms) && ParentsPresent(s.perms)
  }

  // ---------------------------------------------------------------- the three writes

  function CreateError(t: Table, body: CreateBody): Option<string> {
    if body.kind == Button || body.kind == Api then Some("kind not creatable")
    else if exists id :: id in t && t[id].code == body.code then Some("code exists")
    else if body.parentId.Some? && body.parentId.value !in t then Some("parent missing")
    else None
  }

  function Row(id: int, body: CreateBody): Perm {
    Perm(id, body.code, body.kind, body.parentId, body.sortOrder, body.name, body.enabled, false)
  }

  /** The update asks for another parent. */
  predicate Moves(current: Perm, change: UpdateBody) {
    change.parentId.Some? && change.parentId != current.parentId
  }

  function UpdateError(t: Table, id: int, change: UpdateBody): Option<string>
    requires id in t
  {
    if !Moves(t[id], change) then None
    else if t[id].kind != Menu then Some("only menus move")
    else if change.parentId.value == id then Some("parent is self")
    else if change.parentId.value !in t then Some("parent missing")
    else if t[change.parentId.value].kind != Catalog then Some("parent is no catalog")
    else None
  }

  function Changed(p: Perm, change: UpdateBody): Perm {
    p.(name := if change.name.Some? then change.name.value else p.name,
       parentId := if Moves(p, change) then change.parentId else p.parentId,
       sortOrder := if change.sortOrder.Some? then change.sortOrder.value else p.sortOrder)
  }

  function DeleteError(t: Table, id: int, referenced: set<string>): Option<string>
    requires id in t
  {
    if t[id].kind == Button || t[id].kind == Api then Some("kind not deletable")
    else if t[id].system then Some("system permission")
    else if exists c :: c in t && t[c].parentId == Some(id) then Some("has children")
    else if t[id].code in referenced then Some("referenced by a role")
    else None
  }

  /** The table after a write; a refused write or one of a missing row changes nothing. */
  function Apply(s: State, op: Op): State {
    match op
    case Create(body) =>
      if CreateError(s.perms, body).Some? then s
      else State(s.perms[s.nextId := Row(s.nextId, body)], s.nextId + 1)
    case Update(id, change) =>
      if id !in s.perms || UpdateError(s.perms, id, change).Some? then s
      else s.(perms := s.perms[id := Changed(s.perms[id], change)])
    case Delete(id, referenced) =>
      if id !in s.perms || DeleteError(s.perms, id, referenced).Some? then s
      else s.(perms := s.perms - {id})
  }

  // ---------------------------------------------------------------- what the writes store

  /** Every row but one is as it was. */
  ghost predicate OthersStay(before: Table, after: Table, id: int) {
    forall x :: x != id ==> (x in after <==> x in before) && (x in before ==> after[x] == before[x])
  }

  /** A create is accepted exactly for a catalog or a menu with an unused code and no parent or a present one; the row
      holds the submitted values under the next id and is no system row. */
  lemma CreateStores(s: State, body: CreateBody)
    ensures var error, after := CreateError(s.perms, body), Apply(s, Create(body));
            && (error.None? <==> && (body.kind == Catalog || body.kind == Menu)
                                 && (forall id :: id in s.perms ==> s.perms[id].code != body.code)
                                 && (body.parentId.Some? ==> body.parentId.value in s.perms))
            && (error.Some? ==> after == s)
            && (error.None? ==>
                  && after.nextId == s.nextId + 1 && OthersStay(s.perms, after.perms, s.nextId)
                  && s.nextId in after.perms
                  && var p := after.perms[s.nextId];
                     && p.id == s.nextId && p.code == body.code && p.kind == body.kind && p.parentId == body.parentId
                     && p.sortOrder == body.sortOrder && p.name == body.name && p.enabled == body.enabled && !p.system)
  {
  }

  /** A move is refused exactly unless a menu goes to another row that is a catalog; an accepted update changes the
      submitted fields of that row and nothing else. */
  lemma UpdateStores(s: State, id: int, change: UpdateBody)
    requires id in s.perms
    ensures var error, after, current := UpdateError(s.perms, id, change), Apply(s, Update(id, change)), s.perms[id];
            && (error.Some? <==> && change.parentId.Some? && change.parentId != current.parentId
                                 && !(&& current.kind == Menu && change.parentId.value != id
                                      && change.parentId.value in s.perms
                                      && s.perms[change.parentId.value].kind == Catalog))
            && (error.Some? ==> after == s)
            && (error.None? ==>
                  && after.nextId == s.nextId && OthersStay(s.perms, after.perms, id) && id in after.perms
                  && var p := after.perms[id];
                     && p.parentId == (if change.parentId.Some? then change.parentId else current.parentId)
                     && p.name == (if change.name.Some? then change.name.value else current.name)
                     && p.sortOrder == (if change.sortOrder.Some? then change.sortOrder.value else current.sortOrder)
                     && p.id == current.id && p.code == current.code && p.kind == current.kind
                     && p.enabled == current.enabled && p.system == current.system)
  {
  }

  /** A delete is accepted exactly for a catalog or menu that is no system row, has no children and is referred to by no
      role; then exactly its row is gone. */
  lemma DeleteStores(s: State, id: int, referenced: set<string>)
    requires id in s.perms
    ensures var error, after := DeleteError(s.perms, id, referenced), Apply(s, Delete(id, referenced));
            var current := s.perms[id];
            && (error.None? <==> && (current.kind == Catalog || current.kind == Menu) && !current.system
                                 && current.code !in referenced
                                 && forall c :: c in s.perms ==> s.perms[c].parentId != Some(id))
            && (error.Some? ==> after == s)
            && (error.None? ==> after.nextId == s.nextId && id !in after.perms && OthersStay(s.perms, after.perms, id))
  {
  }

  /** A write of an absent row changes nothing. */
  lemma AbsentStays(s: State, id: int, change: UpdateBody, referenced: set<string>)
    requires id !in s.perms
    ensures Apply(s, Update(id, change)) == s && Apply(s, Delete(id, referenced)) == s
  {
  }

  class PermissionRepo {
    var perms: Table
    var nextId: int

    ghost function Rows(): State
      reads this
    {
      State(perms, nextId)
    }

    constructor (perms: Table, nextId: int)
      ensures Rows() == State(perms, nextId)
    {
      this.perms, this.nextId := perms, nextId;
    }

    method CreatePermission(body: CreateBody) returns (r: Result<Perm>)
      modifies this
      ensures Rows() == Apply(old(Rows()), Create(body))
      ensures r == match CreateError(old(perms), body)
                   case Some(e) => Error(e)
                   case None => Ok(Row(old(nextId), body))
    {
      if body.kind == Button || body.kind == Api { return Error("kind not creatable"); }
      if exists id :: id in perms && perms[id].code == body.code { return Error("code exists"); }
      if body.parentId.Some? && body.parentId.value !in perms { return Error("parent missing"); }
      perms := perms[nextId := Row(nextId, body)];
      nextId := nextId + 1;
      return Ok(perms[nextId - 1]);
    }

    method UpdatePermission(id: int, change: UpdateBody) returns (r: Result<Option<Perm>>)
      modifies this`perms
      ensures Rows() == Apply(old(Rows()), Update(id, change))
      ensures r == if id !in old(perms) then Ok(None)
                   else match UpdateError(old(perms), id, change)
                        case Some(e) => Error(e)
                        case None => Ok(Some(perms[id]))
    {
      if id !in perms { return Ok(None); }
      var current := perms[id];
      if change.parentId.Some? && change.parentId != current.parentId {
        if current.kind != Menu { return Error("only menus move"); }
        if change.parentId.value == id { return Error("parent is self"); }
        if change.parentId.value !in perms { return Error("parent missing"); }
        if perms[change.parentId.value].kind != Catalog { return Error("parent is no catalog"); }
      }
      var row := current;
      if change.name.Some? { row := row.(name := change.name.value); }
      if change.parentId.Some? && change.parentId != current.parentId { row := row.(parentId := change.parentId); }
      if change.sortOrder.Some? { row := row.(sortOrder := change.sortOrder.value); }
      perms := perms[id := row];
      return Ok(Some(row));
    }

    method DeletePermission(id: int, referenced: set<string>) returns (r: Result<bool>)
      modifies this`perms
      ensures Rows() == Apply(old(Rows()), Delete(id, referenced))
      ensures r == if id !in old(perms) then Ok(false)
                   else match DeleteError(old(perms), id, referenced)
                        case Some(e) => Error(e)
                        case None => Ok(true)
    {
      if id !in perms { return Ok(false); }
      var current := perms[id];
      if current.kind == Button || current.kind == Api { return Error("kind not deletable"); }
      if current.system { return Error("system permission"); }
      if exists c :: c in perms && perms[c].parentId == Some(id) { return Error("has children"); }
      if current.code in referenced { return Error("referenced by a role"); }
      perms := perms - {id};
      return Ok(true);
    }
  }

  // ---------------------------------------------------------------- every run

  lemma ConsistentKept(s: State, op: Op)
    requires Consistent(s)
    ensures Consistent(Apply(s, op))
  {
  }

  /** A catalog is created at the root or under a catalog. */
  predicate Careful(t: Table, op: Op) {
    op.Create? && op.body.kind == Catalog && op.body.parentId.Some? ==>
      op.body.parentId.value in t ==> t[op.body.parentId.value].kind == Catalog
  }

  ghost predicate Good(s: State) {
    Consistent(s) && CatalogsHigh(s.perms) && Acyclic(s.perms)
  }

  lemma CreateAcyclic(s: State, body: CreateBody)
    requires Consistent(s) && Acyclic(s.perms)
    ensures Acyclic(Apply(s, Create(body)).perms)
  {
    var t := Apply(s, Create(body)).perms;
    if t != s.perms {
      var rank: map<int, int>, bound: nat :| Ranked(s.perms, rank, bound);
      var rank' := rank[s.nextId := bound];
      assert s.nextId !in s.perms;
      forall id | id in t
        ensures id in rank' && 0 <= rank'[id] < bound + 1
        ensures t[id].parentId.Some? ==> t[id].parentId.value in rank' && rank'[t[id].parentId.value] < rank'[id]
      {
        if t[id].parentId.Some? {
          var p := t[id].parentId.value;
          assert p in s.perms && p != s.nextId;
          if id in s.perms { assert t[id] == s.perms[id] && rank[p] < rank[id]; }
        }
      }
      assert Ranked(t, rank', bound + 1);
    }
  }

  lemma DeleteAcyclic(s: State, id: int, referenced: set<string>)
    requires Acyclic(s.perms)
    ensures Acyclic(Apply(s, Delete(id, referenced)).perms)
  {
    var rank: map<int, int>, bound: nat :| Ranked(s.perms, rank, bound);
    assert Ranked(Apply(s, Delete(id, referenced)).perms, rank, bound);
  }

  /** Where catalogs sit high, all other rows can be ranked above them, whatever catalog a menu moves to. */
  lemma OthersAboveCatalogs(t: Table, t': Table, rank: map<int, int>, bound: nat)
    requires Ranked(t, rank, bound) && t'.Keys == t.Keys && CatalogsHigh(t)
    requires forall x :: x in t ==> && t'[x].kind == t[x].kind
                                    && (t'[x].parentId == t[x].parentId
                                        || (t[x].kind == Menu && t'[x].parentId.Some? && t'[x].parentId.value in t
                                            && t[t'[x].parentId.value].kind == Catalog))
    ensures Acyclic(t')
  {
    var rank' := map x | x in t :: if t[x].kind == Catalog then rank[x] else bound + rank[x];
    forall x | x in t'
      ensures x in rank' && 0 <= rank'[x] < 2 * bound
      ensures t'[x].parentId.Some? && t'[x].parentId.value in t' ==>
                t'[x].parentId.value in rank' && rank'[t'[x].parentId.value] < rank'[x]
    {
      assert x in t;
      if t'[x].parentId.Some? && t'[x].parentId.value in t' {
        var p := t'[x].parentId.value;
        assert p in t && p in rank;
        if t'[x].parentId == t[x].parentId { assert rank[p] < rank[x]; }
      }
    }
    assert Ranked(t', rank', 2 * bound);
  }

  lemma UpdateAcyclic(s: State, id: int, change: UpdateBody)
    requires CatalogsHigh(s.perms) && Acyclic(s.perms)
    ensures Acyclic(Apply(s, Update(id, change)).perms)
  {
    var t, t' := s.perms, Apply(s, Update(id, change)).perms;
    assert t'.Keys == t.Keys;
    var rank: map<int, int>, bound: nat :| Ranked(t, rank, bound);
    hide Ranked, CatalogsHigh, Acyclic;
    OthersAboveCatalogs(t, t', rank, bound);
  }

  lemma HighKept(s: State, op: Op)
    requires Consistent(s) && CatalogsHigh(s.perms) && Careful(s.perms, op)
    ensures CatalogsHigh(Apply(s, op).perms)
  {
  }

  /** A run of writes in which every catalog is created at the root or under a catalog. */
  ghost predicate CarefulRun(s: State, ops: seq<Op>, last: State)
    decreases |ops|
  {
    if ops == [] then last == s
    else Careful(s.perms, ops[0]) && CarefulRun(Apply(s, ops[0]), ops[1..], last)
  }

  /** Main result: such a run keeps the parent links free of cycles, whatever is moved, created or deleted. */
  lemma {:induction false} RunStaysAcyclic(s: State, ops: seq<Op>, last: State)
    requires Good(s) && CarefulRun(s, ops, last)
    ensures Good(last)
    decreases |ops|
  {
    if ops != [] {
      ConsistentKept(s, ops[0]);
      HighKept(s, ops[0]);
      match ops[0] {
        case Create(body) => CreateAcyclic(s, body);
        case Update(id, change) => UpdateAcyclic(s, id, change);
        case Delete(id, referenced) => DeleteAcyclic(s, id, referenced);
      }
      RunStaysAcyclic(Apply(s, ops[0]), ops[1..], last);
    }
  }

  // ---------------------------------------------------------------- without that care

  lemma WalkDescends(t: Table, rank: map<int, int>, bound: nat, x: int, k: nat, a: int)
    requires Ranked(t, rank, bound) && Walk(t, x, k, a)
    ensures a in t && rank[a] <= rank[x] && (k > 0 ==> rank[a] < rank[x])
    decreases k
  {
    if k > 0 { WalkDescends(t, rank, bound, t[x].parentId.value, k - 1, a); }
  }

  /** A walk up to m does not use m's own parent, so it survives when m moves. */
  lemma WalkSurvives(t: Table, t': Table, x: int, k: nat, m: int)
    requires Walk(t, x, k, m) && forall y :: y in t ==> y in t' && (y != m ==> t'[y] == t[y])
    ensures Below(t', x, m)
    decreases k
  {
    if x == m {
      assert Walk(t', x, 0, m);
    } else {
      WalkSurvives(t, t', t[x].parentId.value, k - 1, m);
      var l: nat :| Walk(t', t[x].parentId.value, l, m);
      assert Walk(t', x, l + 1, m);
    }
  }

  ghost function ShiftedRank(t: Table, rank: map<int, int>, bound: nat, m: int): map<int, int>
    requires Ranked(t, rank, bound)
  {
    map x | x in t :: if Below(t, x, m) then bound + rank[x] else rank[x]
  }

  lemma BelowThroughParent(t: Table, x: int, m: int)
    requires x in t && x != m && t[x].parentId.Some?
    ensures Below(t, x, m) <==> Below(t, t[x].parentId.value, m)
  {
    if Below(t, x, m) {
      var k: nat :| Walk(t, x, k, m);
      assert Walk(t, t[x].parentId.value, k - 1, m);
    }
    if Below(t, t[x].parentId.value, m) {
      var k: nat :| Walk(t, t[x].parentId.value, k, m);
      assert Walk(t, x, k + 1, m);
    }
  }

  /** Exactly when a move keeps the links free of cycles: when the target does not lie at or below what is moved.
      The repository does not check this. */
  lemma MoveAcyclic(t: Table, m: int, q: int, moved: Perm)
    requires Acyclic(t) && m in t && q in t && moved.parentId == Some(q)
    ensures Acyclic(t[m := moved]) <==> !Below(t, q, m)
  {
    var t' := t[m := moved];
    if Below(t, q, m) {
      var k: nat :| Walk(t, q, k, m);
      WalkSurvives(t, t', q, k, m);
      var l: nat :| Walk(t', q, l, m);
      if Acyclic(t') {
        var rank: map<int, int>, bound: nat :| Ranked(t', rank, bound);
        WalkDescends(t', rank, bound, q, l, m);
      }
    } else {
      var rank: map<int, int>, bound: nat :| Ranked(t, rank, bound);
      var rank' := ShiftedRank(t, rank, bound, m);
      forall x | x in t'
        ensures 0 <= rank'[x] < 2 * bound
        ensures t'[x].parentId.Some? && t'[x].parentId.value in t' ==> rank'[t'[x].parentId.value] < rank'[x]
      {
        assert Walk(t, m, 0, m);
        if t'[x].parentId.Some? && t'[x].parentId.value in t' && x != m {
          BelowThroughParent(t, x, m);
        }
      }
      assert Ranked(t', rank', 2 * bound);
    }
  }

  /** n parent links lead on from x. */
  ghost predicate LeadsOn(t: Table, x: int, n: nat) {
    exists a :: Walk(t, x, n, a)
  }

  lemma WalkPrefix(t: Table, x: int, k: nat, a: int, n: nat)
    requires Walk(t, x, k, a) && n <= k
    ensures LeadsOn(t, x, n)
    decreases n
  {
    if n == 0 {
      assert Walk(t, x, 0, x);
    } else {
      WalkPrefix(t, t[x].parentId.value, k - 1, a, n - 1);
      var b :| Walk(t, t[x].parentId.value, n - 1, b);
      assert Walk(t, x, n, b);
    }
  }

  lemma WalkJoin(t: Table, x: int, k: nat, a: int, n: nat, b: int)
    requires Walk(t, x, k, a) && Walk(t, a, n, b)
    ensures Walk(t, x, k + n, b)
    decreases k
  {
    if k > 0 { WalkJoin(t, t[x].parentId.value, k - 1, a, n, b); }
  }

  /** From a row that lies on a cycle the parent links lead on for ever. */
  lemma {:induction false} WalksForever(t: Table, x: int, k: nat, n: nat)
    requires k > 0 && Walk(t, x, k, x)
    ensures LeadsOn(t, x, n)
  {
    if n < k {
      WalkPrefix(t, x, k, x, n);
    } else {
      WalksForever(t, x, k, n - k);
      var a :| Walk(t, x, n - k, a);
      WalkJoin(t, x, k, x, n - k, a);
    }
  }

  /** After a move under itself the walk upwards from the moved row has no end: it takes any number of steps. */
  lemma MoveForever(t: Table, m: int, q: int, moved: Perm, n: nat)
    requires m in t && q in t && moved.parentId == Some(q) && Below(t, q, m)
    ensures LeadsOn(t[m := moved], m, n)
  {
    var t' := t[m := moved];
    var k: nat :| Walk(t, q, k, m);
    WalkSurvives(t, t', q, k, m);
    var l: nat :| Walk(t', q, l, m);
    assert Walk(t', m, l + 1, m);
    WalksForever(t', m, l + 1, n);
  }

  /** Three accepted writes on an empty table make a cycle: a catalog under a menu, then the menu under the catalog. */
  lemma CycleMade(a: string, b: string)
    requires a != b
    ensures var s := State(map[], 1);
            var one := Apply(s, Create(CreateBody(a, Menu, None, 0, a, true)));
            var two := Apply(one, Create(CreateBody(b, Catalog, Some(1), 0, b, true)));
            var three := Apply(two, Update(1, UpdateBody(Some(2), None, None)));
            && two.perms.Keys == {1, 2} && three.perms[1].parentId == Some(2)
            && Good(one) && Acyclic(two.perms) && !Acyclic(three.perms)
  {
    var s := State(map[], 1);
    assert Ranked(s.perms, map[], 0);
    var one := Apply(s, Create(CreateBody(a, Menu, None, 0, a, true)));
    CreateAcyclic(s, CreateBody(a, Menu, None, 0, a, true));
    assert one.perms == map[1 := Perm(1, a, Menu, None, 0, a, true, false)];
    var two := Apply(one, Create(CreateBody(b, Catalog, Some(1), 0, b, true)));
    CreateAcyclic(one, CreateBody(b, Catalog, Some(1), 0, b, true));
    assert Walk(two.perms, 2, 1, 1) by { assert Walk(two.perms, 1, 0, 1); }
    MoveAcyclic(two.perms, 1, 2, Changed(two.perms[1], UpdateBody(Some(2), None, None)));
  }
}
