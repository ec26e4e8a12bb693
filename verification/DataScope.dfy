/** Data permission: which departments and users a caller may see, and the SQL predicate that says the same. */
module DataScope {
  import opened Wrappers
  import opened DeptForest
  import opened DeptRepo

  datatype Item = Item(scopeType: string, scopeId: int)
  datatype Scope = Scope(dataScope: int, custom: seq<Item>)

  /** The request context: values used where the caller passes none. */
  datatype Context = Context(userId: Option<int>, tenantId: Option<int>, deptId: Option<int>)

  /** The two visible sets; a missing set means no restriction. */
  datatype Visible = Visible(deptIds: Option<set<int>>, userIds: Option<set<int>>)

  // ---------------------------------------------------------------- what a scope grants

  ghost predicate InSubtree(t: Table, id: int, x: int) {
    x == id || (x in t && Under(t, x, id))
  }

  ghost predicate ItemsGrantDept(t: Table, items: seq<Item>, x: int) {
    exists i :: 0 <= i < |items| && items[i].scopeType == "dept" && InSubtree(t, items[i].scopeId, x)
  }

  ghost predicate GrantsDept(t: Table, did: Option<int>, s: Scope, x: int) {
    || (s.dataScope == 2 && did == Some(x))
    || (s.dataScope == 3 && did.Some? && InSubtree(t, did.value, x))
    || (s.dataScope == 4 && ItemsGrantDept(t, s.custom, x))
  }

  predicate ItemsGrantUser(items: seq<Item>, x: int) {
    exists i :: 0 <= i < |items| && items[i].scopeType != "dept" && items[i].scopeId == x
  }

  predicate GrantsUser(uid: int, s: Scope, x: int) {
    (s.dataScope == 1 && x == uid) || (s.dataScope == 4 && ItemsGrantUser(s.custom, x))
  }

  ghost predicate DeptGranted(t: Table, did: Option<int>, scopes: seq<Scope>, x: int) {
    exists s :: s in scopes && GrantsDept(t, did, s, x)
  }

  ghost predicate UserGranted(uid: int, scopes: seq<Scope>, x: int) {
    exists s :: s in scopes && GrantsUser(uid, s, x)
  }

  /** The scopes grant something at all. */
  ghost predicate GrantsSomething(t: Table, uid: int, did: Option<int>, scopes: seq<Scope>) {
    (exists x :: DeptGranted(t, did, scopes, x)) || (exists x :: UserGranted(uid, scopes, x))
  }

  /** The departments a caller is meant to see. */
  ghost predicate SeesDept(t: Table, did: Option<int>, scopes: seq<Scope>, x: int) {
    if scopes == [] then did == Some(x) && x != 0 else DeptGranted(t, did, scopes, x)
  }

  /** The users whose records a caller is meant to see; oneself when nothing at all is granted. */
  ghost predicate SeesUser(t: Table, uid: int, did: Option<int>, scopes: seq<Scope>, x: int) {
    if scopes == [] then x == uid
    else UserGranted(uid, scopes, x) || (x == uid && !GrantsSomething(t, uid, did, scopes))
  }

  // ---------------------------------------------------------------- resolving

  lemma NoItems(t: Table)
    ensures forall x :: !ItemsGrantDept(t, [], x) && !ItemsGrantUser([], x)
  {
  }

  lemma OneMoreItem(t: Table, items: seq<Item>, i: nat)
    requires i < |items|
    ensures forall x :: ItemsGrantDept(t, items[..i + 1], x) <==>
                        ItemsGrantDept(t, items[..i], x)
                          || (items[i].scopeType == "dept" && InSubtree(t, items[i].scopeId, x))
    ensures forall x :: ItemsGrantUser(items[..i + 1], x) <==>
                        ItemsGrantUser(items[..i], x) || (items[i].scopeType != "dept" && items[i].scopeId == x)
  {
    var less, more := items[..i], items[..i + 1];
    assert more == less + [items[i]];
    hide InSubtree;
    forall x
      ensures ItemsGrantDept(t, more, x) <==>
              ItemsGrantDept(t, less, x) || (items[i].scopeType == "dept" && InSubtree(t, items[i].scopeId, x))
      ensures ItemsGrantUser(more, x) <==>
              ItemsGrantUser(less, x) || (items[i].scopeType != "dept" && items[i].scopeId == x)
    {
      assert more[i] == items[i];
      if j :| 0 <= j < i && items[j].scopeType == "dept" && InSubtree(t, items[j].scopeId, x) {
        assert more[j] == less[j] == items[j];
      }
      if j :| 0 <= j < i && items[j].scopeType != "dept" && items[j].scopeId == x {
        assert more[j] == less[j] == items[j];
      }
    }
  }

  /** The custom items of one scope, added to the two sets. */
  method AddCustom(t: Table, flat: seq<Dept>, items: seq<Item>, depts: set<int>, users: set<int>)
    returns (deptIds: set<int>, userIds: set<int>)
    requires Forest(t) && Covers(flat, t)
    ensures forall x :: x in deptIds <==> x in depts || ItemsGrantDept(t, items, x)
    ensures forall x :: x in userIds <==> x in users || ItemsGrantUser(items, x)
  {
    hide Forest, Covers, Under, ItemsGrantDept, ItemsGrantUser;
    deptIds, userIds := depts, users;
    NoItems(t);
    for i := 0 to |items|
      invariant forall x :: x in deptIds <==> x in depts || ItemsGrantDept(t, items[..i], x)
      invariant forall x :: x in userIds <==> x in users || ItemsGrantUser(items[..i], x)
    {
      var item := items[i];
      OneMoreItem(t, items, i);
      if item.scopeType == "dept" {
        var below := Descendants(t, flat, item.scopeId);
        deptIds := deptIds + {item.scopeId} + set x | x in below;
      } else {
        userIds := userIds + {item.scopeId};
      }
    }
    assert items[..|items|] == items;
  }

  lemma NoScopes(t: Table, uid: int, did: Option<int>)
    ensures forall x :: !DeptGranted(t, did, [], x) && !UserGranted(uid, [], x)
  {
  }

  lemma OneMoreScope(t: Table, uid: int, did: Option<int>, scopes: seq<Scope>, i: nat)
    requires i < |scopes|
    ensures forall x :: DeptGranted(t, did, scopes[..i + 1], x) <==>
                        DeptGranted(t, did, scopes[..i], x) || GrantsDept(t, did, scopes[i], x)
    ensures forall x :: UserGranted(uid, scopes[..i + 1], x) <==>
                        UserGranted(uid, scopes[..i], x) || GrantsUser(uid, scopes[i], x)
  {
  }

  /** The merging loop over all scopes. */
  method Merge(t: Table, flat: seq<Dept>, uid: int, did: Option<int>, scopes: seq<Scope>)
    returns (deptIds: set<int>, userIds: set<int>)
    requires Forest(t) && Covers(flat, t)
    ensures forall x :: x in deptIds <==> DeptGranted(t, did, scopes, x)
    ensures forall x :: x in userIds <==> UserGranted(uid, scopes, x)
  {
    hide Forest, Covers, Under, ItemsGrantDept, ItemsGrantUser, DeptGranted, UserGranted;
    deptIds, userIds := {}, {};
    NoScopes(t, uid, did);
    for i := 0 to |scopes|
      invariant forall x :: x in deptIds <==> DeptGranted(t, did, scopes[..i], x)
      invariant forall x :: x in userIds <==> UserGranted(uid, scopes[..i], x)
    {
      var s := scopes[i];
      OneMoreScope(t, uid, did, scopes, i);
      ghost var depts, users := deptIds, userIds;
      if s.dataScope == 1 {
        userIds := userIds + {uid};
      } else if s.dataScope == 2 {
        if did.Some? { deptIds := deptIds + {did.value}; }
      } else if s.dataScope == 3 {
        if did.Some? {
          var below := Descendants(t, flat, did.value);
          deptIds := deptIds + set x | x in below;
        }
      } else if s.dataScope == 4 {
        deptIds, userIds := AddCustom(t, flat, s.custom, deptIds, userIds);
      }
      assert forall x :: x in deptIds <==> x in depts || GrantsDept(t, did, s, x);
      assert forall x :: x in userIds <==> x in users || GrantsUser(uid, s, x);
    }
    assert scopes[..|scopes|] == scopes;
  }

  function OrElse(a: Option<int>, b: Option<int>): Option<int> {
    if a.Some? then a else b
  }

  /** A passed tenant id of zero counts as none. */
  function TenantOf(tenantId: Option<int>, context: Context): Option<int> {
    if tenantId.Some? && tenantId.value != 0 then tenantId else context.tenantId
  }

  lemma EmptyByElements(a: set<int>)
    ensures a == {} <==> forall x :: x !in a
  {
    if forall x :: x !in a { assert a == {}; }
  }

  /** What resolving must return, said without the loop. */
  ghost predicate Resolved(t: Table, uid: Option<int>, tid: Option<int>, did: Option<int>, scopes: seq<Scope>,
                           v: Visible)
  {
    if uid.None? || tid.None? then v == Visible(None, None)
    else
      && v.deptIds.Some? && v.userIds.Some?
      && (forall x :: x in v.deptIds.value <==> SeesDept(t, did, scopes, x))
      && (forall x :: x in v.userIds.value <==> SeesUser(t, uid.value, did, scopes, x))
  }

  /** The scopes of a caller: those of the roles, then that of the tenant binding. */
  function ScopesToMerge(roleScopes: seq<Scope>, binding: Option<Scope>): seq<Scope> {
    if binding.Some? then roleScopes + [binding.value] else roleScopes
  }

  /** The departments are those some role's scope or the binding's scope grants, and the users too, oneself aside. */
  ghost predicate GrantedBy(t: Table, uid: int, did: Option<int>, roleScopes: seq<Scope>, binding: Option<Scope>,
                            v: Visible)
    requires v.deptIds.Some? && v.userIds.Some?
  {
    && (forall x :: x in v.deptIds.value <==> || (exists s :: s in roleScopes && GrantsDept(t, did, s, x))
                                              || (binding.Some? && GrantsDept(t, did, binding.value, x)))
    && (forall x :: x != uid ==> (x in v.userIds.value <==> || (exists s :: s in roleScopes && GrantsUser(uid, s, x))
                                                            || (binding.Some? && GrantsUser(uid, binding.value, x))))
  }

  lemma GrantedEach(t: Table, uid: int, tid: int, did: Option<int>, roleScopes: seq<Scope>, binding: Option<Scope>,
                    v: Visible)
    requires roleScopes != [] || binding.Some?
    requires Resolved(t, Some(uid), Some(tid), did, ScopesToMerge(roleScopes, binding), v)
    ensures GrantedBy(t, uid, did, roleScopes, binding, v)
  {
    hide GrantsDept, GrantsUser, GrantsSomething;
    var scopes := ScopesToMerge(roleScopes, binding);
    assert forall s :: s in scopes <==> s in roleScopes || binding == Some(s);
  }

  method ResolveVisible(t: Table, flat: seq<Dept>, tenantId: Option<int>, context: Context,
                        userId: Option<int>, deptId: Option<int>, roleScopes: seq<Scope>, binding: Option<Scope>)
    returns (v: Visible)
    requires Forest(t) && Covers(flat, t)
    ensures Resolved(t, OrElse(userId, context.userId), TenantOf(tenantId, context), OrElse(deptId, context.deptId),
                     ScopesToMerge(roleScopes, binding), v)
    ensures userId.None? && context.userId.None? ==> v == Visible(None, None)
    ensures (tenantId.None? || tenantId.value == 0) && context.tenantId.None? ==> v == Visible(None, None)
    ensures && (userId.Some? || context.userId.Some?)
            && ((tenantId.Some? && tenantId.value != 0) || context.tenantId.Some?) ==>
              && v.deptIds.Some? && v.userIds.Some?
              && var uid := if userId.Some? then userId.value else context.userId.value;
                 var did := if deptId.Some? then deptId else context.deptId;
                 if roleScopes == [] && binding.None? then
                   && v.userIds.value == {uid}
                   && v.deptIds.value == if did.Some? && did.value != 0 then {did.value} else {}
                 else
                   GrantedBy(t, uid, did, roleScopes, binding, v)
  {
    hide Forest, Covers, DeptGranted, UserGranted;
    var uid := if userId.Some? then userId else context.userId;
    if uid.None? { return Visible(None, None); }
    var tid := if tenantId.Some? && tenantId.value != 0 then tenantId else context.tenantId;
    if tid.None? { return Visible(None, None); }
    var did := if deptId.Some? then deptId else context.deptId;
    var scopes := roleScopes;
    if binding.Some? { scopes := scopes + [binding.value]; }
    if scopes == [] {
      return Visible(Some(if did.Some? && did.value != 0 then {did.value} else {}), Some({uid.value}));
    }
    var deptIds, userIds := Merge(t, flat, uid.value, did, scopes);
    EmptyByElements(deptIds);
    EmptyByElements(userIds);
    if deptIds == {} && userIds == {} { userIds := {uid.value}; }
    v := Visible(Some(deptIds), Some(userIds));
    GrantedEach(t, uid.value, tid.value, did, roleScopes, binding, v);
  }

  // ---------------------------------------------------------------- what the sets are like

  lemma SubsetByElements(a: set<int>, b: set<int>)
    ensures a <= b <==> forall x :: x in a ==> x in b
  {
    if forall x :: x in a ==> x in b { assert a * b == a; }
  }

  lemma SameByElements(a: set<int>, b: set<int>)
    ensures a == b <==> forall x :: x in a <==> x in b
  {
    if forall x :: x in a <==> x in b { assert a * b == a; }
  }

  /** Role order and repetition do not matter: the same scopes give the same sets. */
  lemma OrderIrrelevant(t: Table, uid: Option<int>, tid: Option<int>, did: Option<int>,
                        a: seq<Scope>, b: seq<Scope>, va: Visible, vb: Visible)
    requires forall s :: s in a <==> s in b
    requires Resolved(t, uid, tid, did, a, va) && Resolved(t, uid, tid, did, b, vb)
    ensures va == vb
  {
    if uid.Some? && tid.Some? {
      assert a == [] <==> b == [] by {
        if a != [] { assert a[0] in b; }
        if b != [] { assert b[0] in a; }
      }
      forall x
        ensures DeptGranted(t, did, a, x) == DeptGranted(t, did, b, x)
        ensures UserGranted(uid.value, a, x) == UserGranted(uid.value, b, x)
      {
        hide GrantsDept, GrantsUser;
      }
      hide DeptGranted, UserGranted;
      assert GrantsSomething(t, uid.value, did, a) == GrantsSomething(t, uid.value, did, b);
      SameByElements(va.deptIds.value, vb.deptIds.value);
      SameByElements(va.userIds.value, vb.userIds.value);
    }
  }

  /** A restricted caller always sees something. */
  lemma NeverBothEmpty(t: Table, uid: int, tid: int, did: Option<int>, scopes: seq<Scope>, v: Visible)
    requires Resolved(t, Some(uid), Some(tid), did, scopes, v)
    ensures v.deptIds.value != {} || v.userIds.value != {}
  {
    hide DeptGranted, UserGranted;
    if scopes == [] || !GrantsSomething(t, uid, did, scopes) {
      assert uid in v.userIds.value;
    } else if x :| DeptGranted(t, did, scopes, x) {
      assert x in v.deptIds.value;
    } else {
      var x :| UserGranted(uid, scopes, x);
      assert x in v.userIds.value;
    }
  }

  lemma SeesMore(t: Table, uid: int, did: Option<int>, scopes: seq<Scope>, s: Scope)
    ensures GrantsSomething(t, uid, did, scopes + [s]) <==>
            GrantsSomething(t, uid, did, scopes) || GrantsSomething(t, uid, did, [s])
  {
    forall x
      ensures DeptGranted(t, did, scopes + [s], x) <==> DeptGranted(t, did, scopes, x) || DeptGranted(t, did, [s], x)
      ensures UserGranted(uid, scopes + [s], x) <==> UserGranted(uid, scopes, x) || UserGranted(uid, [s], x)
    {
      hide GrantsDept, GrantsUser;
      assert forall r :: r in scopes + [s] <==> r in scopes || r in [s];
    }
    hide DeptGranted, UserGranted;
  }

  /** One more role keeps every department a caller with roles sees, but it can take the caller's own records away:
      the users seen only grow exactly when the caller was not living on the fallback, or still is,
      or the new role grants the caller's own records. */
  lemma OneMoreRole(t: Table, uid: int, tid: int, did: Option<int>, scopes: seq<Scope>, s: Scope, v: Visible,
                    w: Visible)
    requires scopes != []
    requires Resolved(t, Some(uid), Some(tid), did, scopes, v)
    requires Resolved(t, Some(uid), Some(tid), did, scopes + [s], w)
    ensures v.deptIds.value <= w.deptIds.value
    ensures v.userIds.value <= w.userIds.value <==>
            || GrantsSomething(t, uid, did, scopes)
            || !GrantsSomething(t, uid, did, [s])
            || GrantsUser(uid, s, uid)
  {
    forall x
      ensures DeptGranted(t, did, scopes + [s], x) <==> DeptGranted(t, did, scopes, x) || GrantsDept(t, did, s, x)
      ensures UserGranted(uid, scopes + [s], x) <==> UserGranted(uid, scopes, x) || GrantsUser(uid, s, x)
      ensures DeptGranted(t, did, [s], x) <==> GrantsDept(t, did, s, x)
      ensures UserGranted(uid, [s], x) <==> GrantsUser(uid, s, x)
    {
      hide GrantsDept, GrantsUser;
      assert forall r :: r in scopes + [s] <==> r in scopes || r == s;
    }
    hide DeptGranted, UserGranted, GrantsDept, GrantsUser;
    SeesMore(t, uid, did, scopes, s);
    SubsetByElements(v.deptIds.value, w.deptIds.value);
    SubsetByElements(v.userIds.value, w.userIds.value);
    assert uid in v.userIds.value <==> SeesUser(t, uid, did, scopes, uid);
    assert uid in w.userIds.value <==> SeesUser(t, uid, did, scopes + [s], uid);
  }

  /** The first role of a caller without any: the own department stays seen exactly when there is none or the role
      grants it, and the own records exactly when the role grants them or nothing at all. */
  lemma FirstRole(t: Table, uid: int, tid: int, did: Option<int>, s: Scope, v: Visible, w: Visible)
    requires Resolved(t, Some(uid), Some(tid), did, [], v) && Resolved(t, Some(uid), Some(tid), did, [s], w)
    ensures v.deptIds.value <= w.deptIds.value <==> did.None? || did.value == 0 || GrantsDept(t, did, s, did.value)
    ensures v.userIds.value <= w.userIds.value <==> GrantsUser(uid, s, uid) || !GrantsSomething(t, uid, did, [s])
  {
    hide GrantsDept, GrantsUser, GrantsSomething;
    assert s in [s];
    assert forall x :: DeptGranted(t, did, [s], x) <==> GrantsDept(t, did, s, x);
    assert forall x :: UserGranted(uid, [s], x) <==> GrantsUser(uid, s, x);
    SubsetByElements(v.deptIds.value, w.deptIds.value);
    SubsetByElements(v.userIds.value, w.userIds.value);
    assert forall x :: x in v.deptIds.value <==> did == Some(x) && x != 0;
    assert did.Some? ==> (did.value in w.deptIds.value <==> GrantsDept(t, did, s, did.value));
    assert forall x :: x in v.userIds.value <==> x == uid;
    assert uid in w.userIds.value <==> SeesUser(t, uid, did, [s], uid);
    assert UserGranted(uid, [s], uid) <==> GrantsUser(uid, s, uid);
  }

  /** A caller without a department whose one role is limited to the own department sees the own records; a further
      role for some department takes them away. */
  lemma OwnRecordsTaken(t: Table, uid: int, tid: int, dept: int, v: Visible, w: Visible)
    requires Resolved(t, Some(uid), Some(tid), None, [Scope(2, [])], v)
    requires Resolved(t, Some(uid), Some(tid), None, [Scope(2, [])] + [Scope(4, [Item("dept", dept)])], w)
    ensures uid in v.userIds.value && uid !in w.userIds.value
  {
    var own, more := Scope(2, []), Scope(4, [Item("dept", dept)]);
    assert more in [own] + [more];
    assert more.custom[0] == Item("dept", dept);
    assert GrantsDept(t, None, more, dept);
    assert DeptGranted(t, None, [own] + [more], dept);
  }

  lemma OnlyOne(t: Table, uid: int, did: Option<int>, s: Scope)
    ensures forall x :: DeptGranted(t, did, [s], x) <==> GrantsDept(t, did, s, x)
    ensures forall x :: UserGranted(uid, [s], x) <==> GrantsUser(uid, s, x)
  {
    hide GrantsDept, GrantsUser;
    assert s in [s];
  }

  lemma OneScopeGrants(t: Table, uid: int, did: Option<int>, s: Scope)
    ensures s.dataScope == 1 ==> forall x :: !GrantsDept(t, did, s, x) && (GrantsUser(uid, s, x) <==> x == uid)
    ensures s.dataScope == 2 ==> forall x :: (GrantsDept(t, did, s, x) <==> did == Some(x)) && !GrantsUser(uid, s, x)
    ensures s.dataScope == 3 ==>
              forall x :: && (GrantsDept(t, did, s, x) <==>
                                did.Some? && (x == did.value || (x in t && Under(t, x, did.value))))
                          && !GrantsUser(uid, s, x)
    ensures s.dataScope == 4 ==>
              forall x :: && (GrantsUser(uid, s, x) <==>
                              exists item :: item in s.custom && item.scopeType != "dept" && item.scopeId == x)
                          && (GrantsDept(t, did, s, x) <==>
                              exists item :: && item in s.custom && item.scopeType == "dept"
                                             && (x == item.scopeId || (x in t && Under(t, x, item.scopeId))))
    ensures s.dataScope !in {1, 2, 3, 4} ==> forall x :: !GrantsDept(t, did, s, x) && !GrantsUser(uid, s, x)
    ensures s.dataScope == 4 && s.custom != [] ==>
              (exists x :: GrantsDept(t, did, s, x)) || (exists x :: GrantsUser(uid, s, x))
  {
    hide Under;
    if s.dataScope == 4 && s.custom != [] {
      var item := s.custom[0];
      if item.scopeType == "dept" {
        assert GrantsDept(t, did, s, item.scopeId);
      } else {
        assert GrantsUser(uid, s, item.scopeId);
      }
    }
  }

  /** What a single scope means: one's own records, the own department, the own department with all below it, or the
      listed departments with all below them and the listed users; whatever grants nothing leaves one's own records. */
  lemma OneScope(t: Table, uid: int, tid: int, did: Option<int>, s: Scope, v: Visible)
    requires Resolved(t, Some(uid), Some(tid), did, [s], v)
    ensures s.dataScope == 1 ==> v == Visible(Some({}), Some({uid}))
    ensures s.dataScope == 2 && did.Some? ==> v == Visible(Some({did.value}), Some({}))
    ensures s.dataScope == 3 && did.Some? ==>
              && v.userIds == Some({})
              && forall x :: x in v.deptIds.value <==> x == did.value || (x in t && Under(t, x, did.value))
    ensures s.dataScope == 4 && s.custom != [] ==>
              && (forall x :: x in v.userIds.value <==>
                                exists item :: item in s.custom && item.scopeType != "dept" && item.scopeId == x)
              && (forall x :: x in v.deptIds.value <==>
                              exists item :: && item in s.custom && item.scopeType == "dept"
                                             && (x == item.scopeId || (x in t && Under(t, x, item.scopeId))))
    ensures || (s.dataScope in {2, 3} && did.None?) || (s.dataScope == 4 && s.custom == [])
            || s.dataScope !in {1, 2, 3, 4} ==>
              v == Visible(Some({}), Some({uid}))
  {
    hide Under;
    assert forall x :: DeptGranted(t, did, [s], x) <==> GrantsDept(t, did, s, x) by { OnlyOne(t, uid, did, s); }
    assert forall x :: UserGranted(uid, [s], x) <==> GrantsUser(uid, s, x) by { OnlyOne(t, uid, did, s); }
    OneScopeGrants(t, uid, did, s);
    hide DeptGranted, UserGranted, GrantsDept, GrantsUser;
    SameByElements(v.deptIds.value, {});
    SameByElements(v.userIds.value, {});
    SameByElements(v.userIds.value, {uid});
    if did.Some? { SameByElements(v.deptIds.value, {did.value}); }
  }

  // ---------------------------------------------------------------- the SQL predicate

  datatype Part = In(column: string, values: set<int>)
  datatype Clause = NoFilter | Never | AnyOf(parts: seq<Part>)

  /** A row's columns; a missing value is NULL. */
  type Row = map<string, Option<int>>

  datatype Truth = True | False | Unknown

  function Cell(row: Row, column: string): Option<int> {
    if column in row then row[column] else None
  }

  function HoldsIn(value: Option<int>, values: set<int>): Truth {
    if values == {} then False
    else if value.None? then Unknown
    else if value.value in values then True
    else False
  }

  function Or(a: Truth, b: Truth): Truth {
    if a == True || b == True then True
    else if a == Unknown || b == Unknown then Unknown
    else False
  }

  function Disjunction(parts: seq<Part>, row: Row): Truth {
    if parts == [] then False
    else Or(HoldsIn(Cell(row, parts[0].column), parts[0].values), Disjunction(parts[1..], row))
  }

  /** A row is selected when its predicate is true; unknown is not enough. */
  predicate Selected(c: Clause, row: Row) {
    match c
    case NoFilter => true
    case Never => false
    case AnyOf(parts) => Disjunction(parts, row) == True
  }

  predicate Present(s: Option<set<int>>) {
    s.Some? && s.value != {}
  }

  function Ids(s: Option<set<int>>): set<int> {
    if s.Some? then s.value else {}
  }

  predicate PartHolds(p: Part, row: Row) {
    var value := Cell(row, p.column);
    value.Some? && value.value in p.values
  }

  /** One more part: the disjunction is true exactly when it was before or the part holds a listed value. */
  lemma {:induction false} AppendPart(parts: seq<Part>, p: Part, row: Row)
    ensures Disjunction(parts + [p], row) == True <==> Disjunction(parts, row) == True || PartHolds(p, row)
  {
    if parts == [] {
      assert parts + [p] == [p];
    } else {
      assert (parts + [p])[1..] == parts[1..] + [p];
      AppendPart(parts[1..], p, row);
    }
  }

  lemma AppendPartAnywhere(parts: seq<Part>, p: Part)
    ensures forall row :: Disjunction(parts + [p], row) == True <==>
            Disjunction(parts, row) == True || PartHolds(p, row)
  {
    forall row ensures Disjunction(parts + [p], row) == True <==> Disjunction(parts, row) == True || PartHolds(p, row) {
      AppendPart(parts, p, row);
    }
  }

  /** The in-memory check of one record. */
  predicate CanAccess(deptId: Option<int>, createdBy: Option<int>, deptIds: set<int>, userIds: set<int>,
                      subject: Option<int>)
  {
    if subject.Some? && subject.value in userIds then true
    else if deptId.Some? && deptId.value in deptIds then true
    else if createdBy.Some? && createdBy.value in userIds then true
    else false
  }

  /** The list predicate selects exactly the rows the in-memory check allows; without a department column
      the check is made without a department. */
  method BuildWhereClause(v: Visible, deptColumn: Option<string>, userColumn: string) returns (c: Clause)
    ensures forall row :: Selected(c, row) <==>
                          || v == Visible(None, None)
                          || CanAccess(if deptColumn.Some? && deptColumn.value != ""
                                       then Cell(row, deptColumn.value) else None,
                                       Cell(row, userColumn), Ids(v.deptIds), Ids(v.userIds), None)
  {
    if v.deptIds.None? && v.userIds.None? { return NoFilter; }
    var parts := [];
    if Present(v.deptIds) && deptColumn.Some? && deptColumn.value != "" {
      AppendPartAnywhere(parts, In(deptColumn.value, v.deptIds.value));
      parts := parts + [In(deptColumn.value, v.deptIds.value)];
    }
    if Present(v.userIds) {
      AppendPartAnywhere(parts, In(userColumn, v.userIds.value));
      parts := parts + [In(userColumn, v.userIds.value)];
    }
    if parts == [] { return Never; }
    c := AnyOf(parts);
  }

  method TenantUserClause(v: Visible) returns (c: Clause)
    ensures forall row :: Selected(c, row) <==>
                          || v == Visible(None, None)
                          || CanAccess(Cell(row, "ut.dept_id"), Cell(row, "u.created_by"),
                                       Ids(v.deptIds), Ids(v.userIds), Cell(row, "u.id"))
  {
    if v.deptIds.None? && v.userIds.None? { return NoFilter; }
    if !Present(v.deptIds) && !Present(v.userIds) { return Never; }
    var parts := [];
    if Present(v.deptIds) {
      AppendPartAnywhere(parts, In("ut.dept_id", v.deptIds.value));
      parts := parts + [In("ut.dept_id", v.deptIds.value)];
    }
    if Present(v.userIds) {
      AppendPartAnywhere(parts, In("u.id", v.userIds.value));
      parts := parts + [In("u.id", v.userIds.value)];
      AppendPartAnywhere(parts, In("u.created_by", v.userIds.value));
      parts := parts + [In("u.created_by", v.userIds.value)];
    }
    c := AnyOf(parts);
  }

  /** Main result: the list query of a restricted caller selects exactly the rows some scope grants,
      by department or by creator, or the caller's own rows when no scope grants anything. */
  method ScopeWhere(t: Table, flat: seq<Dept>, uid: int, tid: int, did: Option<int>, roleScopes: seq<Scope>,
                    binding: Option<Scope>, deptColumn: string, userColumn: string)
    returns (c: Clause)
    requires Forest(t) && Covers(flat, t) && deptColumn != ""
    ensures var scopes := ScopesToMerge(roleScopes, binding);
            forall row :: Selected(c, row) <==>
                          var dept, creator := Cell(row, deptColumn), Cell(row, userColumn);
                          || (dept.Some? && SeesDept(t, did, scopes, dept.value))
                          || (creator.Some? && SeesUser(t, uid, did, scopes, creator.value))
  {
    hide Forest, Covers, SeesDept, SeesUser, Selected;
    var v := ResolveVisible(t, flat, None, Context(Some(uid), Some(tid), did), None, None, roleScopes, binding);
    c := BuildWhereClause(v, Some(deptColumn), userColumn);
  }
}
