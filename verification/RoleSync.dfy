/** Keeping tenant roles in line with the platform role templates a tenant is bound to. */
module RoleSync {
  import opened Wrappers

  type Codes = set<string>

  /** The permission table: its codes, and the interface codes bound to each. */
  datatype Catalogue = Catalogue(codes: Codes, bindings: map<string, Codes>)

  /** The roles of one tenant with the permission codes stored for each. */
  type Roles = map<string, Codes>

  /** What the platform prescribes: the catalogue, the templates of tenant-type roles, and the administrator's
      baseline. */
  datatype Platform = Platform(cat: Catalogue, templates: map<string, Codes>, baseline: Codes)

  const ROLE_ADMIN := "admin"
  const ROLE_OPERATOR := "operator"

  function Bound(cat: Catalogue, code: string): Codes {
    if code in cat.bindings then cat.bindings[code] else {}
  }

  /** The known codes of s together with everything bound to one of them. */
  function Expand(cat: Catalogue, s: Codes): Codes {
    s * cat.codes + set c, d | c in s * cat.codes && d in Bound(cat, c) :: d
  }

  lemma InExpand(cat: Catalogue, s: Codes, x: string)
    ensures x in Expand(cat, s) <==>
            (x in s && x in cat.codes) || exists c :: c in s && c in cat.codes && x in Bound(cat, c)
  {
  }

  /** Bound codes are known: both ends of a binding are rows of the permission table. */
  ghost predicate Referential(cat: Catalogue) {
    forall c, d :: d in Bound(cat, c) ==> d in cat.codes
  }

  /** Whatever is bound to a bound code is bound directly. */
  ghost predicate Transitive(cat: Catalogue) {
    forall c, d, e :: d in Bound(cat, c) && e in Bound(cat, d) ==> e == c || e in Bound(cat, c)
  }

  /** What the seeds bind: interface codes, to which nothing is bound. */
  ghost predicate OneLevel(cat: Catalogue) {
    forall c, d :: d in Bound(cat, c) ==> Bound(cat, d) == {}
  }

  // ---------------------------------------------------------------- the closure operator

  function AsSet(codes: seq<string>): Codes {
    set c | c in codes
  }

  lemma ExpandOneMore(cat: Catalogue, s: Codes, code: string)
    ensures Expand(cat, s + {code}) == Expand(cat, s) + if code in cat.codes then {code} + Bound(cat, code) else {}
  {
  }

  method ExpandCodes(cat: Catalogue, codes: seq<string>) returns (expanded: Codes)
    ensures expanded == Expand(cat, AsSet(codes))
  {
    expanded := {};
    for i := 0 to |codes|
      invariant expanded == Expand(cat, AsSet(codes[..i]))
    {
      var code := codes[i];
      ExpandOneMore(cat, AsSet(codes[..i]), code);
      assert AsSet(codes[..i + 1]) == AsSet(codes[..i]) + {code};
      if code in cat.codes {
        expanded := expanded + {code};
        expanded := expanded + if code in cat.bindings then cat.bindings[code] else {};
      }
    }
    assert codes[..|codes|] == codes;
  }

  lemma ExpandKnown(cat: Catalogue, s: Codes)
    requires Referential(cat)
    ensures Expand(cat, s) <= cat.codes && s * cat.codes <= Expand(cat, s)
  {
  }

  /** Expanding twice adds nothing, for every set, exactly when bindings are transitive. */
  lemma ClosureOperator(cat: Catalogue)
    requires Referential(cat) && cat.bindings.Keys <= cat.codes
    ensures (forall s :: Expand(cat, Expand(cat, s)) == Expand(cat, s)) <==> Transitive(cat)
  {
    if Transitive(cat) {
      forall s ensures Expand(cat, Expand(cat, s)) == Expand(cat, s) { ExpandKnown(cat, s); }
    } else {
      var c, d, e :| d in Bound(cat, c) && e in Bound(cat, d) && e != c && e !in Bound(cat, c);
      assert c in cat.codes;
      InExpand(cat, {c}, d);
      InExpand(cat, {c}, e);
      InExpand(cat, Expand(cat, {c}), e);
    }
  }

  // ---------------------------------------------------------------- what a sync stores for one role

  /** The codes of all templates the tenant is bound to. */
  function Union(templates: map<string, Codes>, bindings: seq<string>): Codes {
    set b, c | b in bindings && b in templates && c in templates[b] :: c
  }

  /** A role loses the removed codes; what is left is expanded again. */
  function Trimmed(cat: Catalogue, perms: Codes, removed: Codes): Codes {
    if perms - removed == perms then perms else Expand(cat, perms - removed)
  }

  /** A role is rewritten unless it already stores exactly the expected codes. */
  function Aligned(cat: Catalogue, perms: Codes, expected: Codes): Codes {
    if perms == expected then perms else Expand(cat, expected)
  }

  /** The role that carries the baseline where there is no administrator role. */
  function PrimaryPreset(bindings: seq<string>): string
    requires bindings != []
  {
    if ROLE_OPERATOR in bindings then ROLE_OPERATOR else bindings[0]
  }

  function Expected(p: Platform, primary: Option<string>, code: string): Codes
    requires code in p.templates
  {
    p.templates[code] + if primary == Some(code) then p.baseline else {}
  }

  /** With an administrator role. */
  function WithAdmin(p: Platform, newUnion: Codes, removed: Codes, code: string, perms: Codes): Codes {
    if code == ROLE_ADMIN then Expand(p.cat, p.baseline + newUnion) else Trimmed(p.cat, perms, removed)
  }

  /** Without one: bound roles follow their template, then lose removed codes unless primary; others follow their
      template. */
  function WithoutAdmin(p: Platform, bindings: seq<string>, removed: Codes, code: string, perms: Codes): Codes
    requires bindings != []
  {
    var primary := PrimaryPreset(bindings);
    if code !in bindings then
      if code in p.templates then Aligned(p.cat, perms, p.templates[code]) else perms
    else
      var aligned := if code in p.templates then Aligned(p.cat, perms, Expected(p, Some(primary), code)) else perms;
      if code == primary then aligned else Trimmed(p.cat, aligned, removed)
  }

  function Removed(p: Platform, bindings: seq<string>, previous: Option<seq<string>>): Codes {
    (if previous.Some? then Union(p.templates, previous.value) else {}) - Union(p.templates, bindings)
  }

  function SyncedRole(p: Platform, hasAdmin: bool, bindings: seq<string>, previous: Option<seq<string>>,
                      code: string, perms: Codes): Codes
    requires hasAdmin || bindings != []
  {
    if hasAdmin then WithAdmin(p, Union(p.templates, bindings), Removed(p, bindings, previous), code, perms)
    else WithoutAdmin(p, bindings, Removed(p, bindings, previous), code, perms)
  }

  /** All roles of a tenant after a sync. */
  ghost predicate Synced(p: Platform, bindings: seq<string>, previous: Option<seq<string>>, before: Roles, after: Roles)
    requires ROLE_ADMIN in before || bindings != []
  {
    && after.Keys == before.Keys
    && forall code :: code in before ==>
                        after[code] == SyncedRole(p, ROLE_ADMIN in before, bindings, previous, code, before[code])
  }

  // ---------------------------------------------------------------- the loops

  predicate Distinct(s: seq<string>) {
    forall i, j :: 0 <= i < j < |s| ==> s[i] != s[j]
  }

  lemma UnionOneMore(templates: map<string, Codes>, bindings: seq<string>, b: string)
    ensures Union(templates, bindings + [b]) == Union(templates, bindings) + if b in templates then templates[b] else {}
  {
  }

  method ExpandBindings(templates: map<string, Codes>, bindings: seq<string>) returns (codes: Codes)
    ensures codes == Union(templates, bindings)
  {
    codes := {};
    for i := 0 to |bindings|
      invariant codes == Union(templates, bindings[..i])
    {
      assert bindings[..i + 1] == bindings[..i] + [bindings[i]];
      UnionOneMore(templates, bindings[..i], bindings[i]);
      if bindings[i] in templates { codes := codes + templates[bindings[i]]; }
    }
    assert bindings[..|bindings|] == bindings;
  }

  /** Every role of the table once. */
  ghost predicate Lists(codes: seq<string>, roles: Roles) {
    Distinct(codes) && forall c :: c in codes <==> c in roles
  }

  method ListRoles(roles: Roles) returns (codes: seq<string>)
    ensures Lists(codes, roles)
  {
    codes := [];
    var left := roles.Keys;
    while left != {}
      invariant Distinct(codes) && left <= roles.Keys
      invariant forall c :: c in roles <==> c in codes || c in left
      invariant forall c :: c in codes ==> c !in left
    {
      var c :| c in left;
      codes := codes + [c];
      left := left - {c};
    }
  }

  /** What a pass over a list of roles has done to each role so far. */
  ghost predicate PassDone(before: Roles, now: Roles, done: seq<string>, f: (string, Codes) -> Codes) {
    && now.Keys == before.Keys
    && forall c :: c in before ==> now[c] == if c in done then f(c, before[c]) else before[c]
  }

  lemma PassStep(before: Roles, now: Roles, list: seq<string>, i: nat, f: (string, Codes) -> Codes, next: Roles)
    requires Distinct(list) && i < |list| && PassDone(before, now, list[..i], f)
    requires next == if list[i] in now then now[list[i] := f(list[i], now[list[i]])] else now
    ensures PassDone(before, next, list[..i + 1], f)
  {
  }

  /** Trims every role of a list but one. */
  method TrimRoles(cat: Catalogue, roles: Roles, list: seq<string>, spared: string, removed: Codes) returns (now: Roles)
    requires Distinct(list)
    ensures PassDone(roles, now, list, (c, perms) => if c == spared then perms else Trimmed(cat, perms, removed))
  {
    now := roles;
    ghost var f := (c, perms) => if c == spared then perms else Trimmed(cat, perms, removed);
    for i := 0 to |list|
      invariant PassDone(roles, now, list[..i], f)
    {
      ghost var next := if list[i] in now then now[list[i] := f(list[i], now[list[i]])] else now;
      PassStep(roles, now, list, i, f, next);
      var code := list[i];
      if code in now && code != spared {
        var trimmed := now[code] - removed;
        if trimmed != now[code] { now := now[code := Expand(cat, trimmed)]; }
      }
      assert now == next;
    }
    assert list[..|list|] == list;
  }

  /** The codes that aligning the listed roles gives to a role that did not store them. */
  function Gained(p: Platform, roles: Roles, list: seq<string>, primary: Option<string>): Codes {
    set b, c | b in list && b in roles && b in p.templates && c in Expected(p, primary, b) - roles[b] :: c
  }

  lemma GainedOneMore(p: Platform, roles: Roles, list: seq<string>, primary: Option<string>, b: string)
    ensures Gained(p, roles, list + [b], primary)
            == Gained(p, roles, list, primary)
               + if b in roles && b in p.templates then Expected(p, primary, b) - roles[b] else {}
  {
  }

  /** Aligns every listed role that has a template. */
  method AlignRoles(p: Platform, roles: Roles, list: seq<string>, primary: Option<string>)
    returns (now: Roles, added: Codes)
    requires Distinct(list)
    ensures PassDone(roles, now, list, (c, perms) =>
                     if c in p.templates then Aligned(p.cat, perms, Expected(p, primary, c)) else perms)
    ensures added == Gained(p, roles, list, primary)
  {
    now, added := roles, {};
    ghost var f := (c, perms) => if c in p.templates then Aligned(p.cat, perms, Expected(p, primary, c)) else perms;
    for i := 0 to |list|
      invariant PassDone(roles, now, list[..i], f)
      invariant added == Gained(p, roles, list[..i], primary)
    {
      hide Gained;
      ghost var next := if list[i] in now then now[list[i] := f(list[i], now[list[i]])] else now;
      PassStep(roles, now, list, i, f, next);
      assert list[..i + 1] == list[..i] + [list[i]];
      GainedOneMore(p, roles, list[..i], primary, list[i]);
      var code := list[i];
      if code in now && code in p.templates {
        assert now[code] == roles[code];
        var expected := p.templates[code];
        if primary == Some(code) { expected := expected + p.baseline; }
        assert expected == Expected(p, primary, code);
        if now[code] != expected {
          added := added + (expected - now[code]);
          now := now[code := Expand(p.cat, expected)];
        }
      }
      assert now == next;
    }
    assert list[..|list|] == list;
  }

  /** The listed roles that are not bound. */
  function Unbound(list: seq<string>, bindings: seq<string>): (r: seq<string>)
    ensures forall c :: c in r <==> c in list && c !in bindings
    ensures Distinct(list) ==> Distinct(r)
  {
    if list == [] then []
    else
      var rest := Unbound(list[1..], bindings);
      assert forall c :: c in list <==> c == list[0] || c in list[1..];
      if list[0] in bindings then rest else [list[0]] + rest
  }

  function WithTemplate(p: Platform, roleCode: string, roles: Roles): Roles
    requires roleCode in p.templates
  {
    if roleCode in roles then roles[roleCode := Aligned(p.cat, roles[roleCode], p.templates[roleCode])] else roles
  }

  ghost predicate Propagated(p: Platform, roleCode: string, bindings: seq<string>, before: Roles, after: Roles)
    requires roleCode in p.templates && bindings != []
  {
    Synced(p, bindings, None, WithTemplate(p, roleCode, before), after)
  }

  /** What a sync reports as added. */
  function Added(p: Platform, bindings: seq<string>, before: Roles): Codes
    requires ROLE_ADMIN in before || bindings != []
  {
    if ROLE_ADMIN in before then p.baseline + Union(p.templates, bindings) - before[ROLE_ADMIN]
    else Gained(p, before, bindings, Some(PrimaryPreset(bindings)))
  }

  lemma TrimNothing(cat: Catalogue, perms: Codes, removed: Codes)
    ensures removed == {} ==> Trimmed(cat, perms, removed) == perms
  {
  }

  lemma ExpectedUnbound(p: Platform, code: string)
    ensures code in p.templates ==> Expected(p, None, code) == p.templates[code]
  {
  }

  /** The three passes of the branch without an administrator role. */
  method SyncPresetRoles(p: Platform, roles: Roles, bindings: seq<string>, removed: Codes)
    returns (now: Roles, added: Codes)
    requires bindings != [] && Distinct(bindings)
    ensures added == Gained(p, roles, bindings, Some(PrimaryPreset(bindings)))
    ensures now.Keys == roles.Keys
    ensures forall code :: code in roles ==> now[code] == WithoutAdmin(p, bindings, removed, code, roles[code])
  {
    var primary := PrimaryPreset(bindings);
    var first: Roles;
    first, added := AlignRoles(p, roles, bindings, Some(primary));
    var list := ListRoles(first);
    var second, _ := AlignRoles(p, first, Unbound(list, bindings), None);
    now := second;
    if removed != {} {
      now := TrimRoles(p.cat, second, bindings, primary, removed);
    }
    hide Expand, Aligned, Trimmed, Union, Gained;
    forall code | code in roles ensures now[code] == WithoutAdmin(p, bindings, removed, code, roles[code]) {
      assert code in first && code in list;
      if code in bindings {
        assert second[code] == first[code];
        TrimNothing(p.cat, second[code], removed);
      } else {
        assert first[code] == roles[code] && now[code] == second[code];
        ExpectedUnbound(p, code);
      }
    }
  }

  /** The roles of all tenants and the templates each is bound to. */
  class RoleRepo {
    const p: Platform
    var tables: map<nat, Roles>
    var bindings: map<nat, seq<string>>

    constructor (p: Platform, tables: map<nat, Roles>, bindings: map<nat, seq<string>>)
      ensures this.p == p && this.tables == tables && this.bindings == bindings
    {
      this.p, this.tables, this.bindings := p, tables, bindings;
    }

    function RolesOf(tid: nat): Roles
      reads this`tables
    {
      if tid in tables then tables[tid] else map[]
    }

    function BindingsOf(tid: nat): seq<string>
      reads this`bindings
    {
      if tid in bindings then bindings[tid] else []
    }

    /** Stores the expanded codes of an existing role; refused exactly when an expanded code is unknown. */
    method SetRolePermissions(tid: nat, code: string, permissions: Codes) returns (r: Result<bool>)
      modifies this`tables
      ensures r.Error? <==> !(Expand(p.cat, permissions) <= p.cat.codes)
      ensures r.Ok? ==> (r.value <==> code in old(RolesOf(tid)))
      ensures tables == if r.Ok? && r.value
                        then old(tables)[tid := old(RolesOf(tid))[code := Expand(p.cat, permissions)]]
                        else old(tables)
    {
      var expanded := Expand(p.cat, permissions);
      if !(expanded <= p.cat.codes) { return Error("unknown permission codes"); }
      if code !in RolesOf(tid) { return Ok(false); }
      tables := tables[tid := RolesOf(tid)[code := expanded]];
      return Ok(true);
    }

    /** Aligns a tenant's roles with its bindings; fails only without an administrator role and without bindings. */
    method SyncTenantSystemRolePermissions(tid: nat, previous: Option<seq<string>>) returns (r: Result<Codes>)
      requires Distinct(BindingsOf(tid)) && Referential(p.cat)
      modifies this`tables
      ensures r.Error? <==> ROLE_ADMIN !in old(RolesOf(tid)) && BindingsOf(tid) == []
      ensures r.Error? ==> tables == old(tables)
      ensures r.Ok? ==> && tid in tables && tables == old(tables)[tid := tables[tid]]
                        && Synced(p, BindingsOf(tid), previous, old(RolesOf(tid)), tables[tid])
                        && r.value == Added(p, BindingsOf(tid), old(RolesOf(tid)))
    {
      var newBindings := BindingsOf(tid);
      var newUnion := ExpandBindings(p.templates, newBindings);
      var oldUnion: Codes := {};
      if previous.Some? { oldUnion := ExpandBindings(p.templates, previous.value); }
      var removed := oldUnion - newUnion;
      var roles := RolesOf(tid);
      if ROLE_ADMIN !in roles {
        if newBindings == [] { return Error("list index out of range"); }
        var now, gained := SyncPresetRoles(p, roles, newBindings, removed);
        tables := tables[tid := now];
        return Ok(gained);
      }
      var adminExpected := p.baseline + newUnion;
      var now := roles[ROLE_ADMIN := Expand(p.cat, adminExpected)];
      var added := adminExpected - roles[ROLE_ADMIN];
      if removed != {} {
        var list := ListRoles(now);
        now := TrimRoles(p.cat, now, list, ROLE_ADMIN, removed);
      }
      tables := tables[tid := now];
      return Ok(added);
    }

    /** One tenant's turn: its copy of the role follows the template, then the tenant is synced. */
    method FollowTemplate(roleCode: string, tid: nat)
      requires roleCode in p.templates && roleCode in BindingsOf(tid) && Distinct(BindingsOf(tid)) && Referential(p.cat)
      modifies this`tables
      ensures tid in tables && tables == old(tables)[tid := tables[tid]]
      ensures Propagated(p, roleCode, BindingsOf(tid), old(RolesOf(tid)), tables[tid])
    {
      hide Synced, Expand, Distinct;
      if roleCode in RolesOf(tid) && RolesOf(tid)[roleCode] != p.templates[roleCode] {
        ExpandKnown(p.cat, p.templates[roleCode]);
        var _ := SetRolePermissions(tid, roleCode, p.templates[roleCode]);
      }
      assert RolesOf(tid) == WithTemplate(p, roleCode, old(RolesOf(tid)));
      var _ := SyncTenantSystemRolePermissions(tid, None);
    }

    /** After a template changed: every bound tenant's copy follows it, and the tenant is synced. */
    method PropagateSysTenantRolePermissions(roleCode: string, tenantIds: seq<nat>)
      requires forall t :: t in tenantIds <==> roleCode in BindingsOf(t)
      requires forall i, j :: 0 <= i < j < |tenantIds| ==> tenantIds[i] != tenantIds[j]
      requires Referential(p.cat) && forall t :: t in tenantIds ==> Distinct(BindingsOf(t))
      modifies this`tables
      ensures roleCode !in p.templates ==> tables == old(tables)
      ensures roleCode in p.templates ==>
                forall t :: if roleCode in BindingsOf(t)
                            then t in tables && Propagated(p, roleCode, BindingsOf(t), old(RolesOf(t)), tables[t])
                            else RolesOf(t) == old(RolesOf(t))
    {
      if roleCode !in p.templates { return; }
      for i := 0 to |tenantIds|
        invariant forall t :: t in tenantIds[..i] ==>
                                roleCode in BindingsOf(t) && t in tables
                                  && Propagated(p, roleCode, BindingsOf(t), old(RolesOf(t)), tables[t])
        invariant forall t :: t !in tenantIds[..i] ==> RolesOf(t) == old(RolesOf(t))
      {
        hide Propagated, Distinct;
        var tid := tenantIds[i];
        assert tenantIds[..i + 1] == tenantIds[..i] + [tid];
        assert tid !in tenantIds[..i] && tid in tenantIds;
        FollowTemplate(roleCode, tid);
      }
      assert tenantIds[..|tenantIds|] == tenantIds;
    }
  }

  // ---------------------------------------------------------------- what a sync means

  /** The administrator role ends up with exactly the closure of its baseline and all bound templates, and when
      the bound templates did not shrink every other role is left as it was. */
  lemma AdminExact(p: Platform, bindings: seq<string>, previous: Option<seq<string>>, before: Roles, after: Roles)
    requires ROLE_ADMIN in before && Synced(p, bindings, previous, before, after)
    ensures forall x :: x in after[ROLE_ADMIN] <==>
                        var allowed := (p.baseline + Union(p.templates, bindings)) * p.cat.codes;
                        x in allowed || exists c :: c in allowed && x in Bound(p.cat, c)
    ensures previous.None? || Union(p.templates, previous.value) <= Union(p.templates, bindings) ==>
              forall code :: code in before && code != ROLE_ADMIN ==> after[code] == before[code]
  {
  }

  lemma DisjointMinus(a: Codes, b: Codes)
    ensures a * b == {} <==> a - b == a
  {
    assert forall x :: x in a * b <==> x in a && x in b;
    assert forall x :: x in a - b <==> x in a && x !in b;
    assert a * b == {} <==> forall x :: x !in a * b;
    assert a - b == a <==> forall x :: x in a ==> x in a - b;
  }

  /** After a narrowing, a role other than the administrator still stores a removed code exactly when the role had
      lost some code and the removed one is bound to a code the role keeps; kept codes are never lost. */
  lemma NarrowingLeaves(p: Platform, bindings: seq<string>, previous: Option<seq<string>>, before: Roles, after: Roles,
                        code: string, x: string)
    requires ROLE_ADMIN in before && Synced(p, bindings, previous, before, after) && code in before
             && code != ROLE_ADMIN
    requires x in Removed(p, bindings, previous)
    ensures var removed := Removed(p, bindings, previous);
            && (x in after[code] <==> && before[code] * removed != {}
                                      && exists c :: && c in before[code] - removed && c in p.cat.codes
                                                     && x in Bound(p.cat, c))
            && (before[code] - removed) * p.cat.codes <= after[code]
  {
    var removed := Removed(p, bindings, previous);
    hide Removed, Union;
    var kept := before[code] - removed;
    DisjointMinus(before[code], removed);
    if before[code] * removed == {} {
      assert kept == before[code];
    } else {
      var y :| y in before[code] * removed;
      assert y !in kept;
      assert after[code] == Expand(p.cat, kept);
      InExpand(p.cat, kept, x);
    }
  }

  // ---------------------------------------------------------------- syncing twice

  /** A chain of bindings that makes a second trim give more: e is two bindings away from a kept code and not one. */
  ghost predicate Unsettled(cat: Catalogue, c: string, c': string, d: string, e: string, y: string) {
    && c in cat.codes && c' in cat.codes && d in cat.codes
    && d in Bound(cat, c) && e in Bound(cat, d) && y in Bound(cat, c')
    && e !in {c, c'} + Bound(cat, c) + Bound(cat, c')
    && y !in {c, c', d}
  }

  ghost predicate Settles(cat: Catalogue) {
    forall c, c', d, e, y :: !Unsettled(cat, c, c', d, e, y)
  }

  lemma TransitiveSettles(cat: Catalogue)
    requires Transitive(cat)
    ensures Settles(cat)
  {
  }

  /** Bindings of one level are both. */
  lemma OneLevelSettles(cat: Catalogue)
    requires OneLevel(cat)
    ensures Transitive(cat) && Settles(cat)
  {
  }

  lemma UnsettledTrim(cat: Catalogue, c: string, c': string, d: string, e: string, y: string)
    requires Unsettled(cat, c, c', d, e, y) && Referential(cat)
    ensures var once := Trimmed(cat, {c, c', y}, {y}); Trimmed(cat, once, {y}) != once
  {
    var q := {c, c', y} - {y};
    assert q == {c, c'};
    assert y in {c, c', y};
    var once := Trimmed(cat, {c, c', y}, {y});
    assert once == Expand(cat, q);
    forall x { InExpand(cat, q, x); }
    assert d in once && y in once && e !in once;
    assert once - {y} != once;
    InExpand(cat, once - {y}, e);
  }

  lemma TrimAgain(cat: Catalogue, perms: Codes, removed: Codes)
    requires Referential(cat) && Settles(cat)
    ensures var once := Trimmed(cat, perms, removed); Trimmed(cat, once, removed) == once
  {
    var q := perms - removed;
    var once := Trimmed(cat, perms, removed);
    if once - removed != once {
      assert once == Expand(cat, q);
      DisjointMinus(once, removed);
      var y :| y in once * removed;
      InExpand(cat, q, y);
      var c' :| c' in q && c' in cat.codes && y in Bound(cat, c');
      forall x ensures x in Expand(cat, once - removed) <==> x in once {
        InExpand(cat, q, x);
        InExpand(cat, once - removed, x);
        if x in Expand(cat, once - removed) && x !in once {
          var d :| d in once - removed && d in cat.codes && x in Bound(cat, d);
          InExpand(cat, q, d);
          var c :| c in q && c in cat.codes && d in Bound(cat, c);
          assert x !in {c, c'} + Bound(cat, c) + Bound(cat, c') by {
            InExpand(cat, q, c);
            InExpand(cat, q, c');
          }
          assert Unsettled(cat, c, c', d, x, y);
        }
        if x in once {
          if x in q {
            assert x in once - removed;
          } else {
            var c :| c in q && c in cat.codes && x in Bound(cat, c);
            InExpand(cat, q, c);
            assert c in once - removed;
          }
        }
      }
    }
  }

  /** Trimming is settled after the first time, for every role and every removal, exactly when no such chain exists. */
  lemma TrimTwice(cat: Catalogue)
    requires Referential(cat)
    ensures (forall perms, removed ::
             Trimmed(cat, Trimmed(cat, perms, removed), removed) == Trimmed(cat, perms, removed))
            <==> Settles(cat)
  {
    if Settles(cat) {
      forall perms, removed { TrimAgain(cat, perms, removed); }
    } else {
      var c, c', d, e, y :| Unsettled(cat, c, c', d, e, y);
      UnsettledTrim(cat, c, c', d, e, y);
    }
  }

  lemma AlignTrimAgain(cat: Catalogue, perms: Codes, expected: Codes, removed: Codes)
    requires expected * removed == {}
    ensures var once := Trimmed(cat, Aligned(cat, perms, expected), removed);
            Trimmed(cat, Aligned(cat, once, expected), removed) == once
  {
    DisjointMinus(expected, removed);
    assert Trimmed(cat, expected, removed) == expected;
  }

  lemma AlignAgain(cat: Catalogue, perms: Codes, expected: Codes)
    ensures Aligned(cat, Aligned(cat, perms, expected), expected) == Aligned(cat, perms, expected)
  {
  }

  lemma BoundTemplateKept(p: Platform, bindings: seq<string>, previous: Option<seq<string>>, code: string)
    requires code in bindings && code in p.templates
    ensures p.templates[code] <= Union(p.templates, bindings)
    ensures p.templates[code] * Removed(p, bindings, previous) == {}
  {
  }

  /** In both branches a second sync with the same bindings changes nothing, wherever trimming settles. */
  lemma SyncAgain(p: Platform, bindings: seq<string>, previous: Option<seq<string>>, before: Roles, once: Roles,
                  twice: Roles)
    requires Referential(p.cat) && Settles(p.cat)
    requires ROLE_ADMIN in before || bindings != []
    requires Synced(p, bindings, previous, before, once) && Synced(p, bindings, previous, once, twice)
    ensures twice == once
  {
    var removed := Removed(p, bindings, previous);
    hide Settles, Referential, Removed, Union, Expand, Trimmed, Aligned;
    forall code | code in before ensures twice[code] == once[code] {
      if ROLE_ADMIN in before {
        TrimAgain(p.cat, before[code], removed);
      } else {
        var primary := PrimaryPreset(bindings);
        if code in p.templates {
          AlignAgain(p.cat, before[code], p.templates[code]);
          AlignAgain(p.cat, before[code], Expected(p, Some(primary), code));
        }
        if code in bindings && code != primary {
          if code in p.templates {
            BoundTemplateKept(p, bindings, previous, code);
            assert Expected(p, Some(primary), code) == p.templates[code];
            AlignTrimAgain(p.cat, before[code], p.templates[code], removed);
          } else {
            TrimAgain(p.cat, before[code], removed);
          }
        }
      }
    }
  }

  /** Main result: with bindings of one level a second sync with the same bindings changes nothing. */
  lemma SyncTwice(p: Platform, bindings: seq<string>, previous: Option<seq<string>>, before: Roles, once: Roles,
                  twice: Roles)
    requires Referential(p.cat) && OneLevel(p.cat)
    requires ROLE_ADMIN in before || bindings != []
    requires Synced(p, bindings, previous, before, once) && Synced(p, bindings, previous, once, twice)
    ensures twice == once
  {
    hide Referential, Settles, Transitive, Synced;
    OneLevelSettles(p.cat);
    SyncAgain(p, bindings, previous, before, once, twice);
  }

  /** Without an administrator role the bound roles carry their templates, and the primary one the baseline too;
      with transitive bindings the trimming pass takes nothing from a role that has a template. */
  lemma PresetCarries(p: Platform, bindings: seq<string>, previous: Option<seq<string>>, before: Roles, after: Roles,
                      code: string)
    requires ROLE_ADMIN !in before && code in before && code in bindings && code in p.templates && Referential(p.cat)
    requires Synced(p, bindings, previous, before, after)
    ensures Expected(p, Some(PrimaryPreset(bindings)), code) * p.cat.codes <= after[code]
    ensures Transitive(p.cat) ==>
            after[code] == Aligned(p.cat, before[code], Expected(p, Some(PrimaryPreset(bindings)), code))
  {
  }

  // ---------------------------------------------------------------- code by code

  /** Some bound template holds the code. */
  predicate InTemplates(p: Platform, bindings: seq<string>, x: string) {
    exists b :: b in bindings && b in p.templates && x in p.templates[b]
  }

  lemma UnionByCode(p: Platform, bindings: seq<string>, x: string)
    ensures x in Union(p.templates, bindings) <==> InTemplates(p, bindings, x)
  {
  }

  /** A code is withdrawn when the bindings before held it and those now do not. */
  lemma RemovedByCode(p: Platform, bindings: seq<string>, previous: Option<seq<string>>, x: string)
    ensures x in Removed(p, bindings, previous) <==>
            previous.Some? && InTemplates(p, previous.value, x) && !InTemplates(p, bindings, x)
  {
    UnionByCode(p, bindings, x);
    if previous.Some? { UnionByCode(p, previous.value, x); }
  }

  /** The role that carries the baseline where there is no administrator: the operator, or else the first one bound. */
  predicate CarriesBaseline(bindings: seq<string>, code: string) {
    if "operator" in bindings then code == "operator" else bindings != [] && code == bindings[0]
  }

  /** The code is prescribed for a bound role. */
  predicate Prescribed(p: Platform, bindings: seq<string>, code: string, x: string)
    requires code in p.templates
  {
    x in p.templates[code] || (CarriesBaseline(bindings, code) && x in p.baseline)
  }

  /** A role that stored what is prescribed stays; any other stores the known prescribed codes and what is bound to
      them. */
  ghost predicate StoresClosure(cat: Catalogue, before: Codes, after: Codes, prescribed: string -> bool) {
    if forall y :: y in before <==> prescribed(y) then after == before
    else
      forall x :: x in after <==> (prescribed(x) && x in cat.codes)
                                  || exists c :: c in cat.codes && prescribed(c) && x in Bound(cat, c)
  }

  lemma AlignedByCode(cat: Catalogue, perms: Codes, expected: Codes, prescribed: string -> bool)
    requires forall y :: y in expected <==> prescribed(y)
    ensures StoresClosure(cat, perms, Aligned(cat, perms, expected), prescribed)
  {
    if perms == expected {
    } else {
      assert !(forall y :: y in perms <==> prescribed(y));
      forall x ensures x in Expand(cat, expected) <==>
                       || (prescribed(x) && x in cat.codes)
                       || exists c :: c in cat.codes && prescribed(c) && x in Bound(cat, c)
      {
        InExpand(cat, expected, x);
      }
    }
  }

  lemma ExpectedByCode(p: Platform, bindings: seq<string>, code: string, y: string)
    requires bindings != [] && code in p.templates
    ensures y in Expected(p, Some(PrimaryPreset(bindings)), code) <==> Prescribed(p, bindings, code, y)
  {
  }

  /** Main result for the branch without an administrator, over transitive bindings: a bound role with a template stores
      exactly the closure of its template, and of the baseline too when it is the operator, or the first one bound where
      the operator is not. */
  lemma PresetByCode(p: Platform, bindings: seq<string>, previous: Option<seq<string>>, before: Roles, after: Roles,
                     code: string)
    requires "admin" !in before && code in before && code in bindings && code in p.templates
    requires Referential(p.cat) && Transitive(p.cat) && Synced(p, bindings, previous, before, after)
    ensures StoresClosure(p.cat, before[code], after[code], x => Prescribed(p, bindings, code, x))
  {
    hide Referential, Transitive, Synced, StoresClosure, Aligned, Prescribed, Expected;
    PresetCarries(p, bindings, previous, before, after, code);
    var expected := Expected(p, Some(PrimaryPreset(bindings)), code);
    forall y ensures y in expected <==> Prescribed(p, bindings, code, y) { ExpectedByCode(p, bindings, code, y); }
    AlignedByCode(p.cat, before[code], expected, x => Prescribed(p, bindings, code, x));
  }

  /** Whatever the bindings of permissions, the known baseline codes end up with the operator where that role is
      bound and has a template, and with the first bound role where the operator is not bound. */
  lemma BaselineKept(p: Platform, bindings: seq<string>, previous: Option<seq<string>>, before: Roles, after: Roles,
                     code: string)
    requires "admin" !in before && code in before && code in bindings && code in p.templates && Referential(p.cat)
    requires Synced(p, bindings, previous, before, after)
    requires code == "operator" || ("operator" !in bindings && code == bindings[0])
    ensures p.baseline * p.cat.codes <= after[code]
  {
    PresetCarries(p, bindings, previous, before, after, code);
  }

  /** A role that is not bound follows its template, and stays where there is none. */
  lemma UnboundByCode(p: Platform, bindings: seq<string>, previous: Option<seq<string>>, before: Roles, after: Roles,
                      code: string)
    requires "admin" !in before && bindings != [] && code in before && code !in bindings
    requires Synced(p, bindings, previous, before, after)
    ensures code !in p.templates ==> after[code] == before[code]
    ensures code in p.templates ==> StoresClosure(p.cat, before[code], after[code], x => x in p.templates[code])
  {
    hide StoresClosure;
    if code in p.templates { AlignedByCode(p.cat, before[code], p.templates[code], x => x in p.templates[code]); }
  }

  /** A bound role without a template loses the withdrawn codes unless it carries the baseline, and what is left is
      expanded again. */
  lemma UntemplatedLoses(p: Platform, bindings: seq<string>, previous: Option<seq<string>>, before: Roles, after: Roles,
                         code: string, x: string)
    requires "admin" !in before && code in before && code in bindings && code !in p.templates
    requires Synced(p, bindings, previous, before, after)
    ensures var removed := Removed(p, bindings, previous);
            x in after[code] <==>
            if CarriesBaseline(bindings, code) || before[code] * removed == {} then x in before[code]
            else (x in before[code] && x !in removed && x in p.cat.codes)
                 || exists c :: c in before[code] && c !in removed && c in p.cat.codes && x in Bound(p.cat, c)
  {
    var removed := Removed(p, bindings, previous);
    hide Removed;
    DisjointMinus(before[code], removed);
    InExpand(p.cat, before[code] - removed, x);
  }

  /** A present bound role with a template does not store a code prescribed for it. */
  predicate Misses(p: Platform, bindings: seq<string>, before: Roles, b: string, x: string) {
    b in before && b in p.templates && Prescribed(p, bindings, b, x) && x !in before[b]
  }

  lemma GainedByCode(p: Platform, bindings: seq<string>, before: Roles, x: string)
    requires bindings != []
    ensures x in Gained(p, before, bindings, Some(PrimaryPreset(bindings))) <==>
            exists b :: b in bindings && Misses(p, bindings, before, b, x)
  {
    hide Expected, Prescribed, PrimaryPreset;
    var primary := Some(PrimaryPreset(bindings));
    forall b | b in p.templates ensures x in Expected(p, primary, b) <==> Prescribed(p, bindings, b, x) {
      ExpectedByCode(p, bindings, b, x);
    }
    if b :| b in bindings && Misses(p, bindings, before, b, x) {
      assert x in Expected(p, primary, b) - before[b];
    }
    if x in Gained(p, before, bindings, primary) {
      var b :| b in bindings && b in before && b in p.templates && x in Expected(p, primary, b) - before[b];
      assert Misses(p, bindings, before, b, x);
    }
  }

  /** What a sync reports as added: prescribed codes that the role did not store. */
  lemma AddedByCode(p: Platform, bindings: seq<string>, before: Roles, x: string)
    requires "admin" in before || bindings != []
    ensures "admin" in before ==>
              (x in Added(p, bindings, before) <==>
                 (x in p.baseline || InTemplates(p, bindings, x)) && x !in before["admin"])
    ensures "admin" !in before ==>
              (x in Added(p, bindings, before) <==> exists b :: b in bindings && Misses(p, bindings, before, b, x))
  {
    hide Misses, Gained, Union, InTemplates;
    UnionByCode(p, bindings, x);
    if bindings != [] { GainedByCode(p, bindings, before, x); }
  }

  /** After a propagation a bound tenant's copy of the role stores the whole template and nothing but its closure,
      the baseline aside where the role is the primary one; and the administrator role stores the template too. */
  lemma PropagatedCarries(p: Platform, roleCode: string, bindings: seq<string>, before: Roles, after: Roles)
    requires roleCode in p.templates && roleCode in bindings && roleCode in before && roleCode != ROLE_ADMIN
    requires Referential(p.cat) && Propagated(p, roleCode, bindings, before, after)
    ensures var template := p.templates[roleCode];
            && template * p.cat.codes <= after[roleCode]
            && after[roleCode] <= template + p.baseline + Expand(p.cat, template + p.baseline)
            && (ROLE_ADMIN in before ==> template * p.cat.codes <= after[ROLE_ADMIN])
  {
  }

  /** With an administrator role a propagation gives the copy exactly the closure of the template, and touches no
      role but it and the administrator. */
  lemma PropagatedByCode(p: Platform, roleCode: string, bindings: seq<string>, before: Roles, after: Roles)
    requires roleCode in p.templates && bindings != [] && roleCode in before && roleCode != "admin" && "admin" in before
    requires Propagated(p, roleCode, bindings, before, after)
    ensures StoresClosure(p.cat, before[roleCode], after[roleCode], x => x in p.templates[roleCode])
    ensures forall code :: code in before && code != roleCode && code != "admin" ==> after[code] == before[code]
  {
    hide StoresClosure;
    AlignedByCode(p.cat, before[roleCode], p.templates[roleCode], x => x in p.templates[roleCode]);
  }
}
