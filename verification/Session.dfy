/** Login sessions: what is stored, how it is patched, and what a request gets to see of it. */
module Session {
  import opened Wrappers

  datatype Session = Session(userId: int, displayName: string, avatar: Option<string>, tenantId: Option<int>,
                             deptId: Option<int>, roles: seq<string>, permissions: seq<string>, bound: seq<int>,
                             needSelect: bool, expired: bool)

  /** Whether a user holds anything in the selected tenant. */
  predicate HasAccess(s: Session) {
    s.roles != [] || s.permissions != []
  }

  /** A session has a tenant exactly when none is left to be selected, and exactly when it carries some right. */
  predicate Valid(s: Session) {
    && (s.needSelect <==> s.tenantId.None?)
    && (HasAccess(s) <==> s.tenantId.Some?)
  }

  type Store = map<string, Session>

  /** Whose session a token is; tokens are never handed to another user. */
  type Owners = string -> int

  predicate AllValid(store: Store, owner: Owners) {
    forall t :: t in store ==> Valid(store[t]) && store[t].userId == owner(t)
  }

  // ---------------------------------------------------------------- login

  datatype Binding = Binding(tenantId: int, deptId: Option<int>, lastLogin: Option<int>)

  /** The bindings to enabled tenants, in order. */
  function Usable(bindings: seq<Binding>, enabled: set<int>): seq<Binding> {
    if bindings == [] then []
    else Usable(bindings[..|bindings| - 1], enabled)
         + if bindings[|bindings| - 1].tenantId in enabled then [bindings[|bindings| - 1]] else []
  }

  function WithLogin(bindings: seq<Binding>): seq<Binding> {
    if bindings == [] then []
    else WithLogin(bindings[..|bindings| - 1])
         + if bindings[|bindings| - 1].lastLogin.Some? then [bindings[|bindings| - 1]] else []
  }

  lemma SelectedMembers(bindings: seq<Binding>, enabled: set<int>)
    ensures forall b :: b in Usable(bindings, enabled) <==> b in bindings && b.tenantId in enabled
    ensures forall b :: b in WithLogin(bindings) <==> b in bindings && b.lastLogin.Some?
  {
  }

  /** The tenant a login starts in: the only one, or the first one logged into before; otherwise one is to be
      selected. */
  function TenantContext(bindings: seq<Binding>): Option<Binding> {
    if |bindings| == 1 then Some(bindings[0])
    else if WithLogin(bindings) != [] then Some(WithLogin(bindings)[0])
    else None
  }

  /** A login starts only in an enabled tenant the user is bound to, and in one of several only after an earlier
      login. */
  lemma ContextUsable(bindings: seq<Binding>, enabled: set<int>)
    ensures var usable, context := Usable(bindings, enabled), TenantContext(Usable(bindings, enabled));
            && (context.Some? ==> && context.value in bindings && context.value.tenantId in enabled
                                  && (|usable| == 1 || context.value.lastLogin.Some?))
            && (context.None? ==> && |usable| != 1
                                  && forall b :: b in bindings && b.tenantId in enabled ==> b.lastLogin.None?)
  {
    var usable := Usable(bindings, enabled);
    SelectedMembers(bindings, enabled);
    SelectedMembers(usable, enabled);
    if |usable| == 1 {
      assert usable[0] in usable;
    } else if WithLogin(usable) != [] {
      assert WithLogin(usable)[0] in WithLogin(usable);
    } else {
      forall b | b in bindings && b.tenantId in enabled ensures b.lastLogin.None? {
        assert b in usable && b !in WithLogin(usable);
      }
    }
  }

  lemma WithLoginConcat(a: seq<Binding>, b: Binding)
    ensures WithLogin(a + [b]) == WithLogin(a) + if b.lastLogin.Some? then [b] else []
    ensures WithLogin(a + []) == WithLogin(a)
  {
    assert (a + [b])[..|a|] == a && a + [] == a;
  }

  /** The binding at a position is to an enabled tenant. */
  predicate Opens(bindings: seq<Binding>, enabled: set<int>, i: nat) {
    i < |bindings| && bindings[i].tenantId in enabled
  }

  /** The first position of an enabled tenant with an earlier login. */
  predicate FirstLogged(bindings: seq<Binding>, enabled: set<int>, i: nat) {
    && Opens(bindings, enabled, i) && bindings[i].lastLogin.Some?
    && forall j: nat :: j < i && Opens(bindings, enabled, j) ==> bindings[j].lastLogin.None?
  }

  lemma OpensFront(bindings: seq<Binding>, enabled: set<int>, n: nat)
    requires n + 1 == |bindings|
    ensures forall j: nat :: Opens(bindings, enabled, j) <==>
                             Opens(bindings[..n], enabled, j) || (j == n && bindings[n].tenantId in enabled)
  {
  }

  lemma OpensBelow(bindings: seq<Binding>, enabled: set<int>)
    ensures forall j: nat :: Opens(bindings, enabled, j) ==> j < |bindings|
  {
  }

  lemma FirstLoggedFurther(bindings: seq<Binding>, enabled: set<int>, n: nat)
    requires n + 1 == |bindings|
    ensures forall i: nat :: FirstLogged(bindings[..n], enabled, i) ==> FirstLogged(bindings, enabled, i)
    ensures (forall j: nat :: Opens(bindings[..n], enabled, j) ==> bindings[j].lastLogin.None?) ==>
              bindings[n].tenantId in enabled && bindings[n].lastLogin.Some? ==> FirstLogged(bindings, enabled, n)
  {
  }

  lemma WithNone()
    ensures WithLogin([]) == []
  {
  }

  lemma {:induction false} FirstLogin(bindings: seq<Binding>, enabled: set<int>)
    ensures var logged := WithLogin(Usable(bindings, enabled));
            if logged == [] then forall j: nat :: Opens(bindings, enabled, j) ==> bindings[j].lastLogin.None?
            else exists i: nat :: FirstLogged(bindings, enabled, i) && bindings[i] == logged[0]
  {
    hide Opens, WithLogin;
    if bindings == [] {
      OpensBelow(bindings, enabled);
      WithNone();
    } else {
      var n := |bindings| - 1;
      var front, last := bindings[..n], bindings[n];
      FirstLogin(front, enabled);
      WithLoginConcat(Usable(front, enabled), last);
      OpensFront(bindings, enabled, n);
      OpensBelow(front, enabled);
      FirstLoggedFurther(bindings, enabled, n);
    }
  }

  /** The only position of an enabled tenant. */
  ghost predicate OnlyAt(bindings: seq<Binding>, enabled: set<int>, i: nat) {
    Opens(bindings, enabled, i) && forall j: nat :: Opens(bindings, enabled, j) ==> j == i
  }

  lemma {:induction false} NoneUsable(bindings: seq<Binding>, enabled: set<int>)
    ensures Usable(bindings, enabled) == [] <==> forall j: nat :: !Opens(bindings, enabled, j)
  {
    if bindings != [] {
      var n := |bindings| - 1;
      NoneUsable(bindings[..n], enabled);
      OpensFront(bindings, enabled, n);
      assert bindings[n].tenantId in enabled ==> Opens(bindings, enabled, n);
    }
  }

  lemma {:induction false} OnlyUsable(bindings: seq<Binding>, enabled: set<int>)
    ensures |Usable(bindings, enabled)| == 1 <==> exists i: nat :: OnlyAt(bindings, enabled, i)
    ensures forall i: nat :: Opens(bindings, enabled, i) && |Usable(bindings, enabled)| == 1 ==>
                               bindings[i] == Usable(bindings, enabled)[0]
  {
    if bindings != [] {
      hide Opens;
      var n := |bindings| - 1;
      var front, last := bindings[..n], bindings[n];
      OnlyUsable(front, enabled);
      NoneUsable(front, enabled);
      OpensFront(bindings, enabled, n);
      OpensBelow(front, enabled);
      if last.tenantId !in enabled {
        assert forall j: nat :: OnlyAt(bindings, enabled, j) <==> OnlyAt(front, enabled, j);
      } else if Usable(front, enabled) == [] {
        assert OnlyAt(bindings, enabled, n);
      } else {
        var i: nat :| Opens(front, enabled, i);
        assert i < n && Opens(bindings, enabled, i) && Opens(bindings, enabled, n);
      }
    } else {
      OpensBelow(bindings, enabled);
    }
  }

  /** Main result: the tenant a login starts in is the only enabled one where there is just one, and otherwise the
      first of the enabled ones, in the order of the bindings, that was logged into before; without such one it
      starts in none. */
  lemma ContextExact(bindings: seq<Binding>, enabled: set<int>)
    ensures var context := TenantContext(Usable(bindings, enabled));
            && (forall i: nat :: OnlyAt(bindings, enabled, i) ==> context == Some(bindings[i]))
            && ((forall i: nat :: !OnlyAt(bindings, enabled, i)) ==>
                  if context.None? then forall i: nat :: !FirstLogged(bindings, enabled, i)
                  else exists i: nat :: FirstLogged(bindings, enabled, i) && bindings[i] == context.value)
  {
    hide Usable, WithLogin;
    OnlyUsable(bindings, enabled);
    FirstLogin(bindings, enabled);
  }

  // ---------------------------------------------------------------- writes to the store

  /** What a store update merges into the session it reads: the expiry flag, the profile, or a whole snapshot. */
  datatype Patch =
    | Flag(expired: bool)
    | Profile(displayName: string, avatar: Option<string>)
    | Whole(snapshot: Session)

  function Merge(s: Session, patch: Patch): Session {
    match patch
    case Flag(expired) => s.(expired := expired)
    case Profile(name, avatar) => s.(displayName := name, avatar := avatar)
    case Whole(snapshot) => snapshot
  }

  /** What the database answers while a snapshot is taken. */
  datatype Answer = Answer(bound: seq<int>, roles: seq<string>, permissions: seq<string>, expired: bool)

  /** A snapshot taken for a tenant, platform-wide, or for none while one is to be selected. */
  function Snapshot(userId: int, displayName: string, avatar: Option<string>, tenantId: Option<int>,
                    deptId: Option<int>, needSelect: bool, a: Answer): Session
  {
    if needSelect then Session(userId, displayName, avatar, tenantId, deptId, [], [], a.bound, needSelect, false)
    else Session(userId, displayName, avatar, tenantId, deptId, a.roles, a.permissions, a.bound, needSelect,
                 tenantId.Some? && a.expired)
  }

  predicate NoTenant(s: Session) {
    s.tenantId.None? || s.needSelect
  }

  /** The snapshot that takes a session's tenant away. */
  function Degraded(s: Session, a: Answer): Session {
    Snapshot(s.userId, s.displayName, None, None, None, true, a)
  }

  /** The snapshot of a login: for the tenant it starts in, and for none where the user holds nothing there. */
  function LoginSnapshot(user: int, displayName: string, avatar: Option<string>, context: Option<Binding>,
                         first: Answer, second: Answer): Session
  {
    var nowhere := Snapshot(user, displayName, avatar, None, None, true, second);
    if context.None? then nowhere
    else
      var there := Snapshot(user, displayName, avatar, Some(context.value.tenantId), context.value.deptId, false,
                            first);
      if HasAccess(there) then there else nowhere
  }

  /** The snapshot of a refresh in a tenant the user is still active in. */
  function RefreshSnapshot(s: Session, name: Option<string>, avatar: Option<string>, deptId: Option<int>,
                           first: Answer, second: Answer): Session
  {
    var displayName := if name.Some? then name.value else s.displayName;
    var there := Snapshot(s.userId, displayName, avatar, s.tenantId, deptId, false, first);
    if HasAccess(there) then there else Snapshot(s.userId, displayName, avatar, None, None, true, second)
  }

  // ---------------------------------------------------------------- the membership check of a resolve

  /** What the outside answers while a session is checked: whether the read tenant has expired, what the store returned
      for the flag, whether the user is active in the read tenant, and what the store returned for the degraded
      session. */
  datatype Answers = Answers(expired: bool, flagWrite: Option<Session>, active: bool, degraded: Session,
                             degradeWrite: Option<Session>)

  /** The stored expiry flag is wrong. */
  predicate FlagDue(s: Session, expired: bool) {
    if NoTenant(s) then s.expired else s.expired != expired
  }

  /** The session after the flag was set right. */
  function Flagged(s: Session, expired: bool, written: Option<Session>): Session {
    if !FlagDue(s, expired) then s
    else if written.Some? then written.value
    else s.(expired := if NoTenant(s) then false else expired)
  }

  /** The session a request goes on with. */
  function Ensured(s: Session, a: Answers): Session {
    if NoTenant(s) || a.active then Flagged(s, a.expired, a.flagWrite)
    else if a.degradeWrite.Some? then a.degradeWrite.value
    else a.degraded
  }

  /** What the store guarantees of those answers: sessions it returns are valid, and a whole snapshot comes back
      whole. */
  predicate Faithful(s: Session, a: Answers) {
    && Valid(a.degraded) && a.degraded.tenantId.None?
    && (a.flagWrite.Some? ==> Valid(a.flagWrite.value) && a.flagWrite.value.userId == s.userId)
    && (a.degradeWrite.Some? ==> a.degradeWrite.value == a.degraded)
  }

  /** The tenant was checked, and the user found active in it. */
  predicate CheckedActive(s: Session, a: Answers, tenant: int) {
    !NoTenant(s) && s.tenantId == Some(tenant) && a.active
  }

  /** Main result: a tenant the check found inactive is never gone on with; and the session gone on with has a tenant
      that was not checked exactly when the flag was due and another request had put that tenant into the store
      between the read and the flag's update. */
  lemma CheckExact(s: Session, a: Answers)
    requires Valid(s) && Faithful(s, a)
    ensures Valid(Ensured(s, a))
    ensures !NoTenant(s) && !a.active ==> Ensured(s, a).tenantId == None
    ensures forall t :: Ensured(s, a).tenantId == Some(t) && !CheckedActive(s, a, t) <==>
                        && FlagDue(s, a.expired) && (NoTenant(s) || a.active)
                        && a.flagWrite.Some? && a.flagWrite.value.tenantId == Some(t) && s.tenantId != Some(t)
  {
  }

  // ---------------------------------------------------------------- requests side by side

  /** What a request does once its store update has returned: ask for the membership in a tenant, go on with the session
      that came back, or end.  The fallback is what it goes on with when the token is gone. */
  datatype After = ToAsk(fallback: Session, tenant: int) | ToGoOn(fallback: Session) | ToEnd

  datatype Stage =
    | Looked(s: Session)
    | Asking(s: Session, tenant: int)
    | Writing(patch: Patch, after: After)
    | Merging(patch: Patch, read: Session, after: After)
    | GoingOn(s: Session)
    | Done

  /** A request keeps the first session it resolved and every membership it asked for. */
  datatype Request = Request(token: string, stage: Stage, cached: Option<Session>, asked: map<int, bool>)

  datatype World = World(store: Store, requests: seq<Request>)

  const START := World(map[], [])

  /** The stretches of the operations between two suspension points; answers of the database are arbitrary. */
  datatype Step =
    | Login(token: string, displayName: string, avatar: Option<string>, bindings: seq<Binding>, enabled: set<int>,
            first: Answer, second: Answer)
    | Look(token: string)
    | TurnAway(request: nat)
    | CheckFlag(request: nat, expired: bool)
    | CheckMember(request: nat, active: bool, answer: Answer)
    | ReadStore(request: nat)
    | WriteStore(request: nat)
    | ResolveAgain(request: nat)
    | Switch(request: nat, tenantId: int, deptId: Option<int>, active: bool, answer: Answer)
    | Refresh(request: nat, active: bool, name: Option<string>, avatar: Option<string>, deptId: Option<int>,
              first: Answer, second: Answer)
    | PatchProfile(request: nat, displayName: string, avatar: Option<string>)
    | Invalidate(request: nat, tenantId: int, answer: Answer)
    | MarkExpired(request: nat)
    | Leave(token: string)

  /** A request that holds what it read from the store, not what it resolved before. */
  predicate JustLooked(r: Request) {
    r.stage.Looked? && r.cached.None?
  }

  predicate Ready(r: Request, step: Step) {
    match step
    case TurnAway(_) => JustLooked(r)
    case CheckFlag(_, _) => r.stage.Looked?
    case CheckMember(_, active, _) =>
      r.stage.Asking? && (r.stage.tenant in r.asked ==> active == r.asked[r.stage.tenant])
    case ReadStore(_) => r.stage.Writing?
    case WriteStore(_) => r.stage.Merging?
    case Invalidate(_, tenantId, _) => JustLooked(r) && r.stage.s.tenantId == Some(tenantId)
    case MarkExpired(_) => JustLooked(r) && r.stage.s.tenantId.Some? && !r.stage.s.expired
    case _ => r.stage.GoingOn?
  }

  predicate Enabled(w: World, step: Step) {
    match step
    case Login(token, _, _, bindings, enabled, _, _) => token !in w.store && Usable(bindings, enabled) != []
    case Look(token) => token in w.store
    case Leave(_) => true
    case _ => step.request < |w.requests| && Ready(w.requests[step.request], step)
  }

  function GoOn(r: Request, s: Session): Request {
    r.(stage := GoingOn(s), cached := if r.cached.Some? then r.cached else Some(s))
  }

  /** What follows a store update that gave `result`. */
  function Continue(r: Request, after: After, result: Option<Session>): Request {
    match after
    case ToAsk(fallback, tenant) => r.(stage := Asking(if result.Some? then result.value else fallback, tenant))
    case ToGoOn(fallback) => GoOn(r, if result.Some? then result.value else fallback)
    case ToEnd => r.(stage := Done)
  }

  /** The first half of the check of a resolved session: the expiry flag. */
  function AfterFlag(r: Request, s: Session, expired: bool): Request {
    if NoTenant(s) then
      if s.expired then r.(stage := Writing(Flag(false), ToGoOn(s.(expired := false)))) else GoOn(r, s)
    else if s.expired != expired then
      r.(stage := Writing(Flag(expired), ToAsk(s.(expired := expired), s.tenantId.value)))
    else r.(stage := Asking(s, s.tenantId.value))
  }

  /** The second half: the membership in the tenant that was read. */
  function AfterMember(r: Request, s: Session, tenant: int, active: bool, a: Answer): Request {
    var noted := r.(asked := r.asked[tenant := active]);
    if active then GoOn(noted, s) else noted.(stage := Writing(Whole(Degraded(s, a)), ToGoOn(Degraded(s, a))))
  }

  function AfterSwitch(s: Session, tenantId: int, deptId: Option<int>, active: bool, a: Answer): Stage {
    var snapshot := Snapshot(s.userId, s.displayName, s.avatar, Some(tenantId), deptId, false, a);
    if active && HasAccess(snapshot) then Writing(Whole(snapshot), ToEnd) else Done
  }

  function AfterRefresh(s: Session, active: bool, name: Option<string>, avatar: Option<string>, deptId: Option<int>,
                        first: Answer, second: Answer): Stage
  {
    if NoTenant(s) then Done
    else if !active then Writing(Whole(Degraded(s, second)), ToEnd)
    else Writing(Whole(RefreshSnapshot(s, name, avatar, deptId, first, second)), ToEnd)
  }

  /** What a step makes of the request it belongs to. */
  function Moved(w: World, step: Step): Request
    requires Enabled(w, step) && !step.Login? && !step.Look? && !step.Leave?
  {
    var r := w.requests[step.request];
    match step
    case TurnAway(_) => r.(stage := Done)
    case CheckFlag(_, expired) => AfterFlag(r, r.stage.s, expired)
    case CheckMember(_, active, a) => AfterMember(r, r.stage.s, r.stage.tenant, active, a)
    case ReadStore(_) =>
      if r.token in w.store then r.(stage := Merging(r.stage.patch, w.store[r.token], r.stage.after))
      else Continue(r, r.stage.after, None)
    case WriteStore(_) => Continue(r, r.stage.after, Some(Merge(r.stage.read, r.stage.patch)))
    case ResolveAgain(_) => if r.cached.Some? then r.(stage := Looked(r.cached.value)) else r
    case Switch(_, tenantId, deptId, active, a) => r.(stage := AfterSwitch(r.stage.s, tenantId, deptId, active, a))
    case Refresh(_, active, name, avatar, deptId, first, second) =>
      r.(stage := AfterRefresh(r.stage.s, active, name, avatar, deptId, first, second))
    case PatchProfile(_, displayName, avatar) => r.(stage := Writing(Profile(displayName, avatar), ToEnd))
    case Invalidate(_, _, a) => r.(stage := Writing(Whole(Degraded(r.stage.s, a)), ToEnd))
    case MarkExpired(_) => r.(stage := Writing(Flag(true), ToEnd))
  }

  function Stored(w: World, owner: Owners, step: Step): Store
    requires Enabled(w, step)
  {
    match step
    case Login(token, displayName, avatar, bindings, enabled, first, second) =>
      w.store[token := LoginSnapshot(owner(token), displayName, avatar, TenantContext(Usable(bindings, enabled)),
                                     first, second)]
    case TurnAway(i) => w.store - {w.requests[i].token}
    case WriteStore(i) =>
      var r := w.requests[i];
      w.store[r.token := Merge(r.stage.read, r.stage.patch)]
    case Leave(token) => w.store - {token}
    case _ => w.store
  }

  function Apply(w: World, owner: Owners, step: Step): World
    requires Enabled(w, step)
  {
    World(Stored(w, owner, step),
          match step
          case Look(token) => w.requests + [Request(token, Looked(w.store[token]), None, map[])]
          case Login(_, _, _, _, _, _, _) => w.requests
          case Leave(_) => w.requests
          case _ => w.requests[step.request := Moved(w, step)])
  }

  ghost predicate Reaches(owner: Owners, before: World, steps: seq<Step>, after: World)
    decreases |steps|
  {
    if steps == [] then before == after
    else Enabled(before, steps[0]) && Reaches(owner, Apply(before, owner, steps[0]), steps[1..], after)
  }

  // ---------------------------------------------------------------- every session is valid

  /** A valid session of this user. */
  predicate Of(user: int, s: Session) {
    Valid(s) && s.userId == user
  }

  predicate PatchFits(user: int, patch: Patch) {
    patch.Whole? ==> Of(user, patch.snapshot)
  }

  predicate AfterFits(user: int, after: After) {
    !after.ToEnd? ==> Of(user, after.fallback)
  }

  predicate StageFits(user: int, stage: Stage) {
    match stage
    case Looked(s) => Of(user, s)
    case Asking(s, _) => Of(user, s)
    case Writing(patch, after) => PatchFits(user, patch) && AfterFits(user, after)
    case Merging(patch, read, after) => PatchFits(user, patch) && Of(user, read) && AfterFits(user, after)
    case GoingOn(s) => Of(user, s)
    case Done => true
  }

  predicate Fits(owner: Owners, r: Request) {
    StageFits(owner(r.token), r.stage) && (r.cached.Some? ==> Of(owner(r.token), r.cached.value))
  }

  ghost predicate Sound(w: World, owner: Owners) {
    AllValid(w.store, owner) && forall i :: 0 <= i < |w.requests| ==> Fits(owner, w.requests[i])
  }

  /** Every snapshot the operations take is valid, whatever the database answers. */
  lemma SnapshotsValid(s: Session, context: Option<Binding>, name: Option<string>, avatar: Option<string>,
                       deptId: Option<int>, first: Answer, second: Answer)
    ensures Of(s.userId, Degraded(s, second))
    ensures Of(s.userId, LoginSnapshot(s.userId, s.displayName, avatar, context, first, second))
    ensures s.tenantId.Some? ==> Of(s.userId, RefreshSnapshot(s, name, avatar, deptId, first, second))
  {
  }

  lemma SwitchFits(s: Session, tenantId: int, deptId: Option<int>, active: bool, a: Answer)
    ensures StageFits(s.userId, AfterSwitch(s, tenantId, deptId, active, a))
  {
  }

  lemma MergeFits(user: int, read: Session, patch: Patch)
    requires Of(user, read) && PatchFits(user, patch)
    ensures Of(user, Merge(read, patch))
  {
  }

  lemma MovedFits(w: World, owner: Owners, step: Step)
    requires Sound(w, owner) && Enabled(w, step) && !step.Login? && !step.Look? && !step.Leave?
    ensures Fits(owner, Moved(w, step)) && Moved(w, step).token == w.requests[step.request].token
  {
    hide Snapshot, RefreshSnapshot, HasAccess;
    var r := w.requests[step.request];
    match step {
      case CheckMember(_, _, a) => SnapshotsValid(r.stage.s, None, None, None, None, a, a);
      case Invalidate(_, _, a) => SnapshotsValid(r.stage.s, None, None, None, None, a, a);
      case Refresh(_, _, name, avatar, deptId, first, second) =>
        SnapshotsValid(r.stage.s, None, name, avatar, deptId, first, second);
      case WriteStore(_) => MergeFits(owner(r.token), r.stage.read, r.stage.patch);
      case CheckFlag(_, _) =>
        MergeFits(owner(r.token), r.stage.s, Flag(false)); MergeFits(owner(r.token), r.stage.s, Flag(true));
      case Switch(_, tenantId, deptId, active, a) => SwitchFits(r.stage.s, tenantId, deptId, active, a);
      case _ =>
    }
  }

  lemma LookFits(owner: Owners, w: World, token: string)
    requires Sound(w, owner) && token in w.store
    ensures Fits(owner, Request(token, Looked(w.store[token]), None, map[]))
  {
  }

  lemma WriteFits(owner: Owners, r: Request)
    requires Fits(owner, r) && r.stage.Merging?
    ensures Of(owner(r.token), r.stage.read) && PatchFits(owner(r.token), r.stage.patch)
  {
  }

  lemma StepSound(owner: Owners, w: World, step: Step)
    requires Sound(w, owner) && Enabled(w, step)
    ensures Sound(Apply(w, owner, step), owner)
  {
    hide Moved, Snapshot, LoginSnapshot, HasAccess, Usable, TenantContext, Valid, Merge, StageFits;
    match step {
      case Login(token, displayName, avatar, bindings, enabled, first, second) =>
        var s := Session(owner(token), displayName, avatar, None, None, [], [], [], false, false);
        SnapshotsValid(s, TenantContext(Usable(bindings, enabled)), None, avatar, None, first, second);
      case Look(token) =>
        LookFits(owner, w, token);
      case Leave(_) =>
      case WriteStore(i) =>
        var r := w.requests[i];
        MovedFits(w, owner, step);
        WriteFits(owner, r);
        MergeFits(owner(r.token), r.stage.read, r.stage.patch);
      case _ =>
        MovedFits(w, owner, step);
    }
  }

  /** A store update that meets no other step stores the session merged with the patch. */
  lemma QuietUpdate(owner: Owners, w: World, i: nat, patch: Patch) returns (v: World)
    requires i < |w.requests| && w.requests[i].stage == Writing(patch, ToEnd) && w.requests[i].token in w.store
    ensures Reaches(owner, w, [ReadStore(i), WriteStore(i)], v)
    ensures var token := w.requests[i].token;
            v.store == w.store[token := Merge(w.store[token], patch)]
  {
    hide Merge;
    var u := Apply(w, owner, ReadStore(i));
    v := Apply(u, owner, WriteStore(i));
    assert Reaches(owner, v, [], v);
    assert Reaches(owner, u, [WriteStore(i)], v);
    assert [ReadStore(i), WriteStore(i)][1..] == [WriteStore(i)];
  }

  /** What such an update writes: an invalidation leaves a session without tenant and rights, a patch of the profile
      changes name and picture alone, an expiry mark the flag alone. */
  lemma WritesBegun(owner: Owners, w: World, step: Step) returns (patch: Patch)
    requires Sound(w, owner) && (step.Invalidate? || step.PatchProfile? || step.MarkExpired?) && Enabled(w, step)
    ensures var v, r := Apply(w, owner, step), w.requests[step.request];
            && v.store == w.store && |v.requests| == |w.requests|
            && v.requests[step.request].stage == Writing(patch, ToEnd) && v.requests[step.request].token == r.token
    ensures forall s ::
              var d := Merge(s, patch);
              && (step.Invalidate? ==> && d.tenantId == None && d.needSelect && d.roles == [] && d.permissions == []
                                       && !d.expired && d.bound == step.answer.bound
                                       && d.userId == owner(w.requests[step.request].token))
              && (step.PatchProfile? ==> && d.displayName == step.displayName && d.avatar == step.avatar
                                         && d.(displayName := s.displayName, avatar := s.avatar) == s)
              && (step.MarkExpired? ==> d.expired && d.(expired := s.expired) == s)
  {
    patch := Apply(w, owner, step).requests[step.request].stage.patch;
    assert Fits(owner, w.requests[step.request]);
  }

  /** An invalidation, a patch of the profile or an expiry mark that meets no other step has exactly its own effect on
      its own session, and none on any other. */
  lemma QuietWrite(owner: Owners, w: World, step: Step) returns (patch: Patch, v: World)
    requires Sound(w, owner) && (step.Invalidate? || step.PatchProfile? || step.MarkExpired?) && Enabled(w, step)
    requires w.requests[step.request].token in w.store
    ensures Reaches(owner, w, [step, ReadStore(step.request), WriteStore(step.request)], v)
    ensures var token := w.requests[step.request].token;
            var s, d := w.store[token], Merge(w.store[token], patch);
            && v.store == w.store[token := d]
            && (step.Invalidate? ==> && d.tenantId == None && d.needSelect && d.roles == [] && d.permissions == []
                                     && !d.expired && d.bound == step.answer.bound && d.userId == owner(token))
            && (step.PatchProfile? ==> && d.displayName == step.displayName && d.avatar == step.avatar
                                       && d.(displayName := s.displayName, avatar := s.avatar) == s)
            && (step.MarkExpired? ==> d.expired && d.(expired := s.expired) == s)
  {
    hide Sound, Merge, Apply;
    patch := WritesBegun(owner, w, step);
    var i := step.request;
    assert i < |w.requests|;
    v := QuietUpdate(owner, Apply(w, owner, step), i, patch);
    assert [step, ReadStore(i), WriteStore(i)][1..] == [ReadStore(i), WriteStore(i)];
  }

  /** A session goes when its user leaves or is turned away, and no other goes with it. */
  lemma OneGoes(owner: Owners, w: World, step: Step, t: string)
    requires Enabled(w, step) && t in w.store
    ensures t !in Apply(w, owner, step).store <==>
            step == Leave(t) || (step.TurnAway? && w.requests[step.request].token == t)
  {
    hide LoginSnapshot, TenantContext, Usable, Merge, Moved;
  }

  /** A request keeps what it resolved first, and no step touches another request. */
  lemma FirstResolveKept(owner: Owners, w: World, step: Step, i: nat)
    requires Enabled(w, step) && i < |w.requests|
    ensures var r, v := w.requests[i], Apply(w, owner, step).requests[i];
            && v.token == r.token
            && (r.cached.Some? ==> v.cached == r.cached)
            && (r.cached.None? && v.cached.Some? ==> v.stage == GoingOn(v.cached.value))
            && (step.Login? || step.Look? || step.Leave? || step.request != i ==> v == r)
  {
    hide LoginSnapshot, TenantContext, Usable, Merge, Degraded, AfterSwitch, AfterRefresh;
  }

  /** After an update a request goes on, or asks, with what is now stored. */
  lemma StoredIsUsed(owner: Owners, w: World, i: nat)
    requires Enabled(w, WriteStore(i))
    ensures var v := Apply(w, owner, WriteStore(i));
            var r := v.requests[i];
            && (r.stage.GoingOn? || r.stage.Asking? ==> r.token in v.store && r.stage.s == v.store[r.token])
            && (r.stage.GoingOn? || r.stage.Asking? || r.stage.Done?)
  {
    hide Merge;
  }

  /** A switch writes exactly when the user is active in the wanted tenant and holds something in it. */
  lemma SwitchWrites(owner: Owners, w: World, step: Step)
    requires step.Switch? && Enabled(w, step)
    ensures var stage, a := Apply(w, owner, step).requests[step.request].stage, step.answer;
            if step.active && (a.roles != [] || a.permissions != []) then
              && stage.Writing? && stage.patch.Whole? && stage.after.ToEnd?
              && stage.patch.snapshot.tenantId == Some(step.tenantId) && !stage.patch.snapshot.needSelect
              && stage.patch.snapshot.roles == a.roles && stage.patch.snapshot.permissions == a.permissions
            else stage.Done?
  {
  }

  /** A refresh writes exactly for a session with a tenant; the tenant stays exactly when the user is active and holds
      something in it. */
  lemma RefreshWrites(owner: Owners, w: World, step: Step)
    requires step.Refresh? && Enabled(w, step)
    ensures var s, stage, a := w.requests[step.request].stage.s, Apply(w, owner, step).requests[step.request].stage,
                               step.first;
            if s.tenantId.None? || s.needSelect then stage.Done?
            else
              && stage.Writing? && stage.patch.Whole? && stage.after.ToEnd?
              && var d := stage.patch.snapshot;
                 if step.active && (a.roles != [] || a.permissions != []) then
                   d.tenantId == s.tenantId && d.roles == a.roles && d.permissions == a.permissions
                 else d.tenantId == None && d.needSelect && d.roles == [] && d.permissions == []
  {
  }

  lemma {:induction false} RunSound(owner: Owners, before: World, steps: seq<Step>, after: World)
    requires Sound(before, owner) && Reaches(owner, before, steps, after)
    ensures Sound(after, owner)
    decreases |steps|
  {
    if steps != [] {
      StepSound(owner, before, steps[0]);
      RunSound(owner, Apply(before, owner, steps[0]), steps[1..], after);
    }
  }

  /** Main result: in every run of logins, resolves, switches, refreshes, profile patches, invalidations, expiry marks
      and deletions, with any answers of the database and any interleaving of their store updates, every stored session
      and every session in the hands of a request has a tenant exactly when none is left to be selected, and exactly
      when it carries some right. */
  lemma StoredValid(owner: Owners, steps: seq<Step>, after: World)
    requires Reaches(owner, START, steps, after)
    ensures Sound(after, owner)
  {
    RunSound(owner, START, steps, after);
  }

  // ---------------------------------------------------------------- what a request goes on with

  /** A session without a tenant that no resolve changes any more. */
  predicate Nowhere(s: Session) {
    s.tenantId.None? && !s.expired
  }

  /** A further resolve of a request starts from the session the first one gave, and asks for that session's tenant. */
  predicate Anchored(r: Request) {
    r.cached.Some? ==>
      match r.stage
      case Looked(s) => r.cached == Some(s)
      case Asking(_, tenant) => r.cached.value.tenantId == Some(tenant)
      case Writing(_, after) => after.ToAsk? ==> r.cached.value.tenantId == Some(after.tenant)
      case Merging(_, _, after) => after.ToAsk? ==> r.cached.value.tenantId == Some(after.tenant)
      case _ => true
  }

  predicate FoundInactive(r: Request, tenant: int) {
    tenant in r.asked && !r.asked[tenant]
  }

  /** The update that takes the tenant away. */
  predicate Drops(patch: Patch, fallback: Session) {
    patch == Whole(fallback) && Nowhere(fallback)
  }

  /** What is left to a request that found its user inactive in a tenant. */
  predicate Barred(r: Request, tenant: int) {
    && (r.cached.Some? ==> r.cached.value.tenantId == Some(tenant) || Nowhere(r.cached.value))
    && match r.stage
       case Looked(_) => r.cached.Some?
       case Asking(_, _) => r.cached.Some?
       case Writing(patch, after) => if after.ToGoOn? then Drops(patch, after.fallback) else r.cached.Some?
       case Merging(patch, _, after) => if after.ToGoOn? then Drops(patch, after.fallback) else r.cached.Some?
       case GoingOn(s) => r.cached.Some? && s.tenantId.None?
       case Done => true
  }

  ghost predicate Careful(r: Request) {
    && Anchored(r)
    && (r.stage.GoingOn? ==> r.cached.Some?)
    && forall t :: FoundInactive(r, t) ==> Barred(r, t)
  }

  ghost predicate AllCareful(w: World) {
    forall i :: 0 <= i < |w.requests| ==> Careful(w.requests[i])
  }

  lemma MovedAnchored(w: World, owner: Owners, step: Step)
    requires Sound(w, owner) && AllCareful(w) && Enabled(w, step) && !step.Login? && !step.Look? && !step.Leave?
    ensures Anchored(Moved(w, step)) && (Moved(w, step).stage.GoingOn? ==> Moved(w, step).cached.Some?)
  {
    hide Merge, Snapshot, RefreshSnapshot, Valid;
    assert Careful(w.requests[step.request]);
  }

  lemma MovedBarred(w: World, owner: Owners, step: Step, t: int)
    requires Sound(w, owner) && AllCareful(w) && Enabled(w, step) && !step.Login? && !step.Look? && !step.Leave?
    requires FoundInactive(Moved(w, step), t)
    ensures Barred(Moved(w, step), t)
  {
    hide RefreshSnapshot, HasAccess;
    var r := w.requests[step.request];
    assert Fits(owner, r) && Careful(r);
    if FoundInactive(r, t) {
      assert Barred(r, t);
    } else {
      assert step.CheckMember? && t == r.stage.tenant && !step.active;
    }
  }

  lemma MovedCareful(w: World, owner: Owners, step: Step)
    requires Sound(w, owner) && AllCareful(w) && Enabled(w, step) && !step.Login? && !step.Look? && !step.Leave?
    ensures Careful(Moved(w, step))
  {
    hide Moved, Barred, Anchored, Sound, AllCareful;
    MovedAnchored(w, owner, step);
    forall t | FoundInactive(Moved(w, step), t) ensures Barred(Moved(w, step), t) { MovedBarred(w, owner, step, t); }
  }

  lemma LookCareful(r: Request)
    requires r.cached.None? && r.asked == map[] && r.stage.Looked?
    ensures Careful(r)
  {
  }

  lemma StepCareful(owner: Owners, w: World, step: Step)
    requires Sound(w, owner) && AllCareful(w) && Enabled(w, step)
    ensures AllCareful(Apply(w, owner, step))
  {
    hide Moved, Stored, Careful;
    match step {
      case Login(_, _, _, _, _, _, _) =>
      case Look(token) => LookCareful(Request(token, Looked(w.store[token]), None, map[]));
      case Leave(_) =>
      case _ => MovedCareful(w, owner, step);
    }
  }

  lemma {:induction false} RunCareful(owner: Owners, before: World, steps: seq<Step>, after: World)
    requires Sound(before, owner) && AllCareful(before) && Reaches(owner, before, steps, after)
    ensures AllCareful(after)
    decreases |steps|
  {
    hide Apply, Enabled;
    if steps != [] {
      StepSound(owner, before, steps[0]);
      StepCareful(owner, before, steps[0]);
      RunCareful(owner, Apply(before, owner, steps[0]), steps[1..], after);
    }
  }

  /** Main result: in every run, a request that found its user inactive in a tenant goes on without any tenant, however
      often it resolves its session again and whatever other requests put into the store. */
  lemma NeverInactive(owner: Owners, steps: seq<Step>, after: World)
    requires Reaches(owner, START, steps, after)
    ensures forall r, t :: r in after.requests && r.stage.GoingOn? && FoundInactive(r, t) ==> r.stage.s.tenantId.None?
  {
    RunCareful(owner, START, steps, after);
  }

  /** A run, followed by one more step. */
  lemma {:induction false} Extend(owner: Owners, before: World, steps: seq<Step>, w: World, step: Step)
    requires Reaches(owner, before, steps, w) && Enabled(w, step)
    ensures Reaches(owner, before, steps + [step], Apply(w, owner, step))
    decreases |steps|
  {
    hide Apply, Enabled;
    if steps == [] {
      assert steps + [step] == [step] && [step][1..] == [];
      assert Reaches(owner, Apply(w, owner, step), [], Apply(w, owner, step));
    } else {
      Extend(owner, Apply(before, owner, steps[0]), steps[1..], w, step);
      assert (steps + [step])[1..] == steps[1..] + [step];
    }
  }

  lemma Nothing(owner: Owners)
    ensures Reaches(owner, START, [], START)
  {
  }

  /** A request goes on with a tenant it has not asked for. */
  predicate GoesOnUnchecked(r: Request, tenant: int) {
    r.stage.GoingOn? && r.stage.s.tenantId == Some(tenant) && tenant !in r.asked
  }

  lemma Then(owner: Owners, steps: seq<Step>, w: World, step: Step, next: World) returns (more: seq<Step>, after: World)
    requires Reaches(owner, START, steps, w) && Enabled(w, step) && Apply(w, owner, step) == next
    ensures Reaches(owner, START, more, after) && after == next && more == steps + [step]
  {
    Extend(owner, START, steps, w, step);
    more, after := steps + [step], next;
  }

  lemma OneBinding(home: Binding)
    ensures Usable([home], {home.tenantId}) == [home] && TenantContext([home]) == Some(home)
  {
    assert [home][..0] == [];
    assert Usable([], {home.tenantId}) == [];
  }

  lemma OneLogin(owner: Owners, token: string, home: Binding, first: Answer)
    returns (steps: seq<Step>, s: Session, w: World)
    requires first.roles != [] || first.permissions != []
    ensures Reaches(owner, START, steps, w) && w == World(map[token := s], [])
    ensures Of(owner(token), s) && s.tenantId == Some(home.tenantId) && s.expired == first.expired
  {
    hide Reaches, Usable, TenantContext;
    OneBinding(home);
    s := LoginSnapshot(owner(token), "", None, Some(home), first, first);
    Nothing(owner);
    steps, w := Then(owner, [], START, Login(token, "", None, [home], {home.tenantId}, first, first),
                     World(map[token := s], []));
  }

  /** A login, two requests that look at its session, and the second of them resolved in the tenant of the login. */
  lemma TwoLook(owner: Owners, token: string, home: Binding, first: Answer)
    returns (steps: seq<Step>, s: Session, w: World)
    requires first.roles != [] || first.permissions != []
    ensures Reaches(owner, START, steps, w)
    ensures Of(owner(token), s) && s.tenantId == Some(home.tenantId) && s.expired == first.expired
    ensures w == World(map[token := s], [Request(token, Looked(s), None, map[]),
                                         Request(token, GoingOn(s), Some(s), map[home.tenantId := true])])
  {
    hide Reaches, Usable, TenantContext, LoginSnapshot, Snapshot, HasAccess, Degraded;
    steps, s, w := OneLogin(owner, token, home, first);
    var store, looked := w.store, Request(token, Looked(s), None, map[]);
    steps, w := Then(owner, steps, w, Look(token), World(store, [looked]));
    steps, w := Then(owner, steps, w, Look(token), World(store, [looked, looked]));
    steps, w := Then(owner, steps, w, CheckFlag(1, first.expired),
                     World(store, [looked, looked.(stage := Asking(s, home.tenantId))]));
    steps, w := Then(owner, steps, w, CheckMember(1, true, first),
                     World(store, [looked, Request(token, GoingOn(s), Some(s), map[home.tenantId := true])]));
  }

  /** Then that second request switches to another tenant. */
  lemma OneSwitches(owner: Owners, token: string, home: Binding, first: Answer, other: int, second: Answer)
    returns (steps: seq<Step>, s: Session, there: Session, done: Request, w: World)
    requires first.roles != [] || first.permissions != []
    requires second.roles != [] || second.permissions != []
    ensures Reaches(owner, START, steps, w)
    ensures s.tenantId == Some(home.tenantId) && !s.needSelect && s.expired == first.expired
            && there.tenantId == Some(other)
    ensures w == World(map[token := there], [Request(token, Looked(s), None, map[]), done])
  {
    hide Reaches, Usable, TenantContext, LoginSnapshot, Degraded;
    steps, s, w := TwoLook(owner, token, home, first);
    there := Snapshot(s.userId, s.displayName, s.avatar, Some(other), None, false, second);
    var looked, gone := w.requests[0], w.requests[1];
    steps, w := Then(owner, steps, w, Switch(1, other, None, true, second),
                     World(w.store, [looked, gone.(stage := Writing(Whole(there), ToEnd))]));
    steps, w := Then(owner, steps, w, ReadStore(1),
                     World(w.store, [looked, gone.(stage := Merging(Whole(there), s, ToEnd))]));
    done := gone.(stage := Done);
    steps, w := Then(owner, steps, w, WriteStore(1), World(map[token := there], [looked, done]));
  }

  /** Going on with an unchecked tenant is possible for every two tenants: between a request's look at the session and
      its update of the expiry flag, another request of the user switches; the first one then asks for the membership in
      the tenant it read, and goes on with the other. */
  lemma UncheckedTenant(owner: Owners, token: string, home: Binding, first: Answer, other: int, second: Answer)
    returns (steps: seq<Step>, w: World)
    requires first.roles != [] || first.permissions != []
    requires second.roles != [] || second.permissions != []
    requires home.tenantId != other
    ensures Reaches(owner, START, steps, w) && w.requests != [] && GoesOnUnchecked(w.requests[0], other)
  {
    hide Reaches, Usable, TenantContext, LoginSnapshot, Snapshot, HasAccess, Degraded;
    var s, there, done;
    steps, s, there, done, w := OneSwitches(owner, token, home, first, other, second);
    var looked, flagged := w.requests[0], there.(expired := !first.expired);
    var flag, ask := Flag(!first.expired), ToAsk(s.(expired := !first.expired), home.tenantId);
    steps, w := Then(owner, steps, w, CheckFlag(0, !first.expired),
                     World(w.store, [looked.(stage := Writing(flag, ask)), done]));
    steps, w := Then(owner, steps, w, ReadStore(0),
                     World(w.store, [looked.(stage := Merging(flag, there, ask)), done]));
    steps, w := Then(owner, steps, w, WriteStore(0),
                     World(map[token := flagged], [looked.(stage := Asking(flagged, home.tenantId)), done]));
    steps, w := Then(owner, steps, w, CheckMember(0, true, second),
                     World(w.store,
                           [Request(token, GoingOn(flagged), Some(flagged), map[home.tenantId := true]), done]));
  }

  // ---------------------------------------------------------------- the service

  datatype Rights = Rights(roles: seq<string>, permissions: seq<string>)

  datatype Database = Database(members: set<(int, int)>, expired: set<int>, enabledUsers: set<int>,
                               enabledTenants: set<int>, rights: map<(int, Option<int>), Rights>,
                               bound: map<int, seq<int>>)

  function RightsOf(db: Database, user: int, tenant: Option<int>): Rights {
    if (user, tenant) in db.rights then db.rights[(user, tenant)] else Rights([], [])
  }

  /** What a database answers at one moment. */
  function AnswerOf(db: Database, user: int, tenant: Option<int>): Answer {
    var rights := RightsOf(db, user, tenant);
    Answer(if user in db.bound then db.bound[user] else [], rights.roles, rights.permissions,
           tenant.Some? && tenant.value in db.expired)
  }

  /** What a resolve makes of a stored session when nobody interferes: the flag is set right, and the tenant is kept
      exactly where the user is a member. */
  function Checked(db: Database, s: Session): Session {
    if NoTenant(s) then s.(expired := false)
    else if (s.userId, s.tenantId.value) in db.members then s.(expired := s.tenantId.value in db.expired)
    else Degraded(s, AnswerOf(db, s.userId, None))
  }

  lemma CheckedMember(db: Database, s: Session)
    ensures Checked(db, s).userId == s.userId
    ensures !NoTenant(Checked(db, s)) ==> (s.userId, Checked(db, s).tenantId.value) in db.members
  {
  }

  /** What a login stores when nobody interferes. */
  function LoggedIn(db: Database, user: int, displayName: string, avatar: Option<string>,
                    context: Option<Binding>): Session
  {
    var tenant := if context.Some? then Some(context.value.tenantId) else None;
    LoginSnapshot(user, displayName, avatar, context, AnswerOf(db, user, tenant), AnswerOf(db, user, None))
  }

  /** What a refresh makes of a checked session when nobody interferes. */
  function Refreshed(db: Database, s: Session, name: Option<string>, avatar: Option<string>,
                     deptId: Option<int>): Session
  {
    if NoTenant(s) then s
    else RefreshSnapshot(s, name, avatar, deptId, AnswerOf(db, s.userId, s.tenantId), AnswerOf(db, s.userId, None))
  }

  // ---------------------------------------------------------------- field by field

  /** The database gives the user some role or some permission in the tenant. */
  predicate HoldsSome(db: Database, user: int, tenant: int) {
    && (user, Some(tenant)) in db.rights
    && (db.rights[(user, Some(tenant))].roles != [] || db.rights[(user, Some(tenant))].permissions != [])
  }

  predicate BoundTo(db: Database, s: Session) {
    s.bound == if s.userId in db.bound then db.bound[s.userId] else []
  }

  /** The session stands in the tenant with exactly the roles and the permissions the database gives there, each in its
      own field, and with the tenant's expiry and the user's bindings. */
  predicate StandsIn(db: Database, s: Session, tenant: int) {
    && s.tenantId == Some(tenant) && !s.needSelect && HoldsSome(db, s.userId, tenant)
    && s.roles == db.rights[(s.userId, Some(tenant))].roles
    && s.permissions == db.rights[(s.userId, Some(tenant))].permissions
    && (s.expired <==> tenant in db.expired) && BoundTo(db, s)
  }

  /** The session waits for a tenant to be selected. */
  predicate Waits(db: Database, s: Session) {
    && s.tenantId == None && s.deptId == None && s.needSelect && s.roles == [] && s.permissions == [] && !s.expired
    && BoundTo(db, s)
  }

  lemma SnapshotByField(db: Database, user: int, displayName: string, avatar: Option<string>, tenant: int,
                        deptId: Option<int>)
    ensures var there := Snapshot(user, displayName, avatar, Some(tenant), deptId, false,
                                  AnswerOf(db, user, Some(tenant)));
            && there.userId == user && there.displayName == displayName && there.avatar == avatar
            && there.deptId == deptId
            && (HasAccess(there) <==> HoldsSome(db, user, tenant)) && (HasAccess(there) ==> StandsIn(db, there, tenant))
    ensures var nowhere := Snapshot(user, displayName, avatar, None, None, true, AnswerOf(db, user, None));
            && Waits(db, nowhere) && nowhere.userId == user && nowhere.displayName == displayName
            && nowhere.avatar == avatar
  {
  }

  /** Main result for a login: it starts in the chosen tenant exactly where the user holds something there, and then
      with those rights; otherwise the session waits. */
  lemma LoginByField(db: Database, user: int, displayName: string, avatar: Option<string>, context: Option<Binding>)
    ensures var s := LoggedIn(db, user, displayName, avatar, context);
            && s.userId == user && s.displayName == displayName && s.avatar == avatar
            && if context.Some? && HoldsSome(db, user, context.value.tenantId)
               then StandsIn(db, s, context.value.tenantId) && s.deptId == context.value.deptId
               else Waits(db, s)
  {
    hide Snapshot, AnswerOf, StandsIn, Waits, HoldsSome, HasAccess;
    SnapshotByField(db, user, displayName, avatar, if context.Some? then context.value.tenantId else 0,
                    if context.Some? then context.value.deptId else None);
  }

  /** A resolve changes only the expiry flag of a session without tenant or of a member's, and makes any other wait. */
  lemma CheckedByField(db: Database, s: Session)
    requires Valid(s)
    ensures var c := Checked(db, s);
            if s.tenantId.None? then !c.expired && c.(expired := s.expired) == s
            else if (s.userId, s.tenantId.value) in db.members then
              (c.expired <==> s.tenantId.value in db.expired) && c.(expired := s.expired) == s
            else Waits(db, c) && c.userId == s.userId && c.displayName == s.displayName && c.avatar == None
  {
    SnapshotByField(db, s.userId, s.displayName, None, 0, None);
  }

  /** Main result for a refresh: a member keeps the tenant exactly where something is held there, with those rights;
      otherwise the session waits. */
  lemma RefreshByField(db: Database, s: Session, name: Option<string>, avatar: Option<string>, deptId: Option<int>)
    requires Valid(s) && s.tenantId.Some? && (s.userId, s.tenantId.value) in db.members
    ensures var c := Refreshed(db, Checked(db, s), name, avatar, deptId);
            && c.userId == s.userId && c.avatar == avatar
            && c.displayName == (if name.Some? then name.value else s.displayName)
            && if HoldsSome(db, s.userId, s.tenantId.value)
               then StandsIn(db, c, s.tenantId.value) && c.deptId == deptId
               else Waits(db, c)
  {
    hide Snapshot, AnswerOf, StandsIn, Waits, HoldsSome, HasAccess;
    SnapshotByField(db, s.userId, if name.Some? then name.value else s.displayName, avatar, s.tenantId.value, deptId);
  }

  lemma RefreshElsewhere(db: Database, s: Session, name: Option<string>, avatar: Option<string>, deptId: Option<int>)
    requires Valid(s) && (s.tenantId.Some? ==> (s.userId, s.tenantId.value) !in db.members)
    ensures Refreshed(db, Checked(db, s), name, avatar, deptId) == Checked(db, s)
  {
  }

  lemma InvValid(service: SessionService, token: string)
    requires service.Inv() && token in service.store
    ensures Valid(service.store[token]) && service.store[token].userId == service.owner(token)
  {
  }

  lemma RefreshStands(service: SessionService, token: string, name: Option<string>, avatar: Option<string>,
                      deptId: Option<int>)
    requires service.Inv() && token in service.store
    ensures var db, s := service.db, service.store[token];
            var c := Refreshed(db, Checked(db, s), name, avatar, deptId);
            && (if c.tenantId.Some? then StandsIn(db, c, c.tenantId.value)
                else c.needSelect && c.roles == [] && c.permissions == [])
            && forall t :: c.tenantId == Some(t) <==>
                           && s.tenantId == Some(t) && (service.owner(token), t) in db.members
                           && HoldsSome(db, service.owner(token), t)
  {
  }

  /** One request's view of the service.  At every suspension point other requests may have changed the store to any
      other valid one, and the database to anything, unless nobody else is there. */
  class SessionService {
    const owner: Owners
    const alone: bool
    var store: Store
    var db: Database
    var cachedSessions: map<string, Option<Session>>
    var cachedActive: map<(int, int), bool>

    ghost predicate Inv()
      reads this
    {
      && AllValid(store, owner)
      && forall t :: t in cachedSessions && cachedSessions[t].Some? ==>
                       Valid(cachedSessions[t].value) && cachedSessions[t].value.userId == owner(t)
    }

    /** A request that has looked at nothing yet, with nobody interfering. */
    ghost predicate Undisturbed(token: string)
      reads this
    {
      alone && token !in cachedSessions && cachedActive == map[]
    }

    constructor (owner: Owners, alone: bool, store: Store, db: Database)
      requires AllValid(store, owner)
      ensures Inv() && this.owner == owner && this.alone == alone && this.store == store && this.db == db
      ensures cachedSessions == map[] && cachedActive == map[]
    {
      this.owner, this.alone, this.store, this.db := owner, alone, store, db;
      cachedSessions, cachedActive := map[], map[];
    }

    /** A suspension point. */
    method Suspend()
      requires Inv()
      modifies this`store, this`db
      ensures Inv()
      ensures alone ==> store == old(store) && db == old(db)
    {
      var newStore: Store := *;
      var newDb: Database := *;
      if !alone && AllValid(newStore, owner) {
        store, db := newStore, newDb;
      }
    }

    /** The store's update: it reads, and later writes what it merged. */
    method Update(token: string, patch: Patch) returns (r: Option<Session>)
      requires Inv() && (patch.Whole? ==> Valid(patch.snapshot) && patch.snapshot.userId == owner(token))
      modifies this`store, this`db
      ensures Inv()
      ensures r.Some? ==> && token in store && store[token] == r.value
                          && (patch.Flag? ==> r.value.expired == patch.expired)
                          && (patch.Whole? ==> r.value == patch.snapshot)
      ensures alone && r.Some? && patch.Flag? ==>
                token in old(store) && r.value.(expired := old(store)[token].expired) == old(store)[token]
      ensures alone && r.Some? && patch.Profile? ==>
                && token in old(store) && r.value.displayName == patch.displayName && r.value.avatar == patch.avatar
                && r.value.(displayName := old(store)[token].displayName, avatar := old(store)[token].avatar)
                   == old(store)[token]
      ensures alone ==> && db == old(db) && (r.Some? <==> token in old(store))
                        && store == if token in old(store) then old(store)[token := Merge(old(store)[token], patch)]
                                    else old(store)
    {
      Suspend();
      if token !in store { return None; }
      var current := store[token];
      Suspend();
      var merged := Merge(current, patch);
      store := store[token := merged];
      return Some(merged);
    }

    method IsUserActive(user: int, tenant: int) returns (active: bool)
      requires Inv()
      modifies this`store, this`db
      ensures Inv()
      ensures alone ==> store == old(store) && db == old(db) && active == ((user, tenant) in db.members)
    {
      Suspend();
      active := (user, tenant) in db.members;
    }

    method IsTenantExpired(tenant: int) returns (expired: bool)
      requires Inv()
      modifies this`store, this`db
      ensures Inv()
      ensures alone ==> store == old(store) && db == old(db) && expired == (tenant in db.expired)
    {
      Suspend();
      expired := tenant in db.expired;
    }

    /** Reads expiry, roles and permissions for a tenant, the platform-wide ones without a tenant, or none while one is
        to be selected. */
    method LoadAuthSnapshot(user: int, displayName: string, avatar: Option<string>, tenantId: Option<int>,
                            deptId: Option<int>, needSelect: bool)
      returns (s: Session)
      requires Inv()
      modifies this`store, this`db
      ensures Inv() && s.userId == user && s.tenantId == tenantId && s.needSelect == needSelect && s.deptId == deptId
      ensures (needSelect <==> tenantId.None?) ==> (Valid(s) <==> (tenantId.Some? ==> HasAccess(s)))
      ensures needSelect ==> !s.expired
      ensures alone ==> && store == old(store) && db == old(db)
                        && s == Snapshot(user, displayName, avatar, tenantId, deptId, needSelect,
                                         AnswerOf(db, user, tenantId))
                        && BoundTo(db, s) && s.displayName == displayName && s.avatar == avatar
      ensures alone && needSelect && tenantId.None? && deptId.None? ==> Waits(db, s)
      ensures alone && !needSelect && (user, tenantId) in db.rights ==>
                s.roles == db.rights[(user, tenantId)].roles && s.permissions == db.rights[(user, tenantId)].permissions
      ensures alone && !needSelect ==> (s.expired <==> tenantId.Some? && tenantId.value in db.expired)
    {
      Suspend();
      var bound := if user in db.bound then db.bound[user] else [];
      var roles, permissions, expired := [], [], false;
      if tenantId.Some? && !needSelect {
        expired := IsTenantExpired(tenantId.value);
        Suspend();
        var rights := RightsOf(db, user, tenantId);
        roles, permissions := rights.roles, rights.permissions;
      } else if !needSelect {
        Suspend();
        var rights := RightsOf(db, user, None);
        roles, permissions := rights.roles, rights.permissions;
      }
      s := Session(user, displayName, avatar, tenantId, deptId, roles, permissions, bound, needSelect, expired);
    }

    method DegradeSessionSnapshot(s: Session) returns (d: Session)
      requires Inv()
      modifies this`store, this`db
      ensures Inv() && Valid(d) && d.tenantId == None && d.userId == s.userId && !d.expired
      ensures alone ==> && store == old(store) && db == old(db)
                        && d == Degraded(s, AnswerOf(db, s.userId, None))
    {
      d := LoadAuthSnapshot(s.userId, s.displayName, None, None, None, true);
    }

    /** Sets the expiry flag right where the stored one is wrong. */
    method SyncFlag(token: string, s: Session) returns (r: Session, ghost expired: bool, ghost written: Option<Session>)
      requires Inv() && Valid(s) && s.userId == owner(token)
      modifies this`store, this`db
      ensures Inv() && r == Flagged(s, expired, written)
      ensures written.Some? ==> Valid(written.value) && written.value.userId == s.userId
      ensures alone && token in old(store) && old(store)[token] == s ==>
                && db == old(db) && store == old(store)[token := r]
                && r == s.(expired := !NoTenant(s) && s.tenantId.value in db.expired)
    {
      written := None;
      if NoTenant(s) {
        expired := false;
        if s.expired {
          var updated := Update(token, Flag(false));
          written := updated;
          return if updated.Some? then updated.value else s.(expired := false), expired, written;
        }
        return s, expired, written;
      }
      var now := IsTenantExpired(s.tenantId.value);
      expired := now;
      if s.expired != now {
        var updated := Update(token, Flag(now));
        written := updated;
        return if updated.Some? then updated.value else s.(expired := now), expired, written;
      }
      return s, expired, written;
    }

    /** Checks the membership of the session's user in the session's tenant, once per request, and degrades the session
        when there is none. */
    method EnsureActiveTenantSession(token: string, s: Session) returns (r: Session, ghost a: Answers)
      requires Inv() && Valid(s) && s.userId == owner(token)
      modifies this`store, this`db, this`cachedActive
      ensures Inv() && Faithful(s, a) && r == Ensured(s, a) && r.userId == s.userId
      ensures !NoTenant(s) && (s.userId, s.tenantId.value) in old(cachedActive) ==>
                a.active == old(cachedActive)[(s.userId, s.tenantId.value)]
      ensures cachedActive == if NoTenant(s) then old(cachedActive)
                              else old(cachedActive)[(s.userId, s.tenantId.value) := a.active]
      ensures alone && old(cachedActive) == map[] && token in old(store) && old(store)[token] == s ==>
                db == old(db) && r == Checked(db, s) && store == old(store)[token := r]
    {
      hide AllValid, AnswerOf, RightsOf;
      var session, expired, written := SyncFlag(token, s);
      ghost var nobody := Degraded(s, Answer([], [], [], false));
      a := Answers(expired, written, true, nobody, None);
      if NoTenant(s) { return session, a; }
      var tid := s.tenantId.value;
      var active: bool;
      if (s.userId, tid) in cachedActive {
        active := cachedActive[(s.userId, tid)];
      } else {
        active := IsUserActive(s.userId, tid);
      }
      cachedActive := cachedActive[(s.userId, tid) := active];
      if active { return session, a; }
      var degraded := DegradeSessionSnapshot(session);
      var updated := Update(token, Whole(degraded));
      a := Answers(expired, written, false, degraded, updated);
      return if updated.Some? then updated.value else degraded, a;
    }

    /** The session of a token for this request.  In a fresh request it never has a tenant that the request's own
        check found the user inactive in. */
    method Resolve(token: string) returns (r: Option<Session>)
      requires Inv()
      modifies this`store, this`db, this`cachedActive, this`cachedSessions
      ensures Inv()
      ensures r.Some? ==> Valid(r.value) && r.value.userId == owner(token)
      ensures token !in old(cachedSessions) && old(cachedActive) == map[] && r.Some? && r.value.tenantId.Some? ==>
                var pair := (owner(token), r.value.tenantId.value);
                pair in cachedActive ==> cachedActive[pair]
      ensures old(Undisturbed(token)) ==>
                && db == old(db)
                && (r.Some? <==> token in old(store) && owner(token) in db.enabledUsers)
                && (r.Some? ==> r.value == Checked(db, old(store)[token]) && store == old(store)[token := r.value])
                && (r.None? ==> store == old(store) - {token})
    {
      if token in cachedSessions {
        var cached := cachedSessions[token];
        if cached.None? { return None; }
        var session, a := EnsureActiveTenantSession(token, cached.value);
        CheckExact(cached.value, a);
        return Some(session);
      }
      Suspend();
      if token !in store {
        cachedSessions := cachedSessions[token := None];
        return None;
      }
      var session := store[token];
      Suspend();
      if session.userId !in db.enabledUsers {
        Suspend();
        store := store - {token};
        cachedSessions := cachedSessions[token := None];
        return None;
      }
      var ensured, a := EnsureActiveTenantSession(token, session);
      CheckExact(session, a);
      cachedSessions := cachedSessions[token := Some(ensured)];
      return Some(ensured);
    }

    /** A login with the right password: it fails for a disabled account or without a usable binding, and otherwise
        stores a session in one of the usable tenants in which the user holds something, or in none. */
    method Login(token: string, user: int, displayName: string, avatar: Option<string>, bindings: seq<Binding>)
      returns (r: Result<Session>)
      requires Inv() && token !in store && owner(token) == user
      modifies this`store, this`db
      ensures Inv()
      ensures r.Ok? ==> && token in store && store[token] == r.value && Valid(r.value)
                        && (r.value.tenantId.Some? ==> HasAccess(r.value))
      ensures alone ==> && db == old(db)
                        && (r.Ok? <==> user in db.enabledUsers && Usable(bindings, db.enabledTenants) != [])
                        && (r.Ok? ==> && r.value == LoggedIn(db, user, displayName, avatar,
                                                             TenantContext(Usable(bindings, db.enabledTenants)))
                                      && store == old(store)[token := r.value])
                        && (r.Error? ==> store == old(store))
      ensures alone && r.Ok? ==> && r.value.userId == user && r.value.displayName == displayName
                                 && r.value.avatar == avatar
                                 && if r.value.tenantId.Some? then StandsIn(db, r.value, r.value.tenantId.value)
                                    else Waits(db, r.value)
    {
      LoginByField(db, user, displayName, avatar, TenantContext(Usable(bindings, db.enabledTenants)));
      Suspend();
      if user !in db.enabledUsers { return Error("account disabled"); }
      Suspend();
      var usable := Usable(bindings, db.enabledTenants);
      if usable == [] { return Error("no tenant bound"); }
      var context := TenantContext(usable);
      var snapshot: Session;
      if context.Some? {
        snapshot := LoadAuthSnapshot(user, displayName, avatar, Some(context.value.tenantId), context.value.deptId,
                                     false);
        if !HasAccess(snapshot) {
          snapshot := LoadAuthSnapshot(user, displayName, avatar, None, None, true);
        }
      } else {
        snapshot := LoadAuthSnapshot(user, displayName, avatar, None, None, true);
      }
      store := store[token := snapshot];
      return Ok(snapshot);
    }

    /** A switch ends in the wanted tenant with some right in it, or changes nothing beyond the resolve. */
    method SwitchTenant(token: string, tenantId: int, deptId: Option<int>) returns (r: Result<Session>)
      requires Inv()
      modifies this`store, this`db, this`cachedActive, this`cachedSessions
      ensures Inv()
      ensures r.Ok? ==> && token in store && store[token] == r.value
                        && r.value.tenantId == Some(tenantId) && !r.value.needSelect && HasAccess(r.value)
      ensures old(Undisturbed(token)) && token in old(store) && owner(token) in old(db).enabledUsers ==>
                && db == old(db)
                && var s := Checked(db, old(store)[token]);
                   var there := Snapshot(owner(token), s.displayName, s.avatar, Some(tenantId), deptId, false,
                                     AnswerOf(db, owner(token), Some(tenantId)));
                   && (r.Ok? <==> (owner(token), tenantId) in db.members && HasAccess(there))
                   && (r.Ok? ==> r.value == there)
                   && store == old(store)[token := if r.Ok? then there else s]
      ensures old(Undisturbed(token)) && token in old(store) && owner(token) in old(db).enabledUsers ==>
                && (r.Ok? <==> (owner(token), tenantId) in db.members && HoldsSome(db, owner(token), tenantId))
                && (r.Ok? ==> && StandsIn(db, r.value, tenantId) && r.value.userId == owner(token)
                              && r.value.displayName == old(store)[token].displayName && r.value.deptId == deptId)
    {
      hide Checked, Snapshot, AnswerOf, AllValid, Inv, RightsOf, StandsIn, HoldsSome, HasAccess;
      ghost var before, data := store, db;
      if token in before {
        assert Valid(before[token]) && before[token].userId == owner(token) by { InvValid(this, token); }
        CheckedByField(data, before[token]);
        SnapshotByField(data, owner(token), before[token].displayName, Checked(data, before[token]).avatar, tenantId,
                        deptId);
      }
      var session := Resolve(token);
      if session.None? { return Error("login expired"); }
      var user := session.value.userId;
      var active := IsUserActive(user, tenantId);
      if !active { return Error("no access to this tenant"); }
      Suspend();
      var snapshot := LoadAuthSnapshot(user, session.value.displayName, session.value.avatar, Some(tenantId), deptId,
                                       false);
      if !HasAccess(snapshot) { return Error("no rights in this tenant"); }
      var updated := Update(token, Whole(snapshot));
      if updated.None? { return Error("session update failed"); }
      return Ok(updated.value);
    }

    /** Takes the tenant's snapshot again, or none where the user holds nothing in it. */
    method Reload(token: string, session: Session, deptId: Option<int>, name: Option<string>, avatar: Option<string>)
      returns (r: Result<Session>)
      requires Inv() && Valid(session) && session.tenantId.Some? && session.userId == owner(token)
      modifies this`store, this`db
      ensures Inv()
      ensures r.Ok? ==> && Valid(r.value) && r.value.userId == owner(token)
                        && (r.value.tenantId.Some? ==> HasAccess(r.value))
      ensures alone && token in old(store) ==>
                && db == old(db) && r == Ok(Refreshed(db, session, name, avatar, deptId))
                && store == old(store)[token := r.value]
      ensures alone && token !in old(store) ==> r.Error? && store == old(store) && db == old(db)
    {
      hide AllValid, Inv, Snapshot, AnswerOf;
      var displayName := if name.Some? then name.value else session.displayName;
      var snapshot := LoadAuthSnapshot(session.userId, displayName, avatar, session.tenantId, deptId, false);
      if !HasAccess(snapshot) {
        snapshot := LoadAuthSnapshot(session.userId, displayName, avatar, None, None, true);
      }
      var updated := Update(token, Whole(snapshot));
      if updated.None? { return Error("session update failed"); }
      return Ok(updated.value);
    }

    /** A refresh keeps the tenant where the user is still active and holds something, and drops it otherwise. */
    method Refresh(token: string, deptId: Option<int>, name: Option<string>, avatar: Option<string>)
      returns (r: Result<Session>)
      requires Inv()
      modifies this`store, this`db, this`cachedActive, this`cachedSessions
      ensures Inv()
      ensures r.Ok? ==> Valid(r.value) && r.value.userId == owner(token)
      ensures r.Ok? && r.value.tenantId.Some? ==> HasAccess(r.value)
      ensures old(Undisturbed(token)) ==>
                && db == old(db)
                && (r.Ok? <==> token in old(store) && owner(token) in db.enabledUsers)
                && (r.Ok? ==> && r.value == Refreshed(db, Checked(db, old(store)[token]), name, avatar, deptId)
                              && store == old(store)[token := r.value])
                && (r.Ok? ==> if r.value.tenantId.Some? then StandsIn(db, r.value, r.value.tenantId.value)
                              else r.value.needSelect && r.value.roles == [] && r.value.permissions == [])
                && (r.Ok? ==> forall t :: r.value.tenantId == Some(t) <==>
                                          && old(store)[token].tenantId == Some(t) && (owner(token), t) in db.members
                                          && HoldsSome(db, owner(token), t))
    {
      hide Checked, Snapshot, AnswerOf, AllValid, Inv, RightsOf, Merge, HasAccess, Valid, StandsIn, HoldsSome;
      ghost var before, data := store, db;
      if token in before { RefreshStands(this, token, name, avatar, deptId); }
      var resolved := Resolve(token);
      if resolved.None? { return Error("login expired"); }
      var session := resolved.value;
      if token in before { CheckedMember(data, before[token]); }
      if NoTenant(session) { return Ok(session); }
      var tenantId := session.tenantId.value;
      var active := IsUserActive(session.userId, tenantId);
      if !active {
        var nowhere := LoadAuthSnapshot(session.userId, session.displayName, None, None, None, true);
        var dropped := Update(token, Whole(nowhere));
        if dropped.None? { return Error("session update failed"); }
        return Ok(dropped.value);
      }
      Suspend();
      r := Reload(token, session, deptId, name, avatar);
    }

    /** Degrades every session a user has in a tenant; alone, none is left there and all others stay as they are. */
    method InvalidateTenantAccess(userId: int, tenantId: int, tokens: seq<string>)
      requires Inv() && forall t :: t in tokens ==> owner(t) == userId
      modifies this`store, this`db
      ensures Inv()
      ensures alone ==> store.Keys == old(store).Keys && db == old(db)
      ensures alone ==> forall t :: t in tokens && t in old(store) && old(store)[t].tenantId == Some(tenantId) ==>
                                      && Waits(db, store[t]) && store[t].userId == userId
                                      && store[t].displayName == old(store)[t].displayName
      ensures alone ==> forall t :: t in old(store) ==>
                                      store[t] == if t in tokens && old(store)[t].tenantId == Some(tenantId)
                                                  then Degraded(old(store)[t], AnswerOf(db, userId, None))
                                                  else old(store)[t]
    {
      for i := 0 to |tokens|
        invariant Inv()
        invariant alone ==> store.Keys == old(store).Keys && db == old(db)
        invariant alone ==> forall t :: t in old(store) ==>
                                          store[t] == if t in tokens[..i] && old(store)[t].tenantId == Some(tenantId)
                                                      then Degraded(old(store)[t], AnswerOf(db, userId, None))
                                                      else old(store)[t]
      {
        assert tokens[..i + 1] == tokens[..i] + [tokens[i]];
        var token := tokens[i];
        Suspend();
        if token in store && store[token].tenantId == Some(tenantId) {
          var degraded := DegradeSessionSnapshot(store[token]);
          var _ := Update(token, Whole(degraded));
        }
      }
    }

    /** Marks the sessions in expired tenants; alone, exactly those listed sessions change, and only in their flag. */
    method SyncExpiredFlags(expiredTenants: set<int>, tokens: seq<string>)
      requires Inv()
      modifies this`store, this`db, this`cachedSessions
      ensures Inv()
      ensures alone ==> && store.Keys == old(store).Keys
                        && forall t :: t in old(store) ==>
                             store[t] == if t in tokens && old(store)[t].tenantId.Some?
                               && old(store)[t].tenantId.value in expiredTenants
                                         then old(store)[t].(expired := true) else old(store)[t]
    {
      for i := 0 to |tokens|
        invariant Inv()
        invariant alone ==> && store.Keys == old(store).Keys
                            && forall t :: t in old(store) ==>
                                 store[t] == if t in tokens[..i] && old(store)[t].tenantId.Some?
                                   && old(store)[t].tenantId.value in expiredTenants
                                             then old(store)[t].(expired := true) else old(store)[t]
      {
        assert tokens[..i + 1] == tokens[..i] + [tokens[i]];
        var token := tokens[i];
        Suspend();
        if token in store && store[token].tenantId.Some? && store[token].tenantId.value in expiredTenants
           && !store[token].expired {
          var updated := Update(token, Flag(true));
          if updated.Some? { cachedSessions := cachedSessions[token := updated]; }
        }
      }
    }
  }
}
