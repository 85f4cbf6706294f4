/**
 * `requirePermission`: a cache of grant decisions keyed on permission epochs, read by requests in
 * flight while roles are assigned, revoked and edited and accounts are deleted. Each step is one
 * transaction, one database read or one cache call.
 */
module Permissions {
  import opened Wrappers

  type UserId = nat
  type RoleId = nat
  type OrgId = nat
  type Code = nat
  type RequestId = nat

  datatype User = User(epoch: nat, active: bool, deleted: bool)

  datatype Role = Role(org: Option<OrgId>, deleted: bool)

  /** `permissionCacheKey` for scope 'global', as the tuple its text spells out. */
  datatype CacheKey = CacheKey(user: UserId, userEpoch: nat, org: Option<OrgId>, orgEpoch: nat, code: Code)

  /**
   * A request between `authenticate` and the guard's return. `since` and `at` are positions in the
   * run; `seen` collects the truth of the user's grant at every moment of the request so far.
   */
  datatype Request =
    | Authenticated(key: CacheKey, since: nat, seen: set<bool>)
    | Missed(key: CacheKey, since: nat, seen: set<bool>)
    | Decided(key: CacheKey, since: nat, seen: set<bool>, at: nat, allowed: bool)

  datatype State = State(
    moment: nat,
    users: map<UserId, User>,
    roles: map<RoleId, Role>,
    codes: set<Code>,
    userRoles: set<(UserId, RoleId)>,
    rolePermissions: set<(RoleId, Code)>,
    cache: map<CacheKey, bool>,
    pending: multiset<(CacheKey, bool)>,
    requests: map<RequestId, Request>)

  datatype Step =
    | AddUser(user: UserId)
    | SetActive(user: UserId, active: bool)
    | AddPermission(code: Code)
    | CreateRole(role: RoleId, org: Option<OrgId>, permissions: set<Code>)
    | AssignRole(user: UserId, role: RoleId)
    | RevokeRole(user: UserId, role: RoleId)
    | UpdateRolePermissions(role: RoleId, desired: set<Code>)
    | BumpEpoch(user: UserId)
    | DeleteAccount(user: UserId)
    | Authenticate(request: RequestId, user: UserId, org: Option<OrgId>, orgEpoch: nat, code: Code)
    | ReadCache(request: RequestId)
    | CacheUnavailable(request: RequestId)
    | ReadGrant(request: RequestId)
    | LandCacheWrite(key: CacheKey, allowed: bool)
    | EvictCacheEntry(key: CacheKey)

  function Init(): State {
    State(0, map[], map[], {}, {}, {}, map[], multiset{}, map[])
  }

  predicate PlatformRole(s: State, role: RoleId) {
    role in s.roles && s.roles[role].org.None? && !s.roles[role].deleted
  }

  /** `hasGlobalGrant`. */
  predicate Grant(s: State, user: UserId, code: Code) {
    exists role | role in s.roles ::
      && (user, role) in s.userRoles
      && PlatformRole(s, role)
      && (role, code) in s.rolePermissions
      && code in s.codes
  }

  predicate Live(s: State, user: UserId) {
    user in s.users && !s.users[user].deleted
  }

  function Bump(users: map<UserId, User>, who: set<UserId>): map<UserId, User> {
    map u | u in users :: if u in who then users[u].(epoch := users[u].epoch + 1) else users[u]
  }

  /** The users `bumpPermissionEpochForRoleHolders` reaches; soft-deleted ones are filtered out. */
  function Holders(s: State, role: RoleId): set<UserId> {
    set u | u in s.users && Live(s, u) && (u, role) in s.userRoles
  }

  function ReplacePermissions(all: set<(RoleId, Code)>, role: RoleId, desired: set<Code>): set<(RoleId, Code)> {
    (set p | p in all && p.0 != role) + (set c | c in desired :: (role, c))
  }

  function GrantStep(s: State, step: Step): State {
    match step
    case AssignRole(u, role) =>
      if PlatformRole(s, role) && Live(s, u) then
        s.(userRoles := s.userRoles + {(u, role)}, users := Bump(s.users, {u}))
      else s
    case RevokeRole(u, role) =>
      if (u, role) in s.userRoles && Live(s, u) then
        s.(userRoles := s.userRoles - {(u, role)}, users := Bump(s.users, {u}))
      else s
    case UpdateRolePermissions(role, desired) =>
      if role in s.roles && !s.roles[role].deleted && desired <= s.codes then
        s.(rolePermissions := ReplacePermissions(s.rolePermissions, role, desired),
           users := if s.roles[role].org.Some? then s.users else Bump(s.users, Holders(s, role)))
      else s
    case DeleteAccount(u) =>
      if Live(s, u) then
        s.(users := s.users[u := s.users[u].(active := false, deleted := true)],
           userRoles := set h | h in s.userRoles && h.0 != u)
      else s
    case _ => s
  }

  function RequestStep(s: State, step: Step): State
    requires step.ReadCache? || step.CacheUnavailable? || step.ReadGrant?
  {
    if step.request !in s.requests then s
    else
      var r := s.requests[step.request];
      match step
      case ReadCache(id) =>
        if !r.Authenticated? then s
        else if r.key in s.cache then
          s.(requests := s.requests[id := Decided(r.key, r.since, r.seen, s.moment, s.cache[r.key])])
        else
          s.(requests := s.requests[id := Missed(r.key, r.since, r.seen)])
      case CacheUnavailable(id) =>
        if r.Authenticated? then s.(requests := s.requests[id := Missed(r.key, r.since, r.seen)]) else s
      case ReadGrant(id) =>
        if r.Missed? then
          var allowed := Grant(s, r.key.user, r.key.code);
          s.(requests := s.requests[id := Decided(r.key, r.since, r.seen, s.moment, allowed)],
             pending := s.pending + multiset{(r.key, allowed)})
        else s
  }

  function Act(s: State, step: Step): State {
    match step
    case AddUser(u) => if u in s.users then s else s.(users := s.users[u := User(0, true, false)])
    case SetActive(u, active) =>
      if Live(s, u) then s.(users := s.users[u := s.users[u].(active := active)]) else s
    case AddPermission(code) => s.(codes := s.codes + {code})
    case CreateRole(role, org, permissions) =>
      if role in s.roles || !(permissions <= s.codes) then s
      else s.(roles := s.roles[role := Role(org, false)],
              rolePermissions := ReplacePermissions(s.rolePermissions, role, permissions))
    case BumpEpoch(u) => if Live(s, u) then s.(users := Bump(s.users, {u})) else s
    case Authenticate(id, u, org, orgEpoch, code) =>
      if id in s.requests || !Live(s, u) || !s.users[u].active then s
      else s.(requests := s.requests[id :=
                Authenticated(CacheKey(u, s.users[u].epoch, org, orgEpoch, code), s.moment + 1, {})])
    case LandCacheWrite(key, allowed) =>
      if (key, allowed) in s.pending then s.(cache := s.cache[key := allowed], pending := s.pending - multiset{(key, allowed)})
      else s
    case EvictCacheEntry(key) => s.(cache := s.cache - {key})
    case ReadCache(_) => RequestStep(s, step)
    case CacheUnavailable(_) => RequestStep(s, step)
    case ReadGrant(_) => RequestStep(s, step)
    case _ => GrantStep(s, step)
  }

  function Observed(s: State, r: Request): Request {
    if r.Decided? then r else r.(seen := r.seen + {Grant(s, r.key.user, r.key.code)})
  }

  function Next(s: State, step: Step): State {
    var t := Act(s, step);
    t.(moment := s.moment + 1, requests := map id | id in t.requests :: Observed(t, t.requests[id]))
  }

  /** The state after a run; `Run(steps[..k])` is the state at its k-th moment. */
  function Run(steps: seq<Step>): State {
    if steps == [] then Init() else Next(Run(steps[..|steps| - 1]), steps[|steps| - 1])
  }

  // ---------------------------------------------------------------------------------------------
  // The invariant
  // ---------------------------------------------------------------------------------------------

  ghost predicate TablesAgree(s: State) {
    && (forall h :: h in s.userRoles ==> Live(s, h.0) && h.1 in s.roles)
    && (forall p :: p in s.rolePermissions ==> p.0 in s.roles && p.1 in s.codes)
  }

  /**
   * A cached or soon-to-be-cached decision is the current grant while its epoch is current, and was
   * true at some moment of every undecided request that may still read it.
   */
  ghost predicate EntryAgrees(s: State, key: CacheKey, allowed: bool) {
    && key.user in s.users
    && key.userEpoch <= s.users[key.user].epoch
    && (key.userEpoch == s.users[key.user].epoch && Live(s, key.user) ==> allowed == Grant(s, key.user, key.code))
    && (forall id :: id in s.requests && !s.requests[id].Decided? && s.requests[id].key == key ==>
          allowed in s.requests[id].seen)
  }

  ghost predicate RequestAgrees(s: State, r: Request) {
    && r.key.user in s.users
    && r.key.userEpoch <= s.users[r.key.user].epoch
    && (!r.Decided? ==> Grant(s, r.key.user, r.key.code) in r.seen)
    && (r.Decided? ==> r.allowed in r.seen)
  }

  ghost predicate Inv(s: State) {
    && TablesAgree(s)
    && (forall key :: key in s.cache ==> EntryAgrees(s, key, s.cache[key]))
    && (forall p :: p in s.pending ==> EntryAgrees(s, p.0, p.1))
    && (forall id :: id in s.requests ==> RequestAgrees(s, s.requests[id]))
  }

  ghost predicate SameGrant(s: State, t: State, user: UserId, code: Code) {
    Grant(t, user, code) == Grant(s, user, code)
  }

  /** The rows `hasGlobalGrant` can reach through one role. */
  predicate ReachesThrough(s: State, user: UserId, role: RoleId, code: Code) {
    && role in s.roles && (user, role) in s.userRoles && PlatformRole(s, role)
    && (role, code) in s.rolePermissions && code in s.codes
  }

  lemma SameRowsSameGrant(s: State, t: State, user: UserId, code: Code)
    requires forall role :: ReachesThrough(s, user, role, code) <==> ReachesThrough(t, user, role, code)
    ensures SameGrant(s, t, user, code)
  {
    if Grant(s, user, code) {
      var role :| role in s.roles && (user, role) in s.userRoles && PlatformRole(s, role)
        && (role, code) in s.rolePermissions && code in s.codes;
      assert ReachesThrough(s, user, role, code);
    }
    if Grant(t, user, code) {
      var role :| role in t.roles && (user, role) in t.userRoles && PlatformRole(t, role)
        && (role, code) in t.rolePermissions && code in t.codes;
      assert ReachesThrough(t, user, role, code);
    }
  }

  lemma RoleEditFollowsEpochs(s: State, role: RoleId, desired: set<Code>, user: UserId, code: Code)
    requires TablesAgree(s) && user in s.users
    ensures var t := Act(s, UpdateRolePermissions(role, desired));
      && user in t.users && s.users[user].epoch <= t.users[user].epoch
      && (t.users[user].epoch == s.users[user].epoch && Live(t, user) ==> SameGrant(s, t, user, code))
  {
    var t := Act(s, UpdateRolePermissions(role, desired));
    if t.users[user].epoch == s.users[user].epoch && Live(t, user) {
      forall r
        ensures ReachesThrough(s, user, r, code) <==> ReachesThrough(t, user, r, code)
      {
        if r == role && t != s && s.roles[role].org.None? {
          assert user !in Holders(s, role);
        }
      }
      SameRowsSameGrant(s, t, user, code);
    }
  }

  lemma RoleCreationFollowsEpochs(s: State, role: RoleId, org: Option<OrgId>, permissions: set<Code>, user: UserId, code: Code)
    requires TablesAgree(s) && user in s.users
    ensures SameGrant(s, Act(s, CreateRole(role, org, permissions)), user, code)
  {
    var t := Act(s, CreateRole(role, org, permissions));
    forall r
      ensures ReachesThrough(s, user, r, code) <==> ReachesThrough(t, user, r, code)
    {
      if r == role && t != s {
        assert (user, role) !in s.userRoles;
      }
    }
    SameRowsSameGrant(s, t, user, code);
  }

  /** Steps that leave roles and their permissions alone reach a grant only through the user's own roles. */
  lemma OwnRolesFollowEpochs(s: State, step: Step, user: UserId, code: Code)
    requires TablesAgree(s) && user in s.users && !step.UpdateRolePermissions? && !step.CreateRole?
    ensures user in Act(s, step).users && s.users[user].epoch <= Act(s, step).users[user].epoch
    ensures Live(Act(s, step), user) ==> Live(s, user)
    ensures Act(s, step).users[user].epoch == s.users[user].epoch && Live(Act(s, step), user) ==>
              forall r :: ReachesThrough(s, user, r, code) <==> ReachesThrough(Act(s, step), user, r, code)
  {
    hide Grant;
    if step.ReadCache? || step.CacheUnavailable? || step.ReadGrant? {
      hide GrantStep, Bump;
    } else {
      hide RequestStep;
    }
  }

  /** A live user's grants change only together with the epoch. */
  lemma GrantsFollowEpochs(s: State, step: Step, user: UserId, code: Code)
    requires TablesAgree(s) && user in s.users
    ensures user in Act(s, step).users && s.users[user].epoch <= Act(s, step).users[user].epoch
    ensures Act(s, step).users[user].epoch == s.users[user].epoch && Live(Act(s, step), user) ==>
              Live(s, user) && SameGrant(s, Act(s, step), user, code)
  {
    match step
    case UpdateRolePermissions(role, desired) => RoleEditFollowsEpochs(s, role, desired, user, code);
    case CreateRole(role, org, permissions) => RoleCreationFollowsEpochs(s, role, org, permissions, user, code);
    case _ =>
      hide Act, Grant, ReachesThrough;
      OwnRolesFollowEpochs(s, step, user, code);
      if Act(s, step).users[user].epoch == s.users[user].epoch && Live(Act(s, step), user) {
        SameRowsSameGrant(s, Act(s, step), user, code);
      }
  }

  lemma TablesStayAgreed(s: State, step: Step)
    requires TablesAgree(s)
    ensures TablesAgree(Act(s, step))
  {
  }

  /** What a step may do to a request: add the present to what it has seen, or decide it. */
  ghost predicate Evolves(s: State, t: State, id: RequestId) {
    && id in s.requests && id in t.requests
    && var before, after := s.requests[id], t.requests[id];
    && after.key == before.key && after.since == before.since
    && (before.Decided? ==> after == before)
    && (!before.Decided? && after.Decided? ==> after.seen == before.seen && after.at == s.moment)
    && (!after.Decided? ==> after.seen == before.seen + {Grant(t, after.key.user, after.key.code)})
  }

  ghost predicate Arrives(s: State, t: State, id: RequestId) {
    && id !in s.requests && id in t.requests
    && var r := t.requests[id];
    && r.Authenticated? && r.since == s.moment + 1
    && r.seen == {Grant(t, r.key.user, r.key.code)}
    && Live(s, r.key.user) && r.key.userEpoch == s.users[r.key.user].epoch
    && t.users == s.users
  }

  lemma RequestsUntouchedByGrants(s: State, step: Step)
    ensures GrantStep(s, step).requests == s.requests
  {
    hide Grant, Bump, Holders, ReplacePermissions;
  }

  /** Before the present is added: a step leaves a request, decides it, or lets it in. */
  lemma RequestsAct(s: State, step: Step, id: RequestId)
    requires id in Act(s, step).requests
    ensures var a := Act(s, step); var after := a.requests[id];
      if id in s.requests then
        var before := s.requests[id];
        && after.key == before.key && after.since == before.since && after.seen == before.seen
        && (before.Decided? ==> after == before)
        && (!before.Decided? && after.Decided? ==>
              && after.at == s.moment
              && after.allowed == if step.ReadCache? && before.key in s.cache then s.cache[before.key]
                                  else Grant(s, before.key.user, before.key.code))
      else
        && after.Authenticated? && after.since == s.moment + 1 && after.seen == {}
        && Live(s, after.key.user) && after.key.userEpoch == s.users[after.key.user].epoch
        && a.users == s.users
  {
    hide Grant, GrantStep, Bump;
    RequestsUntouchedByGrants(s, step);
  }

  lemma RequestsEvolve(s: State, step: Step, id: RequestId)
    requires id in Next(s, step).requests
    ensures Evolves(s, Next(s, step), id) || Arrives(s, Next(s, step), id)
    ensures id in s.requests && !s.requests[id].Decided? && Next(s, step).requests[id].Decided? ==>
              var key := s.requests[id].key;
              || Next(s, step).requests[id].allowed == Grant(s, key.user, key.code)
              || (key in s.cache && Next(s, step).requests[id].allowed == s.cache[key])
  {
    var a := Act(s, step);
    var t := Next(s, step);
    RequestsAct(s, step, id);
    var key := a.requests[id].key;
    SameRowsSameGrant(a, t, key.user, key.code);
    assert t.requests[id] == Observed(a, a.requests[id]);
  }

  lemma EntriesStayAgreed(s: State, step: Step, key: CacheKey, allowed: bool)
    requires Inv(s) && EntryAgrees(s, key, allowed)
    ensures EntryAgrees(Next(s, step), key, allowed)
  {
    var t := Next(s, step);
    GrantsFollowEpochs(s, step, key.user, key.code);
    assert Grant(t, key.user, key.code) == Grant(Act(s, step), key.user, key.code);
    forall id | id in t.requests && !t.requests[id].Decided? && t.requests[id].key == key
      ensures allowed in t.requests[id].seen
    {
      RequestsEvolve(s, step, id);
    }
  }

  /** A cache entry was there before, or is a write that was still on its way. */
  lemma CacheStaysElsewhere(s: State, step: Step)
    ensures !step.LandCacheWrite? && !step.EvictCacheEntry? ==> Next(s, step).cache == s.cache
  {
    hide Grant, Observed, Bump;
  }

  lemma CacheEntriesComeFrom(s: State, step: Step, key: CacheKey)
    requires key in Next(s, step).cache
    ensures var allowed := Next(s, step).cache[key];
      (key in s.cache && s.cache[key] == allowed) || (key, allowed) in s.pending
  {
    hide Grant, Observed, GrantStep, Bump;
    CacheStaysElsewhere(s, step);
  }

  lemma PendingWritesComeFrom(s: State, step: Step, p: (CacheKey, bool))
    requires p in Next(s, step).pending && p !in s.pending
    ensures step.ReadGrant? && step.request in s.requests && s.requests[step.request].Missed?
    ensures p.0 == s.requests[step.request].key && p.1 == Grant(s, p.0.user, p.0.code)
  {
  }

  lemma NextKeepsInv(s: State, step: Step)
    requires Inv(s)
    ensures Inv(Next(s, step))
  {
    var t := Next(s, step);
    TablesStayAgreed(s, step);
    assert TablesAgree(t);
    hide Next, Grant, TablesAgree, EntryAgrees, RequestAgrees;
    forall id | id in t.requests
      ensures RequestAgrees(t, t.requests[id])
    {
      RequestsStayAgreed(s, step, id);
    }
    forall key | key in t.cache
      ensures EntryAgrees(t, key, t.cache[key])
    {
      CacheEntriesComeFrom(s, step, key);
      var p := (key, t.cache[key]);
      assert p in s.pending ==> EntryAgrees(s, p.0, p.1);
      EntriesStayAgreed(s, step, key, t.cache[key]);
    }
    forall p | p in t.pending
      ensures EntryAgrees(t, p.0, p.1)
    {
      if p !in s.pending {
        PendingWritesComeFrom(s, step, p);
        FreshReadAgrees(s, step.request);
      }
      EntriesStayAgreed(s, step, p.0, p.1);
    }
  }

  /** A decision read from the database right now is a legal cache entry already. */
  lemma FreshReadAgrees(s: State, id: RequestId)
    requires Inv(s) && id in s.requests && s.requests[id].Missed?
    ensures var key := s.requests[id].key; EntryAgrees(s, key, Grant(s, key.user, key.code))
  {
    assert RequestAgrees(s, s.requests[id]);
    forall other | other in s.requests && !s.requests[other].Decided?
      ensures Grant(s, s.requests[other].key.user, s.requests[other].key.code) in s.requests[other].seen
    {
      assert RequestAgrees(s, s.requests[other]);
    }
  }

  lemma RequestsStayAgreed(s: State, step: Step, id: RequestId)
    requires Inv(s) && id in Next(s, step).requests
    ensures RequestAgrees(Next(s, step), Next(s, step).requests[id])
  {
    RequestsEvolve(s, step, id);
    if id in s.requests {
      var key := s.requests[id].key;
      assert RequestAgrees(s, s.requests[id]);
      GrantsFollowEpochs(s, step, key.user, key.code);
      if key in s.cache {
        assert EntryAgrees(s, key, s.cache[key]);
      }
    }
  }

  lemma {:induction false} RunKeepsInv(steps: seq<Step>)
    ensures Inv(Run(steps))
  {
    if steps != [] {
      RunKeepsInv(steps[..|steps| - 1]);
      NextKeepsInv(Run(steps[..|steps| - 1]), steps[|steps| - 1]);
    }
  }

  // ---------------------------------------------------------------------------------------------
  // Linearizability
  // ---------------------------------------------------------------------------------------------

  lemma {:induction false} MomentsCount(steps: seq<Step>)
    ensures Run(steps).moment == |steps|
  {
    if steps != [] {
      MomentsCount(steps[..|steps| - 1]);
    }
  }

  /** The grant had this truth value at some moment of the request: after it authenticated, before it was decided. */
  ghost predicate TrueAtSomeMoment(steps: seq<Step>, r: Request, value: bool) {
    exists k :: r.since <= k <= |steps| && (r.Decided? ==> k <= r.at)
      && Grant(Run(steps[..k]), r.key.user, r.key.code) == value
  }

  lemma {:induction false} SeenIsHistory(steps: seq<Step>, id: RequestId, value: bool)
    requires id in Run(steps).requests && value in Run(steps).requests[id].seen
    ensures Run(steps).requests[id].Decided? ==> Run(steps).requests[id].at <= |steps|
    ensures TrueAtSomeMoment(steps, Run(steps).requests[id], value)
  {
    if steps != [] {
      var last := |steps| - 1;
      var before := steps[..last];
      var s, t := Run(before), Run(steps);
      MomentsCount(before);
      RequestsEvolve(s, steps[last], id);
      assert steps[..|steps|] == steps;
      if id in s.requests && value in s.requests[id].seen {
        SeenIsHistory(before, id, value);
        ExtendHistory(steps, s.requests[id], t.requests[id], value);
      } else {
        SinceIsPast(steps, id);
      }
    }
  }

  lemma ExtendHistory(steps: seq<Step>, before: Request, after: Request, value: bool)
    requires steps != [] && TrueAtSomeMoment(steps[..|steps| - 1], before, value)
    requires after.key == before.key && after.since == before.since
    requires before.Decided? ==> after == before
    requires !before.Decided? && after.Decided? ==> after.at == |steps| - 1
    ensures TrueAtSomeMoment(steps, after, value)
  {
    var last := |steps| - 1;
    var k :| before.since <= k <= last && (before.Decided? ==> k <= before.at)
      && Grant(Run(steps[..last][..k]), before.key.user, before.key.code) == value;
    assert steps[..last][..k] == steps[..k];
  }

  lemma {:induction false} SinceIsPast(steps: seq<Step>, id: RequestId)
    requires id in Run(steps).requests
    ensures Run(steps).requests[id].since <= |steps|
  {
    if steps != [] {
      var last := |steps| - 1;
      MomentsCount(steps[..last]);
      RequestsEvolve(Run(steps[..last]), steps[last], id);
      if id in Run(steps[..last]).requests {
        SinceIsPast(steps[..last], id);
      }
    }
  }

  /**
   * Every decision, cached or not, equals the user's global grant at some moment between the
   * request's authentication and its decision, for any number of racing requests and edits.
   */
  lemma DecisionsAreLinearizable(steps: seq<Step>, id: RequestId)
    requires id in Run(steps).requests && Run(steps).requests[id].Decided?
    ensures var r := Run(steps).requests[id];
      exists k :: r.since <= k <= r.at && k <= |steps| && Grant(Run(steps[..k]), r.key.user, r.key.code) == r.allowed
  {
    RunKeepsInv(steps);
    var r := Run(steps).requests[id];
    assert RequestAgrees(Run(steps), r);
    SeenIsHistory(steps, id, r.allowed);
  }
}
