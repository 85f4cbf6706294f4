/**
 * Organizations keep an active owner: memberships through creation, role changes, removals,
 * invitations and account deletion. Each step is one transaction.
 */
module Owners {
  import opened Wrappers

  type OrgId = nat
  type UserId = nat
  type RoleId = nat
  type InvitationId = nat
  type Email = nat

  datatype MembershipStatus = INVITED | ACTIVE | SUSPENDED

  datatype Membership = Membership(role: RoleId, status: MembershipStatus, deleted: bool)

  /** System roles belong to no organization; an organization may own further ones, under any name. */
  datatype Role = Role(name: string, org: Option<OrgId>)

  datatype User = User(email: Option<Email>, verified: bool, deleted: bool)

  datatype Invitation = Invitation(org: OrgId, email: Email, role: RoleId, open: bool)

  datatype State = State(
    orgs: set<OrgId>,
    roles: map<RoleId, Role>,
    users: map<UserId, User>,
    members: map<(OrgId, UserId), Membership>,
    invitations: map<InvitationId, Invitation>)

  datatype Step =
    | SeedRole(role: RoleId, name: string, ownedBy: Option<OrgId>)
    | AddUser(user: UserId, address: Option<Email>, verified: bool)
    | CreateOrganization(org: OrgId, user: UserId, ownerRole: RoleId)
    | ChangeMemberRole(org: OrgId, user: UserId, role: RoleId)
    | RemoveMember(org: OrgId, user: UserId)
    | CreateInvitation(invitation: InvitationId, org: OrgId, email: Email, role: RoleId)
    | CloseInvitation(invitation: InvitationId)
    | AcceptInvitation(invitation: InvitationId, user: UserId)
    | EnterDefault(org: OrgId, user: UserId, memberRole: RoleId)
    | DeleteAccount(user: UserId)

  function Init(): State {
    State({}, map[], map[], map[], map[])
  }

  predicate LiveUser(s: State, user: UserId) {
    user in s.users && !s.users[user].deleted
  }

  predicate Named(s: State, role: RoleId, name: string) {
    role in s.roles && s.roles[role].name == name
  }

  predicate IsActiveOwner(s: State, org: OrgId, user: UserId) {
    && (org, user) in s.members
    && s.members[(org, user)].status == ACTIVE && !s.members[(org, user)].deleted
    && Named(s, s.members[(org, user)].role, "owner")
  }

  /** The rows `countActiveOwners` counts. */
  function ActiveOwners(s: State, org: OrgId): set<UserId> {
    set m | m in s.members && m.0 == org && IsActiveOwner(s, org, m.1) :: m.1
  }

  /** `assertAssignableRole`. */
  predicate Assignable(s: State, role: RoleId, org: OrgId) {
    role in s.roles && (s.roles[role].org.None? || s.roles[role].org == Some(org))
  }

  predicate Member(s: State, org: OrgId, user: UserId) {
    (org, user) in s.members && !s.members[(org, user)].deleted
  }

  datatype OwnerError = BadRole | NoMembership | LastOwner | NoInvitation | WrongRecipient

  function ChangeRole(s: State, org: OrgId, user: UserId, role: RoleId): Result<State, OwnerError> {
    if !Assignable(s, role, org) then Err(BadRole)
    else if !Member(s, org, user) then Err(NoMembership)
    else if IsActiveOwner(s, org, user) && !Named(s, role, "owner") && |ActiveOwners(s, org)| <= 1 then Err(LastOwner)
    else Ok(s.(members := s.members[(org, user) := s.members[(org, user)].(role := role)]))
  }

  function Remove(s: State, org: OrgId, user: UserId): Result<State, OwnerError> {
    if !Member(s, org, user) then Err(NoMembership)
    else if IsActiveOwner(s, org, user) && |ActiveOwners(s, org)| <= 1 then Err(LastOwner)
    else Ok(s.(members := s.members[(org, user) := s.members[(org, user)].(deleted := true, status := SUSPENDED)]))
  }

  /** `acceptInvitation`: an upsert, with no look at what the membership was before. */
  function Accept(s: State, invitation: InvitationId, user: UserId): Result<State, OwnerError> {
    if invitation !in s.invitations || !s.invitations[invitation].open then Err(NoInvitation)
    else
      var i := s.invitations[invitation];
      if !LiveUser(s, user) || s.users[user].email != Some(i.email) || !s.users[user].verified then Err(WrongRecipient)
      else Ok(s.(members := s.members[(i.org, user) := Membership(i.role, ACTIVE, false)],
                 invitations := s.invitations[invitation := i.(open := false)]))
  }

  function OwnedOrgs(s: State, user: UserId): set<OrgId> {
    set m | m in s.members && m.1 == user && IsActiveOwner(s, m.0, user) :: m.0
  }

  /** `deleteAccount` as far as memberships go: refused whole if any organization would be orphaned. */
  function Erase(s: State, user: UserId): Result<State, OwnerError> {
    if exists org | org in OwnedOrgs(s, user) :: |ActiveOwners(s, org)| <= 1 then Err(LastOwner)
    else Ok(s.(users := if user in s.users then s.users[user := User(None, false, true)] else s.users,
               members := map m | m in s.members ::
                 if m.1 == user && !s.members[m].deleted then s.members[m].(status := SUSPENDED, deleted := true)
                 else s.members[m]))
  }

  function OrSame(s: State, r: Result<State, OwnerError>): State {
    if r.Ok? then r.value else s
  }

  function Next(s: State, step: Step): State {
    match step
    case SeedRole(role, name, org) => if role in s.roles then s else s.(roles := s.roles[role := Role(name, org)])
    case AddUser(u, email, verified) =>
      if u in s.users then s else s.(users := s.users[u := User(email, verified, false)])
    case CreateOrganization(org, u, ownerRole) =>
      if org in s.orgs || (org, u) in s.members || !LiveUser(s, u)
         || !(Named(s, ownerRole, "owner") && s.roles[ownerRole].org.None?) then s
      else s.(orgs := s.orgs + {org}, members := s.members[(org, u) := Membership(ownerRole, ACTIVE, false)])
    case ChangeMemberRole(org, u, role) => OrSame(s, ChangeRole(s, org, u, role))
    case RemoveMember(org, u) => OrSame(s, Remove(s, org, u))
    case CreateInvitation(i, org, email, role) =>
      if i in s.invitations || !Assignable(s, role, org) then s
      else s.(invitations := s.invitations[i := Invitation(org, email, role, true)])
    case CloseInvitation(i) =>
      if i in s.invitations then s.(invitations := s.invitations[i := s.invitations[i].(open := false)]) else s
    case AcceptInvitation(i, u) => OrSame(s, Accept(s, i, u))
    case EnterDefault(org, u, memberRole) =>
      if !LiveUser(s, u) || !Named(s, memberRole, "member") then s
      else if (org, u) in s.members then
        s.(members := s.members[(org, u) := s.members[(org, u)].(status := ACTIVE, deleted := false)])
      else s.(members := s.members[(org, u) := Membership(memberRole, ACTIVE, false)])
    case DeleteAccount(u) => if LiveUser(s, u) then OrSame(s, Erase(s, u)) else s
  }

  /** The state after a run; `Run(steps[..k])` is its k-th moment. */
  function Run(steps: seq<Step>): State {
    if steps == [] then Init() else Next(Run(steps[..|steps| - 1]), steps[|steps| - 1])
  }

  // ---------------------------------------------------------------------------------------------
  // Owners
  // ---------------------------------------------------------------------------------------------

  ghost predicate Owned(s: State, org: OrgId) {
    exists u :: IsActiveOwner(s, org, u)
  }

  ghost predicate AllOwned(s: State) {
    forall org :: org in s.orgs ==> Owned(s, org)
  }

  /** Every membership in force belongs to a live account. */
  ghost predicate MembersAreLive(s: State) {
    forall m :: m in s.members && !s.members[m].deleted ==> LiveUser(s, m.1)
  }

  /** Whoever accepts this invitation is the organization's one active owner, and stops being one. */
  ghost predicate Demotes(s: State, step: Step) {
    && step.AcceptInvitation? && Accept(s, step.invitation, step.user).Ok?
    && var i := s.invitations[step.invitation];
    && i.org in s.orgs
    && IsActiveOwner(s, i.org, step.user) && !Named(s, i.role, "owner")
    && forall u :: IsActiveOwner(s, i.org, u) ==> u == step.user
  }

  lemma AnotherOwner(s: State, org: OrgId, user: UserId) returns (other: UserId)
    requires |ActiveOwners(s, org)| > 1
    ensures other != user && IsActiveOwner(s, org, other)
  {
    var owners := ActiveOwners(s, org);
    if owners <= {user} {
      SubsetSize(owners, {user});
    }
    other :| other in owners && other != user;
  }

  /** A step that leaves some owner alone leaves the organization owned. */
  lemma UntouchedOwnerStays(s: State, t: State, org: OrgId, user: UserId)
    requires IsActiveOwner(s, org, user)
    requires (org, user) in t.members && t.members[(org, user)] == s.members[(org, user)]
    requires forall r :: r in s.roles ==> r in t.roles && t.roles[r] == s.roles[r]
    ensures Owned(t, org)
  {
    assert IsActiveOwner(t, org, user);
  }

  lemma ChangeKeepsOwner(s: State, org: OrgId, user: UserId, role: RoleId, o: OrgId)
    requires Owned(s, o)
    ensures Owned(Next(s, ChangeMemberRole(org, user, role)), o)
  {
    var t := Next(s, ChangeMemberRole(org, user, role));
    if o == org && IsActiveOwner(s, org, user) && t != s {
      if Named(s, role, "owner") {
        assert IsActiveOwner(t, org, user);
      } else {
        var other := AnotherOwner(s, org, user);
        UntouchedOwnerStays(s, t, org, other);
      }
    } else {
      var u :| IsActiveOwner(s, o, u);
      UntouchedOwnerStays(s, t, o, u);
    }
  }

  lemma RemovalKeepsOwner(s: State, org: OrgId, user: UserId, o: OrgId)
    requires Owned(s, o)
    ensures Owned(Next(s, RemoveMember(org, user)), o)
  {
    var t := Next(s, RemoveMember(org, user));
    if o == org && IsActiveOwner(s, org, user) && t != s {
      var other := AnotherOwner(s, org, user);
      UntouchedOwnerStays(s, t, org, other);
    } else {
      var u :| IsActiveOwner(s, o, u);
      UntouchedOwnerStays(s, t, o, u);
    }
  }

  lemma DeletionKeepsOwner(s: State, user: UserId, o: OrgId)
    requires Owned(s, o)
    ensures Owned(Next(s, DeleteAccount(user)), o)
  {
    var t := Next(s, DeleteAccount(user));
    if IsActiveOwner(s, o, user) && t != s {
      assert (o, user) in s.members;
      assert o in OwnedOrgs(s, user);
      var other := AnotherOwner(s, o, user);
      UntouchedOwnerStays(s, t, o, other);
    } else {
      var u :| IsActiveOwner(s, o, u);
      UntouchedOwnerStays(s, t, o, u);
    }
  }

  /** Accepting an invitation leaves the organization owned exactly when it does not demote its sole owner. */
  lemma AcceptKeepsOwnerExactly(s: State, invitation: InvitationId, user: UserId)
    requires Accept(s, invitation, user).Ok? && s.invitations[invitation].org in s.orgs
    requires Owned(s, s.invitations[invitation].org)
    ensures Owned(Next(s, AcceptInvitation(invitation, user)), s.invitations[invitation].org)
            <==> !Demotes(s, AcceptInvitation(invitation, user))
  {
    var step := AcceptInvitation(invitation, user);
    var t := Next(s, step);
    var i := s.invitations[invitation];
    if Demotes(s, step) {
      forall u
        ensures !IsActiveOwner(t, i.org, u)
      {
        assert u != user ==> !IsActiveOwner(s, i.org, u);
      }
    } else if Named(s, i.role, "owner") {
      assert IsActiveOwner(t, i.org, user);
    } else {
      var u :| IsActiveOwner(s, i.org, u) && u != user;
      UntouchedOwnerStays(s, t, i.org, u);
    }
  }

  lemma OtherStepsKeepOwner(s: State, step: Step, o: OrgId)
    requires Owned(s, o)
    requires step.SeedRole? || step.AddUser? || step.CreateOrganization? || step.CreateInvitation? || step.CloseInvitation?
             || step.EnterDefault?
    ensures Owned(Next(s, step), o)
  {
    var u :| IsActiveOwner(s, o, u);
    assert IsActiveOwner(Next(s, step), o, u);
  }

  lemma AcceptKeepsOwner(s: State, invitation: InvitationId, user: UserId, o: OrgId)
    requires o in s.orgs && Owned(s, o) && !Demotes(s, AcceptInvitation(invitation, user))
    ensures Owned(Next(s, AcceptInvitation(invitation, user)), o)
  {
    var t := Next(s, AcceptInvitation(invitation, user));
    if t != s && s.invitations[invitation].org == o {
      AcceptKeepsOwnerExactly(s, invitation, user);
    } else {
      var u :| IsActiveOwner(s, o, u);
      UntouchedOwnerStays(s, t, o, u);
    }
  }

  lemma StepKeepsOwners(s: State, step: Step)
    requires AllOwned(s) && !Demotes(s, step)
    ensures AllOwned(Next(s, step))
  {
    var t := Next(s, step);
    forall o | o in t.orgs
      ensures Owned(t, o)
    {
      if o !in s.orgs {
        assert IsActiveOwner(t, o, step.user);
      } else {
        match step
        case ChangeMemberRole(org, u, role) => ChangeKeepsOwner(s, org, u, role, o);
        case RemoveMember(org, u) => RemovalKeepsOwner(s, org, u, o);
        case AcceptInvitation(i, u) => AcceptKeepsOwner(s, i, u, o);
        case DeleteAccount(u) => DeletionKeepsOwner(s, u, o);
        case _ => OtherStepsKeepOwner(s, step, o);
      }
    }
  }

  /** No step of the run is a sole owner accepting a lesser role in its own organization. */
  ghost predicate NeverDemotes(steps: seq<Step>) {
    forall k :: 0 <= k < |steps| ==> !Demotes(Run(steps[..k]), steps[k])
  }

  /** Every organization ever created has an active owner at the end of such a run. */
  lemma {:induction false} OrganizationsStayOwned(steps: seq<Step>)
    requires NeverDemotes(steps)
    ensures AllOwned(Run(steps))
  {
    if steps != [] {
      var last := |steps| - 1;
      var before := steps[..last];
      assert NeverDemotes(before) by {
        forall k | 0 <= k < last
          ensures !Demotes(Run(before[..k]), before[k])
        {
          assert before[..k] == steps[..k] && before[k] == steps[k];
        }
      }
      OrganizationsStayOwned(before);
      StepKeepsOwners(Run(before), steps[last]);
    }
  }

  /** And this is exact: organizations are owned at every moment if and only if no step demotes. */
  lemma OwnedExactlyWhenNeverDemoted(steps: seq<Step>)
    ensures (forall k :: 0 <= k <= |steps| ==> AllOwned(Run(steps[..k]))) <==> NeverDemotes(steps)
  {
    if NeverDemotes(steps) {
      forall k | 0 <= k <= |steps|
        ensures AllOwned(Run(steps[..k]))
      {
        var before := steps[..k];
        forall j | 0 <= j < k
          ensures !Demotes(Run(before[..j]), before[j])
        {
          assert before[..j] == steps[..j] && before[j] == steps[j];
        }
        OrganizationsStayOwned(before);
      }
    }
    if forall k :: 0 <= k <= |steps| ==> AllOwned(Run(steps[..k])) {
      forall k | 0 <= k < |steps|
        ensures !Demotes(Run(steps[..k]), steps[k])
      {
        var s, step := Run(steps[..k]), steps[k];
        assert steps[..k + 1][..k] == steps[..k] && steps[..k + 1][k] == step;
        assert AllOwned(s) && AllOwned(Next(s, step)) by {
          assert Run(steps[..k + 1]) == Next(s, step);
        }
        if Demotes(s, step) {
          AcceptKeepsOwnerExactly(s, step.invitation, step.user);
        }
      }
    }
  }

  lemma {:induction false} MembersStayLive(steps: seq<Step>)
    ensures MembersAreLive(Run(steps))
  {
    if steps != [] {
      var last := |steps| - 1;
      MembersStayLive(steps[..last]);
      StepKeepsMembersLive(Run(steps[..last]), steps[last]);
    }
  }

  lemma StepKeepsMembersLive(s: State, step: Step)
    requires MembersAreLive(s)
    ensures MembersAreLive(Next(s, step))
  {
  }

  /** An active owner is never a deleted account. */
  lemma OwnersAreLive(steps: seq<Step>, org: OrgId, user: UserId)
    requires IsActiveOwner(Run(steps), org, user)
    ensures LiveUser(Run(steps), user)
  {
    MembersStayLive(steps);
  }

  /** The run that orphans an organization: its creator invites its own address as a member and accepts. */
  function SelfDemotion(): seq<Step> {
    [SeedRole(0, "owner", None), SeedRole(1, "member", None), AddUser(0, Some(5), true),
     CreateOrganization(0, 0, 0), CreateInvitation(0, 0, 5, 1), AcceptInvitation(0, 0)]
  }

  const ROLES: map<RoleId, Role> := map[0 := Role("owner", None), 1 := Role("member", None)]
  const USERS: map<UserId, User> := map[0 := User(Some(5), true, false)]

  /** The last moment of that run with an owner. */
  function StillOwned(): State {
    State({0}, ROLES, USERS, map[(0, 0) := Membership(0, ACTIVE, false)], map[0 := Invitation(0, 5, 1, true)])
  }

  lemma SetupOrganization()
    ensures var s := State({}, ROLES, USERS, map[], map[]);
      Next(Next(s, CreateOrganization(0, 0, 0)), CreateInvitation(0, 0, 5, 1)) == StillOwned()
  {
    var s := State({}, ROLES, USERS, map[], map[]);
    var t := Next(s, CreateOrganization(0, 0, 0));
    assert t == State({0}, ROLES, USERS, map[(0, 0) := Membership(0, ACTIVE, false)], map[]);
  }

  lemma SetupUsers()
    ensures Next(Next(Next(Init(), SeedRole(0, "owner", None)), SeedRole(1, "member", None)), AddUser(0, Some(5), true))
            == State({}, ROLES, USERS, map[], map[])
  {
  }

  lemma SetupRuns()
    ensures Run(SelfDemotion()[..5]) == StillOwned() && Run(SelfDemotion()) == Next(StillOwned(), AcceptInvitation(0, 0))
  {
    var steps := SelfDemotion();
    SetupUsers();
    SetupOrganization();
    assert steps[..6] == steps && steps[..0] == [] && Run([]) == Init();
    hide Next, StillOwned, Run, Init;
    RunTo(steps, 0);
    RunTo(steps, 1);
    RunTo(steps, 2);
    RunTo(steps, 3);
    RunTo(steps, 4);
    RunTo(steps, 5);
  }

  lemma SoleOwnerCanDemoteItself()
    ensures Owned(Run(SelfDemotion()[..5]), 0)
    ensures 0 in Run(SelfDemotion()).orgs && !Owned(Run(SelfDemotion()), 0)
  {
    SetupRuns();
    hide Run, SelfDemotion;
    assert IsActiveOwner(StillOwned(), 0, 0);
    var t := Next(StillOwned(), AcceptInvitation(0, 0));
    assert t.members == map[(0, 0) := Membership(1, ACTIVE, false)];
    assert t.roles[1].name == "member" && "member"[0] != "owner"[0];
  }

  lemma RunTo(steps: seq<Step>, k: nat)
    requires k < |steps|
    ensures Run(steps[..k + 1]) == Next(Run(steps[..k]), steps[k])
  {
    assert steps[..k + 1][..k] == steps[..k];
  }

  // ---------------------------------------------------------------------------------------------
  // The tables
  // ---------------------------------------------------------------------------------------------

  class Store {
    var orgs: set<OrgId>
    var roles: map<RoleId, Role>
    var users: map<UserId, User>
    var members: map<(OrgId, UserId), Membership>
    var invitations: map<InvitationId, Invitation>

    constructor ()
      ensures View() == Init()
    {
      orgs, roles, users, members, invitations := {}, map[], map[], map[], map[];
    }

    function View(): State
      reads this
    {
      State(orgs, roles, users, members, invitations)
    }

    /** The owner check and the memberships of `deleteAccountUnscoped`: all owned organizations, one by one. */
    method DeleteUser(user: UserId) returns (r: Result<(), OwnerError>)
      modifies this
      ensures View() == OrSame(old(View()), Erase(old(View()), user))
      ensures r.Ok? <==> Erase(old(View()), user).Ok?
    {
      ghost var before := View();
      var owned := OwnedOrgs(View(), user);
      var waiting := owned;
      while waiting != {}
        invariant waiting <= owned && View() == before
        invariant forall o :: o in owned - waiting ==> |ActiveOwners(before, o)| > 1
        decreases waiting
      {
        var organizationId :| organizationId in waiting;
        waiting := waiting - {organizationId};
        var owners := |ActiveOwners(View(), organizationId)|;
        if owners <= 1 {
          return Err(LastOwner);
        }
      }
      if user in users {
        users := users[user := User(None, false, true)];
      }
      members := map m | m in members ::
        if m.1 == user && !members[m].deleted then members[m].(status := SUSPENDED, deleted := true) else members[m];
      return Ok(());
    }

    method ChangeRoleOf(org: OrgId, user: UserId, role: RoleId) returns (r: Result<(), OwnerError>)
      modifies this
      ensures View() == OrSame(old(View()), ChangeRole(old(View()), org, user, role))
      ensures match ChangeRole(old(View()), org, user, role) case Ok(_) => r.Ok? case Err(e) => r == Err(e)
    {
      if !(role in roles && (roles[role].org.None? || roles[role].org == Some(org))) {
        return Err(BadRole);
      }
      if !((org, user) in members && !members[(org, user)].deleted) {
        return Err(NoMembership);
      }
      var target := members[(org, user)];
      if target.status == ACTIVE && target.role in roles && roles[target.role].name == "owner" && roles[role].name != "owner" {
        var owners := |ActiveOwners(View(), org)|;
        if owners <= 1 {
          return Err(LastOwner);
        }
      }
      members := members[(org, user) := target.(role := role)];
      return Ok(());
    }

    method RemoveMemberOf(org: OrgId, user: UserId) returns (r: Result<(), OwnerError>)
      modifies this
      ensures View() == OrSame(old(View()), Remove(old(View()), org, user))
      ensures match Remove(old(View()), org, user) case Ok(_) => r.Ok? case Err(e) => r == Err(e)
    {
      if !((org, user) in members && !members[(org, user)].deleted) {
        return Err(NoMembership);
      }
      var target := members[(org, user)];
      if target.status == ACTIVE && target.role in roles && roles[target.role].name == "owner" {
        var owners := |ActiveOwners(View(), org)|;
        if owners <= 1 {
          return Err(LastOwner);
        }
      }
      members := members[(org, user) := target.(deleted := true, status := SUSPENDED)];
      return Ok(());
    }

    method AcceptInvitationOf(invitation: InvitationId, user: UserId) returns (r: Result<(), OwnerError>)
      modifies this
      ensures View() == OrSame(old(View()), Accept(old(View()), invitation, user))
      ensures match Accept(old(View()), invitation, user) case Ok(_) => r.Ok? case Err(e) => r == Err(e)
    {
      if !(invitation in invitations && invitations[invitation].open) {
        return Err(NoInvitation);
      }
      var i := invitations[invitation];
      if !(user in users && !users[user].deleted) || users[user].email != Some(i.email) || !users[user].verified {
        return Err(WrongRecipient);
      }
      members := members[(i.org, user) := Membership(i.role, ACTIVE, false)];
      invitations := invitations[invitation := i.(open := false)];
      return Ok(());
    }
  }
}
