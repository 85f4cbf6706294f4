/**
 * The role service on its tables, where revoked assignments and removed permissions stay behind as
 * soft-deleted rows. Each method runs the statements of one transaction and does to the active rows
 * what the permission protocol's step does.
 */
module RoleStore {
  import opened Wrappers
  import opened Permissions

  /** Soft-deletable join rows: the value says whether the row is active. */
  function Active<K>(rows: map<K, bool>): set<K> {
    set k | k in rows && rows[k]
  }

  datatype RoleError = NoSuchRole | NotAPlatformRole | UnknownPermission | NoSuchUser

  class Store {
    var users: map<UserId, User>
    var roles: map<RoleId, Role>
    var codes: set<Code>
    var userRoles: map<(UserId, RoleId), bool>
    var rolePermissions: map<(RoleId, Code), bool>

    constructor ()
      ensures View() == Init()
    {
      users, roles, codes, userRoles, rolePermissions := map[], map[], {}, map[], map[];
    }

    /** The tables as the permission protocol sees them, with no request in flight. */
    function View(): State
      reads this
    {
      State(0, users, roles, codes, Active(userRoles), Active(rolePermissions), map[], multiset{}, map[])
    }

    method AssignRoleTo(user: UserId, role: RoleId) returns (r: Result<(), RoleError>)
      modifies this
      ensures View() == Act(old(View()), AssignRole(user, role))
      ensures r.Ok? <==> PlatformRole(old(View()), role) && Live(old(View()), user)
    {
      if !(role in roles && roles[role].org.None? && !roles[role].deleted) {
        return Err(NotAPlatformRole);
      }
      ghost var before := View();
      var rowsBefore := userRoles;
      userRoles := userRoles[(user, role) := true];
      if !(user in users && !users[user].deleted) {
        userRoles := rowsBefore;
        return Err(NoSuchUser);
      }
      users := users[user := users[user].(epoch := users[user].epoch + 1)];
      assert Active(userRoles) == Active(rowsBefore) + {(user, role)};
      assert users == Bump(before.users, {user});
      return Ok(());
    }

    method RevokeRoleFrom(user: UserId, role: RoleId) returns (revoked: bool)
      requires forall h :: h in Active(userRoles) ==> Live(View(), h.0)
      modifies this
      ensures View() == Act(old(View()), RevokeRole(user, role))
      ensures revoked <==> (user, role) in Active(old(userRoles))
    {
      if !((user, role) in userRoles && userRoles[(user, role)]) {
        return false;
      }
      assert (user, role) in Active(userRoles);
      ghost var before := View();
      var rowsBefore := userRoles;
      userRoles := userRoles[(user, role) := false];
      users := users[user := users[user].(epoch := users[user].epoch + 1)];
      assert Active(userRoles) == Active(rowsBefore) - {(user, role)};
      assert users == Bump(before.users, {user});
      return true;
    }

    /** `updateRolePermissions`: retire what is no longer wanted, restore or add what is missing, invalidate. */
    method SetRolePermissions(role: RoleId, permissionCodes: seq<Code>) returns (r: Result<(), RoleError>)
      modifies this
      ensures View() == Act(old(View()), UpdateRolePermissions(role, set c | c in permissionCodes))
      ensures r.Ok? <==> role in old(roles) && !old(roles)[role].deleted && forall c :: c in permissionCodes ==> c in old(codes)
    {
      if !(role in roles && !roles[role].deleted) {
        return Err(NoSuchRole);
      }
      var desired := set c | c in permissionCodes;
      if !(desired <= codes) {
        return Err(UnknownPermission);
      }
      ghost var before := View();
      var rows := rolePermissions;
      var current := set p | p in rows && p.0 == role && rows[p] :: p.1;
      var retired := map p | p in rows :: rows[p] && !(p.0 == role && p.1 in current && p.1 !in desired);
      rolePermissions := retired;
      var waiting := desired;
      while waiting != {}
        invariant waiting <= desired
        invariant users == before.users && roles == before.roles && codes == before.codes && userRoles == old(userRoles)
        invariant forall p :: p in rolePermissions && p !in retired ==> p.0 == role && p.1 in desired - waiting
        invariant forall p :: p in retired ==> p in rolePermissions
        invariant forall p :: p in retired && !(p.0 == role && p.1 in desired - waiting) ==>
                    rolePermissions[p] == retired[p]
        invariant forall c :: c in desired - waiting ==> (role, c) in rolePermissions && rolePermissions[(role, c)]
        decreases waiting
      {
        var c :| c in waiting;
        waiting := waiting - {c};
        if c !in current {
          rolePermissions := rolePermissions[(role, c) := true];
        } else {
          assert (role, c) in rows && rows[(role, c)];
        }
      }
      assert Active(rolePermissions) == ReplacePermissions(before.rolePermissions, role, desired) by {
        RetireAndRestore(rows, rolePermissions, retired, role, current, desired);
      }
      if roles[role].org.None? {
        var holders := set u | u in users && !users[u].deleted && (u, role) in userRoles && userRoles[(u, role)];
        assert holders == Holders(before, role);
        users := Bump(users, holders);
      }
      return Ok(());
    }
  }

  lemma RetireAndRestore(rows: map<(RoleId, Code), bool>, after: map<(RoleId, Code), bool>,
                         retired: map<(RoleId, Code), bool>, role: RoleId, current: set<Code>, desired: set<Code>)
    requires current == set p | p in rows && p.0 == role && rows[p] :: p.1
    requires retired == map p | p in rows :: rows[p] && !(p.0 == role && p.1 in current && p.1 !in desired)
    requires forall p :: p in after && p !in retired ==> p.0 == role && p.1 in desired
    requires forall p :: p in retired ==> p in after
    requires forall p :: p in retired && !(p.0 == role && p.1 in desired) ==> after[p] == retired[p]
    requires forall c :: c in desired ==> (role, c) in after && after[(role, c)]
    ensures Active(after) == ReplacePermissions(Active(rows), role, desired)
  {
    forall p
      ensures p in Active(after) <==> p in ReplacePermissions(Active(rows), role, desired)
    {
      if p.0 == role {
        assert p == (role, p.1);
      }
    }
  }
}
