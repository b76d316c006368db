/** What the role operations achieve: which roles and permissions a user has after
    an update, after a refused one, and after a role is gone. */
module RoleEffects {
  import opened Text
  import opened RoleStore
  import opened UserAdmin

  // ---------------------------------------------------------------- updating roles and permissions

  lemma AssignedRoles(t: Tables, fk: bool, user: int, ids: seq<int>)
    requires Assigned(t, fk, user, ids).Some?
    ensures forall r :: r in RolesOf(Assigned(t, fk, user, ids).value, user) <==> r in ids
  {
    var t' := Assigned(t, fk, user, ids).value;
    forall r
      ensures r in RolesOf(t', user) <==> r in ids
    {
      RolesOfIs(t', user, r);
    }
  }

  lemma RolesOfIs(t: Tables, user: int, role: int)
    ensures role in RolesOf(t, user) <==> (user, role) in t.links
  {
    if (user, role) in t.links {
      assert (user, role).0 == user && (user, role).1 == role;
    }
    if role in RolesOf(t, user) {
      var link :| link in t.links && link.0 == user && link.1 == role;
      assert link == (user, role);
    }
  }

  /** After replacing a user's personal role, it is assigned and holds exactly the
      given permissions; the user's other assignments are as before. */
  lemma UpsertedRole(t: Tables, fk: bool, user: int, username: string, perms: seq<Permission>)
    returns (personal: int)
    requires Valid(t) && perms != [] && PersonalRoleUpserted(t, fk, user, username, perms).Some?
    ensures var t' := PersonalRoleUpserted(t, fk, user, username, perms).value;
      && IsNamed(t', personal, PersonalRoleName(username))
      && PermissionsOf(t'.grants, personal) == perms
      && t'.links == t.links + {(user, personal)}
  {
    var found := FindRole(t, PersonalRoleName(username));
    personal := if found.Some? then found.value else t.nextRole;
    PermissionsReplaced(t.grants, personal, perms, personal);
  }

  /** A successful update with roles and custom permissions leaves the user exactly
      those roles and the personal one, which holds exactly those permissions,
      although replacing the roles first removed the personal one. */
  lemma UpdateEffect(t: Tables, fk: bool, actor: int, user: int, b: UserUpdate, f: Faults) returns (personal: int)
    requires Valid(t) && UserUpdated(t, fk, actor, user, b, f).status == NoContent
    requires ReplacesRoles(b) && NewPermissions(b) != []
    ensures var t' := UserUpdated(t, fk, actor, user, b, f).tables;
      && user in t'.users && IsNamed(t', personal, PersonalRoleName(t'.users[user].username))
      && (forall r :: r in RolesOf(t', user) <==> r in b.roleIds.value || r == personal)
      && PermissionsOf(t'.grants, personal) == NewPermissions(b)
  {
    var t1 := if b.disabled.Some? then DisabledSet(t, user, b.disabled.value) else t;
    var t2 := Assigned(t1, fk, user, b.roleIds.value).value;
    personal := UpsertedRole(t2, fk, user, t2.users[user].username, NewPermissions(b));
    AssignedRoles(t1, fk, user, b.roleIds.value);
    var t' := UserUpdated(t, fk, actor, user, b, f).tables;
    assert t'.links == t2.links + {(user, personal)};
    forall r
      ensures r in RolesOf(t', user) <==> r in b.roleIds.value || r == personal
    {
      RolesOfIs(t', user, r);
      RolesOfIs(t2, user, r);
    }
  }

  lemma {:induction false} PermissionRow(grants: seq<Grant>, role: int, p: Permission)
    requires p in PermissionsOf(grants, role)
    ensures exists i :: 0 <= i < |grants| && grants[i] == Grant(role, p)
  {
    var n := |grants| - 1;
    if grants[n] != Grant(role, p) {
      PermissionRow(grants[..n], role, p);
      var i :| 0 <= i < n && grants[..n][i] == Grant(role, p);
      assert grants[i] == Grant(role, p);
    }
  }

  /** Every custom permission of a successful update is effective. */
  lemma UpdateGrants(
    t: Tables, fk: bool, actor: int, user: int, b: UserUpdate, f: Faults, p: Permission, action: string)
    requires Valid(t) && UserUpdated(t, fk, actor, user, b, f).status == NoContent
    requires ReplacesRoles(b) && p in NewPermissions(b) && action in p.actions
    ensures UserHasPermission(UserUpdated(t, fk, actor, user, b, f).tables, user, p.projectName, action)
  {
    var t' := UserUpdated(t, fk, actor, user, b, f).tables;
    var personal := UpdateEffect(t, fk, actor, user, b, f);
    RolesOfIs(t', user, personal);
    PermissionRow(t'.grants, personal, p);
    var i :| 0 <= i < |t'.grants| && t'.grants[i] == Grant(personal, p);
    assert Grants(t', user, t'.grants[i], p.projectName, action);
  }

  /** A refused reassignment changes no assignment, role or permission. */
  lemma RefusedReassignment(t: Tables, fk: bool, actor: int, user: int, b: UserUpdate, f: Faults)
    requires Valid(t) && ReplacesRoles(b) && (f.assign || Refusable(t, fk, user, b.roleIds.value))
    ensures var r := UserUpdated(t, fk, actor, user, b, f);
      r.status != NoContent && r.tables.links == t.links && r.tables.roles == t.roles && r.tables.grants == t.grants
  {
    var t1 := if b.disabled.Some? then DisabledSet(t, user, b.disabled.value) else t;
    assert Refusable(t1, fk, user, b.roleIds.value) <==> Refusable(t, fk, user, b.roleIds.value);
    RefusedIff(t1, fk, user, b.roleIds.value);
    var r := RolesStage(t1, fk, actor, user, b, f);
    assert r.tables == t1 && r.status != NoContent;
  }

  // ---------------------------------------------------------------- removing users

  /** The user's record, roles and permissions are as before. */
  ghost predicate UserKept(t: Tables, t': Tables, u: int) {
    && (u in t'.users <==> u in t.users) && (u in t.users ==> t'.users[u] == t.users[u])
    && RolesOf(t', u) == RolesOf(t, u)
    && forall project, action :: UserHasPermission(t', u, project, action) <==> UserHasPermission(t, u, project, action)
  }

  lemma SameLinksSameUser(t: Tables, t': Tables, u: int)
    requires t'.roles == t.roles && t'.grants == t.grants
    requires forall link: (int, int) :: link.0 == u ==> (link in t'.links <==> link in t.links)
    ensures RolesOf(t', u) == RolesOf(t, u)
    ensures forall project, action ::
      UserHasPermission(t', u, project, action) <==> UserHasPermission(t, u, project, action)
  {
    forall r
      ensures r in RolesOf(t', u) <==> r in RolesOf(t, u)
    {
      RolesOfIs(t, u, r);
      RolesOfIs(t', u, r);
      assert (u, r).0 == u;
    }
    assert IsUserAdmin(t', u) <==> IsUserAdmin(t, u);
    forall project, action
      ensures UserHasPermission(t', u, project, action) <==> UserHasPermission(t, u, project, action)
    {
      forall i | 0 <= i < |t.grants|
        ensures Grants(t', u, t'.grants[i], project, action) <==> Grants(t, u, t.grants[i], project, action)
      {
        assert (u, t.grants[i].roleId).0 == u;
      }
    }
  }

  /** Removing a user leaves all others with what they have. A system user is
      disabled and keeps his roles; a local one is gone, his assignments with him
      only where foreign keys cascade. */
  lemma UserRemovedEffect(t: Tables, fk: bool, actor: int, user: int, f: Faults, u: int)
    requires u != user
    ensures var r := UserRemoved(t, fk, actor, user, f); var t' := r.tables;
      && UserKept(t, t', u)
      && (r.status != NoContent ==> t' == t)
      && (r.status == NoContent ==>
            if t.users[user].authType == Pam then
              && user in t'.users && t'.users[user] == t.users[user].(disabled := true)
              && RolesOf(t', user) == RolesOf(t, user)
            else
              user !in t'.users && RolesOf(t', user) == if fk then {} else RolesOf(t, user))
  {
    var t' := UserRemoved(t, fk, actor, user, f).tables;
    SameLinksSameUser(t, t', u);
  }

  // ---------------------------------------------------------------- creating and changing roles

  /** Everything but the given role is as before. */
  ghost predicate OnlyRoleChanges(t: Tables, t': Tables, role: int) {
    && t'.users == t.users && t'.links == t.links
    && forall r :: r != role ==>
         && (r in t'.roles <==> r in t.roles)
         && (r in t.roles ==> t'.roles[r] == t.roles[r])
         && (r in t.roles ==> PermissionsOf(t'.grants, r) == PermissionsOf(t.grants, r))
  }

  lemma {:induction false} FreshHasNoPermissions(grants: seq<Grant>, role: int)
    requires forall i :: 0 <= i < |grants| ==> grants[i].roleId < role
    ensures PermissionsOf(grants, role) == []
  {
    if grants != [] {
      FreshHasNoPermissions(grants[..|grants| - 1], role);
    }
  }

  /** A created role is the only one of its name, no system role, and has exactly
      the given permissions; a taken name is refused. */
  lemma CreatedRole(t: Tables, name: string, description: string, perms: seq<Permission>)
    requires Valid(t)
    ensures var r := RoleCreated(t, name, description, perms);
      && (r == None <==> exists id :: IsNamed(t, id, name))
      && (r.Some? ==>
            && FindRole(r.value, name) == Some(t.nextRole)
            && r.value.roles[t.nextRole] == Role(name, description, false)
            && PermissionsOf(r.value.grants, t.nextRole) == perms
            && OnlyRoleChanges(t, r.value, t.nextRole))
  {
    var r := RoleCreated(t, name, description, perms);
    if id :| id in t.roles && t.roles[id].name == name {
      assert IsNamed(t, id, name);
    } else {
      forall id
        ensures PermissionsOf(r.value.grants, id)
             == if id == t.nextRole then perms else PermissionsOf(t.grants, id)
      {
        PermissionsConcat(t.grants, GrantsFor(t.nextRole, perms), id);
        PermissionsGranted(t.nextRole, perms, id);
        FreshHasNoPermissions(t.grants, t.nextRole);
      }
      assert IsNamed(r.value, t.nextRole, name);
    }
  }

  /** A changed role has the new name, description and permissions; it can be changed
      exactly when it exists, is no system role and no other role has the name. */
  lemma ChangedRole(t: Tables, role: int, name: string, description: string, perms: seq<Permission>)
    requires Valid(t)
    ensures var r := RoleUpdated(t, role, name, description, perms);
      && (r.Changed? <==>
            role in t.roles && !t.roles[role].isSystem && !exists id :: id != role && IsNamed(t, id, name))
      && (r.Changed? ==>
            && r.tables.roles[role] == Role(name, description, false)
            && PermissionsOf(r.tables.grants, role) == perms
            && OnlyRoleChanges(t, r.tables, role))
  {
    var r := RoleUpdated(t, role, name, description, perms);
    if id :| id in t.roles && id != role && t.roles[id].name == name {
      assert IsNamed(t, id, name);
    }
    if r.Changed? {
      forall id
        ensures PermissionsOf(r.tables.grants, id) == if id == role then perms else PermissionsOf(t.grants, id)
      {
        PermissionsReplaced(t.grants, role, perms, id);
      }
    }
  }

  // ---------------------------------------------------------------- checking permissions

  /** Permission on everything follows from the global permissions, from `admin`
      among them, or from being an administrator, and from nothing else. */
  lemma GlobalPermissions(t: Tables, user: int, action: string)
    ensures UserHasPermission(t, user, "*", action)
       <==> IsUserAdmin(t, user)
            || action in UserGlobalPermissions(t, user) || "admin" in UserGlobalPermissions(t, user)
  {
    if !IsUserAdmin(t, user) && UserHasPermission(t, user, "*", action) {
      var i :| 0 <= i < |t.grants| && Grants(t, user, t.grants[i], "*", action);
      var found := if action in t.grants[i].permission.actions then action else "admin";
      assert found in t.grants[i].permission.actions;
      assert found in UserGlobalPermissions(t, user);
    }
    forall a | !IsUserAdmin(t, user) && a in UserGlobalPermissions(t, user) && a in {action, "admin"}
      ensures UserHasPermission(t, user, "*", action)
    {
      var i :| 0 <= i < |t.grants| && (user, t.grants[i].roleId) in t.links
               && t.grants[i].permission.projectName == "*" && a in t.grants[i].permission.actions;
      assert Grants(t, user, t.grants[i], "*", action);
    }
  }

  /** Holds through a role other than the given one. */
  predicate HoldsOtherwise(t: Tables, user: int, project: string, action: string, role: int) {
    IsUserAdmin(t, user)
    || exists i :: 0 <= i < |t.grants| && t.grants[i].roleId != role && Grants(t, user, t.grants[i], project, action)
  }

  lemma AdminAfterRemoval(t: Tables, fk: bool, role: int, user: int)
    requires role in t.roles && !t.roles[role].isSystem
    ensures IsUserAdmin(RoleDeleted(t, fk, role), user) <==> IsUserAdmin(t, user)
  {
    var t' := RoleDeleted(t, fk, role);
    if IsUserAdmin(t, user) {
      var link :| link in t.links && link.0 == user && IsAdminRole(t, link.1);
      assert link in t'.links && IsAdminRole(t', link.1);
    }
    if IsUserAdmin(t', user) {
      var link :| link in t'.links && link.0 == user && IsAdminRole(t', link.1);
      assert link in t.links && IsAdminRole(t, link.1);
    }
  }

  /** Deleting a role takes its permissions away where foreign keys cascade; where
      they do not, its rows stay behind and every permission is as before. */
  lemma RoleRemovalRevokes(t: Tables, fk: bool, role: int, user: int, project: string, action: string)
    requires RoleRemoved(t, fk, role).Changed?
    ensures UserHasPermission(RoleRemoved(t, fk, role).tables, user, project, action)
       <==> if fk then HoldsOtherwise(t, user, project, action, role) else UserHasPermission(t, user, project, action)
  {
    var t' := RoleRemoved(t, fk, role).tables;
    AdminAfterRemoval(t, fk, role, user);
    if fk {
      if i :| 0 <= i < |t.grants| && t.grants[i].roleId != role && Grants(t, user, t.grants[i], project, action) {
        WithoutIs(t.grants, role, t.grants[i]);
        var k :| 0 <= k < |t'.grants| && t'.grants[k] == t.grants[i];
        assert Grants(t', user, t'.grants[k], project, action);
      }
      if k :| 0 <= k < |t'.grants| && Grants(t', user, t'.grants[k], project, action) {
        WithoutIs(t.grants, role, t'.grants[k]);
        var i :| 0 <= i < |t.grants| && t.grants[i] == t'.grants[k];
        assert Grants(t, user, t.grants[i], project, action);
      }
    } else {
      assert forall i :: 0 <= i < |t.grants| ==>
        (Grants(t', user, t'.grants[i], project, action) <==> Grants(t, user, t.grants[i], project, action));
    }
  }

  /** A role that gives its one holder a permission on everything. */
  const ROLE_HELD := Tables(
    map[1 := User("a", Local, false)], map[1 := Role("viewer", "", false)], {(1, 1)},
    [Grant(1, Permission("*", ["view_logs"]))], 2, 2)

  /** Without cascading keys it goes on doing so once it is deleted. */
  lemma DeletedRoleStillGrants(t: Tables)
    requires t == ROLE_HELD
    ensures Valid(t) && RoleRemoved(t, false, 1).Changed? && 1 !in RoleRemoved(t, false, 1).tables.roles
    ensures UserHasPermission(RoleRemoved(t, false, 1).tables, 1, "*", "view_logs")
    ensures !UserHasPermission(RoleRemoved(t, true, 1).tables, 1, "*", "view_logs")
  {
    assert Grants(t, 1, t.grants[0], "*", "view_logs");
    RoleRemovalRevokes(t, false, 1, 1, "*", "view_logs");
    RoleRemovalRevokes(t, true, 1, 1, "*", "view_logs");
  }
}
