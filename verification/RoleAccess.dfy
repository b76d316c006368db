/** Roles and permissions as their users see them: what a user may do, in terms of the
    roles he has and the permissions these have, and what each kind of update leaves
    him and others. */
module RoleAccess {
  import opened Text
  import opened RoleStore
  import opened UserAdmin
  import opened RoleEffects

  // ---------------------------------------------------------------- checking permissions

  lemma {:induction false} PermissionRows(grants: seq<Grant>, role: int, p: Permission)
    ensures p in PermissionsOf(grants, role) <==> Grant(role, p) in grants
  {
    if grants != [] {
      var front, last := grants[..|grants| - 1], grants[|grants| - 1];
      PermissionRows(front, role, p);
      assert grants == front + [last];
    }
  }

  /** The permission covers the project and the action. */
  predicate Covers(p: Permission, project: string, action: string) {
    (p.projectName == "*" || p.projectName == project) && (action in p.actions || "admin" in p.actions)
  }

  /** The user has a role with a permission that covers the action. */
  ghost predicate HasCovering(t: Tables, user: int, project: string, action: string) {
    exists role, p :: role in RolesOf(t, user) && p in PermissionsOf(t.grants, role) && Covers(p, project, action)
  }

  /** Who is no administrator may do exactly what a permission of one of his roles covers. */
  lemma AllowedIff(t: Tables, user: int, project: string, action: string)
    requires !IsUserAdmin(t, user)
    ensures UserHasPermission(t, user, project, action) <==> HasCovering(t, user, project, action)
  {
    if i :| 0 <= i < |t.grants| && Grants(t, user, t.grants[i], project, action) {
      var g := t.grants[i];
      RolesOfIs(t, user, g.roleId);
      PermissionRows(t.grants, g.roleId, g.permission);
      assert g == Grant(g.roleId, g.permission);
      assert Covers(g.permission, project, action);
    }
    if role, p :| role in RolesOf(t, user) && p in PermissionsOf(t.grants, role) && Covers(p, project, action) {
      RolesOfIs(t, user, role);
      PermissionRows(t.grants, role, p);
      var i :| 0 <= i < |t.grants| && t.grants[i] == Grant(role, p);
      assert Grants(t, user, t.grants[i], project, action);
    }
  }

  /** An administrator is who has the system role `admin`; he may do everything. */
  lemma AdministratorIff(t: Tables, user: int, project: string, action: string)
    ensures IsUserAdmin(t, user)
       <==> exists role :: role in RolesOf(t, user) && role in t.roles && t.roles[role].isSystem
                           && t.roles[role].name == "admin"
    ensures IsUserAdmin(t, user) ==> UserHasPermission(t, user, project, action)
  {
    if link :| link in t.links && link.0 == user && IsAdminRole(t, link.1) {
      RolesOfIs(t, user, link.1);
      assert link == (user, link.1);
    }
    if role :| role in RolesOf(t, user) && IsAdminRole(t, role) {
      RolesOfIs(t, user, role);
      assert (user, role).0 == user && (user, role).1 == role;
    }
  }

  /** The global permissions: all six for an administrator, for others those that a
      permission on all projects names. */
  lemma GlobalIs(t: Tables, user: int, action: string)
    ensures action in UserGlobalPermissions(t, user) <==>
      if IsUserAdmin(t, user) then
        action in {"view_dashboard", "view_system", "view_logs", "view_files", "edit_files", "view_audit"}
      else
        exists role, p :: role in RolesOf(t, user) && p in PermissionsOf(t.grants, role)
                          && p.projectName == "*" && action in p.actions
  {
    if !IsUserAdmin(t, user) {
      if action in UserGlobalPermissions(t, user) {
        var i :| 0 <= i < |t.grants| && (user, t.grants[i].roleId) in t.links
                 && t.grants[i].permission.projectName == "*" && action in t.grants[i].permission.actions;
        var g := t.grants[i];
        RolesOfIs(t, user, g.roleId);
        PermissionRows(t.grants, g.roleId, g.permission);
        assert g == Grant(g.roleId, g.permission);
      }
      if role, p :| role in RolesOf(t, user) && p in PermissionsOf(t.grants, role)
                    && p.projectName == "*" && action in p.actions {
        RolesOfIs(t, user, role);
        PermissionRows(t.grants, role, p);
      }
    }
  }

  // ---------------------------------------------------------------- updates

  /** The update says nothing of roles: none are given, or an empty list without the
      wish to clear. */
  predicate LeavesRoles(b: UserUpdate) {
    (b.roleIds == None || b.roleIds == Some([])) && !b.clearPermissions
  }

  /** The user's personal role. */
  ghost predicate IsPersonal(t: Tables, user: int, role: int) {
    user in t.users && role in t.roles && t.roles[role].name == "__personal." + t.users[user].username
  }

  lemma PersonalNameIs(name: string)
    ensures PersonalRoleName(name) == "__personal." + name
  {
  }

  /** Links that the permissions of an update leave alone. */
  lemma PermissionsKeepLinks(t: Tables, fk: bool, user: int, b: UserUpdate, f: Faults, u: int, role: int)
    requires Valid(t) && !IsPersonal(t, user, role)
    ensures var t' := PermissionsStage(t, fk, user, b, f).tables;
      && ((u, role) in t.links ==> (u, role) in t'.links)
      && ((u, role) in t'.links ==> (u, role) in t.links || (u == user && IsPersonal(t', user, role)))
  {
    if user in t.users {
      PersonalNameIs(t.users[user].username);
    }
  }

  /** An update that says nothing of roles leaves the user all of them but the personal
      one, and gives him no other. */
  lemma RolesKept(t: Tables, fk: bool, actor: int, user: int, b: UserUpdate, f: Faults, role: int)
    requires Valid(t) && LeavesRoles(b) && !IsPersonal(t, user, role)
    ensures var t' := UserUpdated(t, fk, actor, user, b, f).tables;
      && (role in RolesOf(t, user) ==> role in RolesOf(t', user))
      && (role in RolesOf(t', user) ==> role in RolesOf(t, user) || IsPersonal(t', user, role))
  {
    var t1 := if b.disabled.Some? then DisabledSet(t, user, b.disabled.value) else t;
    var t' := UserUpdated(t, fk, actor, user, b, f).tables;
    PermissionsKeepLinks(t1, fk, user, b, f, user, role);
    RolesOfIs(t, user, role);
    RolesOfIs(t', user, role);
  }

  /** An update that gives permissions and says nothing of roles adds the personal role,
      with exactly these permissions, to the roles the user has. */
  lemma PermissionsGiven(t: Tables, fk: bool, actor: int, user: int, b: UserUpdate, f: Faults)
    returns (personal: int)
    requires Valid(t) && LeavesRoles(b) && b.permissions.Some? && b.permissions.value != []
    requires UserUpdated(t, fk, actor, user, b, f).status == NoContent
    ensures var t' := UserUpdated(t, fk, actor, user, b, f).tables;
      && IsPersonal(t', user, personal) && PermissionsOf(t'.grants, personal) == b.permissions.value
      && forall r :: r in RolesOf(t', user) <==> r in RolesOf(t, user) || r == personal
  {
    var t1 := if b.disabled.Some? then DisabledSet(t, user, b.disabled.value) else t;
    var t' := UserUpdated(t, fk, actor, user, b, f).tables;
    personal := UpsertedRole(t1, fk, user, t1.users[user].username, b.permissions.value);
    PersonalNameIs(t1.users[user].username);
    forall r
      ensures r in RolesOf(t', user) <==> r in RolesOf(t, user) || r == personal
    {
      RolesOfIs(t', user, r);
      RolesOfIs(t, user, r);
    }
  }

  /** The update clears the permissions, or gives an empty list of them. */
  predicate ClearsPermissions(b: UserUpdate) {
    b.permissions == Some([]) || (b.permissions == None && b.clearPermissions)
  }

  lemma StageClears(t: Tables, fk: bool, user: int, b: UserUpdate, f: Faults, role: int)
    requires Valid(t) && PermissionsStage(t, fk, user, b, f).status == NoContent && ClearsPermissions(b)
    ensures !IsPersonal(PermissionsStage(t, fk, user, b, f).tables, user, role)
  {
    var name := t.users[user].username;
    PersonalNameIs(name);
    var found := FindRole(t, PersonalRoleName(name));
    assert found.Some? ==> !t.roles[found.value].isSystem;
  }

  /** It leaves the user without a personal role. */
  lemma PersonalRoleGone(t: Tables, fk: bool, actor: int, user: int, b: UserUpdate, f: Faults, role: int)
    requires Valid(t) && UserUpdated(t, fk, actor, user, b, f).status == NoContent && ClearsPermissions(b)
    ensures !IsPersonal(UserUpdated(t, fk, actor, user, b, f).tables, user, role)
  {
    var t1 := if b.disabled.Some? then DisabledSet(t, user, b.disabled.value) else t;
    var t2 := if ReplacesRoles(b) then Assigned(t1, fk, user, b.roleIds.value).value else t1;
    StageClears(t2, fk, user, b, f, role);
  }

  /** An update that says nothing of permissions and roles changes none. */
  lemma NothingGiven(t: Tables, fk: bool, actor: int, user: int, b: UserUpdate, f: Faults)
    requires Valid(t) && LeavesRoles(b) && b.permissions == None
    ensures var t' := UserUpdated(t, fk, actor, user, b, f).tables;
      t'.roles == t.roles && t'.links == t.links && t'.grants == t.grants
  {
  }

  lemma RolesKeepLinks(t: Tables, fk: bool, user: int, ids: seq<int>, u: int, role: int)
    requires u != user && Assigned(t, fk, user, ids).Some?
    ensures (u, role) in Assigned(t, fk, user, ids).value.links <==> (u, role) in t.links
  {
  }

  lemma StageKeepsLinks(t: Tables, fk: bool, actor: int, user: int, b: UserUpdate, f: Faults, u: int, role: int)
    requires Valid(t) && u != user && !IsPersonal(t, user, role)
    ensures (u, role) in RolesStage(t, fk, actor, user, b, f).tables.links <==> (u, role) in t.links
  {
    if !ReplacesRoles(b) {
      PermissionsKeepLinks(t, fk, user, b, f, u, role);
    } else if Assigned(t, fk, user, b.roleIds.value).Some? {
      RolesKeepLinks(t, fk, user, b.roleIds.value, u, role);
      PermissionsKeepLinks(Assigned(t, fk, user, b.roleIds.value).value, fk, user, b, f, u, role);
    }
  }

  /** No update touches the roles of others, but for the personal role of the user. */
  lemma OthersKeepRoles(t: Tables, fk: bool, actor: int, user: int, b: UserUpdate, f: Faults, u: int, role: int)
    requires Valid(t) && u != user && !IsPersonal(t, user, role)
    ensures role in RolesOf(UserUpdated(t, fk, actor, user, b, f).tables, u) <==> role in RolesOf(t, u)
  {
    var t1 := if b.disabled.Some? then DisabledSet(t, user, b.disabled.value) else t;
    StageKeepsLinks(t1, fk, actor, user, b, f, u, role);
    RolesOfIs(t, u, role);
    RolesOfIs(UserUpdated(t, fk, actor, user, b, f).tables, u, role);
  }

  // ---------------------------------------------------------------- when an update succeeds

  /** Roles are given, an empty list only together with the wish to clear. */
  predicate GivesRoles(b: UserUpdate) {
    b.roleIds.Some? && !LeavesRoles(b)
  }

  /** The actor, an administrator, would give himself roles none of which is known to be
      the admin role. */
  predicate GuardsOwnAdmin(t: Tables, actor: int, user: int, b: UserUpdate, f: Faults)
    requires b.roleIds.Some?
  {
    && actor == user && !f.adminQuery && IsUserAdmin(t, user)
    && forall r :: r in b.roleIds.value && IsAdminRole(t, r) ==> r in f.roleQueries
  }

  /** The permissions are stored: the user is there, no statement fails, and the new
      personal role, if one is needed, is not already assigned. */
  ghost predicate StoresPermissions(t: Tables, user: int, b: UserUpdate, f: Faults) {
    && !f.userQuery && user in t.users && !f.upsert
    && (b.permissions.Some? && b.permissions.value != [] ==>
          (exists role :: IsPersonal(t, user, role))
          || (if GivesRoles(b) then t.nextRole !in b.roleIds.value else (user, t.nextRole) !in t.links))
  }

  lemma StoredIff(t: Tables, fk: bool, user: int, b: UserUpdate, f: Faults)
    requires Valid(t)
    ensures PermissionsStage(t, fk, user, b, f).status == NoContent
       <==> (b.permissions == None && !b.clearPermissions)
            || (!f.userQuery && user in t.users && !f.upsert
                && (b.permissions.Some? && b.permissions.value != [] ==>
                      (exists role :: IsPersonal(t, user, role)) || (user, t.nextRole) !in t.links))
  {
    if user in t.users {
      PersonalNameIs(t.users[user].username);
      var found := FindRole(t, PersonalRoleName(t.users[user].username));
      if found.Some? {
        assert IsPersonal(t, user, found.value);
      }
    }
  }

  lemma RolesGivenIff(t: Tables, fk: bool, actor: int, user: int, b: UserUpdate, f: Faults)
    requires Valid(t)
    ensures RolesStage(t, fk, actor, user, b, f).status == NoContent
       <==> && (GivesRoles(b) ==> !GuardsOwnAdmin(t, actor, user, b, f) && !f.assign
                                  && !Refusable(t, fk, user, b.roleIds.value))
            && (b.permissions.Some? || b.clearPermissions ==> StoresPermissions(t, user, b, f))
  {
    if GivesRoles(b) {
      RefusedIff(t, fk, user, b.roleIds.value);
      if Assigned(t, fk, user, b.roleIds.value).Some? {
        var t' := Assigned(t, fk, user, b.roleIds.value).value;
        StoredIff(t', fk, user, b, f);
        assert forall role :: IsPersonal(t', user, role) <==> IsPersonal(t, user, role);
      }
    } else {
      StoredIff(t, fk, user, b, f);
    }
  }

  /** An update succeeds exactly when the actor does not disable himself, no part of it
      fails, and the roles given are neither refused nor guarded. */
  lemma UpdateSucceedsIff(t: Tables, fk: bool, actor: int, user: int, b: UserUpdate, f: Faults)
    requires Valid(t)
    ensures UserUpdated(t, fk, actor, user, b, f).status == NoContent
       <==> && !(actor == user && b.disabled == Some(true)) && !(b.disabled.Some? && f.setDisabled)
            && (GivesRoles(b) ==> !GuardsOwnAdmin(t, actor, user, b, f) && !f.assign
                                  && !Refusable(t, fk, user, b.roleIds.value))
            && (b.permissions.Some? || b.clearPermissions ==> StoresPermissions(t, user, b, f))
  {
    if b.disabled.Some? {
      var t1 := DisabledSet(t, user, b.disabled.value);
      RolesGivenIff(t1, fk, actor, user, b, f);
      SameRoles(t, t1, fk, actor, user, b, f);
    } else {
      RolesGivenIff(t, fk, actor, user, b, f);
    }
  }

  lemma SameRoles(t: Tables, t1: Tables, fk: bool, actor: int, user: int, b: UserUpdate, f: Faults)
    requires t1.roles == t.roles && t1.links == t.links && t1.nextRole == t.nextRole
    requires t1.users.Keys == t.users.Keys && (user in t.users ==> t1.users[user].username == t.users[user].username)
    ensures b.roleIds.Some? ==>
      && (GuardsOwnAdmin(t1, actor, user, b, f) <==> GuardsOwnAdmin(t, actor, user, b, f))
      && (Refusable(t1, fk, user, b.roleIds.value) <==> Refusable(t, fk, user, b.roleIds.value))
    ensures StoresPermissions(t1, user, b, f) <==> StoresPermissions(t, user, b, f)
  {
    assert forall role :: IsPersonal(t1, user, role) <==> IsPersonal(t, user, role);
    assert IsUserAdmin(t1, user) <==> IsUserAdmin(t, user);
  }

  /** The update gets as far as replacing the roles, and they are accepted. */
  predicate AcceptsRoles(t: Tables, fk: bool, actor: int, user: int, b: UserUpdate, f: Faults) {
    && !(actor == user && b.disabled == Some(true)) && !(b.disabled.Some? && f.setDisabled)
    && GivesRoles(b) && !GuardsOwnAdmin(t, actor, user, b, f) && !f.assign && !Refusable(t, fk, user, b.roleIds.value)
  }

  /** What an unsuccessful update leaves done: no role or permission changes, but the new
      roles are assigned when only the permissions failed. */
  lemma FailedUpdate(t: Tables, fk: bool, actor: int, user: int, b: UserUpdate, f: Faults, role: int)
    requires Valid(t) && UserUpdated(t, fk, actor, user, b, f).status != NoContent
    ensures var t' := UserUpdated(t, fk, actor, user, b, f).tables;
      && t'.roles == t.roles && t'.grants == t.grants
      && (role in RolesOf(t', user) <==>
            if AcceptsRoles(t, fk, actor, user, b, f) then role in b.roleIds.value else role in RolesOf(t, user))
  {
    var t1 := if b.disabled.Some? then DisabledSet(t, user, b.disabled.value) else t;
    if !(actor == user && b.disabled == Some(true)) && !(b.disabled.Some? && f.setDisabled) {
      SameRoles(t, t1, fk, actor, user, b, f);
      FailedStage(t1, fk, actor, user, b, f, role);
      RolesOfIs(t, user, role);
      RolesOfIs(t1, user, role);
    }
  }

  lemma FailedPermissions(t: Tables, fk: bool, user: int, b: UserUpdate, f: Faults)
    requires Valid(t) && PermissionsStage(t, fk, user, b, f).status != NoContent
    ensures PermissionsStage(t, fk, user, b, f).tables == t
  {
  }

  lemma FailedStage(t: Tables, fk: bool, actor: int, user: int, b: UserUpdate, f: Faults, role: int)
    requires Valid(t) && RolesStage(t, fk, actor, user, b, f).status != NoContent
    ensures var t' := RolesStage(t, fk, actor, user, b, f).tables;
      && t'.roles == t.roles && t'.grants == t.grants
      && (role in RolesOf(t', user) <==>
            if GivesRoles(b) && !GuardsOwnAdmin(t, actor, user, b, f) && !f.assign
               && !Refusable(t, fk, user, b.roleIds.value)
            then role in b.roleIds.value else role in RolesOf(t, user))
  {
    if GivesRoles(b) {
      RefusedIff(t, fk, user, b.roleIds.value);
      if Assigned(t, fk, user, b.roleIds.value).Some? {
        AssignedRoles(t, fk, user, b.roleIds.value);
        var t' := Assigned(t, fk, user, b.roleIds.value).value;
        if PermissionsStage(t', fk, user, b, f).status != NoContent {
          FailedPermissions(t', fk, user, b, f);
        }
      }
    } else {
      FailedPermissions(t, fk, user, b, f);
    }
  }

  // ---------------------------------------------------------------- removing and creating

  /** A role is removed exactly when it exists and is no system role; users, the other
      roles and their assignments stay, and its own assignments go with cascading keys. */
  lemma RemovedRole(t: Tables, fk: bool, role: int, u: int, r: int)
    ensures var result := RoleRemoved(t, fk, role);
      && (result.Changed? <==> role in t.roles && !t.roles[role].isSystem)
      && (result.Changed? ==>
            var t' := result.tables;
            && t'.users == t.users && t'.roles.Keys == t.roles.Keys - {role}
            && (r in t'.roles ==> t'.roles[r] == t.roles[r])
            && (r in RolesOf(t', u) <==> r in RolesOf(t, u) && (fk ==> r != role)))
  {
    if RoleRemoved(t, fk, role).Changed? {
      RolesOfIs(t, u, r);
      RolesOfIs(RoleRemoved(t, fk, role).tables, u, r);
    }
  }

  /** Who is removed: anybody but the actor, when he exists and nothing fails. */
  lemma RemovedIff(t: Tables, fk: bool, actor: int, user: int, f: Faults)
    ensures var status := UserRemoved(t, fk, actor, user, f).status;
      && (status == BadRequest <==> actor == user)
      && (status == NotFound <==> actor != user && !f.userQuery && user !in t.users)
      && (status == NoContent <==> actor != user && !f.userQuery && user in t.users && !f.delete)
  {
  }

  /** A created user is enabled, has a new identifier and a name nobody had; nothing else
      changes. */
  lemma CreatedUser(t: Tables, username: string, authType: AuthType, u: int)
    requires Valid(t)
    ensures var r := UserCreated(t, username, authType);
      && (r == None <==> exists v :: v in t.users && t.users[v].username == username)
      && (r.Some? ==>
            && t.nextUser !in t.users && t.nextUser in r.value.users
            && r.value.users[t.nextUser] == User(username, authType, false)
            && (u != t.nextUser ==> (u in r.value.users <==> u in t.users))
            && (u in t.users ==> r.value.users[u] == t.users[u])
            && r.value.roles == t.roles && r.value.links == t.links && r.value.grants == t.grants)
  {
  }
}
