/** Administering users: the guarded updates and deletions of the user handlers,
    each taken as one atomic step on the tables. A fault is a database statement
    that fails for a reason of its own; its transaction is rolled back. */
module UserAdmin {
  import opened Text
  import opened RoleStore
  import opened RoleDatabase

  /** The body of an update; an absent part is left as it is. */
  datatype UserUpdate = UserUpdate(
    disabled: Option<bool>,
    roleIds: Option<seq<int>>,
    permissions: Option<seq<Permission>>,
    clearPermissions: bool)

  datatype Faults = Faults(
    setDisabled: bool,
    adminQuery: bool,
    roleQueries: set<int>,    // lookups of these roles
    assign: bool,
    userQuery: bool,
    upsert: bool,
    delete: bool)

  datatype Status = NoContent | BadRequest | NotFound | Failed

  datatype Response = Response(tables: Tables, status: Status)

  /** Roles are replaced only when given, and an empty list only together with
      clearing the permissions. */
  predicate ReplacesRoles(b: UserUpdate) {
    b.roleIds.Some? && (b.roleIds.value != [] || b.clearPermissions)
  }

  predicate ReplacesPermissions(b: UserUpdate) {
    b.permissions.Some? || b.clearPermissions
  }

  function NewPermissions(b: UserUpdate): seq<Permission> {
    if b.permissions.Some? then b.permissions.value else []
  }

  predicate LostOwnAdmin(t: Tables, actor: int, user: int, ids: seq<int>, f: Faults) {
    && actor == user
    && !f.adminQuery && IsUserAdmin(t, user)
    && !(exists r :: r in ids && r !in f.roleQueries && IsAdminRole(t, r))
  }

  function PermissionsStage(t: Tables, fk: bool, user: int, b: UserUpdate, f: Faults): (r: Response)
    requires Valid(t)
    ensures Valid(r.tables) && r.tables.users == t.users
  {
    if !ReplacesPermissions(b) then Response(t, NoContent)
    else if f.userQuery || user !in t.users || f.upsert then Response(t, Failed)
    else
      match PersonalRoleUpserted(t, fk, user, t.users[user].username, NewPermissions(b))
      case None => Response(t, Failed)
      case Some(t') => Response(t', NoContent)
  }

  function RolesStage(t: Tables, fk: bool, actor: int, user: int, b: UserUpdate, f: Faults): (r: Response)
    requires Valid(t)
    ensures Valid(r.tables) && r.tables.users == t.users
  {
    if !ReplacesRoles(b) then PermissionsStage(t, fk, user, b, f)
    else if LostOwnAdmin(t, actor, user, b.roleIds.value, f) then Response(t, BadRequest)
    else if f.assign then Response(t, Failed)
    else
      match Assigned(t, fk, user, b.roleIds.value)
      case None => Response(t, Failed)
      case Some(t') => PermissionsStage(t', fk, user, b, f)
  }

  function UserUpdated(t: Tables, fk: bool, actor: int, user: int, b: UserUpdate, f: Faults): (r: Response)
    requires Valid(t)
    ensures Valid(r.tables) && r.tables.users.Keys == t.users.Keys
  {
    if actor == user && b.disabled == Some(true) then Response(t, BadRequest)
    else if b.disabled.Some? && f.setDisabled then Response(t, Failed)
    else RolesStage(if b.disabled.Some? then DisabledSet(t, user, b.disabled.value) else t, fk, actor, user, b, f)
  }

  /** System users are disabled, local ones deleted; never the acting user. */
  function UserRemoved(t: Tables, fk: bool, actor: int, user: int, f: Faults): (r: Response)
    ensures Valid(t) ==> Valid(r.tables)
  {
    if actor == user then Response(t, BadRequest)
    else if f.userQuery then Response(t, Failed)
    else if user !in t.users then Response(t, NotFound)
    else if f.delete then Response(t, Failed)
    else if t.users[user].authType == Pam then Response(DisabledSet(t, user, true), NoContent)
    else Response(UserDeleted(t, fk, user), NoContent)
  }

  // ---------------------------------------------------------------- the handlers

  /** Whether the admin role is among the given ones, as far as they can be read. */
  method KeepsAdmin(t: Tables, ids: seq<int>, f: Faults) returns (stillAdmin: bool)
    ensures stillAdmin <==> exists r :: r in ids && r !in f.roleQueries && IsAdminRole(t, r)
  {
    stillAdmin := false;
    for i := 0 to |ids|
      invariant !stillAdmin
      invariant forall j :: 0 <= j < i ==> ids[j] in f.roleQueries || !IsAdminRole(t, ids[j])
    {
      if ids[i] !in f.roleQueries && IsAdminRole(t, ids[i]) {
        stillAdmin := true;
        break;
      }
    }
  }

  method UpdateRoles(database: Database, actor: int, user: int, ids: seq<int>, f: Faults) returns (status: Status)
    modifies database
    ensures var t := old(database.tables);
      Response(database.tables, status) ==
        if LostOwnAdmin(t, actor, user, ids, f) then Response(t, BadRequest)
        else if f.assign then Response(t, Failed)
        else match Assigned(t, database.fk, user, ids)
             case None => Response(t, Failed)
             case Some(t') => Response(t', NoContent)
  {
    if actor == user {
      var isAdmin := !f.adminQuery && IsUserAdmin(database.tables, user);
      if isAdmin {
        var stillAdmin := KeepsAdmin(database.tables, ids, f);
        if !stillAdmin {
          return BadRequest;
        }
      }
    }
    if f.assign {
      return Failed;
    }
    var ok := database.AssignRolesToUser(user, ids);
    return if ok then NoContent else Failed;
  }

  method UpdatePermissions(database: Database, user: int, body: UserUpdate, f: Faults) returns (status: Status)
    requires Valid(database.tables)
    modifies database
    ensures Response(database.tables, status) == PermissionsStage(old(database.tables), database.fk, user, body, f)
  {
    if body.permissions.Some? || body.clearPermissions {
      if f.userQuery || user !in database.tables.users || f.upsert {
        return Failed;
      }
      var username := database.tables.users[user].username;
      var ok := database.UpsertPersonalRole(user, username, NewPermissions(body));
      if !ok {
        return Failed;
      }
    }
    return NoContent;
  }

  method UpdateUser(database: Database, actor: int, user: int, body: UserUpdate, f: Faults) returns (status: Status)
    requires Valid(database.tables)
    modifies database
    ensures Response(database.tables, status)
         == UserUpdated(old(database.tables), database.fk, actor, user, body, f)
  {
    if actor == user && body.disabled == Some(true) {
      return BadRequest;
    }
    if body.disabled.Some? {
      if f.setDisabled {
        return Failed;
      }
      database.SetUserDisabled(user, body.disabled.value);
    }
    if body.roleIds.Some? && (|body.roleIds.value| > 0 || body.clearPermissions) {
      status := UpdateRoles(database, actor, user, body.roleIds.value, f);
      if status != NoContent {
        return;
      }
    }
    status := UpdatePermissions(database, user, body, f);
  }

  method DeleteUser(database: Database, actor: int, user: int, f: Faults) returns (status: Status)
    modifies database
    ensures Response(database.tables, status) == UserRemoved(old(database.tables), database.fk, actor, user, f)
  {
    if actor == user {
      return BadRequest;
    }
    if f.userQuery {
      return Failed;
    }
    if user !in database.tables.users {
      return NotFound;
    }
    if f.delete {
      return Failed;
    }
    if database.tables.users[user].authType == Pam {
      database.SetUserDisabled(user, true);
    } else {
      database.DeleteUser(user);
    }
    return NoContent;
  }
}
