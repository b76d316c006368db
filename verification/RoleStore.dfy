/** The tables of users, roles, role assignments and permissions, and the database
    operations on them. Whether the database enforces its foreign keys, and so
    cascades deletions, is a parameter. */
module RoleStore {
  import opened Text

  datatype AuthType = Pam | Local

  datatype User = User(username: string, authType: AuthType, disabled: bool)

  datatype Role = Role(name: string, description: string, isSystem: bool)

  datatype Permission = Permission(projectName: string, actions: seq<string>)

  /** A permission row, in order of insertion. */
  datatype Grant = Grant(roleId: int, permission: Permission)

  datatype Tables = Tables(
    users: map<int, User>,
    roles: map<int, Role>,
    links: set<(int, int)>,
    grants: seq<Grant>,
    nextUser: int,
    nextRole: int)

  const PERSONAL_PREFIX := "__personal."

  function PersonalRoleName(username: string): string {
    PERSONAL_PREFIX + username
  }

  /** What the schema and its seed rows guarantee. Names are unique, identifiers are
      never reused, and no system role is named like a personal one. */
  ghost predicate Valid(t: Tables) {
    && (forall u :: u in t.users ==> u < t.nextUser)
    && (forall u, v :: u in t.users && v in t.users && t.users[u].username == t.users[v].username ==> u == v)
    && (forall r :: r in t.roles ==> r < t.nextRole)
    && (forall r, s :: r in t.roles && s in t.roles && t.roles[r].name == t.roles[s].name ==> r == s)
    && (forall r :: r in t.roles && t.roles[r].isSystem ==> !HasPrefix(t.roles[r].name, PERSONAL_PREFIX))
    && (forall i :: 0 <= i < |t.grants| ==> t.grants[i].roleId < t.nextRole)
  }

  // ---------------------------------------------------------------- queries

  function PermissionsOf(grants: seq<Grant>, roleId: int): seq<Permission> {
    if grants == [] then []
    else PermissionsOf(grants[..|grants| - 1], roleId)
         + (if grants[|grants| - 1].roleId == roleId then [grants[|grants| - 1].permission] else [])
  }

  function RolesOf(t: Tables, user: int): set<int> {
    set link | link in t.links && link.0 == user :: link.1
  }

  predicate IsAdminRole(t: Tables, role: int) {
    role in t.roles && t.roles[role].isSystem && t.roles[role].name == "admin"
  }

  /** The user holds the system admin role. */
  predicate IsUserAdmin(t: Tables, user: int) {
    exists link :: link in t.links && link.0 == user && IsAdminRole(t, link.1)
  }

  predicate Grants(t: Tables, user: int, g: Grant, project: string, action: string) {
    && (user, g.roleId) in t.links
    && (g.permission.projectName == "*" || g.permission.projectName == project)
    && (action in g.permission.actions || "admin" in g.permission.actions)
  }

  /** Assignments are joined with permission rows directly, not through the roles. */
  predicate UserHasPermission(t: Tables, user: int, project: string, action: string) {
    IsUserAdmin(t, user) || exists i :: 0 <= i < |t.grants| && Grants(t, user, t.grants[i], project, action)
  }

  const GLOBAL_ACTIONS := {"view_dashboard", "view_system", "view_logs", "view_files", "edit_files", "view_audit"}

  function UserGlobalPermissions(t: Tables, user: int): set<string> {
    if IsUserAdmin(t, user) then GLOBAL_ACTIONS
    else
      set i, action | 0 <= i < |t.grants| && (user, t.grants[i].roleId) in t.links
                      && t.grants[i].permission.projectName == "*" && action in t.grants[i].permission.actions
           :: action
  }

  ghost predicate IsNamed(t: Tables, role: int, name: string) {
    role in t.roles && t.roles[role].name == name
  }

  predicate NameTaken(t: Tables, name: string) {
    exists r :: r in t.roles && t.roles[r].name == name
  }

  function FindRole(t: Tables, name: string): (r: Option<int>)
    requires Valid(t)
    ensures r.Some? ==> IsNamed(t, r.value, name)
    ensures r.None? ==> !NameTaken(t, name)
  {
    if NameTaken(t, name) then
      var r :| r in t.roles && t.roles[r].name == name; Some(r)
    else None
  }

  // ---------------------------------------------------------------- changes
  // Each gives the tables after the change, or nothing when the database refuses
  // it; a refused change is rolled back.

  predicate NoDuplicates(ids: seq<int>) {
    forall i, j :: 0 <= i < j < |ids| ==> ids[i] != ids[j]
  }

  function GrantsFor(roleId: int, perms: seq<Permission>): seq<Grant> {
    seq(|perms|, i requires 0 <= i < |perms| => Grant(roleId, perms[i]))
  }

  function Without(grants: seq<Grant>, roleId: int): (rest: seq<Grant>)
    ensures forall i :: 0 <= i < |rest| ==> rest[i] in grants
  {
    if grants == [] then []
    else Without(grants[..|grants| - 1], roleId)
         + (if grants[|grants| - 1].roleId == roleId then [] else [grants[|grants| - 1]])
  }

  /** The assignments of all other users. */
  function LinksWithout(links: set<(int, int)>, user: int): set<(int, int)> {
    set link | link in links && link.0 != user
  }

  function LinksFor(user: int, ids: seq<int>): (links: set<(int, int)>)
    ensures forall u, r :: (u, r) in links <==> u == user && r in ids
  {
    if ids == [] then {}
    else
      assert ids == ids[..|ids| - 1] + [ids[|ids| - 1]];
      LinksFor(user, ids[..|ids| - 1]) + {(user, ids[|ids| - 1])}
  }

  /** Replaces the assignments of a user. */
  function Assigned(t: Tables, fk: bool, user: int, ids: seq<int>): (r: Option<Tables>)
    ensures Valid(t) && r.Some? ==> Valid(r.value) && r.value.users == t.users
  {
    if NoDuplicates(ids) && (fk && ids != [] ==> user in t.users && forall r :: r in ids ==> r in t.roles) then
      Some(t.(links := LinksWithout(t.links, user) + LinksFor(user, ids)))
    else None
  }

  /** The new roles of a user name one twice, or with enforced foreign keys a row that is missing. */
  predicate Refusable(t: Tables, fk: bool, user: int, ids: seq<int>) {
    || (exists i, j :: 0 <= i < j < |ids| && ids[i] == ids[j])
    || (fk && ids != [] && (user !in t.users || exists r :: r in ids && r !in t.roles))
  }

  lemma RefusedIff(t: Tables, fk: bool, user: int, ids: seq<int>)
    ensures Assigned(t, fk, user, ids) == None <==> Refusable(t, fk, user, ids)
  {
  }

  /** Deletes a role, and what refers to it when foreign keys are enforced. */
  function RoleDeleted(t: Tables, fk: bool, role: int): (r: Tables)
    ensures Valid(t) ==> Valid(r)
  {
    var rest := t.(roles := t.roles - {role});
    if fk then
      rest.(links := (set link | link in t.links && link.1 != role), grants := Without(t.grants, role))
    else rest
  }

  /** Creates or replaces the personal role of a user; empty permissions delete it. */
  function PersonalRoleUpserted(
    t: Tables, fk: bool, user: int, username: string, perms: seq<Permission>): (r: Option<Tables>)
    requires Valid(t)
    ensures r.Some? ==> Valid(r.value) && r.value.users == t.users
  {
    var name := PersonalRoleName(username);
    match FindRole(t, name)
    case None =>
      if perms == [] then Some(t)
      else if (user, t.nextRole) in t.links || (fk && user !in t.users) then None
      else Some(t.(roles := t.roles[t.nextRole := Role(name, "", false)],
                   links := t.links + {(user, t.nextRole)},
                   grants := Without(t.grants, t.nextRole) + GrantsFor(t.nextRole, perms),
                   nextRole := t.nextRole + 1))
    case Some(role) =>
      if perms == [] then Some(if t.roles[role].isSystem then t else RoleDeleted(t, fk, role))
      else if fk && user !in t.users && (user, role) !in t.links then None
      else Some(t.(links := t.links + {(user, role)},
                   grants := Without(t.grants, role) + GrantsFor(role, perms)))
  }

  function RoleCreated(t: Tables, name: string, description: string, perms: seq<Permission>): (r: Option<Tables>)
    ensures Valid(t) && r.Some? ==> Valid(r.value)
  {
    if NameTaken(t, name) then None
    else Some(t.(roles := t.roles[t.nextRole := Role(name, description, false)],
                 grants := t.grants + GrantsFor(t.nextRole, perms),
                 nextRole := t.nextRole + 1))
  }

  datatype RoleError = RoleNotFound | SystemRole | Refused

  datatype RoleResult = Changed(tables: Tables) | Rejected(error: RoleError)

  function RoleUpdated(t: Tables, role: int, name: string, description: string, perms: seq<Permission>): (r: RoleResult)
    ensures Valid(t) && r.Changed? ==> Valid(r.tables)
  {
    if role !in t.roles then Rejected(RoleNotFound)
    else if t.roles[role].isSystem then Rejected(SystemRole)
    else if exists r :: r in t.roles && r != role && t.roles[r].name == name then Rejected(Refused)
    else Changed(t.(roles := t.roles[role := Role(name, description, false)],
                    grants := Without(t.grants, role) + GrantsFor(role, perms)))
  }

  function RoleRemoved(t: Tables, fk: bool, role: int): (r: RoleResult)
    ensures Valid(t) && r.Changed? ==> Valid(r.tables)
  {
    if role !in t.roles then Rejected(RoleNotFound)
    else if t.roles[role].isSystem then Rejected(SystemRole)
    else Changed(RoleDeleted(t, fk, role))
  }

  function UserCreated(t: Tables, username: string, authType: AuthType): (r: Option<Tables>)
    ensures Valid(t) && r.Some? ==> Valid(r.value)
  {
    if exists u :: u in t.users && t.users[u].username == username then None
    else Some(t.(users := t.users[t.nextUser := User(username, authType, false)], nextUser := t.nextUser + 1))
  }

  function DisabledSet(t: Tables, user: int, disabled: bool): (r: Tables)
    ensures Valid(t) ==> Valid(r)
  {
    if user in t.users then t.(users := t.users[user := t.users[user].(disabled := disabled)]) else t
  }

  function UserDeleted(t: Tables, fk: bool, user: int): (r: Tables)
    ensures Valid(t) ==> Valid(r)
  {
    var rest := t.(users := t.users - {user});
    if fk then rest.(links := LinksWithout(t.links, user)) else rest
  }

  // ---------------------------------------------------------------- facts about permission rows

  lemma {:induction false} PermissionsConcat(a: seq<Grant>, b: seq<Grant>, role: int)
    ensures PermissionsOf(a + b, role) == PermissionsOf(a, role) + PermissionsOf(b, role)
  {
    if b == [] {
      assert a + b == a;
    } else {
      var n := |b| - 1;
      assert (a + b)[..|a + b| - 1] == a + b[..n];
      PermissionsConcat(a, b[..n], role);
    }
  }

  lemma {:induction false} PermissionsWithout(grants: seq<Grant>, role: int, other: int)
    ensures PermissionsOf(Without(grants, other), role) == if role == other then [] else PermissionsOf(grants, role)
  {
    if grants != [] {
      var front, last := grants[..|grants| - 1], grants[|grants| - 1];
      PermissionsWithout(front, role, other);
      if last.roleId != other {
        PermissionsConcat(Without(front, other), [last], role);
        assert [last][..0] == [];
      } else {
        assert Without(grants, other) == Without(front, other);
      }
    }
  }

  lemma {:induction false} PermissionsGranted(role: int, perms: seq<Permission>, other: int)
    ensures PermissionsOf(GrantsFor(role, perms), other) == if role == other then perms else []
  {
    if perms != [] {
      var n := |perms| - 1;
      assert GrantsFor(role, perms)[..n] == GrantsFor(role, perms[..n]);
      PermissionsGranted(role, perms[..n], other);
    }
  }

  /** Replacing the rows of one role gives it the new ones and no other role any. */
  lemma PermissionsReplaced(grants: seq<Grant>, role: int, perms: seq<Permission>, other: int)
    ensures PermissionsOf(Without(grants, role) + GrantsFor(role, perms), other)
         == if other == role then perms else PermissionsOf(grants, other)
  {
    PermissionsConcat(Without(grants, role), GrantsFor(role, perms), other);
    PermissionsWithout(grants, other, role);
    PermissionsGranted(role, perms, other);
  }

  lemma {:induction false} WithoutIs(grants: seq<Grant>, role: int, g: Grant)
    ensures g in Without(grants, role) <==> g in grants && g.roleId != role
  {
    if grants != [] {
      WithoutIs(grants[..|grants| - 1], role, g);
      assert grants == grants[..|grants| - 1] + [grants[|grants| - 1]];
    }
  }
}
