/** Runs of admin requests. The system roles never change, and whoever acts stays an
    administrator but for one unguarded case; from that follows exactly which runs
    end without an administrator. */
module AdminRuns {
  import opened Text
  import opened RoleStore
  import opened UserAdmin

  // ---------------------------------------------------------------- what every change keeps

  /** The system roles, with their rows and permissions, are the same. */
  ghost predicate SystemKept(t: Tables, t': Tables) {
    && (forall r :: r in t.roles && t.roles[r].isSystem ==>
          r in t'.roles && t'.roles[r] == t.roles[r]
          && PermissionsOf(t'.grants, r) == PermissionsOf(t.grants, r))
    && (forall r :: r in t'.roles && t'.roles[r].isSystem ==> r in t.roles && t.roles[r].isSystem)
  }

  /** The user keeps every system role. */
  ghost predicate HoldingsKept(t: Tables, t': Tables, user: int) {
    forall r :: (user, r) in t.links && r in t.roles && t.roles[r].isSystem ==> (user, r) in t'.links
  }

  lemma AdminKept(t: Tables, t': Tables, user: int)
    requires SystemKept(t, t') && HoldingsKept(t, t', user) && IsUserAdmin(t, user)
    ensures IsUserAdmin(t', user)
  {
    var link :| link in t.links && link.0 == user && IsAdminRole(t, link.1);
    assert link == (user, link.1);
    assert (user, link.1) in t'.links && IsAdminRole(t', link.1);
  }

  lemma SystemKeptTransitive(t: Tables, t1: Tables, t2: Tables)
    requires SystemKept(t, t1) && SystemKept(t1, t2)
    ensures SystemKept(t, t2)
  {
  }

  lemma HoldingsKeptTransitive(t: Tables, t1: Tables, t2: Tables, u: int)
    requires SystemKept(t, t1) && HoldingsKept(t, t1, u) && HoldingsKept(t1, t2, u)
    ensures HoldingsKept(t, t2, u)
  {
  }

  lemma RowsReplacedKeep(t: Tables, t': Tables, role: int, perms: seq<Permission>)
    requires t'.grants == Without(t.grants, role) + GrantsFor(role, perms)
    requires role in t.roles ==> !t.roles[role].isSystem
    ensures forall r :: r in t.roles && t.roles[r].isSystem ==>
      PermissionsOf(t'.grants, r) == PermissionsOf(t.grants, r)
  {
    forall r | r in t.roles && t.roles[r].isSystem
      ensures PermissionsOf(t'.grants, r) == PermissionsOf(t.grants, r)
    {
      PermissionsReplaced(t.grants, role, perms, r);
    }
  }

  lemma RoleDeletedKeeps(t: Tables, fk: bool, role: int, u: int)
    requires role in t.roles && !t.roles[role].isSystem
    ensures SystemKept(t, RoleDeleted(t, fk, role)) && HoldingsKept(t, RoleDeleted(t, fk, role), u)
  {
    forall r | r in t.roles && t.roles[r].isSystem
      ensures PermissionsOf(Without(t.grants, role), r) == PermissionsOf(t.grants, r)
    {
      PermissionsWithout(t.grants, r, role);
    }
  }

  lemma AssignedKeeps(t: Tables, fk: bool, user: int, ids: seq<int>, u: int)
    requires u != user && Assigned(t, fk, user, ids).Some?
    ensures SystemKept(t, Assigned(t, fk, user, ids).value) && HoldingsKept(t, Assigned(t, fk, user, ids).value, u)
  {
  }

  lemma UpsertedKeeps(t: Tables, fk: bool, user: int, username: string, perms: seq<Permission>, u: int)
    requires Valid(t) && PersonalRoleUpserted(t, fk, user, username, perms).Some?
    ensures var t' := PersonalRoleUpserted(t, fk, user, username, perms).value;
      SystemKept(t, t') && HoldingsKept(t, t', u)
  {
    var t' := PersonalRoleUpserted(t, fk, user, username, perms).value;
    var found := FindRole(t, PersonalRoleName(username));
    if perms != [] {
      assert found.Some? ==> !t.roles[found.value].isSystem;
      RowsReplacedKeep(t, t', if found.Some? then found.value else t.nextRole, perms);
    } else if found.Some? && !t.roles[found.value].isSystem {
      RoleDeletedKeeps(t, fk, found.value, u);
    }
  }

  lemma RoleCreatedKeeps(t: Tables, name: string, description: string, perms: seq<Permission>, u: int)
    requires Valid(t) && RoleCreated(t, name, description, perms).Some?
    ensures var t' := RoleCreated(t, name, description, perms).value; SystemKept(t, t') && HoldingsKept(t, t', u)
  {
    forall r | r in t.roles
      ensures PermissionsOf(t.grants + GrantsFor(t.nextRole, perms), r) == PermissionsOf(t.grants, r)
    {
      PermissionsConcat(t.grants, GrantsFor(t.nextRole, perms), r);
      PermissionsGranted(t.nextRole, perms, r);
    }
  }

  lemma RoleUpdatedKeeps(t: Tables, role: int, name: string, description: string, perms: seq<Permission>, u: int)
    requires RoleUpdated(t, role, name, description, perms).Changed?
    ensures var t' := RoleUpdated(t, role, name, description, perms).tables; SystemKept(t, t') && HoldingsKept(t, t', u)
  {
    RowsReplacedKeep(t, RoleUpdated(t, role, name, description, perms).tables, role, perms);
  }

  // ---------------------------------------------------------------- updating a user

  lemma PermissionsStageKeeps(t: Tables, fk: bool, user: int, b: UserUpdate, f: Faults, u: int)
    requires Valid(t)
    ensures var t' := PermissionsStage(t, fk, user, b, f).tables; SystemKept(t, t') && HoldingsKept(t, t', u)
  {
    if ReplacesPermissions(b) && user in t.users
       && PersonalRoleUpserted(t, fk, user, t.users[user].username, NewPermissions(b)).Some? {
      UpsertedKeeps(t, fk, user, t.users[user].username, NewPermissions(b), u);
    }
  }

  lemma AssignedStageKeeps(t: Tables, fk: bool, user: int, b: UserUpdate, f: Faults, u: int)
    requires Valid(t) && ReplacesRoles(b) && Assigned(t, fk, user, b.roleIds.value).Some?
    ensures var t' := PermissionsStage(Assigned(t, fk, user, b.roleIds.value).value, fk, user, b, f).tables;
      SystemKept(t, t') && (u != user ==> HoldingsKept(t, t', u))
  {
    var t1 := Assigned(t, fk, user, b.roleIds.value).value;
    var t2 := PermissionsStage(t1, fk, user, b, f).tables;
    PermissionsStageKeeps(t1, fk, user, b, f, u);
    SystemKeptTransitive(t, t1, t2);
    if u != user {
      AssignedKeeps(t, fk, user, b.roleIds.value, u);
      HoldingsKeptTransitive(t, t1, t2, u);
    }
  }

  lemma RolesStageKeeps(t: Tables, fk: bool, actor: int, user: int, b: UserUpdate, f: Faults, u: int)
    requires Valid(t)
    ensures var t' := RolesStage(t, fk, actor, user, b, f).tables;
      SystemKept(t, t') && (u != user ==> HoldingsKept(t, t', u))
  {
    if !ReplacesRoles(b) {
      PermissionsStageKeeps(t, fk, user, b, f, u);
    } else if LostOwnAdmin(t, actor, user, b.roleIds.value, f) || f.assign {
    } else if Assigned(t, fk, user, b.roleIds.value).Some? {
      AssignedStageKeeps(t, fk, user, b, f, u);
    }
  }

  /** Updating one user keeps the system roles, and what others hold of them. */
  lemma UserUpdatedKeeps(t: Tables, fk: bool, actor: int, user: int, b: UserUpdate, f: Faults, u: int)
    requires Valid(t)
    ensures var t' := UserUpdated(t, fk, actor, user, b, f).tables;
      SystemKept(t, t') && (u != user ==> HoldingsKept(t, t', u))
  {
    var t1 := if b.disabled.Some? then DisabledSet(t, user, b.disabled.value) else t;
    var t2 := RolesStage(t1, fk, actor, user, b, f).tables;
    RolesStageKeeps(t1, fk, actor, user, b, f, u);
    SystemKeptTransitive(t, t1, t2);
    if u != user {
      HoldingsKeptTransitive(t, t1, t2, u);
    }
  }

  /** The update replaces a user's roles by ones without the admin role; the actor's
      own are guarded unless the admin query fails. */
  predicate DropsAdmin(t: Tables, fk: bool, actor: int, user: int, b: UserUpdate, f: Faults) {
    && ReplacesRoles(b)
    && !(actor == user && b.disabled == Some(true)) && !(b.disabled.Some? && f.setDisabled)
    && (actor == user ==> f.adminQuery) && !f.assign && !Refusable(t, fk, user, b.roleIds.value)
    && forall r :: r in b.roleIds.value ==> !IsAdminRole(t, r)
  }

  lemma AssignedAdmin(t: Tables, fk: bool, user: int, ids: seq<int>)
    requires Assigned(t, fk, user, ids).Some?
    ensures IsUserAdmin(Assigned(t, fk, user, ids).value, user) <==> exists r :: r in ids && IsAdminRole(t, r)
  {
    var t' := Assigned(t, fk, user, ids).value;
    if r :| r in ids && IsAdminRole(t, r) {
      assert (user, r) in t'.links && IsAdminRole(t', r);
    }
    if IsUserAdmin(t', user) {
      var link :| link in t'.links && link.0 == user && IsAdminRole(t', link.1);
      assert (user, link.1) in LinksFor(user, ids);
    }
  }

  /** Replacing the personal role makes nobody an administrator and unmakes nobody. */
  lemma StageKeepsStatus(t: Tables, fk: bool, user: int, b: UserUpdate, f: Faults, u: int)
    requires Valid(t)
    ensures IsUserAdmin(PermissionsStage(t, fk, user, b, f).tables, u) <==> IsUserAdmin(t, u)
  {
  }

  lemma AssignedStageAdmin(t: Tables, fk: bool, user: int, b: UserUpdate, f: Faults)
    requires Valid(t) && ReplacesRoles(b) && Assigned(t, fk, user, b.roleIds.value).Some?
    ensures IsUserAdmin(PermissionsStage(Assigned(t, fk, user, b.roleIds.value).value, fk, user, b, f).tables, user)
       <==> exists r :: r in b.roleIds.value && IsAdminRole(t, r)
  {
    AssignedAdmin(t, fk, user, b.roleIds.value);
    StageKeepsStatus(Assigned(t, fk, user, b.roleIds.value).value, fk, user, b, f, user);
  }

  lemma RolesStageDropsAdmin(t: Tables, fk: bool, actor: int, user: int, b: UserUpdate, f: Faults)
    requires Valid(t) && IsUserAdmin(t, user)
    ensures IsUserAdmin(RolesStage(t, fk, actor, user, b, f).tables, user)
       <==> !(ReplacesRoles(b) && (actor == user ==> f.adminQuery) && !f.assign
              && !Refusable(t, fk, user, b.roleIds.value)
              && forall r :: r in b.roleIds.value ==> !IsAdminRole(t, r))
  {
    if !ReplacesRoles(b) {
      StageKeepsStatus(t, fk, user, b, f, user);
    } else {
      RefusedIff(t, fk, user, b.roleIds.value);
      if Assigned(t, fk, user, b.roleIds.value).Some? {
        AssignedStageAdmin(t, fk, user, b, f);
      }
    }
  }

  lemma SameRolesRefusable(t: Tables, t': Tables, fk: bool, user: int, ids: seq<int>)
    requires t'.roles == t.roles && t'.users.Keys == t.users.Keys
    ensures Refusable(t', fk, user, ids) <==> Refusable(t, fk, user, ids)
    ensures (forall r :: r in ids ==> !IsAdminRole(t', r)) <==> forall r :: r in ids ==> !IsAdminRole(t, r)
  {
  }

  /** An updated administrator stays one exactly when his admin role is not dropped. */
  lemma UpdateDropsAdmin(t: Tables, fk: bool, actor: int, user: int, b: UserUpdate, f: Faults)
    requires Valid(t) && IsUserAdmin(t, user)
    ensures IsUserAdmin(UserUpdated(t, fk, actor, user, b, f).tables, user)
       <==> !DropsAdmin(t, fk, actor, user, b, f)
  {
    var t1 := if b.disabled.Some? then DisabledSet(t, user, b.disabled.value) else t;
    AdminKept(t, t1, user);
    RolesStageDropsAdmin(t1, fk, actor, user, b, f);
    if ReplacesRoles(b) {
      SameRolesRefusable(t, t1, fk, user, b.roleIds.value);
    }
  }

  lemma AssignedKeepsStatus(t: Tables, fk: bool, user: int, ids: seq<int>, u: int)
    requires u != user && Assigned(t, fk, user, ids).Some?
    ensures IsUserAdmin(Assigned(t, fk, user, ids).value, u) <==> IsUserAdmin(t, u)
  {
    var t' := Assigned(t, fk, user, ids).value;
    assert forall r :: IsAdminRole(t', r) <==> IsAdminRole(t, r);
    assert forall link :: link in t'.links && link.0 == u <==> link in t.links && link.0 == u;
  }

  lemma RolesStageKeepsStatus(t: Tables, fk: bool, actor: int, user: int, b: UserUpdate, f: Faults, u: int)
    requires Valid(t) && u != user
    ensures IsUserAdmin(RolesStage(t, fk, actor, user, b, f).tables, u) <==> IsUserAdmin(t, u)
  {
    if !ReplacesRoles(b) {
      StageKeepsStatus(t, fk, user, b, f, u);
    } else if Assigned(t, fk, user, b.roleIds.value).Some? {
      AssignedKeepsStatus(t, fk, user, b.roleIds.value, u);
      StageKeepsStatus(Assigned(t, fk, user, b.roleIds.value).value, fk, user, b, f, u);
    }
  }

  /** Updating a user makes no other user an administrator and unmakes none. */
  lemma OthersKeepStatus(t: Tables, fk: bool, actor: int, user: int, b: UserUpdate, f: Faults, u: int)
    requires Valid(t) && u != user
    ensures IsUserAdmin(UserUpdated(t, fk, actor, user, b, f).tables, u) <==> IsUserAdmin(t, u)
  {
    var t1 := if b.disabled.Some? then DisabledSet(t, user, b.disabled.value) else t;
    assert t1.links == t.links && t1.roles == t.roles;
    RolesStageKeepsStatus(t1, fk, actor, user, b, f, u);
  }

  // ---------------------------------------------------------------- requests and runs

  datatype Request =
    | Update(user: int, body: UserUpdate)
    | Remove(user: int)
    | Create(username: string, roleIds: seq<int>, permissions: seq<Permission>)
    | Sync(systemUser: string)
    | NewRole(name: string, description: string, rolePermissions: seq<Permission>)
    | ChangeRole(role: int, newName: string, newDescription: string, newPermissions: seq<Permission>)
    | RemoveRole(oldRole: int)

  function GivenRoles(t: Tables, fk: bool, user: int, ids: seq<int>, refused: bool): (r: Tables)
    ensures Valid(t) ==> Valid(r) && r.users == t.users
  {
    if ids == [] || refused then t
    else match Assigned(t, fk, user, ids) case None => t case Some(t') => t'
  }

  function GivenPermissions(
    t: Tables, fk: bool, user: int, username: string, perms: seq<Permission>, refused: bool): (r: Tables)
    requires Valid(t)
    ensures Valid(r) && r.users == t.users
  {
    if perms == [] || refused then t
    else match PersonalRoleUpserted(t, fk, user, username, perms) case None => t case Some(t') => t'
  }

  /** Creating a user ignores a failure to give it roles or permissions. */
  function Created(t: Tables, fk: bool, username: string, ids: seq<int>, perms: seq<Permission>, f: Faults): (r: Tables)
    requires Valid(t)
    ensures Valid(r)
  {
    match if username == "" then None else UserCreated(t, username, Local)
    case None => t
    case Some(t') =>
      GivenPermissions(GivenRoles(t', fk, t.nextUser, ids, f.assign), fk, t.nextUser, username, perms, f.upsert)
  }

  function Apply(t: Tables, fk: bool, actor: int, request: Request, f: Faults): (r: Tables)
    requires Valid(t)
    ensures Valid(r)
  {
    match request
    case Update(user, body) => UserUpdated(t, fk, actor, user, body, f).tables
    case Remove(user) => UserRemoved(t, fk, actor, user, f).tables
    case Create(username, ids, perms) => Created(t, fk, username, ids, perms, f)
    case Sync(username) => (match UserCreated(t, username, Pam) case None => t case Some(t') => t')
    case NewRole(name, description, perms) =>
      (match if name == "" then None else RoleCreated(t, name, description, perms) case None => t case Some(t') => t')
    case ChangeRole(role, name, description, perms) =>
      (match RoleUpdated(t, role, name, description, perms) case Rejected(_) => t case Changed(t') => t')
    case RemoveRole(role) => (match RoleRemoved(t, fk, role) case Rejected(_) => t case Changed(t') => t')
  }

  lemma GivenRolesKeep(t: Tables, fk: bool, user: int, ids: seq<int>, refused: bool, u: int)
    requires u != user
    ensures var t' := GivenRoles(t, fk, user, ids, refused); SystemKept(t, t') && HoldingsKept(t, t', u)
  {
    if Assigned(t, fk, user, ids).Some? {
      AssignedKeeps(t, fk, user, ids, u);
    }
  }

  lemma GivenPermissionsKeep(
    t: Tables, fk: bool, user: int, username: string, perms: seq<Permission>, refused: bool, u: int)
    requires Valid(t)
    ensures var t' := GivenPermissions(t, fk, user, username, perms, refused);
      SystemKept(t, t') && HoldingsKept(t, t', u)
  {
    if PersonalRoleUpserted(t, fk, user, username, perms).Some? {
      UpsertedKeeps(t, fk, user, username, perms, u);
    }
  }

  lemma CreatedKeeps(t: Tables, fk: bool, username: string, ids: seq<int>, perms: seq<Permission>, f: Faults, u: int)
    requires Valid(t) && u in t.users
    ensures var t' := Created(t, fk, username, ids, perms, f);
      SystemKept(t, t') && HoldingsKept(t, t', u) && u in t'.users
  {
    var made := UserCreated(t, username, Local);
    if made.Some? {
      var t1 := made.value;
      var t2 := GivenRoles(t1, fk, t.nextUser, ids, f.assign);
      var t3 := GivenPermissions(t2, fk, t.nextUser, username, perms, f.upsert);
      GivenRolesKeep(t1, fk, t.nextUser, ids, f.assign, u);
      SystemKeptTransitive(t, t1, t2);
      HoldingsKeptTransitive(t, t1, t2, u);
      GivenPermissionsKeep(t2, fk, t.nextUser, username, perms, f.upsert, u);
      SystemKeptTransitive(t, t2, t3);
      HoldingsKeptTransitive(t, t2, t3, u);
    }
  }

  lemma DisabledKeeps(t: Tables, user: int, disabled: bool, u: int)
    requires u in t.users
    ensures var t' := DisabledSet(t, user, disabled); SystemKept(t, t') && HoldingsKept(t, t', u) && u in t'.users
  {
  }

  lemma UserDeletedKeeps(t: Tables, fk: bool, user: int, u: int)
    requires u in t.users && u != user
    ensures var t' := UserDeleted(t, fk, user); SystemKept(t, t') && HoldingsKept(t, t', u) && u in t'.users
  {
    forall r | (u, r) in t.links
      ensures (u, r) in UserDeleted(t, fk, user).links
    {
      assert (u, r).0 == u;
    }
  }

  lemma UserRemovedKeeps(t: Tables, fk: bool, actor: int, user: int, f: Faults, u: int)
    requires Valid(t) && u in t.users && (u == user ==> actor == user)
    ensures var t' := UserRemoved(t, fk, actor, user, f).tables;
      SystemKept(t, t') && HoldingsKept(t, t', u) && u in t'.users
  {
    DisabledKeeps(t, user, true, u);
    if u != user {
      UserDeletedKeeps(t, fk, user, u);
    }
  }

  lemma UserCreatedKeeps(t: Tables, username: string, authType: AuthType, u: int)
    requires u in t.users && UserCreated(t, username, authType).Some?
    ensures var t' := UserCreated(t, username, authType).value;
      SystemKept(t, t') && HoldingsKept(t, t', u) && u in t'.users
  {
  }

  lemma SameKeeps(t: Tables, u: int)
    ensures SystemKept(t, t) && HoldingsKept(t, t, u)
  {
  }

  lemma NewRoleKeeps(
    t: Tables, fk: bool, actor: int, name: string, description: string, perms: seq<Permission>, f: Faults, u: int)
    requires Valid(t) && u in t.users
    ensures var t' := Apply(t, fk, actor, NewRole(name, description, perms), f);
      SystemKept(t, t') && HoldingsKept(t, t', u) && u in t'.users
  {
    SameKeeps(t, u);
    if RoleCreated(t, name, description, perms).Some? {
      RoleCreatedKeeps(t, name, description, perms, u);
    }
  }

  lemma ChangeRoleKeeps(t: Tables, fk: bool, actor: int, role: int, name: string, description: string,
                        perms: seq<Permission>, f: Faults, u: int)
    requires Valid(t) && u in t.users
    ensures var t' := Apply(t, fk, actor, ChangeRole(role, name, description, perms), f);
      SystemKept(t, t') && HoldingsKept(t, t', u) && u in t'.users
  {
    SameKeeps(t, u);
    if RoleUpdated(t, role, name, description, perms).Changed? {
      RoleUpdatedKeeps(t, role, name, description, perms, u);
    }
  }

  lemma RemoveRoleKeeps(t: Tables, fk: bool, actor: int, role: int, f: Faults, u: int)
    requires Valid(t) && u in t.users
    ensures var t' := Apply(t, fk, actor, RemoveRole(role), f);
      SystemKept(t, t') && HoldingsKept(t, t', u) && u in t'.users
  {
    SameKeeps(t, u);
    if RoleRemoved(t, fk, role).Changed? {
      RoleDeletedKeeps(t, fk, role, u);
    }
  }

  lemma OtherRequestsKeep(t: Tables, fk: bool, actor: int, request: Request, f: Faults, u: int)
    requires Valid(t) && u in t.users && !request.Update?
    requires request.Remove? && request.user == u ==> actor == u
    ensures var t' := Apply(t, fk, actor, request, f);
      SystemKept(t, t') && HoldingsKept(t, t', u) && u in t'.users
  {
    match request
    case Remove(user) => UserRemovedKeeps(t, fk, actor, user, f, u);
    case Create(username, ids, perms) => CreatedKeeps(t, fk, username, ids, perms, f, u);
    case Sync(username) =>
      if UserCreated(t, username, Pam).Some? {
        UserCreatedKeeps(t, username, Pam, u);
      }
    case NewRole(name, description, perms) => NewRoleKeeps(t, fk, actor, name, description, perms, f, u);
    case ChangeRole(role, name, description, perms) =>
      ChangeRoleKeeps(t, fk, actor, role, name, description, perms, f, u);
    case RemoveRole(role) => RemoveRoleKeeps(t, fk, actor, role, f, u);
  }

  /** The actor drops his own admin role. */
  predicate DropsOwnAdmin(t: Tables, fk: bool, actor: int, request: Request, f: Faults) {
    request.Update? && request.user == actor && DropsAdmin(t, fk, actor, actor, request.body, f)
  }

  /** A request keeps the system roles as they are. Its actor stays an administrator
      exactly when he does not drop his own admin role. */
  lemma RequestKeepsActor(t: Tables, fk: bool, actor: int, request: Request, f: Faults)
    requires Valid(t) && actor in t.users && IsUserAdmin(t, actor)
    ensures var t' := Apply(t, fk, actor, request, f);
      && actor in t'.users && SystemKept(t, t')
      && (IsUserAdmin(t', actor) <==> !DropsOwnAdmin(t, fk, actor, request, f))
  {
    if request.Update? {
      UserUpdatedKeeps(t, fk, actor, request.user, request.body, f, actor);
      if request.user == actor {
        UpdateDropsAdmin(t, fk, actor, actor, request.body, f);
      } else {
        OthersKeepStatus(t, fk, actor, request.user, request.body, f, actor);
      }
    } else {
      OtherRequestsKeep(t, fk, actor, request, f, actor);
      AdminKept(t, Apply(t, fk, actor, request, f), actor);
    }
  }

  datatype Call = Call(actor: int, request: Request, faults: Faults)

  /** Only existing administrators get past the middleware; it does not ask whether
      they are disabled. */
  predicate Admitted(t: Tables, actor: int) {
    actor in t.users && IsUserAdmin(t, actor)
  }

  function Step(t: Tables, fk: bool, call: Call): (r: Tables)
    requires Valid(t)
    ensures Valid(r)
  {
    if Admitted(t, call.actor) then Apply(t, fk, call.actor, call.request, call.faults) else t
  }

  function After(t: Tables, fk: bool, run: seq<Call>): (r: Tables)
    requires Valid(t)
    ensures Valid(r)
  {
    if run == [] then t else Step(After(t, fk, run[..|run| - 1]), fk, run[|run| - 1])
  }

  ghost predicate HasAdmin(t: Tables) {
    exists u :: Admitted(t, u)
  }

  /** The only administrator drops his own admin role. */
  ghost predicate DropsLastAdmin(t: Tables, fk: bool, call: Call) {
    && Admitted(t, call.actor) && (forall u :: Admitted(t, u) ==> u == call.actor)
    && DropsOwnAdmin(t, fk, call.actor, call.request, call.faults)
  }

  /** One call leaves an administrator exactly when there is one and he is not the
      last to drop the role. */
  lemma StepKeepsAnAdmin(t: Tables, fk: bool, call: Call)
    requires Valid(t)
    ensures SystemKept(t, Step(t, fk, call))
    ensures HasAdmin(Step(t, fk, call)) <==> HasAdmin(t) && !DropsLastAdmin(t, fk, call)
  {
    var (actor, request, t') := (call.actor, call.request, Step(t, fk, call));
    if Admitted(t, actor) {
      RequestKeepsActor(t, fk, actor, request, call.faults);
      if DropsOwnAdmin(t, fk, actor, request, call.faults) {
        forall u | u != actor
          ensures Admitted(t', u) <==> Admitted(t, u)
        {
          OthersKeepStatus(t, fk, actor, actor, request.body, call.faults, u);
        }
        assert !Admitted(t', actor);
        if u :| Admitted(t, u) && u != actor {
          assert Admitted(t', u);
        }
      } else {
        assert Admitted(t', actor);
      }
    }
  }

  /** No call of the run is, where it is made, the last administrator dropping the role. */
  ghost predicate NeverDropsLast(t: Tables, fk: bool, run: seq<Call>)
    requires Valid(t)
  {
    run == []
    || (NeverDropsLast(t, fk, run[..|run| - 1])
        && !DropsLastAdmin(After(t, fk, run[..|run| - 1]), fk, run[|run| - 1]))
  }

  /** A run from a state with an administrator ends in one exactly when none of its
      calls is the last administrator dropping the role. It always keeps the system
      roles. */
  lemma {:induction false} AlwaysAnAdmin(t: Tables, fk: bool, run: seq<Call>)
    requires Valid(t) && HasAdmin(t)
    ensures SystemKept(t, After(t, fk, run))
    ensures HasAdmin(After(t, fk, run)) <==> NeverDropsLast(t, fk, run)
  {
    if run != [] {
      var front, last := run[..|run| - 1], run[|run| - 1];
      AlwaysAnAdmin(t, fk, front);
      StepKeepsAnAdmin(After(t, fk, front), fk, last);
      SystemKeptTransitive(t, After(t, fk, front), After(t, fk, run));
    }
  }

  // ---------------------------------------------------------------- a failing run

  const NO_FAULTS := Faults(false, false, {}, false, false, false, false)

  /** One administrator, and the admin role he holds. */
  const ONE_ADMIN := Tables(
    map[1 := User("a", Local, false)], map[1 := Role("admin", "", true)], {(1, 1)}, [], 2, 2)

  /** He takes all roles from himself while the admin query fails. */
  const DROPS_ALL :=
    Call(1, Update(1, UserUpdate(None, Some([]), None, true)), NO_FAULTS.(adminQuery := true))

  lemma OneAdminValid(t: Tables)
    requires t == ONE_ADMIN
    ensures Valid(t) && forall u :: Admitted(t, u) <==> u == 1
  {
    assert (1, 1) in t.links && IsAdminRole(t, 1);
  }

  /** After one such call nobody is an administrator. */
  lemma LastAdminLost(t: Tables, fk: bool)
    requires t == ONE_ADMIN
    ensures Valid(t) && HasAdmin(t) && DropsLastAdmin(t, fk, DROPS_ALL) && !HasAdmin(Step(t, fk, DROPS_ALL))
  {
    OneAdminValid(t);
    assert 1 in t.users && Admitted(t, 1);
    StepKeepsAnAdmin(t, fk, DROPS_ALL);
  }
}
