/** The role operations as the program runs them against its database: a
    transaction works on a copy of the tables that commit installs. */
module RoleDatabase {
  import opened Text
  import opened RoleStore

  /** Assigning one more role succeeds unless the row exists or refers to nothing;
      a refusal refuses the whole list. */
  lemma AssignOneMore(t: Tables, fk: bool, user: int, ids: seq<int>, i: nat)
    requires i < |ids| && Assigned(t, fk, user, ids[..i]).Some?
    ensures var done := LinksWithout(t.links, user) + LinksFor(user, ids[..i]);
      if (user, ids[i]) in done || (fk && (user !in t.users || ids[i] !in t.roles)) then
        Assigned(t, fk, user, ids) == None
      else
        && Assigned(t, fk, user, ids[..i + 1]).Some?
        && LinksFor(user, ids[..i + 1]) == LinksFor(user, ids[..i]) + {(user, ids[i])}
  {
    assert ids[..i + 1] == ids[..i] + [ids[i]];
    assert ids[i] in ids;
    if ids[i] in ids[..i] {
      var j :| 0 <= j < i && ids[..i][j] == ids[i];
      assert ids[j] == ids[i];
    }
  }

  class Database {
    const fk: bool      // foreign keys are enforced
    var tables: Tables

    constructor (fk: bool, tables: Tables)
      ensures this.fk == fk && this.tables == tables
    {
      this.fk, this.tables := fk, tables;
    }

    /** Inserts one assignment; refused when it exists or refers to nothing. */
    method InsertLink(tx: Tables, user: int, role: int) returns (r: Option<Tables>)
      ensures r == if (user, role) in tx.links || (fk && (user !in tx.users || role !in tx.roles)) then None
                   else Some(tx.(links := tx.links + {(user, role)}))
    {
      if (user, role) in tx.links || (fk && (user !in tx.users || role !in tx.roles)) {
        return None;
      }
      return Some(tx.(links := tx.links + {(user, role)}));
    }

    method AssignRolesToUser(user: int, ids: seq<int>) returns (ok: bool)
      modifies this
      ensures var r := Assigned(old(tables), fk, user, ids);
        ok == r.Some? && tables == if r.Some? then r.value else old(tables)
    {
      var tx := tables.(links := LinksWithout(tables.links, user));
      for i := 0 to |ids|
        invariant tables == old(tables)
        invariant tx == tables.(links := LinksWithout(tables.links, user) + LinksFor(user, ids[..i]))
        invariant Assigned(tables, fk, user, ids[..i]).Some?
      {
        AssignOneMore(tables, fk, user, ids, i);
        var next := InsertLink(tx, user, ids[i]);
        if next == None {
          return false;
        }
        tx := next.value;
      }
      assert ids == ids[..|ids|];
      tables := tx;
      return true;
    }

    method InsertPermissions(tx: Tables, role: int, perms: seq<Permission>) returns (r: Tables)
      ensures r == tx.(grants := tx.grants + GrantsFor(role, perms))
    {
      r := tx;
      for i := 0 to |perms|
        invariant r == tx.(grants := tx.grants + GrantsFor(role, perms[..i]))
      {
        assert GrantsFor(role, perms[..i + 1]) == GrantsFor(role, perms[..i]) + [Grant(role, perms[i])];
        r := r.(grants := r.grants + [Grant(role, perms[i])]);
      }
      assert perms[..|perms|] == perms;
    }

    method UpsertPersonalRole(user: int, username: string, perms: seq<Permission>) returns (ok: bool)
      requires Valid(tables)
      modifies this
      ensures var r := PersonalRoleUpserted(old(tables), fk, user, username, perms);
        ok == r.Some? && tables == if r.Some? then r.value else old(tables)
    {
      var found := FindRole(tables, PersonalRoleName(username));
      if |perms| == 0 {
        if found.Some? && !tables.roles[found.value].isSystem {
          tables := RoleDeleted(tables, fk, found.value);
        }
        return true;
      }
      var tx, role := tables, tables.nextRole;
      if found == None {
        tx := tx.(roles := tx.roles[role := Role(PersonalRoleName(username), "", false)], nextRole := role + 1);
        var linked := InsertLink(tx, user, role);
        if linked == None {
          return false;
        }
        tx := linked.value;
      } else {
        role := found.value;
        if (user, role) !in tx.links {
          var linked := InsertLink(tx, user, role);
          if linked == None {
            return false;
          }
          tx := linked.value;
        }
      }
      tx := tx.(grants := Without(tx.grants, role));
      tx := InsertPermissions(tx, role, perms);
      assert tx.links == tables.links + {(user, role)};
      tables := tx;
      return true;
    }

    method CreateRole(name: string, description: string, perms: seq<Permission>) returns (ok: bool)
      modifies this
      ensures var r := RoleCreated(old(tables), name, description, perms);
        ok == r.Some? && tables == if r.Some? then r.value else old(tables)
    {
      if NameTaken(tables, name) {
        return false;
      }
      var role := tables.nextRole;
      var tx := tables.(roles := tables.roles[role := Role(name, description, false)], nextRole := role + 1);
      tx := InsertPermissions(tx, role, perms);
      tables := tx;
      return true;
    }

    method UpdateRole(role: int, name: string, description: string, perms: seq<Permission>)
      returns (error: Option<RoleError>)
      modifies this
      ensures match RoleUpdated(old(tables), role, name, description, perms)
              case Changed(t) => error == None && tables == t
              case Rejected(e) => error == Some(e) && tables == old(tables)
    {
      if role !in tables.roles {
        return Some(RoleNotFound);
      }
      if tables.roles[role].isSystem {
        return Some(SystemRole);
      }
      if exists r :: r in tables.roles && r != role && tables.roles[r].name == name {
        return Some(Refused);
      }
      var tx := tables.(roles := tables.roles[role := Role(name, description, false)]);
      tx := tx.(grants := Without(tx.grants, role));
      tx := InsertPermissions(tx, role, perms);
      tables := tx;
      return None;
    }

    method DeleteRole(role: int) returns (error: Option<RoleError>)
      modifies this
      ensures match RoleRemoved(old(tables), fk, role)
              case Changed(t) => error == None && tables == t
              case Rejected(e) => error == Some(e) && tables == old(tables)
    {
      if role !in tables.roles {
        return Some(RoleNotFound);
      }
      if tables.roles[role].isSystem {
        return Some(SystemRole);
      }
      tables := RoleDeleted(tables, fk, role);
      return None;
    }

    method SetUserDisabled(user: int, disabled: bool)
      modifies this
      ensures tables == DisabledSet(old(tables), user, disabled)
    {
      tables := DisabledSet(tables, user, disabled);
    }

    method DeleteUser(user: int)
      modifies this
      ensures tables == UserDeleted(old(tables), fk, user)
    {
      tables := UserDeleted(tables, fk, user);
    }
  }
}
