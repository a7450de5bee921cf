/** The services and the middleware as they run: tables and cache are one object's field, changed step by step. */
module RbacService {
  import opened Wrappers
  import opened Strings
  import opened Redis
  import opened Authscope
  import opened Rbac

  datatype RoleError = RoleNotFound | SystemRole | Denied | InvalidPermission | DuplicateGrant

  lemma KeysOfMore(perms: map<Id, Permission>, ps: seq<Id>, p: Id)
    requires p in perms
    ensures var key := PermissionKey(perms[p].resource, perms[p].action);
            KeysOf(perms, set q | q in ps + [p])
            == KeysOf(perms, set q | q in ps) + if key == "" then {} else {key}
  {
    assert (set q | q in ps + [p]) == (set q | q in ps) + {p};
  }

  lemma OneMoreKey(keys: seq<string>, key: string)
    ensures (set k | k in keys + [key]) == (set k | k in keys) + {key}
  {
  }

  /** The keys of a list of permissions, in its order and as often as they occur, without the empty ones. */
  function KeyList(perms: map<Id, Permission>, ps: seq<Id>): seq<string>
    requires forall k :: 0 <= k < |ps| ==> ps[k] in perms
  {
    if ps == [] then []
    else
      var last := perms[ps[|ps| - 1]];
      var key := PermissionKey(last.resource, last.action);
      KeyList(perms, ps[..|ps| - 1]) + if key == "" then [] else [key]
  }

  /** The middleware's keys are the ones the model speaks of. */
  lemma {:induction false} KeyListIsKeys(perms: map<Id, Permission>, ps: seq<Id>)
    requires forall k :: 0 <= k < |ps| ==> ps[k] in perms
    ensures (set k | k in KeyList(perms, ps)) == KeysOf(perms, set p | p in ps)
  {
    if ps != [] {
      var n := |ps| - 1;
      assert ps == ps[..n] + [ps[n]];
      KeyListIsKeys(perms, ps[..n]);
      KeysOfMore(perms, ps[..n], ps[n]);
      OneMoreKey(KeyList(perms, ps[..n]), PermissionKey(perms[ps[n]].resource, perms[ps[n]].action));
    }
  }

  /** The pages of a scan hold every live key. */
  ghost predicate Covered(s: System, pages: seq<set<Id>>) {
    forall u :: Get(s.cache, s.now, u).Some? ==> exists k :: 0 <= k < |pages| && u in pages[k]
  }

  /** The same but for cache keys that have expired, which nothing reads. */
  ghost predicate Alike(s: System, n: System) {
    s.now == n.now && s.tables == n.tables && forall u :: Get(s.cache, s.now, u) == Get(n.cache, n.now, u)
  }

  lemma AlikeIsCoherent(s: System, n: System)
    requires Alike(s, n) && Coherent(n)
    ensures Coherent(s)
  {
    forall u ensures CachedRight(s, u) { assert CachedRight(n, u); }
  }

  class Services {
    var state: System
    const ttl: int

    constructor (now: int, tables: Tables, ttl: int)
      ensures state == At(Init(now, tables), ttl) && this.ttl == ttl && Coherent(state)
    {
      this.state, this.ttl := System(now, tables, map[]), ttl;
    }

    method PermissionKeysFromPermissions(permissions: seq<Id>) returns (keys: seq<string>)
      requires forall k :: 0 <= k < |permissions| ==> permissions[k] in state.tables.perms
      ensures (set k | k in keys) == KeysOf(state.tables.perms, set p | p in permissions)
      ensures keys == KeyList(state.tables.perms, permissions)
    {
      keys := [];
      for n := 0 to |permissions|
        invariant keys == KeyList(state.tables.perms, permissions[..n])
      {
        assert permissions[..n + 1][..n] == permissions[..n];
        var key := KeyOfPermission(state.tables, permissions[n]);
        if key != "" {
          keys := keys + [key];
        }
      }
      assert permissions[..|permissions|] == permissions;
      KeyListIsKeys(state.tables.perms, permissions);
    }

    /** The decision of MiddlewareDecidesFromTables, reached with one cache read and at most one write. */
    method PermissionMiddleware(claimedRole: string, claimedUser: string, resource: string, action: string)
      returns (o: Outcome)
      requires Coherent(state)
      modifies this`state
      ensures (state, o) == Middleware(old(state), ttl, claimedRole, claimedUser, resource, action)
      ensures Coherent(state) && state.tables == old(state).tables
    {
      StepKeepsCoherent(state, ttl, Ask(claimedRole, claimedUser, resource, action));
      var role := Trim(claimedRole);
      if role == "" { return Forbidden; }
      if role == SUPERADMIN { return Allowed; }
      var user := Trim(claimedUser);
      if user == "" { return Unauthorized; }
      var keys := Get(state.cache, state.now, user);
      if keys.None? {
        keys := UserKeys(state.tables, user);
        if keys.None? { return Forbidden; }
        state := state.(cache := Put(state.cache, state.now, user, keys.value, ttl));
      }
      var scope := NewScope(user, role, keys.value);
      if !Has(scope, Trim(resource), Trim(action)) { return Forbidden; }
      return Allowed;
    }

    /**
     The scan that empties the cache. The pages are what SCAN hands out until its cursor is zero;
     together they hold every live key that was there all along, and perhaps expired ones.
     */
    method DeleteAllUserPermissionKeys(pages: seq<set<Id>>)
      requires Covered(state, pages)
      modifies this`state
      ensures Alike(state, old(state).(cache := map[]))
    {
      for n := 0 to |pages|
        invariant state == old(state).(cache := state.cache)
        invariant forall u :: u in state.cache ==> u in old(state).cache && state.cache[u] == old(state).cache[u]
        invariant forall u, k :: u in state.cache && 0 <= k < n ==> u !in pages[k]
      {
        state := state.(cache := state.cache - pages[n]);
      }
      assert forall u :: Get(state.cache, state.now, u).Some? ==> Get(old(state).cache, old(state).now, u).Some?;
    }

    /**
     The repository's transaction: the role's old rows go, then one row is inserted per id; a
     repeated id undoes it all.
     */
    method ReplaceGrants(role: Id, ids: seq<Id>) returns (ok: bool)
      modifies this`state
      ensures ok <==> NoDuplicates(ids)
      ensures state == if !ok then old(state)
                       else old(state).(tables := old(state).tables.(
                              grants := Replaced(old(state).tables.grants, role, ids)))
    {
      var kept := set g | g in state.tables.grants && g.0 != role;
      var grants := kept;
      for n := 0 to |ids|
        invariant NoDuplicates(ids[..n]) && grants == kept + set p | p in ids[..n] :: (role, p)
      {
        if (role, ids[n]) in grants {
          assert ids[n] in ids[..n];
          var k :| 0 <= k < n && ids[..n][k] == ids[n];
          assert ids[k] == ids[n];
          return false;
        }
        assert forall k :: 0 <= k < n ==> ids[..n][k] != ids[n];
        assert ids[..n + 1] == ids[..n] + [ids[n]];
        grants := grants + {(role, ids[n])};
      }
      assert ids[..|ids|] == ids;
      state := state.(tables := state.tables.(grants := grants));
      return true;
    }

    method AssignPermissions(caller: Scope, role: Id, ids: seq<Id>, pages: seq<set<Id>>)
      returns (error: Option<RoleError>)
      requires Coherent(state) && Covered(state, pages)
      modifies this`state
      ensures error.None? <==> MayAssign(old(state).tables, caller, role, ids)
      ensures Alike(state, Rbac.Next(old(state), ttl, Assign(caller, role, ids))) && Coherent(state)
    {
      StepKeepsCoherent(state, ttl, Assign(caller, role, ids));
      error := CheckAssignment(caller, role, ids);
      if error.Some? { return; }
      var stored := ReplaceGrants(role, ids);
      if !stored { return Some(DuplicateGrant); }
      ghost var changed := Rbac.Next(old(state), ttl, Assign(caller, role, ids));
      DeleteAllUserPermissionKeys(pages);
      AlikeIsCoherent(state, changed);
    }

    /** The checks before it: all but the uniqueness the table itself insists on. */
    method CheckAssignment(caller: Scope, role: Id, ids: seq<Id>) returns (error: Option<RoleError>)
      ensures NoDuplicates(ids) ==> (error.None? <==> MayAssign(state.tables, caller, role, ids))
      ensures MayAssign(state.tables, caller, role, ids) ==> error.None?
    {
      var t := state.tables;
      if role !in t.roles || t.roles[role].deleted { return Some(RoleNotFound); }
      if t.roles[role].isSystem {
        if !MayDo(t, caller, "roles", "manage_system") { return Some(Denied); }
        if t.roles[role].name == SUPERADMIN && caller.role != SUPERADMIN { return Some(Denied); }
      }
      for n := 0 to |ids|
        invariant forall k :: 0 <= k < n ==> LivePermission(t, ids[k])
      {
        if !LivePermission(t, ids[n]) { return Some(InvalidPermission); }
      }
      return None;
    }

    /** `GetByName`: the live role of that name. */
    method FindRoleIDByName(name: string) returns (role: Option<Id>)
      ensures role.Some? ==> RoleNamed(state.tables, name, role.value)
      ensures role.None? ==> forall r :: !RoleNamed(state.tables, name, r)
    {
      if r :| r in state.tables.roles && RoleNamed(state.tables, name, r) { return Some(r); }
      return None;
    }

    /**
     A role change to the role found under the name clears the one user's entry, and leaves every
     other entry as right as it was; without a right to it or a role of that name nothing changes.
     */
    method ChangeUserRole(caller: Scope, user: Id, newRole: string) returns (roleId: Option<Id>)
      requires Coherent(state)
      modifies this`state
      ensures roleId.Some? ==> MayChangeRole(old(state).tables, caller, user, newRole, roleId.value)
      ensures roleId.Some? ==> state == Rbac.Next(old(state), ttl, ChangeRole(caller, user, newRole, roleId.value))
      ensures roleId.None? ==> state == old(state) && forall r :: !MayChangeRole(state.tables, caller, user, newRole, r)
      ensures Coherent(state)
    {
      roleId := CheckRoleChange(caller, user, newRole);
      if roleId.None? { return None; }
      ghost var changed := Rbac.Next(state, ttl, ChangeRole(caller, user, newRole, roleId.value));
      StepKeepsCoherent(state, ttl, ChangeRole(caller, user, newRole, roleId.value));
      var data := state.tables.users[user];
      data := data.(role := NormalizeKey(newRole));
      data := data.(roleId := roleId);
      state := state.(tables := state.tables.(users := state.tables.users[user := data]));
      state := state.(cache := ForgetUser(state.cache, user));
      assert state == changed;
    }

    /** The checks before it, in their order. */
    method CheckRoleChange(caller: Scope, user: Id, newRole: string) returns (roleId: Option<Id>)
      ensures roleId.Some? ==> MayChangeRole(state.tables, caller, user, newRole, roleId.value)
      ensures roleId.None? ==> forall r :: !MayChangeRole(state.tables, caller, user, newRole, r)
    {
      var t := state.tables;
      if user !in t.users || t.users[user].deleted { return None; }
      if t.users[user].role == SUPERADMIN && caller.role != SUPERADMIN { return None; }
      if Trim(newRole) == "" { return None; }
      var name := NormalizeKey(newRole);
      if !MayDo(t, caller, "users", "assign_role") { return None; }
      if name == SUPERADMIN && caller.role != SUPERADMIN { return None; }
      roleId := FindRoleIDByName(name);
    }

    method UpdatePermission(p: Id, resource: string, action: string, pages: seq<set<Id>>) returns (ok: bool)
      requires Coherent(state) && Covered(state, pages)
      modifies this`state
      ensures ok <==> LivePermission(old(state).tables, p)
      ensures Alike(state, Rbac.Next(old(state), ttl, Op.UpdatePermission(p, resource, action))) && Coherent(state)
    {
      StepKeepsCoherent(state, ttl, Op.UpdatePermission(p, resource, action));
      if !LivePermission(state.tables, p) { return false; }
      var permission := state.tables.perms[p];
      if resource != "" { permission := permission.(resource := resource); }
      if action != "" { permission := permission.(action := action); }
      state := state.(tables := state.tables.(perms := state.tables.perms[p := permission]));
      ghost var changed := Rbac.Next(old(state), ttl, Op.UpdatePermission(p, resource, action));
      DeleteAllUserPermissionKeys(pages);
      AlikeIsCoherent(state, changed);
      return true;
    }
  }
}
