/**
 Role-based permissions with a cache of each user's permission keys: the tables, the service
 operations that change them and invalidate the cache, and the permission middleware that reads it.
 Each service operation is one step. The order of permission lists, which decides nothing, is dropped.
 */
module Rbac {
  import opened Wrappers
  import opened Strings
  import opened Redis
  import opened Authscope

  type Id = string

  datatype User = User(role: string, roleId: Option<Id>, deleted: bool)
  datatype Role = Role(name: string, isSystem: bool, deleted: bool)
  datatype Permission = Permission(resource: string, action: string, deleted: bool)

  datatype Tables = Tables(
    users: map<Id, User>, roles: map<Id, Role>, perms: map<Id, Permission>, grants: set<(Id, Id)>)

  datatype System = System(now: int, tables: Tables, cache: Keyspace<Id, set<string>>)

  // ---------- Reading permissions ----------

  predicate LivePermission(t: Tables, p: Id) { p in t.perms && !t.perms[p].deleted }

  function Granted(perms: map<Id, Permission>, grants: set<(Id, Id)>, role: string, roleId: Option<Id>): set<Id> {
    if role == SUPERADMIN then set p | p in perms && !perms[p].deleted
    else if roleId.None? || roleId.value == "" then {}
    else set p | p in perms && !perms[p].deleted && (roleId.value, p) in grants
  }

  /** `GetUserPermissions`. It reads the raw user row, soft-deleted or not, and never looks at the role's row. */
  function UserPermissions(t: Tables, user: Id): Option<set<Id>> {
    if user !in t.users then None
    else Some(Granted(t.perms, t.grants, t.users[user].role, t.users[user].roleId))
  }

  function KeyOfPermission(t: Tables, p: Id): string
    requires p in t.perms
  {
    PermissionKey(t.perms[p].resource, t.perms[p].action)
  }

  /** `permissionKeysFromPermissions` */
  function KeysOf(perms: map<Id, Permission>, ps: set<Id>): set<string> {
    set p | p in ps && p in perms && PermissionKey(perms[p].resource, perms[p].action) != "" ::
      PermissionKey(perms[p].resource, perms[p].action)
  }

  /** The simple form the cache speeds up. */
  function UserKeys(t: Tables, user: Id): Option<set<string>> {
    var ps := UserPermissions(t, user);
    if ps.None? then None else Some(KeysOf(t.perms, ps.value))
  }

  // ---------- The permission middleware ----------

  datatype Outcome = Allowed | Forbidden | Unauthorized

  function Judge(role: string, user: Id, keys: set<string>, resource: string, action: string): Outcome {
    if Has(NewScope(user, role, keys), Trim(resource), Trim(action)) then Allowed else Forbidden
  }

  function Middleware(
    s: System, ttl: int, claimedRole: string, claimedUser: string, resource: string, action: string): (System, Outcome)
  {
    var role, user := Trim(claimedRole), Trim(claimedUser);
    if role == "" then (s, Forbidden)
    else if role == SUPERADMIN then (s, Allowed)
    else if user == "" then (s, Unauthorized)
    else
      var cached := Get(s.cache, s.now, user);
      if cached.Some? then (s, Judge(role, user, cached.value, resource, action))
      else
        var keys := UserKeys(s.tables, user);
        if keys.None? then (s, Forbidden)
        else (s.(cache := Put(s.cache, s.now, user, keys.value, ttl)), Judge(role, user, keys.value, resource, action))
  }

  // ---------- Mutations ----------

  /** `HasPermission`: the caller's scope, or the tables when the scope carries no permissions. */
  predicate MayDo(t: Tables, caller: Scope, resource: string, action: string) {
    Has(caller, resource, action)
    || (caller.permissions == {} && Trim(caller.userId) != "" && UserPermissions(t, caller.userId).Some?
        && PermissionKey(resource, action) != ""
        && exists p :: p in UserPermissions(t, caller.userId).value && p in t.perms
                    && KeyOfPermission(t, p) == PermissionKey(resource, action))
  }

  predicate NoDuplicates(ids: seq<Id>) { forall j, k :: 0 <= j < k < |ids| ==> ids[j] != ids[k] }

  predicate MayAssign(t: Tables, caller: Scope, role: Id, ids: seq<Id>) {
    && role in t.roles && !t.roles[role].deleted
    && (t.roles[role].isSystem ==>
          MayDo(t, caller, "roles", "manage_system")
          && (t.roles[role].name == SUPERADMIN ==> caller.role == SUPERADMIN))
    && (forall k :: 0 <= k < |ids| ==> LivePermission(t, ids[k]))
    && NoDuplicates(ids)   // role and permission together are unique
  }

  function Replaced(grants: set<(Id, Id)>, role: Id, ids: seq<Id>): set<(Id, Id)> {
    (set g | g in grants && g.0 != role) + set p | p in ids :: (role, p)
  }

  predicate RoleNamed(t: Tables, name: string, role: Id) {
    role in t.roles && !t.roles[role].deleted && t.roles[role].name == name
  }

  predicate MayChangeRole(t: Tables, caller: Scope, user: Id, newRole: string, roleId: Id) {
    && user in t.users && !t.users[user].deleted
    && (t.users[user].role == SUPERADMIN ==> caller.role == SUPERADMIN)
    && Trim(newRole) != ""
    && MayDo(t, caller, "users", "assign_role")
    && (NormalizeKey(newRole) == SUPERADMIN ==> caller.role == SUPERADMIN)
    && RoleNamed(t, NormalizeKey(newRole), roleId)
  }

  predicate MayCreateUser(t: Tables, caller: Scope, user: Id, newRole: string, roleId: Id) {
    && user !in t.users
    && (NormalizeKey(newRole) == "viewer" || MayDo(t, caller, "users", "assign_role"))
    && (NormalizeKey(newRole) == SUPERADMIN ==> caller.role == SUPERADMIN)
    && RoleNamed(t, NormalizeKey(newRole), roleId)
  }

  datatype Op =
    | Ask(role: string, user: string, resource: string, action: string)
    | Assign(caller: Scope, role: Id, ids: seq<Id>)
    | DeleteRole(role: Id)
    | CreateRole(role: Id, name: string)
    | CreatePermission(p: Id, resource: string, action: string)
    | UpdatePermission(p: Id, newResource: string, newAction: string)
    | DeletePermission(p: Id)
    | Register(user: Id, found: Option<Id>)   // found: the role the name "member" leads to
    | AdminCreate(caller: Scope, user: Id, newRole: string, roleId: Id)
    | ChangeRole(caller: Scope, user: Id, newRole: string, roleId: Id)
    | DeleteUser(user: Id)
    | Tick(seconds: nat)

  function ForgetUser(cache: Keyspace<Id, set<string>>, user: Id): Keyspace<Id, set<string>> {
    if Trim(user) == "" then cache else Del(cache, Trim(user))
  }

  function Next(s: System, ttl: int, op: Op): System {
    var t := s.tables;
    match op
    case Ask(role, user, resource, action) => Middleware(s, ttl, role, user, resource, action).0
    case Assign(caller, role, ids) =>
      if MayAssign(t, caller, role, ids) then System(s.now, t.(grants := Replaced(t.grants, role, ids)), map[]) else s
    case DeleteRole(role) =>
      if role in t.roles && !t.roles[role].deleted && !t.roles[role].isSystem
      then System(s.now, t.(roles := t.roles[role := t.roles[role].(deleted := true)]), map[]) else s
    case CreateRole(role, name) =>
      if role in t.roles || exists r :: r in t.roles && t.roles[r].name == name then s
      else s.(tables := t.(roles := t.roles[role := Role(name, false, false)]))
    case CreatePermission(p, resource, action) =>
      if p in t.perms then s
      else System(s.now, t.(perms := t.perms[p := Permission(resource, action, false)]), map[])
    case UpdatePermission(p, resource, action) =>
      if !LivePermission(t, p) then s
      else System(s.now, t.(perms := t.perms[p := Patched(t.perms[p], resource, action)]), map[])
    case DeletePermission(p) =>
      System(s.now, if p in t.perms then t.(perms := t.perms[p := t.perms[p].(deleted := true)]) else t, map[])
    case Register(user, found) =>
      if user in t.users then s else s.(tables := t.(users := t.users[user := User("member", found, false)]))
    case AdminCreate(caller, user, newRole, roleId) =>
      if !MayCreateUser(t, caller, user, newRole, roleId) then s
      else s.(tables := t.(users := t.users[user := User(NormalizeKey(newRole), Some(roleId), false)]))
    case ChangeRole(caller, user, newRole, roleId) =>
      if !MayChangeRole(t, caller, user, newRole, roleId) then s
      else System(s.now,
                  t.(users := t.users[user := t.users[user].(role := NormalizeKey(newRole), roleId := Some(roleId))]),
                  ForgetUser(s.cache, user))
    case DeleteUser(user) =>
      System(s.now,
             if user in t.users then t.(users := t.users[user := t.users[user].(deleted := true)]) else t,
             ForgetUser(s.cache, user))
    case Tick(seconds) => s.(now := s.now + seconds)
  }

  function Patched(p: Permission, resource: string, action: string): Permission {
    p.(resource := if resource != "" then resource else p.resource, action := if action != "" then action else p.action)
  }

  // ---------- The cache agrees with the tables ----------

  /** What is cached for a user, under a trimmed id, is what the tables would give now. */
  predicate CachedRight(s: System, user: Id) {
    Get(s.cache, s.now, user).Some? ==>
      Trim(user) == user && user != "" && UserKeys(s.tables, user) == Get(s.cache, s.now, user)
  }

  ghost predicate Coherent(s: System) { forall user :: CachedRight(s, user) }

  lemma StepKeepsRight(s: System, ttl: int, op: Op, user: Id)
    requires CachedRight(s, user)
    ensures CachedRight(Next(s, ttl, op), user)
  {
    if op.Ask? {
      TrimIsTrimmed(op.user);
      TrimKeepsTrimmed(Trim(op.user));
    }
  }

  lemma StepKeepsCoherent(s: System, ttl: int, op: Op)
    requires Coherent(s)
    ensures Coherent(Next(s, ttl, op))
  {
    forall user ensures CachedRight(Next(s, ttl, op), user) {
      assert CachedRight(s, user);
      StepKeepsRight(s, ttl, op, user);
    }
  }

  datatype Run = Init(now: int, tables: Tables) | Then(before: Run, op: Op)

  function At(run: Run, ttl: int): System {
    match run
    case Init(now, tables) => System(now, tables, map[])
    case Then(before, op) => Next(At(before, ttl), ttl, op)
  }

  lemma {:induction false} EveryStateCoherent(run: Run, ttl: int)
    ensures Coherent(At(run, ttl))
  {
    if run.Then? {
      EveryStateCoherent(run.before, ttl);
      StepKeepsCoherent(At(run.before, ttl), ttl, run.op);
    }
  }

  // ---------- What the middleware decides ----------

  /** Each of the user's permissions that has a key can be read back from it. */
  predicate PlainFor(t: Tables, user: Id) {
    UserPermissions(t, user).Some? ==>
      forall p :: p in UserPermissions(t, user).value && KeyOfPermission(t, p) != "" ==> Plain(t.perms[p].resource)
  }

  /** The user holds a permission whose key is the wanted one. */
  ghost predicate Holds(t: Tables, user: Id, resource: string, action: string) {
    && UserPermissions(t, user).Some? && PermissionKey(resource, action) != ""
    && exists p :: p in UserPermissions(t, user).value && KeyOfPermission(t, p) == PermissionKey(resource, action)
  }

  lemma KeyReadBack(t: Tables, user: Id, p: Id)
    requires PlainFor(t, user) && UserPermissions(t, user).Some? && p in UserPermissions(t, user).value
    requires KeyOfPermission(t, p) != ""
    ensures NormalizePermissionKey(KeyOfPermission(t, p)) == KeyOfPermission(t, p)
  {
    KeySurvivesIffPlain(t.perms[p].resource, t.perms[p].action);
  }

  lemma PlainKeysReadBack(keys: set<string>, wanted: string)
    requires forall k :: k in keys ==> k != "" && NormalizePermissionKey(k) == k
    ensures wanted in ReadKeys(keys) <==> wanted in keys
  {
    if wanted in keys { assert NormalizePermissionKey(wanted) == wanted; }
  }

  lemma ReadKeysAreHeld(t: Tables, user: Id, resource: string, action: string)
    requires PlainFor(t, user) && UserKeys(t, user).Some?
    ensures PermissionKey(resource, action) in ReadKeys(UserKeys(t, user).value) <==> Holds(t, user, resource, action)
  {
    var keys, wanted := UserKeys(t, user).value, PermissionKey(resource, action);
    forall k | k in keys ensures k != "" && NormalizePermissionKey(k) == k {
      var p :| p in UserPermissions(t, user).value && p in t.perms && KeyOfPermission(t, p) == k;
      KeyReadBack(t, user, p);
    }
    PlainKeysReadBack(keys, wanted);
  }

  /** A key that is not read back as itself is not read at all: the holder is refused what it stands for. */
  lemma UnplainIsRefused(t: Tables, user: Id, p: Id)
    requires UserPermissions(t, user).Some? && p in UserPermissions(t, user).value
    requires KeyOfPermission(t, p) != "" && !Plain(t.perms[p].resource)
    ensures Holds(t, user, t.perms[p].resource, t.perms[p].action)
    ensures KeyOfPermission(t, p) !in ReadKeys(UserKeys(t, user).value)
  {
    var key := KeyOfPermission(t, p);
    KeySurvivesIffPlain(t.perms[p].resource, t.perms[p].action);
    if k :| k in UserKeys(t, user).value && NormalizePermissionKey(k) == key { ReadTwice(k); }
  }

  /** The key test agrees with the permissions held, on every request, exactly when all of those are plain. */
  lemma KeyTestIsRightIff(t: Tables, user: Id)
    requires UserKeys(t, user).Some?
    ensures (forall resource, action ::
               PermissionKey(resource, action) in ReadKeys(UserKeys(t, user).value)
               <==> Holds(t, user, resource, action))
            <==> PlainFor(t, user)
  {
    if PlainFor(t, user) {
      forall resource, action
        ensures PermissionKey(resource, action) in ReadKeys(UserKeys(t, user).value)
                <==> Holds(t, user, resource, action)
      {
        ReadKeysAreHeld(t, user, resource, action);
      }
    } else {
      var p :| p in UserPermissions(t, user).value && KeyOfPermission(t, p) != "" && !Plain(t.perms[p].resource);
      UnplainIsRefused(t, user, p);
    }
  }

  /**
   In every reachable state the middleware decides as it would without the cache: it lets
   through the superadmin claim and, with readable resources, exactly the users that hold a
   matching permission in the tables at that moment.
   */
  lemma MiddlewareDecidesFromTables(run: Run, ttl: int, role: string, user: string, resource: string, action: string)
    ensures var s := At(run, ttl);
            && Middleware(s, ttl, role, user, resource, action).1
               == Middleware(s.(cache := map[]), ttl, role, user, resource, action).1
            && (PlainFor(s.tables, Trim(user)) ==>
                  (Middleware(s, ttl, role, user, resource, action).1 == Allowed <==>
                     Trim(role) == SUPERADMIN
                     || (Trim(role) != "" && Trim(user) != ""
                         && Holds(s.tables, Trim(user), Trim(resource), Trim(action)))))
  {
    var s := At(run, ttl);
    EveryStateCoherent(run, ttl);
    assert CachedRight(s, Trim(user));
    TrimIsTrimmed(role);
    TrimKeepsTrimmed(Trim(role));
    if PlainFor(s.tables, Trim(user)) && UserKeys(s.tables, Trim(user)).Some? {
      ReadKeysAreHeld(s.tables, Trim(user), Trim(resource), Trim(action));
    }
  }

  lemma TrimmedRequest(resource: string, action: string)
    ensures PermissionKey(Trim(resource), Trim(action)) == PermissionKey(resource, action)
  {
    TrimIsTrimmed(resource);
    TrimKeepsTrimmed(Trim(resource));
    TrimIsTrimmed(action);
    TrimKeepsTrimmed(Trim(action));
  }

  /** A claim of no superadmin for a known user. */
  predicate Ordinary(t: Tables, role: string, user: string) {
    Trim(role) != "" && Trim(role) != SUPERADMIN && Trim(user) != "" && UserKeys(t, Trim(user)).Some?
  }

  /** The middleware answers such a claim as the key test does. */
  lemma DecisionIsKeyTest(run: Run, ttl: int, role: string, user: string, resource: string, action: string)
    requires Ordinary(At(run, ttl).tables, role, user)
    ensures var s := At(run, ttl);
            Middleware(s, ttl, role, user, resource, action).1 == Allowed
            <==> PermissionKey(resource, action) in ReadKeys(UserKeys(s.tables, Trim(user)).value)
  {
    var s := At(run, ttl);
    EveryStateCoherent(run, ttl);
    assert CachedRight(s, Trim(user));
    TrimIsTrimmed(role);
    TrimKeepsTrimmed(Trim(role));
    TrimmedRequest(resource, action);
  }

  /**
   In every reachable state and for every such claim: each request is answered by the permissions
   the user holds at that moment exactly when all of those that have a key are plain.
   */
  lemma DecisionsAreRightIff(run: Run, ttl: int, role: string, user: string)
    requires Ordinary(At(run, ttl).tables, role, user)
    ensures var s := At(run, ttl);
            (forall resource, action ::
               Middleware(s, ttl, role, user, resource, action).1 == Allowed
               <==> Holds(s.tables, Trim(user), resource, action))
            <==> PlainFor(s.tables, Trim(user))
  {
    var s := At(run, ttl);
    var keys := UserKeys(s.tables, Trim(user)).value;
    forall resource, action
      ensures Middleware(s, ttl, role, user, resource, action).1 == Allowed
              <==> PermissionKey(resource, action) in ReadKeys(keys)
    {
      DecisionIsKeyTest(run, ttl, role, user, resource, action);
    }
    KeyTestIsRightIff(s.tables, Trim(user));
  }

  /** With a right cache only the tables' answer for the claimed user counts. */
  lemma SameKeysSameDecision(
    s: System, n: System, ttl: int, role: string, user: string, resource: string, action: string)
    requires CachedRight(s, Trim(user)) && CachedRight(n, Trim(user))
    requires UserKeys(s.tables, Trim(user)) == UserKeys(n.tables, Trim(user))
    ensures Middleware(s, ttl, role, user, resource, action).1 == Middleware(n, ttl, role, user, resource, action).1
  {
  }

  lemma DeletionKeepsKeys(s: System, ttl: int, op: Op, user: Id)
    requires op.DeleteRole? || op.DeleteUser?
    ensures UserKeys(Next(s, ttl, op).tables, user) == UserKeys(s.tables, user)
  {
  }

  /**
   Deleting a role, or a user, takes nothing away: after it the middleware answers every claim and
   every request as it did before. The user's row still names the role and its grants stay.
   */
  lemma DeletedRoleStillGrants(
    run: Run, ttl: int, op: Op, role: string, user: string, resource: string, action: string)
    requires op.DeleteRole? || op.DeleteUser?
    ensures UserKeys(At(Then(run, op), ttl).tables, Trim(user)) == UserKeys(At(run, ttl).tables, Trim(user))
    ensures Middleware(At(Then(run, op), ttl), ttl, role, user, resource, action).1
         == Middleware(At(run, ttl), ttl, role, user, resource, action).1
  {
    var s, n := At(run, ttl), At(Then(run, op), ttl);
    EveryStateCoherent(run, ttl);
    EveryStateCoherent(Then(run, op), ttl);
    assert CachedRight(s, Trim(user)) && CachedRight(n, Trim(user));
    DeletionKeepsKeys(s, ttl, op, Trim(user));
    SameKeysSameDecision(s, n, ttl, role, user, resource, action);
  }

  /** One user of one role with one grant: the smallest tables in which anybody is let through. */
  datatype Names = Names(user: Id, role: string, resource: string, action: string)

  predicate Usual(w: Names) {
    && Trimmed(w.user) && w.user != "" && Trimmed(w.role) && w.role != "" && w.role != SUPERADMIN
    && Normal(w.resource) && w.resource != "" && ':' !in w.resource && Normal(w.action) && w.action != ""
  }

  function OneGrant(w: Names): Tables {
    Tables(map[w.user := User(w.role, Some("r"), false)], map["r" := Role(w.role, false, false)],
           map["p" := Permission(w.resource, w.action, false)], {("r", "p")})
  }

  lemma OneGrantIsHeld(w: Names)
    requires Usual(w)
    ensures UserPermissions(OneGrant(w), w.user) == Some({"p"})
    ensures UserKeys(OneGrant(w), w.user) == Some({w.resource + ":" + w.action})
  {
    var t := OneGrant(w);
    assert Granted(t.perms, t.grants, w.role, Some("r")) == {"p"};
    PlainKey(w.resource, w.action);
    KeyOfOne(t.perms, "p");
  }

  lemma KeyOfOne(perms: map<Id, Permission>, p: Id)
    requires p in perms && PermissionKey(perms[p].resource, perms[p].action) != ""
    ensures KeysOf(perms, {p}) == {PermissionKey(perms[p].resource, perms[p].action)}
  {
  }

  /** Who has the key cached, or is given it by the tables, is let through. */
  lemma KeyIsAllowed(s: System, ttl: int, w: Names)
    requires Usual(w)
    requires var keys := Some({w.resource + ":" + w.action});
             || Get(s.cache, s.now, w.user) == keys
             || (Get(s.cache, s.now, w.user).None? && UserKeys(s.tables, w.user) == keys)
    ensures Middleware(s, ttl, w.role, w.user, w.resource, w.action).1 == Allowed
  {
    PlainKey(w.resource, w.action);
    TrimKeepsTrimmed(w.role);
    TrimKeepsTrimmed(w.user);
    TrimKeepsTrimmed(w.resource);
    TrimKeepsTrimmed(w.action);
    var key := w.resource + ":" + w.action;
    assert key in ReadKeys({key});
  }

  /** The user's row is deleted, and so is the row of the role it names. */
  predicate BothDeleted(t: Tables, user: Id) {
    && user in t.users && t.users[user].deleted && t.users[user].roleId.Some?
    && t.users[user].roleId.value in t.roles && t.roles[t.users[user].roleId.value].deleted
  }

  predicate DeletedButAllowed(run: Run, ttl: int, w: Names) {
    BothDeleted(At(run, ttl).tables, w.user)
    && Middleware(At(run, ttl), ttl, w.role, w.user, w.resource, w.action).1 == Allowed
  }

  /** A run after which a deleted user of a deleted role is let through. */
  lemma DeletedRoleIsAllowed(ttl: int)
    ensures exists run, w :: DeletedButAllowed(run, ttl, w)
  {
    var w := SomeNames();
    DeletedThenAllowed(ttl, w);
  }

  lemma SomeNames() returns (w: Names)
    ensures Usual(w)
  {
    w := Names("u", "member", "gifts", "read");
  }

  lemma DeletedThenAllowed(ttl: int, w: Names)
    requires Usual(w)
    ensures DeletedButAllowed(Then(Then(Init(0, OneGrant(w)), DeleteRole("r")), DeleteUser(w.user)), ttl, w)
  {
    var start := Init(0, OneGrant(w));
    var one := Then(start, DeleteRole("r"));
    OneGrantIsHeld(w);
    KeyIsAllowed(At(start, ttl), ttl, w);
    DeletedRoleStillGrants(start, ttl, DeleteRole("r"), w.role, w.user, w.resource, w.action);
    DeletedRoleStillGrants(one, ttl, DeleteUser(w.user), w.role, w.user, w.resource, w.action);
    BothAreDeleted(At(start, ttl), ttl, w);
  }

  lemma BothAreDeleted(s: System, ttl: int, w: Names)
    requires s.tables == OneGrant(w)
    ensures BothDeleted(Next(Next(s, ttl, DeleteRole("r")), ttl, DeleteUser(w.user)).tables, w.user)
  {
    assert Next(s, ttl, DeleteRole("r")).tables.roles["r"].deleted;
  }

  /** An assignment in force: exactly the given permissions, for every user of the role. */
  lemma AssignedIsHeld(s: System, ttl: int, caller: Scope, role: Id, ids: seq<Id>, user: Id)
    requires MayAssign(s.tables, caller, role, ids) && role != ""
    requires user in s.tables.users
    requires s.tables.users[user].roleId == Some(role) && s.tables.users[user].role != SUPERADMIN
    ensures UserPermissions(Next(s, ttl, Assign(caller, role, ids)).tables, user) == Some(set p | p in ids)
  {
    var n := Next(s, ttl, Assign(caller, role, ids)).tables;
    assert forall p :: (role, p) in n.grants <==> p in ids;
    forall p | p in ids ensures LivePermission(n, p) {
      var k :| 0 <= k < |ids| && ids[k] == p;
      assert LivePermission(s.tables, ids[k]);
    }
    var row := n.users[user];
    assert Granted(n.perms, n.grants, row.role, row.roleId) == set p | p in ids;
  }
}
