/**
 What the service operations on users, roles and permissions bring about, told by the rows before
 and after, and what no run of them can do without a superadmin.
 */
module RbacEffects {
  import opened Wrappers
  import opened Strings
  import opened Redis
  import opened Authscope
  import opened Rbac

  /** The role under which an operation is called, where the operation looks at it. */
  function CallerRole(op: Op): Option<string> {
    match op
    case Assign(caller, _, _) => Some(caller.role)
    case ChangeRole(caller, _, _, _) => Some(caller.role)
    case AdminCreate(caller, _, _, _) => Some(caller.role)
    case _ => None
  }

  // ---------- Superadmins ----------

  function Superadmins(t: Tables): set<Id> { set u | u in t.users && t.users[u].role == SUPERADMIN }

  /** Whoever is no superadmin makes nobody one and takes it from nobody. */
  lemma StepKeepsSuperadmins(s: System, ttl: int, op: Op)
    requires CallerRole(op) != Some(SUPERADMIN)
    ensures Superadmins(Next(s, ttl, op).tables) == Superadmins(s.tables)
  {
  }

  predicate NoSuperadminCalls(run: Run) {
    run.Then? ==> NoSuperadminCalls(run.before) && CallerRole(run.op) != Some(SUPERADMIN)
  }

  function TablesAtFirst(run: Run): Tables {
    match run case Init(_, tables) => tables case Then(before, _) => TablesAtFirst(before)
  }

  /** Over every run without a superadmin's call the superadmins are those there were. */
  lemma {:induction false} SuperadminsStay(run: Run, ttl: int)
    requires NoSuperadminCalls(run)
    ensures Superadmins(At(run, ttl).tables) == Superadmins(TablesAtFirst(run))
  {
    if run.Then? {
      SuperadminsStay(run.before, ttl);
      StepKeepsSuperadmins(At(run.before, ttl), ttl, run.op);
    }
  }

  // ---------- System roles ----------

  predicate IsSystem(t: Tables, role: Id, name: string) {
    role in t.roles && t.roles[role].isSystem && t.roles[role].name == name && !t.roles[role].deleted
  }

  /** A role's own rows in the grant table. */
  function GrantsOf(t: Tables, role: Id): set<Id> { set g | g in t.grants && g.0 == role :: g.1 }

  /** A system role is never deleted or renamed by anybody. */
  lemma StepKeepsSystemRoles(s: System, ttl: int, op: Op, role: Id, name: string)
    requires IsSystem(s.tables, role, name)
    ensures IsSystem(Next(s, ttl, op).tables, role, name)
  {
  }

  /** What the system role called superadmin grants is changed by superadmins alone. */
  lemma StepKeepsSuperGrants(s: System, ttl: int, op: Op, role: Id)
    requires IsSystem(s.tables, role, SUPERADMIN) && CallerRole(op) != Some(SUPERADMIN)
    ensures GrantsOf(Next(s, ttl, op).tables, role) == GrantsOf(s.tables, role)
  {
    if op.Assign? && op.role != role { OtherGrantsStay(s.tables.grants, op.role, op.ids, role); }
  }

  lemma OtherGrantsStay(grants: set<(Id, Id)>, role: Id, ids: seq<Id>, other: Id)
    requires other != role
    ensures (set g | g in Replaced(grants, role, ids) && g.0 == other :: g.1)
         == set g | g in grants && g.0 == other :: g.1
  {
    var before := set g | g in grants && g.0 == other :: g.1;
    var after := set g | g in Replaced(grants, role, ids) && g.0 == other :: g.1;
    forall p ensures p in after <==> p in before {
      if p in after { assert (other, p) in Replaced(grants, role, ids); }
      if p in before { assert (other, p) in grants; assert (other, p) in Replaced(grants, role, ids); }
    }
  }

  lemma {:induction false} SuperGrantsStay(run: Run, ttl: int, role: Id)
    requires NoSuperadminCalls(run) && IsSystem(TablesAtFirst(run), role, SUPERADMIN)
    ensures IsSystem(At(run, ttl).tables, role, SUPERADMIN)
    ensures GrantsOf(At(run, ttl).tables, role) == GrantsOf(TablesAtFirst(run), role)
  {
    if run.Then? {
      SuperGrantsStay(run.before, ttl, role);
      StepKeepsSystemRoles(At(run.before, ttl), ttl, run.op, role, SUPERADMIN);
      StepKeepsSuperGrants(At(run.before, ttl), ttl, run.op, role);
    }
  }

  /**
   It is the system mark that guards it, not the name: a role called superadmin is reassigned by
   somebody else exactly when it lacks the mark.
   */
  lemma NameAloneIsNoGuard(s: System, ttl: int, caller: Scope, role: Id, ids: seq<Id>)
    requires role in s.tables.roles && !s.tables.roles[role].deleted && s.tables.roles[role].name == SUPERADMIN
    requires caller.role != SUPERADMIN && NoDuplicates(ids)
    requires forall k :: 0 <= k < |ids| ==> ids[k] in s.tables.perms && !s.tables.perms[ids[k]].deleted
    requires GrantsOf(s.tables, role) != set p | p in ids
    ensures GrantsOf(Next(s, ttl, Assign(caller, role, ids)).tables, role) == (set p | p in ids)
            <==> !s.tables.roles[role].isSystem
  {
    if !s.tables.roles[role].isSystem { OwnGrantsReplaced(s.tables, role, ids); }
  }

  lemma OwnGrantsReplaced(t: Tables, role: Id, ids: seq<Id>)
    ensures (set g | g in Replaced(t.grants, role, ids) && g.0 == role :: g.1) == set p | p in ids
  {
    forall p | p in ids ensures (role, p) in Replaced(t.grants, role, ids) { }
  }

  // ---------- Whose calls take effect ----------

  /** A superadmin, a scope with the permission's key, or a bare scope whose user holds the permission. */
  ghost predicate Entitled(t: Tables, caller: Scope, resource: string, action: string) {
    || Trim(caller.role) == SUPERADMIN
    || PermissionKey(resource, action) in caller.permissions
    || (caller.permissions == {} && Trim(caller.userId) != "" && Holds(t, caller.userId, resource, action))
  }

  lemma EntitledMayDo(t: Tables, caller: Scope, resource: string, action: string)
    ensures MayDo(t, caller, resource, action) <==> Entitled(t, caller, resource, action)
  {
  }

  /** Nobody's role is changed, and none but viewers are created, by callers not entitled to assign roles. */
  lemma RolesNeedEntitlement(s: System, ttl: int, op: Op)
    requires op.ChangeRole? || (op.AdminCreate? && NormalizeKey(op.newRole) != "viewer")
    requires !Entitled(s.tables, op.caller, "users", "assign_role")
    ensures Next(s, ttl, op) == s
  {
    EntitledMayDo(s.tables, op.caller, "users", "assign_role");
    ChangesMay(s, ttl, op);
  }

  lemma ChangesMay(s: System, ttl: int, op: Op)
    ensures op.ChangeRole? ==>
              Next(s, ttl, op) == s || MayChangeRole(s.tables, op.caller, op.user, op.newRole, op.roleId)
    ensures op.AdminCreate? ==>
              Next(s, ttl, op) == s || MayCreateUser(s.tables, op.caller, op.user, op.newRole, op.roleId)
  {
  }

  /** An entitled call with a live role's name changes that one user's role, where no superadmin is touched. */
  lemma RoleChangeTakesEffect(s: System, ttl: int, caller: Scope, user: Id, newRole: string, roleId: Id)
    requires user in s.tables.users && !s.tables.users[user].deleted && Trim(newRole) != ""
    requires Entitled(s.tables, caller, "users", "assign_role")
    requires roleId in s.tables.roles && !s.tables.roles[roleId].deleted
    requires s.tables.roles[roleId].name == NormalizeKey(newRole)
    ensures var t, u := s.tables, Next(s, ttl, ChangeRole(caller, user, newRole, roleId)).tables;
            if caller.role != SUPERADMIN && (t.users[user].role == SUPERADMIN || NormalizeKey(newRole) == SUPERADMIN)
            then u == t
            else
              && u == t.(users := u.users) && u.users.Keys == t.users.Keys
              && (forall other :: other in t.users && other != user ==> u.users[other] == t.users[other])
              && u.users[user] == User(NormalizeKey(newRole), Some(roleId), false)
  {
    EntitledMayDo(s.tables, caller, "users", "assign_role");
  }

  /** A system role is reassigned by callers entitled to manage system roles alone, any other by anybody. */
  lemma AssignTakesEffect(s: System, ttl: int, caller: Scope, role: Id, ids: seq<Id>)
    requires role in s.tables.roles && !s.tables.roles[role].deleted && NoDuplicates(ids)
    requires forall k :: 0 <= k < |ids| ==> ids[k] in s.tables.perms && !s.tables.perms[ids[k]].deleted
    ensures var r, n := s.tables.roles[role], Next(s, ttl, Assign(caller, role, ids));
            if r.isSystem && (!Entitled(s.tables, caller, "roles", "manage_system")
                              || (r.name == SUPERADMIN && caller.role != SUPERADMIN))
            then n == s
            else GrantsOf(n.tables, role) == (set p | p in ids) && n.cache == map[]
  {
    EntitledMayDo(s.tables, caller, "roles", "manage_system");
    OwnGrantsReplaced(s.tables, role, ids);
  }

  // ---------- Who holds what ----------

  /** A superadmin holds every live permission, a user without a role none, and any other those granted to the role. */
  lemma WhoHoldsWhat(t: Tables, user: Id, p: Id)
    requires user in t.users
    ensures var row := t.users[user];
            p in UserPermissions(t, user).value <==>
              p in t.perms && !t.perms[p].deleted
              && (row.role == SUPERADMIN
                  || (row.roleId.Some? && row.roleId.value != "" && p in GrantsOf(t, row.roleId.value)))
  {
    if t.users[user].roleId.Some? && p in GrantsOf(t, t.users[user].roleId.value) {
      assert (t.users[user].roleId.value, p) in t.grants;
    }
  }

  /** An update of a permission writes the parts it names and keeps the others; a blank one names nothing. */
  lemma PermissionUpdateWrites(s: System, ttl: int, p: Id, resource: string, action: string)
    requires p in s.tables.perms && !s.tables.perms[p].deleted
    ensures var t, u := s.tables, Next(s, ttl, UpdatePermission(p, resource, action)).tables;
            && u == t.(perms := u.perms) && u.perms.Keys == t.perms.Keys
            && (forall q :: q in t.perms && q != p ==> u.perms[q] == t.perms[q])
            && (if resource == "" then u.perms[p].resource == t.perms[p].resource else u.perms[p].resource == resource)
            && (if action == "" then u.perms[p].action == t.perms[p].action else u.perms[p].action == action)
            && !u.perms[p].deleted
  {
  }

  /** A permission deleted is held by nobody; one created is held by superadmins at once. */
  lemma PermissionComesAndGoes(s: System, ttl: int, p: Id, resource: string, action: string, user: Id)
    requires user in s.tables.users
    ensures p !in UserPermissions(Next(s, ttl, DeletePermission(p)).tables, user).value
    ensures p !in s.tables.perms && s.tables.users[user].role == SUPERADMIN ==>
              p in UserPermissions(Next(s, ttl, CreatePermission(p, resource, action)).tables, user).value
  {
  }

  /** Nobody registers as anything but a member, without a say in it. */
  lemma RegisteredAreMembers(s: System, ttl: int, user: Id, found: Option<Id>)
    requires user !in s.tables.users
    ensures var u := Next(s, ttl, Register(user, found)).tables.users;
            user in u && u[user].role == "member" && u[user].roleId == found && !u[user].deleted
  {
  }

  // ---------- What the middleware says no to ----------

  /** Every claim and request: which answer, when it is not let through. */
  lemma MiddlewareRefuses(s: System, ttl: int, role: string, user: string, resource: string, action: string)
    ensures var answer := Middleware(s, ttl, role, user, resource, action).1;
            && (Trim(role) == "" ==> answer == Forbidden)
            && (Trim(role) == SUPERADMIN ==> answer == Allowed)
            && (answer == Unauthorized <==> Trim(role) != "" && Trim(role) != SUPERADMIN && Trim(user) == "")
            && (Trim(role) != SUPERADMIN && Get(s.cache, s.now, Trim(user)).None? && Trim(user) !in s.tables.users ==>
                  answer != Allowed)
  {
  }

  /** It writes the cache on a miss of a known user's alone, and never the tables. */
  lemma MiddlewareWrites(s: System, ttl: int, role: string, user: string, resource: string, action: string)
    ensures var n := Middleware(s, ttl, role, user, resource, action).0;
            && n.tables == s.tables && n.now == s.now
            && (forall other :: other != Trim(user) ==>
                  (other in n.cache <==> other in s.cache) && (other in s.cache ==> n.cache[other] == s.cache[other]))
            && (n != s ==> Get(s.cache, s.now, Trim(user)).None? && UserKeys(s.tables, Trim(user)).Some?)
  {
  }
}
